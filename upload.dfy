/**
 * The upload handler (app/api/upload/route.ts): the ordered early returns that decide
 * 401, 400 or 503, and the generated file name with the place the file is stored under.
 * The clock reading, the random text and the environment are parameters; the storage
 * write itself is not modelled, only which write is requested.
 */
module Upload {
  import opened Wrappers
  import opened JsText

  /** What `formData.get("file")` returns: nothing, a plain text field or a file. */
  datatype FormEntry = NoEntry | TextEntry(text: string) | FileEntry(name: string, mimeType: string, size: nat)

  /** The environment variables the handler reads; `None` is an unset variable. */
  datatype Env = Env(nodeEnv: Option<string>, vercel: Option<string>, blobToken: Option<string>)

  /** An error response, or the storage write the handler goes on to perform. */
  datatype Response =
    | Failure(status: nat, error: string)
    | PutBlob(key: string)
    | WriteLocal(fileName: string, imageUrl: string)

  const AllowedTypes: seq<string> := ["image/jpeg", "image/jpg", "image/png", "image/webp"]

  /** 5 MiB. */
  const MaxSize: nat := 5 * 1024 * 1024

  /** A JavaScript value that is present and not the empty string. */
  predicate Truthy(v: Option<string>)
  {
    v.Some? && v.value != ""
  }

  /** `!file`: no entry, or a text field holding the empty string. */
  predicate IsMissing(entry: FormEntry)
  {
    entry.NoEntry? || entry == TextEntry("")
  }

  /** `allowedTypes.includes(file.type)`; a text field has no `type`. */
  predicate HasAllowedType(entry: FormEntry)
  {
    entry.FileEntry? && entry.mimeType in AllowedTypes
  }

  predicate IsProduction(env: Env)
  {
    env.nodeEnv == Some("production") && env.vercel == Some("1")
  }

  /** `name.split('.').pop()`: the text after the last '.', or the whole name without one. */
  function Extension(name: string): (ext: string)
    ensures '.' !in ext
    ensures '.' !in name ==> ext == name
    ensures '.' in name ==> |ext| < |name| && name == name[..|name| - |ext| - 1] + "." + ext
  {
    SplitLast(name, '.');
    Last(Split(name, '.'))
  }

  /** `${timestamp}-${randomString}.${fileExtension}`. */
  function FileName(timestamp: nat, random: string, original: string): (fileName: string)
    ensures var ext := Extension(original);
      |fileName| > |ext| && fileName[|fileName| - |ext| - 1..] == "." + ext
    ensures |fileName| > |NatToDecimal(timestamp)| &&
      fileName[..|NatToDecimal(timestamp)| + 1] == NatToDecimal(timestamp) + "-"
    ensures |fileName| == |NatToDecimal(timestamp)| + |random| + |Extension(original)| + 2
    ensures fileName[|NatToDecimal(timestamp)| + 1..|NatToDecimal(timestamp)| + 1 + |random|] == random
  {
    var stamp := NatToDecimal(timestamp);
    var ext := Extension(original);
    var fileName := stamp + "-" + random + "." + ext;
    assert fileName == (stamp + "-") + random + ("." + ext);
    fileName
  }

  /** The three 400 answers carry different messages. */
  lemma BadRequestsDiffer()
    ensures "No file provided" != "Invalid file type. Only JPEG, PNG, and WebP images are allowed."
    ensures "No file provided" != "File too large. Maximum size is 5MB."
    ensures "Invalid file type. Only JPEG, PNG, and WebP images are allowed." != "File too large. Maximum size is 5MB."
  {
    assert |"No file provided"| == 16;
    assert |"File too large. Maximum size is 5MB."| == 36;
    assert |"Invalid file type. Only JPEG, PNG, and WebP images are allowed."| == 63;
  }

  /** `POST /api/upload`. The checks run in this order: session, file present, type, size,
      and in production the storage token; only then is the write requested. */
  function HandlePost(sessionEmail: Option<string>, entry: FormEntry, env: Env, timestamp: nat, random: string): (r: Response)
    ensures !Truthy(sessionEmail) <==> r == Failure(401, "Unauthorized")
    ensures Truthy(sessionEmail) && IsMissing(entry) <==> r == Failure(400, "No file provided")
    ensures Truthy(sessionEmail) && !IsMissing(entry) && !HasAllowedType(entry) <==>
      r == Failure(400, "Invalid file type. Only JPEG, PNG, and WebP images are allowed.")
    ensures Truthy(sessionEmail) && HasAllowedType(entry) && entry.size > MaxSize <==>
      r == Failure(400, "File too large. Maximum size is 5MB.")
    ensures r.Failure? && r.status == 503 <==>
      Truthy(sessionEmail) && HasAllowedType(entry) && entry.size <= MaxSize &&
      IsProduction(env) && !Truthy(env.blobToken)
    ensures (Truthy(sessionEmail) && HasAllowedType(entry) && entry.size <= MaxSize &&
             !(IsProduction(env) && !Truthy(env.blobToken))) ==>
            (r.PutBlob? <==> IsProduction(env)) && (r.WriteLocal? <==> !IsProduction(env))
    ensures r.PutBlob? ==>
      (IsProduction(env) && entry.FileEntry? && r.key == "unpacked/" + FileName(timestamp, random, entry.name))
    ensures r.WriteLocal? ==>
      (!IsProduction(env) && entry.FileEntry? && r.fileName == FileName(timestamp, random, entry.name) &&
       r.imageUrl == "/uploads/" + r.fileName)
  {
    BadRequestsDiffer();
    if !Truthy(sessionEmail) then Failure(401, "Unauthorized")
    else if IsMissing(entry) then Failure(400, "No file provided")
    else if !HasAllowedType(entry) then Failure(400, "Invalid file type. Only JPEG, PNG, and WebP images are allowed.")
    else if entry.size > MaxSize then Failure(400, "File too large. Maximum size is 5MB.")
    else
      var fileName := FileName(timestamp, random, entry.name);
      if IsProduction(env) then
        if !Truthy(env.blobToken) then Failure(503, "Upload service not configured")
        else PutBlob("unpacked/" + fileName)
      else WriteLocal(fileName, "/uploads/" + fileName)
  }

  /** Without a session the answer does not depend on the request at all, so it is settled
      before the form is read. */
  lemma UnauthorizedIgnoresRequest(entry1: FormEntry, entry2: FormEntry, env1: Env, env2: Env,
                                   t1: nat, t2: nat, random1: string, random2: string)
    ensures HandlePost(None, entry1, env1, t1, random1) == HandlePost(None, entry2, env2, t2, random2)
    ensures HandlePost(Some(""), entry1, env1, t1, random1) == Failure(401, "Unauthorized")
  {
  }

  /** The size cap is inclusive: a file of exactly 5 MiB with an allowed type passes every
      check, and one byte more is rejected. */
  lemma SizeCapInclusive(email: string, name: string, mimeType: string, env: Env, t: nat, random: string)
    requires email != "" && mimeType in AllowedTypes
    ensures !HandlePost(Some(email), FileEntry(name, mimeType, 5242880), env, t, random).Failure? ||
            HandlePost(Some(email), FileEntry(name, mimeType, 5242880), env, t, random).status == 503
    ensures HandlePost(Some(email), FileEntry(name, mimeType, 5242881), env, t, random) ==
            Failure(400, "File too large. Maximum size is 5MB.")
  {
  }

  /** The type is checked before the size: an oversized file of another type is reported
      as a type error. */
  lemma TypeBeforeSize(email: string, name: string, mimeType: string, size: nat, env: Env, t: nat, random: string)
    requires email != "" && mimeType !in AllowedTypes
    ensures HandlePost(Some(email), FileEntry(name, mimeType, size), env, t, random) ==
            Failure(400, "Invalid file type. Only JPEG, PNG, and WebP images are allowed.")
  {
  }
}
