/**
 * What the new-outfit page and the edit form share: the form state, the required-field
 * check, the comma-separated tag parser and the item filter. Both forms hold the same
 * five fields and run the same checks and the same split/trim/filter chain on submit.
 */
module OutfitFields {
  import opened Wrappers
  import opened JsText
  import Seqs

  /** The `formData` state of both forms; `tags` is the text typed in the tags input. */
  datatype FormData = FormData(name: string, description: string, imageUrl: string, tags: string, isPrivate: bool)

  /** The text inputs whose `name` attribute `handleChange` uses as the key it replaces. */
  datatype TextField = Name | Description | Tags

  function FieldValue(f: FormData, field: TextField): string
  {
    match field
    case Name => f.name
    case Description => f.description
    case Tags => f.tags
  }

  /** `{...formData, [e.target.name]: e.target.value}`: only the named field changes. */
  function WithField(f: FormData, field: TextField, value: string): (r: FormData)
    ensures FieldValue(r, field) == value
    ensures forall other: TextField :: other != field ==> FieldValue(r, other) == FieldValue(f, other)
    ensures r.imageUrl == f.imageUrl && r.isPrivate == f.isPrivate
  {
    match field
    case Name => f.(name := value)
    case Description => f.(description := value)
    case Tags => f.(tags := value)
  }

  /** `!s.trim()`. */
  predicate IsBlank(s: string)
  {
    Trim(s) == []
  }

  /** Which early return `handleSubmit` takes, if any. */
  datatype Required = MissingName | MissingImage | Complete

  /** The name is checked first, then the image URL; blank means only white space. */
  function CheckRequired(f: FormData): (r: Required)
    ensures r == MissingName <==> AllSpaces(f.name)
    ensures r == MissingImage <==> !AllSpaces(f.name) && AllSpaces(f.imageUrl)
    ensures r == Complete <==> !AllSpaces(f.name) && !AllSpaces(f.imageUrl)
  {
    if IsBlank(f.name) then MissingName
    else if IsBlank(f.imageUrl) then MissingImage
    else Complete
  }

  // ---- tags ----

  predicate IsNonEmpty(t: string)
  {
    t != []
  }

  /** What a parsed tag looks like. */
  predicate IsTag(t: string)
  {
    t != [] && IsTrimmed(t) && ',' !in t
  }

  predicate AllTags(ts: seq<string>)
  {
    forall k :: 0 <= k < |ts| ==> IsTag(ts[k])
  }

  /** `text.split(",").map(tag => tag.trim()).filter(tag => tag.length > 0)`. */
  function ParseTags(text: string): (tags: seq<string>)
    ensures AllTags(tags)
  {
    var pieces := Split(text, ',');
    var trimmed := Seqs.Map(pieces, Trim);
    assert forall k :: 0 <= k < |trimmed| ==> ',' !in trimmed[k] by {
      forall k | 0 <= k < |trimmed| ensures ',' !in trimmed[k] {
        assert trimmed[k] == Trim(pieces[k]);
      }
    }
    Seqs.Filter(trimmed, IsNonEmpty)
  }

  /** A piece between two commas yields its trimmed text, or nothing when it is blank. */
  lemma ParseTagsOnePiece(piece: string)
    requires ',' !in piece
    ensures ParseTags(piece) == if AllSpaces(piece) then [] else [Trim(piece)]
  {
    assert Split(piece, ',') == [piece];
    assert Seqs.Map([piece], Trim) == [Trim(piece)];
  }

  /** Tags keep their input order: the text before a comma yields the first tags. */
  lemma ParseTagsConcat(a: string, b: string)
    ensures ParseTags(a + "," + b) == ParseTags(a) + ParseTags(b)
  {
    SplitConcat(a, b, ',');
    Seqs.MapConcat(Split(a, ','), Split(b, ','), Trim);
    Seqs.FilterConcat(Seqs.Map(Split(a, ','), Trim), Seqs.Map(Split(b, ','), Trim), IsNonEmpty);
  }

  /** A comma followed by white space only, such as `","` or `", "`. */
  predicate IsTagSeparator(sep: string)
  {
    |sep| >= 1 && sep[0] == ',' && AllSpaces(sep[1..])
  }

  /** One tag with white space in front of it parses to itself. */
  lemma ParsePaddedTag(lead: string, t: string)
    requires AllSpaces(lead) && IsTag(t)
    ensures ParseTags(lead + t) == [t]
  {
    var text := lead + t;
    assert ',' !in text;
    TrimPadded(lead, t, "");
    assert lead + t + "" == text;
    assert text[|lead|] == t[0];
    ParseTagsOnePiece(text);
  }

  lemma JoinSplitsAtSeparator(ts: seq<string>, lead: string, sep: string)
    requires |ts| >= 2 && IsTagSeparator(sep)
    ensures lead + Join(ts, sep) == (lead + ts[0]) + "," + (sep[1..] + Join(ts[1..], sep))
  {
    var pad := sep[1..];
    var rest := Join(ts[1..], sep);
    assert Join(ts, sep) == ts[0] + sep + rest;
    assert sep == "," + pad;
  }

  lemma AllTagsTail(ts: seq<string>)
    requires AllTags(ts) && ts != []
    ensures AllTags(ts[1..])
  {
    forall k | 0 <= k < |ts| - 1 ensures IsTag(ts[1..][k]) {
      assert ts[1..][k] == ts[k + 1];
    }
  }

  /** Parsing a list joined with a tag separator returns the list, whatever white space
      `lead` stands before its first element. */
  lemma {:induction false} ParseJoinedPadded(ts: seq<string>, lead: string, sep: string)
    requires AllTags(ts) && AllSpaces(lead) && IsTagSeparator(sep)
    ensures ParseTags(lead + Join(ts, sep)) == ts
  {
    if |ts| == 0 {
      assert lead + Join(ts, sep) == lead;
      ParseTagsOnePiece(lead);
    } else if |ts| == 1 {
      assert lead + Join(ts, sep) == lead + ts[0];
      ParsePaddedTag(lead, ts[0]);
    } else {
      JoinSplitsAtSeparator(ts, lead, sep);
      ParseTagsConcat(lead + ts[0], sep[1..] + Join(ts[1..], sep));
      ParsePaddedTag(lead, ts[0]);
      AllTagsTail(ts);
      ParseJoinedPadded(ts[1..], sep[1..], sep);
      assert [ts[0]] + ts[1..] == ts;
    }
  }

  /** Round trip: parsing `tags.join(", ")` gives back tags that are trimmed, non-empty
      and comma-free, in order. */
  lemma TagsRoundTrip(ts: seq<string>)
    requires AllTags(ts)
    ensures ParseTags(Join(ts, ", ")) == ts
  {
    var sep := ", ";
    assert IsTagSeparator(sep) by {
      assert sep[1..] == " ";
    }
    ParseJoinedPadded(ts, "", sep);
    assert "" + Join(ts, sep) == Join(ts, sep);
  }

  /** Parsing is idempotent: re-parsing the comma-join of parsed tags changes nothing. */
  lemma ParseTagsIdempotent(text: string)
    ensures ParseTags(Join(ParseTags(text), ",")) == ParseTags(text)
  {
    var ts := ParseTags(text);
    var sep := ",";
    assert IsTagSeparator(sep) by {
      assert sep[1..] == "";
    }
    ParseJoinedPadded(ts, "", sep);
    assert "" + Join(ts, sep) == Join(ts, sep);
  }

  // ---- items ----

  /** An item of a saved outfit. */
  datatype OutfitItem = OutfitItem(id: int, name: string, category: string, description: Option<string>,
                                   purchaseUrl: Option<string>, imageUrl: Option<string>)

  /** An item row as the item editor holds it. Rows loaded from a saved outfit carry its id. */
  datatype DraftItem = DraftItem(id: Option<int>, name: string, category: string,
                                 description: string, purchaseUrl: string, imageUrl: Option<string>)

  /** `item.name && item.category`: both non-empty; white space is not trimmed here. */
  predicate IsComplete(item: DraftItem)
  {
    item.name != [] && item.category != []
  }

  /** The items submitted: exactly the complete ones, in their original order. */
  function CompleteItems(items: seq<DraftItem>): (r: seq<DraftItem>)
    ensures forall k :: 0 <= k < |r| ==> IsComplete(r[k]) && r[k] in items
    ensures forall k :: 0 <= k < |items| && IsComplete(items[k]) ==> items[k] in r
  {
    Seqs.Filter(items, IsComplete)
  }

  lemma CompleteItemsConcat(a: seq<DraftItem>, b: seq<DraftItem>)
    ensures CompleteItems(a + b) == CompleteItems(a) + CompleteItems(b)
  {
    Seqs.FilterConcat(a, b, IsComplete);
  }

  lemma CompleteItemsKeepsComplete(items: seq<DraftItem>)
    requires forall k :: 0 <= k < |items| ==> IsComplete(items[k])
    ensures CompleteItems(items) == items
  {
    Seqs.FilterKeepsAll(items, IsComplete);
  }
}
