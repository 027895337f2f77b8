# outfitsave client rules in Dafny

This project is a Dafny model of the client-side and request-validation logic of outfitsave. In outfitsave, signed-in users save "outfits": a name, an image, tags, a visibility flag and a list of clothing items. They can browse their own outfits and a public feed, and share or delete outfits. The model covers:

- **The two outfit forms.**
  - The new-outfit page (`app/outfits/new/page.tsx`) and the edit form (`components/ui/edit-outfit-form.tsx`).
  - Covered: their state and handlers, the required-field checks, and the comma-separated tag parser with its `", "` serialiser.
  - Also covered: the item filter, with the edit form's `id || 0`, and the request body or updated record each form builds.
- **The upload route** (`app/api/upload/route.ts`).
  - Covered: the ordered early returns (401, 400, 400, 400, 503), the inclusive 5 MiB cap and the MIME allow-list.
  - Also covered: the generated file name `timestamp-random.ext`, and the storage key or URL the handler goes on to use.
- **The JSX ternary rewriter** (`scripts/fix-ternaries.mjs`).
  - The scan is a Dafny method, `FixFile`, with the script's loops: the outer index loop, the parenthesis counter and the white-space skip. It is proved equal to `Run`, a step-by-step meaning of one pass.
  - Each of the script's two regular expressions becomes `FirstMatch`. `FirstMatch` is specified as the leftmost match, and at that start the shortest (lazy) condition group.
  - Shape lemmas say what the pass does to concrete kinds of input:
    - `{c && (body)}` is rewritten;
    - `{c && (body)x` is left half-rewritten;
    - `{c && <Tag/>}` is rewritten;
    - a brace whose condition has a `?` before its `&&` is never where a rule acts;
    - text without `{` is copied.
- **The outfit card** (`components/ui/outfit-card.tsx`).
  - Covered: ownership, which of the privacy label, share, delete and admin-delete controls show and when they are disabled, the link target, the pieces label and the tag line.
  - Also covered: the delete-confirmation dialog state.
- **The two list pages** (`app/my-outfits/page.tsx`, `app/outfits/page.tsx`).
  - Covered: the page number read with `parseInt`, the pagination row, the cards' props, and the fetch state.
  - Also covered: the share and delete handlers with their busy-marker guard, and removal by id.
- **The settings page** (`app/settings/page.tsx`).
  - Covered: the set-password checks (confirmation first, then at least 6 UTF-16 code units), and the state `handleSetPassword` moves through.
  - Also covered: what renders for each session status and each of the three password states.

## How the model is built

- Modules follow the source files:
  - `NewOutfit`, `EditOutfit`, `Upload`, `TernaryFix` (with its shape lemmas in `TernaryFixShapes`), `OutfitCard`, `MyOutfits`, `Feed` and `Settings`.
  - `OutfitFields` holds what the two forms share.
  - `Listing` holds what the two list pages share.
  - `JsText` models the JavaScript string built-ins the code relies on: the `\s` white-space set, `trim`, one-character `split`, `join`, decimal rendering in template literals, `parseInt` with no radix, and UTF-16 `length`.
  - `Seqs` holds `map` and `filter`; `Wrappers` holds `Option`.
- React state becomes a class. The state the source sets through `useState` is held in fields, and each handler is a method with a `modifies` clause.
- An `async` handler is split in two at its `await`:
  - the part before the request (busy flag set, request recorded);
  - the part after it, given the answer as a parameter (`Finish…`).
- Requests are recorded in a `requests` or `posted` field instead of being sent. Session data, `useAdmin`, `Date.now()`, the random string and the environment variables are parameters.
- JavaScript `NaN` from `parseInt` is `None`.
- **Message and allow-list differ.** The type error message (app/api/upload/route.ts:32) names JPEG, PNG and WebP only. The allow-list (app/api/upload/route.ts:29) also accepts `image/jpg`, and the model follows the list (`Upload.AllowedTypes`).
- **Rule precedence.** In the ternary rewriter the first rule (`{c && (`) is searched in the whole rest of the file before the second rule is tried at all. The model keeps this order (`TernaryFix.StepAt`).

## Model

| member | source | states |
|---|---|---|
| OutfitFields.WithField | app/outfits/new/page.tsx:132-137 | the field named by the event takes the value; every other text field, the image URL and the privacy flag are unchanged |
| OutfitFields.CheckRequired | app/outfits/new/page.tsx:75-89 | rejects a name that is empty or all white space first; with a non-blank name, rejects a blank image URL; otherwise complete; each outcome is stated as an if-and-only-if |
| OutfitFields.ParseTags | app/outfits/new/page.tsx:94 | every parsed tag is non-empty, has no white space at either end and contains no comma |
| OutfitFields.ParseTagsOnePiece | app/outfits/new/page.tsx:94 | a comma-free piece yields nothing when it is blank and its trimmed text otherwise |
| OutfitFields.ParseTagsConcat | app/outfits/new/page.tsx:94 | tags keep their input order: parsing `a,b` is parsing `a` followed by parsing `b` |
| OutfitFields.ParseJoinedPadded | app/outfits/new/page.tsx:94 | a list of well-formed tags joined with a comma plus white space, after any leading white space, parses back to the same list |
| OutfitFields.TagsRoundTrip | components/ui/edit-outfit-form.tsx:132 | parsing `tags.join(", ")` (the text the form starts with, line 63) gives back the tags when each is trimmed, non-empty and comma-free |
| OutfitFields.ParseTagsIdempotent | app/outfits/new/page.tsx:94 | re-parsing the comma-join of a parsed tag list gives the same list |
| OutfitFields.CompleteItems | app/outfits/new/page.tsx:95 | every kept item has a non-empty name and category and comes from the input; every such input item is kept |
| OutfitFields.CompleteItemsConcat | app/outfits/new/page.tsx:95 | the filter works piecewise, so the kept items stay in their input order |
| OutfitFields.CompleteItemsKeepsComplete | components/ui/edit-outfit-form.tsx:133-134 | when every item is complete the filter returns the list unchanged |
| NewOutfit.InitialForm | app/outfits/new/page.tsx:25-31 | a new outfit starts private, with empty name and image URL |
| NewOutfit.InitialFormMissingName | app/outfits/new/page.tsx:75-81 | submitting the untouched form stops at the name check |
| NewOutfit.CreateBody | app/outfits/new/page.tsx:94-107 | the body keeps name, description, image URL and privacy from the form; tags are the parsed list; items are `CompleteItems` of the rows, the complete ones in their order with repeats kept |
| NewOutfit.NewOutfitPage.constructor | app/outfits/new/page.tsx:24-31 | the page starts with the initial form, not loading, nothing posted |
| NewOutfit.NewOutfitPage.HandleChange | app/outfits/new/page.tsx:132-137 | only the named field of the form changes |
| NewOutfit.NewOutfitPage.HandleCheckboxChange | app/outfits/new/page.tsx:139-144 | only `isPrivate` changes |
| NewOutfit.NewOutfitPage.HandleImageUpload | app/outfits/new/page.tsx:206-211 | only `imageUrl` changes |
| NewOutfit.NewOutfitPage.HandleSubmit | app/outfits/new/page.tsx:71-130 | a blank name or image URL returns with no request and loading untouched; otherwise exactly one body is posted, loading goes true then false and ends false |
| EditOutfit.InitialForm | components/ui/edit-outfit-form.tsx:59-65 | name and privacy are copied; an absent description or image URL becomes ""; the tag text is the tags joined with ", " |
| EditOutfit.InitialItem | components/ui/edit-outfit-form.tsx:72-79 | id, name, category and image are kept; an absent description or purchase URL becomes "" |
| EditOutfit.SavedItem | components/ui/edit-outfit-form.tsx:135-138 | a present id is kept (so 0 stays 0) and a missing id becomes 0; the other fields are carried over |
| EditOutfit.SavedItems | components/ui/edit-outfit-form.tsx:133-138 | the saved items are the complete rows in their order, each with its id settled |
| EditOutfit.UpdatedOutfit | components/ui/edit-outfit-form.tsx:140-148 | id, share slug, creation time and owner are those of the original; the six edited fields come from the form; tags are the parsed list |
| EditOutfit.Submit | components/ui/edit-outfit-form.tsx:111-150 | rejected exactly when the name or the image URL is blank, with the check that failed; otherwise saves the updated outfit |
| EditOutfit.InitialTagsRoundTrip | components/ui/edit-outfit-form.tsx:63 | the initial tag text parses back to the outfit's tags when they are well formed |
| EditOutfit.SaveWithoutEdits | components/ui/edit-outfit-form.tsx:111-150 | opening the form and saving without edits keeps the outfit: tags in order and items in order with their ids; only absent texts become "" |
| EditOutfit.EditOutfitForm.constructor | components/ui/edit-outfit-form.tsx:59-65 | the form starts from the outfit's initial form and nothing has been saved |
| EditOutfit.EditOutfitForm.HandleChange | components/ui/edit-outfit-form.tsx:161-163 | only the named field changes |
| EditOutfit.EditOutfitForm.HandleCheckboxChange | components/ui/edit-outfit-form.tsx:165-167 | only `isPrivate` changes |
| EditOutfit.EditOutfitForm.HandleImageUpload | components/ui/edit-outfit-form.tsx:215 | only `imageUrl` changes |
| EditOutfit.EditOutfitForm.HandleSubmit | components/ui/edit-outfit-form.tsx:111-150 | `onSave` is called exactly once with the updated outfit on a valid submit and not at all otherwise |
| Upload.Extension | app/api/upload/route.ts:50 | the extension has no '.'; it is the whole name when there is no '.', and otherwise the text after the last '.' |
| Upload.FileName | app/api/upload/route.ts:47-51 | the name is the timestamp's digits, '-', the random text, '.' and the extension, each piece at its own position and nothing else |
| Upload.HandlePost | app/api/upload/route.ts:8-91 | 401 iff there is no session email; 400 "No file provided" iff signed in and no file; 400 type error iff a file whose type is not allowed; 400 size error iff allowed and over 5 MiB; 503 iff all checks pass in production without a token; once every check passes, the file is put to blob storage iff in production and written locally iff not; the blob key is "unpacked/"+name and the local URL "/uploads/"+name |
| Upload.UnauthorizedIgnoresRequest | app/api/upload/route.ts:12-17 | without a session the answer is 401 whatever the form, environment, clock and random text |
| Upload.SizeCapInclusive | app/api/upload/route.ts:38-45 | a file of exactly 5 MiB with an allowed type is not rejected for size; one byte more is |
| Upload.TypeBeforeSize | app/api/upload/route.ts:29-36 | any file whose type is not allowed gets the type error, whatever its size |
| TernaryFix.TailAt | scripts/fix-ternaries.mjs:13 | the part of either pattern after the condition group: it ends after '(' for the first rule; for the second, after a `<…>` group and '}' |
| TernaryFix.TagComponent | scripts/fix-ternaries.mjs:49 | the `<…>` group has no '>' but its last character, and only white space stands between it and '}' |
| TernaryFix.LazyFrom | scripts/fix-ternaries.mjs:13 | the lazy `+?` group: the shortest condition at a start that completes the pattern, or none at all |
| TernaryFix.FirstAt | scripts/fix-ternaries.mjs:13 | the pattern matches at p with the shortest possible condition, or matches at p with none |
| TernaryFix.FirstMatch | scripts/fix-ternaries.mjs:13 | `content.slice(i).match(…)`: a match at the leftmost start from i with the shortest condition there, or no match from i on |
| TernaryFix.ParenEnd | scripts/fix-ternaries.mjs:21-27 | the index where the inner loop stops, within the content |
| TernaryFix.ParenScan | scripts/fix-ternaries.mjs:21-27 | the depth stays positive before the stop; the scan stops where it reaches 0 or at the end; a balanced stop comes just after the matching ')' |
| TernaryFix.ParenEndNested | scripts/fix-ternaries.mjs:21-29 | a properly nested body followed by ')' is scanned to just after that ')' |
| TernaryFix.ParenStep | scripts/fix-ternaries.mjs:15-45 | a first-rule step emits the text before the match unchanged, moves past the matched `(`, is a closed or an unclosed step, and reports a change exactly when it is closed |
| TernaryFix.ParenStepStops | scripts/fix-ternaries.mjs:32-44 | after the parenthesis scan from the match's end and the white-space skip, the step goes on one past the character reached, and it is closed exactly when that character exists and is '}' |
| TernaryFix.TagStep | scripts/fix-ternaries.mjs:51-58 | a second-rule step emits the text before the match unchanged, goes on at the match's end and counts as a change |
| TernaryFix.StepAt | scripts/fix-ternaries.mjs:12-63 | each iteration moves forward; the first rule acts iff it matches without '?', else the second iff it does, else one character is copied verbatim |
| TernaryFix.ScanBody | scripts/fix-ternaries.mjs:21-27 | the parenthesis loop returns the stop index of `ParenEnd` at depth 1 |
| TernaryFix.SkipWhitespace | scripts/fix-ternaries.mjs:32-33 | the white-space loop stops at the end of the run of white space |
| TernaryFix.ApplyAndParen | scripts/fix-ternaries.mjs:15-45 | the first-rule branch appends exactly the step's text, goes on where the step does and sets `modified` as the step says |
| TernaryFix.ApplyAndTag | scripts/fix-ternaries.mjs:51-58 | the second-rule branch appends exactly the step's text and goes on at the match's end |
| TernaryFix.Advance | scripts/fix-ternaries.mjs:12-64 | one iteration keeps the loop invariant: the output so far followed by the rest of the pass is the whole pass |
| TernaryFix.FixFile | scripts/fix-ternaries.mjs:4-70 | the new content and `modified` are those of `Run`; the file is written iff `modified` holds and the content changed |
| TernaryFix.RevertingStepAt | scripts/fix-ternaries.mjs:39-44 | corrected step: an unclosed segment is copied unchanged from i; every other step, and the position reached, is as in the script |
| TernaryFix.RevertingRunModified | scripts/fix-ternaries.mjs:39-44 | the corrected pass reports a change exactly when the script's pass does |
| TernaryFix.RevertingRunKeepsUnchanged | scripts/fix-ternaries.mjs:39-44 | when the corrected pass reports no change, its output is its input |
| TernaryFixShapes.AndParenFound | scripts/fix-ternaries.mjs:13 | where `{cond && (` is the first brace from i, the first pattern finds exactly that match and condition |
| TernaryFixShapes.AndTagFound | scripts/fix-ternaries.mjs:49 | where `{cond && <…>}` is the first brace from i, the second pattern finds exactly that match |
| TernaryFixShapes.NoParenNoMatch | scripts/fix-ternaries.mjs:13 | without '(' from i on the first pattern finds nothing |
| TernaryFixShapes.NoBraceCopied | scripts/fix-ternaries.mjs:61-63 | text without '{' is copied verbatim and counts as no change |
| TernaryFixShapes.TailPastQuestion | scripts/fix-ternaries.mjs:13-14 | a condition group cannot stop before a '?' that precedes the first '&' |
| TernaryFixShapes.QuestionMarkSkipped | scripts/fix-ternaries.mjs:14 | at any position of any file, a rule acting from i never acts on the first brace from i when a '?' follows it before any '&'; its match starts further on |
| TernaryFixShapes.QuestionMarkNeitherRule | scripts/fix-ternaries.mjs:14 | when that brace is the only one from i on, neither rule acts from i |
| TernaryFixShapes.QuestionMarkKeepsText | scripts/fix-ternaries.mjs:50-63 | from any i, a text whose only '{' from i on has a '?' before any '&' passes through verbatim with no change reported |
| TernaryFixShapes.RewritesClosedParen | scripts/fix-ternaries.mjs:18-38 | `{cond && (body) }` with a nested body becomes `{cond ? (body) : null}`, dropping the white space before '}'; a change is reported and the scan goes on after '}' |
| TernaryFixShapes.KeepsUnclosedParen | scripts/fix-ternaries.mjs:39-44 | `{cond && (body)x` with x neither white space nor '}' leaves `{cond ? (body)x` and reports no change |
| TernaryFixShapes.RewritesSingleLine | scripts/fix-ternaries.mjs:48-58 | `{cond && <…>}` becomes `{cond ? <…> : null}` and reports a change |
| TernaryFixShapes.ClosedParenFile | scripts/fix-ternaries.mjs:12-64 | a whole file holding one closed segment comes out rewritten, with the change reported |
| TernaryFixShapes.ClosedParenExample | scripts/fix-ternaries.mjs:18-38 | `{open && (<Modal />)}` becomes `{open ? (<Modal />) : null}` |
| TernaryFixShapes.UnclosedParenFile | scripts/fix-ternaries.mjs:39-44 | a whole file holding one unclosed segment comes out half-rewritten, with no change reported |
| TernaryFixShapes.UnclosedThenClosedFile | scripts/fix-ternaries.mjs:39-44 | an unclosed then a closed segment: the script's output keeps the half-rewritten first segment and reports a change; the corrected pass keeps the first segment as it was |
| TernaryFixShapes.UnclosedExample | scripts/fix-ternaries.mjs:39-44 | `{a && (b)c}` comes out as `{a ? (b)c}` with no change reported |
| TernaryFixShapes.UnclosedThenClosedExample | scripts/fix-ternaries.mjs:39-44 | `{a && (b)c}{d && (e)}` is written back as `{a ? (b)c}{d ? (e) : null}`; the corrected pass gives `{a && (b)c}{d ? (e) : null}` |
| OutfitCard.ButtonFor | components/ui/outfit-card.tsx:122-148 | a button is absent iff its condition fails, and disabled iff it shows while its request for this outfit runs |
| OutfitCard.ActionOverlay | components/ui/outfit-card.tsx:114-159 | nothing without `showActions`; the label says "Private" or "Public"; share iff public and `onShare` given; delete iff `onDelete` and owner; admin delete iff public, admin and loaded |
| OutfitCard.PrivateOutfitControls | components/ui/outfit-card.tsx:122-156 | a private outfit never offers sharing or the admin delete |
| OutfitCard.NonOwnerCannotDelete | components/ui/outfit-card.tsx:74 | a viewer who is not signed in, or whose id differs from the outfit's, never gets the owner's delete |
| OutfitCard.Href | components/ui/outfit-card.tsx:78 | "#" while the dialog is open, otherwise `/outfits/` followed by text that reads back as the id |
| OutfitCard.PiecesLabel | components/ui/outfit-card.tsx:169 | the label ends in " piece" iff there is exactly one item, and in " pieces" otherwise |
| OutfitCard.TagsLine | components/ui/outfit-card.tsx:170-175 | the tag line shows iff there are tags; the parser reads well-formed tags back from it |
| OutfitCard.CardState.constructor | components/ui/outfit-card.tsx:52 | the dialog starts closed |
| OutfitCard.CardState.HandleDeleteClick | components/ui/outfit-card.tsx:55-59 | the dialog opens |
| OutfitCard.CardState.HandleConfirmDelete | components/ui/outfit-card.tsx:61-66 | with `onDelete`, it is called once with the outfit's id and then the dialog closes; without it nothing changes |
| OutfitCard.CardState.Close | components/ui/outfit-card.tsx:187 | the dialog closes |
| Listing.PageFromQuery | app/my-outfits/page.tsx:35 | an absent or empty page parameter is page 1 |
| Listing.PageText | app/my-outfits/page.tsx:49 | the page as rendered in a template literal is never empty; NaN renders as "NaN" and a number reads back as itself |
| Listing.PageLink | app/my-outfits/page.tsx:188 | the link is the base, then "?page=", then the number |
| Listing.PageLinkRoundTrip | app/my-outfits/page.tsx:186-204 | the query value of a page link reads back as the page it was built from |
| Listing.PaginationControls | app/my-outfits/page.tsx:184-206 | the row shows iff totalPages > 1; "Previous" iff page > 1, linking page−1; "Next" iff page < totalPages, linking page+1; a NaN page gets neither |
| Listing.LinksReachNeighbours | app/my-outfits/page.tsx:186-204 | following "Previous" or "Next" lands on the neighbouring page |
| Listing.DefaultPageHasNoPrevious | app/my-outfits/page.tsx:35 | without a page parameter there is no "Previous" link |
| Listing.MiddlePageHasBothLinks | app/outfits/page.tsx:114-132 | on a page with both neighbours both links are offered |
| MyOutfits.RemoveById | app/my-outfits/page.tsx:116 | no outfit with the id is left; every other outfit stays |
| MyOutfits.RemoveByIdConcat | app/my-outfits/page.tsx:116 | removal distributes over concatenation, so the others keep their order |
| MyOutfits.RemoveByIdAbsent | app/my-outfits/page.tsx:116 | removing an id that no outfit carries changes nothing |
| MyOutfits.RemoveByIdIdempotent | app/my-outfits/page.tsx:116 | removing twice is removing once |
| MyOutfits.RemoveByIdLength | app/my-outfits/page.tsx:116 | the length falls by exactly the number of outfits with the id (`Seqs.Count`) |
| MyOutfits.MyCard | app/my-outfits/page.tsx:169-177 | each card gets actions shown, both callbacks, both busy markers and the session's user id |
| MyOutfits.MyCardControls | app/my-outfits/page.tsx:169-177 | a public outfit always offers sharing and the owner always gets delete; each button is disabled exactly while its request for that outfit runs |
| MyOutfits.MyOutfitsList.constructor | app/my-outfits/page.tsx:35-43 | the list starts empty, one page, loading, no busy markers; it shows the spinner |
| MyOutfits.MyOutfitsList.View | app/my-outfits/page.tsx:142-210 | spinner iff loading; otherwise one card per outfit in order, followed by the pagination row |
| MyOutfits.MyOutfitsList.BeginFetch | app/my-outfits/page.tsx:46-49 | loading is on and the current page is requested |
| MyOutfits.MyOutfitsList.FinishFetch | app/my-outfits/page.tsx:50-60 | a good answer replaces outfits and page count, a failed one keeps both; loading is off either way |
| MyOutfits.MyOutfitsList.BeginShare | app/my-outfits/page.tsx:66-73 | a second share of the outfit being shared does nothing; otherwise the marker is set and one POST is sent |
| MyOutfits.MyOutfitsList.FinishShare | app/my-outfits/page.tsx:96-98 | the share marker is cleared on success and failure alike |
| MyOutfits.MyOutfitsList.BeginDelete | app/my-outfits/page.tsx:101-112 | a second delete of the outfit being deleted does nothing; otherwise the marker is set and one DELETE is sent |
| MyOutfits.MyOutfitsList.FinishDelete | app/my-outfits/page.tsx:114-139 | on success the outfits with the id leave the list; the marker is cleared whatever the answer |
| Feed.ToCard | app/outfits/page.tsx:96-101 | each feed outfit reaches the card as public, with missing items as an empty list and every other field kept |
| Feed.FeedCard | app/outfits/page.tsx:96-105 | actions only for a loaded admin, no share callback, the re-fetch as delete callback, the session's user id |
| Feed.FeedCardControls | app/outfits/page.tsx:102 | no controls for anyone but a loaded admin; the admin sees "Public", no share, the admin delete, and the owner's delete only on their own outfits |
| Feed.FeedPiecesLabel | app/outfits/page.tsx:100 | an outfit without items shows "0 pieces" |
| Feed.OutfitsFeed.constructor | app/outfits/page.tsx:36-42 | the feed starts empty, with one page, loading; it shows the spinner, so no pagination before data arrives |
| Feed.OutfitsFeed.View | app/outfits/page.tsx:70-138 | spinner iff loading; otherwise one card per outfit, and pagination only when totalPages > 1 |
| Feed.OutfitsFeed.AdminLoaded | app/outfits/page.tsx:37 | the admin status becomes loaded with the answer |
| Feed.OutfitsFeed.BeginFetch | app/outfits/page.tsx:44-47 | loading is on and the current page is requested |
| Feed.OutfitsFeed.FinishFetch | app/outfits/page.tsx:48-58 | a good answer replaces outfits and page count, a failed one keeps both; loading is off either way |
| Feed.OutfitsFeed.HandleAdminDelete | app/outfits/page.tsx:65-68 | the feed's `onDelete`, run when a card's owner confirms the delete dialog (components/ui/outfit-card.tsx:61-66): it ignores the outfit id and only re-requests the current page; the card's admin button reloads the window instead and does not come here |
| Feed.FeedDeleteSendsNoDelete | app/outfits/page.tsx:65-68 | confirming the owner's delete on a feed card sends no DELETE request at all, so the outfit stays |
| Feed.CorrectedFeedDeleteDeletes | app/my-outfits/page.tsx:101-106 | the corrected callback deletes exactly the confirmed outfit and no other, and ends with the same re-fetch the written one sends |
| Settings.CheckPassword | app/settings/page.tsx:42-58 | a mismatch is rejected first; a confirmed password shorter than 6 code units is too short; the rest pass; each as an if-and-only-if |
| Settings.SixCharactersPass | app/settings/page.tsx:51-58 | the bound is inclusive: any confirmed password of six or more characters passes |
| Settings.FiveCharactersTooShort | app/settings/page.tsx:51-58 | five characters of the Basic Multilingual Plane are too short |
| Settings.View | app/settings/page.tsx:99-198 | a loading session shows the loading view and an unauthenticated one the sign-in prompt; the status line shows iff the password state is known; the form iff it is known false; the button text and disabled state follow loading |
| Settings.FormOnlyWithoutPassword | app/settings/page.tsx:158 | the form is never offered while the password state is unknown or a password is set |
| Settings.SettingsPage.constructor | app/settings/page.tsx:13-16 | the password state starts unknown, not loading, both inputs empty |
| Settings.SettingsPage.SetPasswordInput | app/settings/page.tsx:171 | only the password input changes |
| Settings.SettingsPage.SetConfirmInput | app/settings/page.tsx:185 | only the confirmation input changes |
| Settings.SettingsPage.CheckPasswordStatus | app/settings/page.tsx:18-37 | with a session email and a good answer the password state is the answer; otherwise it is unchanged |
| Settings.SettingsPage.BeginSetPassword | app/settings/page.tsx:39-69 | a mismatch or a short password returns with nothing posted and loading untouched; otherwise loading is on and the password is posted once |
| Settings.SettingsPage.FinishSetPassword | app/settings/page.tsx:73-96 | on success both inputs are cleared and the password counts as set; loading is off whatever the answer |
| JsText.Trim | app/outfits/new/page.tsx:94 | the result has no white space at either end, is empty iff the input is all white space, and holds only characters of the input |
| JsText.TrimPadded | app/outfits/new/page.tsx:94 | trimming a trimmed text padded with white space gives exactly that text |
| JsText.Split | app/outfits/new/page.tsx:94 | a split has at least one piece and no piece holds the separator |
| JsText.JoinSplit | app/outfits/new/page.tsx:94 | joining the pieces of a split with the separator gives back the text |
| JsText.SplitJoin | app/outfits/new/page.tsx:94 | splitting a join of separator-free parts gives back the parts |
| JsText.SplitLast | app/api/upload/route.ts:50 | the last piece of a split is the text after the last separator, or the whole text without one |
| JsText.NatToDecimal | app/api/upload/route.ts:51 | the rendering is a non-empty run of decimal digits with no leading zero, denoting the number |
| JsText.ParseIntDecimal | app/my-outfits/page.tsx:35 | `parseInt` reads a rendered integer back as that integer |
| JsText.SkipSpaces | scripts/fix-ternaries.mjs:33 | the end of the run of white space starting at k |
| JsText.Utf16Length | app/settings/page.tsx:51 | `length` counts one or two code units per character |
| Seqs.Filter | app/outfits/new/page.tsx:94-95 | `filter` keeps, in order, exactly the elements that satisfy the predicate |
| Seqs.FilterConcat | app/outfits/new/page.tsx:94-95 | filtering works piecewise over concatenation |

## Findings

| source | as written | input that shows it | evidently intended | confidence | as-written member | corrected member |
|---|---|---|---|---|---|---|
| scripts/fix-ternaries.mjs:39-44 | when no '}' follows the balanced body, the branch commented "revert this segment" appends the original text after the `{cond ? (` it already emitted, and does not set `modified`; a later rewritten segment still sets `modified`, so the file is written with the half-rewritten segment | `{a && (b)c}{d && (e)}` is written back as `{a ? (b)c}{d ? (e) : null}`; `{a && (b)c}` comes out as `{a ? (b)c}` | the unclosed segment is copied unchanged (`{a && (b)c}{d ? (e) : null}`), so a pass that reports no change leaves the text as it was | high (not executed) | TernaryFixShapes.UnclosedThenClosedExample | TernaryFix.RevertingRunKeepsUnchanged |
| app/outfits/page.tsx:65-68 | the feed passes `handleAdminDelete` to every card as `onDelete` (line 103); the handler ignores the outfit id and only re-fetches, so the owner's delete button, which an admin sees on their own public outfits (components/ui/outfit-card.tsx:138), opens the dialog and deletes nothing | a loaded admin who owns a public outfit clicks its delete button on the feed and confirms: the only request is `GET /api/outfits?page=1` | the confirmation deletes the outfit, as on the owner's own list (`DELETE /api/outfits/<id>`), and then re-fetches | medium (not executed) | Feed.FeedDeleteSendsNoDelete | Feed.CorrectedFeedDeleteDeletes |

The script as written is `TernaryFix.Run`. The corrected pass is `TernaryFix.RevertingRun`: an unclosed segment is copied from `i` unchanged. It reports a change exactly when the script does (`TernaryFix.RevertingRunModified`). Output and input agree whenever it reports none (`TernaryFix.RevertingRunKeepsUnchanged`). `TernaryFixShapes.UnclosedThenClosedFile` states the general form of both halves. The rest of the model describes the code as written, since that is what the script does.

The feed's delete callback as written is `Feed.FeedDeleteRequests`, which `Feed.OutfitsFeed.HandleAdminDelete` sends. `Feed.FeedCardControls` shows that an admin sees the enabled owner's delete on their own outfits. The corrected callback is `Feed.CorrectedFeedDeleteRequests`. The feed is otherwise modelled as written.

## Left out

- HTTP and browser side effects:
  - `fetch` and the parsing of its answers;
  - toasts, `router.push`, `window.location` (including the redirect after a delete on the my-outfits page, and the card's own admin-delete reload), the clipboard and `console` output.
  - Answers are parameters of the `Finish…` methods; requests are recorded, not sent.
- The item editor hook (`useOutfitItems`), the previous-items quick add (`fetchPreviousItems`, `handleAddItemFromPrevious`) and the item cards. The current item rows are a parameter of each submit handler.
- `useSession`, `useAdmin` and `useSearchParams` are inputs, as is the session email of the upload route. NextAuth itself is outside the model.
- The upload route:
  - the Blob `put`, `mkdir`, `writeFile` and `arrayBuffer` are not modelled; the handler's result names the write it would perform;
  - `Date.now()` and `Math.random().toString(36).substring(2, 15)` are parameters, and the random text is any string;
  - the catch-all 500 answer is not modelled.
- The ternary rewriter's file reading and writing and its hard-coded file list. `FixFile` works on the file's text and returns whether it would write.
- JavaScript numbers are unbounded integers. Float parsing, precision beyond 2^53 and `Infinity` are not modelled.
- Strings are sequences of code points. Only the settings page's `length` counts UTF-16 code units.
- The React render cycle and the feed's `useCallback` dependency are not modelled. `BeginFetch` stands for the effect that runs when the page changes.
- Presentation: class names, layout, the alternating column offsets and image rendering.
- TernaryFixShapes.RewritesSingleLine: requires that no '(' follows in the rest of the file. Otherwise the first rule, which is searched first in all of the remaining text, may act instead.
- TernaryFixShapes.KeepsUnclosedParen: covers an unclosed body followed by a character that is neither white space nor '}'. The case where the file ends after the body is not stated as a shape lemma; it is covered by `TernaryFix.StepAt` in general.
- QuestionMarkKeepsText: stated for text with no other '{' from i on. With later braces a rule may act further on; `QuestionMarkSkipped` still holds there, and says the brace with the '?' is never where it acts.
- The shape lemmas (`TernaryFixShapes`) state conditions without '&', '{', '}' or a newline, and not ending in white space. Other conditions are covered by the general `FirstMatch` specification only.
