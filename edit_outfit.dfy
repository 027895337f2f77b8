/**
 * The edit form (components/ui/edit-outfit-form.tsx): the form state it derives from the
 * outfit being edited, its handlers, and the record it hands to `onSave`.
 */
module EditOutfit {
  import opened Wrappers
  import opened JsText
  import opened OutfitFields
  import Seqs

  /** The outfit the form edits, as the outfit page passes it in. */
  datatype Outfit = Outfit(id: int, name: string, description: Option<string>, imageUrl: Option<string>,
                           tags: seq<string>, isPrivate: bool, shareSlug: Option<string>, createdAt: string,
                           userName: Option<string>, items: seq<OutfitItem>)

  /** The form's first state: an absent description or image URL shows as empty text and
      the tags are joined with ", ". */
  function InitialForm(o: Outfit): (f: FormData)
    ensures f.name == o.name && f.isPrivate == o.isPrivate
    ensures f.description == (if o.description.Some? then o.description.value else "")
    ensures f.imageUrl == (if o.imageUrl.Some? then o.imageUrl.value else "")
    ensures f.tags == Join(o.tags, ", ")
  {
    FormData(o.name, o.description.GetOr(""), o.imageUrl.GetOr(""), Join(o.tags, ", "), o.isPrivate)
  }

  /** A saved item as the item editor first holds it: id, name and category kept, an absent
      description or purchase URL as empty text. */
  function InitialItem(item: OutfitItem): (d: DraftItem)
    ensures d.id == Some(item.id) && d.name == item.name && d.category == item.category
    ensures d.description == (if item.description.Some? then item.description.value else "")
    ensures d.purchaseUrl == (if item.purchaseUrl.Some? then item.purchaseUrl.value else "")
    ensures d.imageUrl == item.imageUrl
  {
    DraftItem(Some(item.id), item.name, item.category, item.description.GetOr(""),
              item.purchaseUrl.GetOr(""), item.imageUrl)
  }

  function InitialItems(o: Outfit): seq<DraftItem>
  {
    Seqs.Map(o.items, InitialItem)
  }

  /** `{...item, id: item.id || 0}`: a missing or zero id becomes 0, any other id is kept. */
  function SavedItem(d: DraftItem): (item: OutfitItem)
    ensures item.id == (if d.id.Some? then d.id.value else 0)
    ensures item.name == d.name && item.category == d.category && item.imageUrl == d.imageUrl
    ensures item.description == Some(d.description) && item.purchaseUrl == Some(d.purchaseUrl)
  {
    OutfitItem(d.id.GetOr(0), d.name, d.category, Some(d.description), Some(d.purchaseUrl), d.imageUrl)
  }

  /** The saved items: the complete rows, in their order, each with its id settled. */
  function SavedItems(items: seq<DraftItem>): (r: seq<OutfitItem>)
    ensures |r| == |CompleteItems(items)|
    ensures forall k :: 0 <= k < |r| ==> r[k] == SavedItem(CompleteItems(items)[k])
  {
    Seqs.Map(CompleteItems(items), SavedItem)
  }

  /** `updatedOutfit`: the six edited fields come from the form and the items; id, share
      slug, creation time and owner are those of the outfit being edited. */
  function UpdatedOutfit(o: Outfit, f: FormData, items: seq<DraftItem>): (r: Outfit)
    ensures r.id == o.id && r.shareSlug == o.shareSlug && r.createdAt == o.createdAt && r.userName == o.userName
    ensures r.name == f.name && r.description == Some(f.description) && r.imageUrl == Some(f.imageUrl)
    ensures r.isPrivate == f.isPrivate && AllTags(r.tags) && r.tags == ParseTags(f.tags)
    ensures r.items == SavedItems(items)
  {
    o.(name := f.name, description := Some(f.description), imageUrl := Some(f.imageUrl),
       tags := ParseTags(f.tags), isPrivate := f.isPrivate, items := SavedItems(items))
  }

  datatype SubmitOutcome = Rejected(missing: Required) | Saved(outfit: Outfit)

  /** What `handleSubmit` decides: reject a blank name, then a blank image URL; otherwise
      save the updated outfit. */
  function Submit(o: Outfit, f: FormData, items: seq<DraftItem>): (r: SubmitOutcome)
    ensures r.Rejected? <==> AllSpaces(f.name) || AllSpaces(f.imageUrl)
    ensures r.Rejected? ==> r.missing == CheckRequired(f)
    ensures r.Saved? ==> r.outfit == UpdatedOutfit(o, f, items)
  {
    var check := CheckRequired(f);
    if check == Complete then Saved(UpdatedOutfit(o, f, items)) else Rejected(check)
  }

  /** An item after one trip through the form: absent texts become empty texts. */
  function Normalized(item: OutfitItem): OutfitItem
  {
    item.(description := Some(item.description.GetOr("")), purchaseUrl := Some(item.purchaseUrl.GetOr("")))
  }

  /** The initial tag text parses back to the outfit's tags when they are trimmed,
      non-empty and comma-free. */
  lemma InitialTagsRoundTrip(o: Outfit)
    requires AllTags(o.tags)
    ensures ParseTags(InitialForm(o).tags) == o.tags
  {
    TagsRoundTrip(o.tags);
  }

  /** Opening the form and saving without edits keeps the outfit: tags in order, items in
      order with their ids, only absent texts turned into empty ones. */
  lemma SaveWithoutEdits(o: Outfit)
    requires !AllSpaces(o.name) && o.imageUrl.Some? && !AllSpaces(o.imageUrl.value)
    requires AllTags(o.tags)
    requires forall k :: 0 <= k < |o.items| ==> o.items[k].name != [] && o.items[k].category != []
    ensures Submit(o, InitialForm(o), InitialItems(o)) ==
            Saved(o.(description := Some(o.description.GetOr("")), items := Seqs.Map(o.items, Normalized)))
  {
    var drafts := InitialItems(o);
    TagsRoundTrip(o.tags);
    CompleteItemsKeepsComplete(drafts);
    var saved := SavedItems(drafts);
    var expected := Seqs.Map(o.items, Normalized);
    assert |saved| == |expected|;
    forall k | 0 <= k < |saved| ensures saved[k] == expected[k] {
      assert drafts[k] == InitialItem(o.items[k]);
    }
    assert saved == expected;
  }

  class EditOutfitForm {
    const outfit: Outfit
    var formData: FormData
    /** Every record handed to `onSave`, in order. */
    var saves: seq<Outfit>

    constructor (o: Outfit)
      ensures outfit == o && formData == InitialForm(o) && saves == []
    {
      outfit := o;
      formData := InitialForm(o);
      saves := [];
    }

    /** `handleChange`: the input named by the event takes the event's value. */
    method HandleChange(field: TextField, value: string)
      modifies this`formData
      ensures formData == WithField(old(formData), field, value)
    {
      formData := WithField(formData, field, value);
    }

    /** `handleCheckboxChange`: only `isPrivate` changes. */
    method HandleCheckboxChange(checked: bool)
      modifies this`formData
      ensures formData == old(formData).(isPrivate := checked)
    {
      formData := formData.(isPrivate := checked);
    }

    /** The image uploader's callback: only `imageUrl` changes. */
    method HandleImageUpload(url: string)
      modifies this`formData
      ensures formData == old(formData).(imageUrl := url)
    {
      formData := formData.(imageUrl := url);
    }

    /** `handleSubmit`, given the item editor's rows: `onSave` is called exactly once with
        the updated outfit when name and image URL are filled in, and not at all otherwise. */
    method HandleSubmit(items: seq<DraftItem>) returns (outcome: SubmitOutcome)
      modifies this`saves
      ensures outcome == Submit(outfit, formData, items)
      ensures outcome.Saved? ==> saves == old(saves) + [outcome.outfit]
      ensures outcome.Rejected? ==> saves == old(saves)
    {
      outcome := Submit(outfit, formData, items);
      if outcome.Saved? {
        saves := saves + [outcome.outfit];
      }
    }
  }
}
