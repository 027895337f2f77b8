/**
 * The new-outfit page (app/outfits/new/page.tsx): its form state, the field handlers
 * and the submit handler that validates, parses the tags, keeps the complete items and
 * posts the outfit.
 */
module NewOutfit {
  import opened OutfitFields

  /** The JSON body posted to /api/outfits: `{...formData, tags, items: validItems}`. */
  datatype CreateRequest = CreateRequest(name: string, description: string, imageUrl: string,
                                         tags: seq<string>, isPrivate: bool, items: seq<DraftItem>)

  /** The state the page starts in: every text empty, the outfit private. */
  function InitialForm(): (f: FormData)
    ensures f.isPrivate && f.name == [] && f.imageUrl == []
  {
    FormData("", "", "", "", true)
  }

  /** Submitting the untouched form stops at the name check. */
  lemma InitialFormMissingName()
    ensures CheckRequired(InitialForm()) == MissingName
  {
  }

  /** The request body keeps every form field but `tags`, which becomes the parsed list,
      and adds the complete items in their order (see `CompleteItems` and its lemmas). */
  function CreateBody(f: FormData, items: seq<DraftItem>): (body: CreateRequest)
    ensures body.name == f.name && body.description == f.description
    ensures body.imageUrl == f.imageUrl && body.isPrivate == f.isPrivate
    ensures AllTags(body.tags) && body.tags == ParseTags(f.tags)
    ensures body.items == CompleteItems(items)
  {
    CreateRequest(f.name, f.description, f.imageUrl, ParseTags(f.tags), f.isPrivate, CompleteItems(items))
  }

  class NewOutfitPage {
    var formData: FormData
    var isLoading: bool
    /** Every value handed to `setIsLoading`, in order. */
    var loadingUpdates: seq<bool>
    /** Every body posted to /api/outfits, in order. */
    var requests: seq<CreateRequest>

    constructor ()
      ensures formData == InitialForm() && !isLoading
      ensures loadingUpdates == [] && requests == []
    {
      formData := InitialForm();
      isLoading := false;
      loadingUpdates := [];
      requests := [];
    }

    /** `handleChange`: the input named by the event takes the event's value. */
    method HandleChange(field: TextField, value: string)
      modifies this`formData
      ensures formData == WithField(old(formData), field, value)
    {
      formData := WithField(formData, field, value);
    }

    /** `handleCheckboxChange`: only `isPrivate` changes. */
    method HandleCheckboxChange(checked: bool)
      modifies this`formData
      ensures formData == old(formData).(isPrivate := checked)
    {
      formData := formData.(isPrivate := checked);
    }

    /** The image uploader's callback: only `imageUrl` changes. */
    method HandleImageUpload(url: string)
      modifies this`formData
      ensures formData == old(formData).(imageUrl := url)
    {
      formData := formData.(imageUrl := url);
    }

    /** `handleSubmit`, given the item editor's rows. A blank name or image URL returns
        before loading is set and before any request; otherwise one body is posted while
        loading is on, and loading is off again afterwards whatever the response. */
    method HandleSubmit(items: seq<DraftItem>) returns (outcome: Required)
      modifies this`isLoading, this`loadingUpdates, this`requests
      ensures outcome == CheckRequired(formData)
      ensures outcome != Complete ==>
        requests == old(requests) && loadingUpdates == old(loadingUpdates) && isLoading == old(isLoading)
      ensures outcome == Complete ==>
        requests == old(requests) + [CreateBody(formData, items)] &&
        loadingUpdates == old(loadingUpdates) + [true, false] && !isLoading
    {
      var f := formData;
      outcome := CheckRequired(f);
      if outcome != Complete {
        return;
      }
      var before := loadingUpdates;
      isLoading := true;
      loadingUpdates := before + [true];
      requests := requests + [CreateBody(f, items)];
      isLoading := false;
      loadingUpdates := before + [true, false];
      assert formData == f;
    }
  }
}
