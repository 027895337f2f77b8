/**
 * The signed-in user's list (app/my-outfits/page.tsx): the fetched page of outfits, the
 * share and delete handlers with their busy markers, the removal of a deleted outfit, and
 * the cards and pagination the list renders.
 */
module MyOutfits {
  import opened Wrappers
  import opened JsText
  import opened OutfitCard
  import opened Listing
  import Seqs

  /** The filter `outfit => outfit.id !== outfitId`. */
  function KeepsOther(id: int): CardOutfit -> bool
  {
    (o: CardOutfit) => o.id != id
  }

  /** `prevOutfits.filter(outfit => outfit.id !== outfitId)`: no outfit with that id is left
      and every other one stays. */
  function RemoveById(outfits: seq<CardOutfit>, id: int): (r: seq<CardOutfit>)
    ensures forall k :: 0 <= k < |r| ==> r[k].id != id && r[k] in outfits
    ensures forall k :: 0 <= k < |outfits| && outfits[k].id != id ==> outfits[k] in r
  {
    Seqs.Filter(outfits, KeepsOther(id))
  }

  /** The others keep their order: removal distributes over concatenation. */
  lemma RemoveByIdConcat(a: seq<CardOutfit>, b: seq<CardOutfit>, id: int)
    ensures RemoveById(a + b, id) == RemoveById(a, id) + RemoveById(b, id)
  {
    Seqs.FilterConcat(a, b, KeepsOther(id));
  }

  /** Removing an id no outfit carries changes nothing; so removing twice is removing once. */
  lemma RemoveByIdAbsent(outfits: seq<CardOutfit>, id: int)
    requires forall k :: 0 <= k < |outfits| ==> outfits[k].id != id
    ensures RemoveById(outfits, id) == outfits
  {
    Seqs.FilterKeepsAll(outfits, KeepsOther(id));
  }

  lemma RemoveByIdIdempotent(outfits: seq<CardOutfit>, id: int)
    ensures RemoveById(RemoveById(outfits, id), id) == RemoveById(outfits, id)
  {
    RemoveByIdAbsent(RemoveById(outfits, id), id);
  }

  /** The outfits that carry the id. */
  function HasId(id: int): CardOutfit -> bool
  {
    (o: CardOutfit) => o.id == id
  }

  /** Exactly the outfits with the id are dropped: the length falls by their number. */
  lemma {:induction false} RemoveByIdLength(outfits: seq<CardOutfit>, id: int)
    ensures |RemoveById(outfits, id)| == |outfits| - Seqs.Count(outfits, HasId(id))
  {
    if outfits != [] {
      RemoveByIdLength(outfits[1..], id);
    }
  }

  /** The props each card of this list gets: actions shown, both callbacks given. */
  function MyCard(o: CardOutfit, sharing: Option<int>, deleting: Option<int>, userId: Option<string>): (p: CardProps)
    ensures p.outfit == o && p.showActions && p.hasOnShare && p.hasOnDelete
    ensures p.sharingOutfit == sharing && p.deletingOutfit == deleting && p.currentUserId == userId
  {
    CardProps(o, true, true, true, sharing, deleting, userId)
  }

  /** On this list a public outfit always offers sharing, and the owner always gets the
      delete button; each is disabled exactly while its request for that outfit runs. */
  lemma MyCardControls(o: CardOutfit, sharing: Option<int>, deleting: Option<int>, userId: Option<string>,
                       admin: AdminStatus)
    ensures var v := ActionOverlay(MyCard(o, sharing, deleting, userId), admin);
            v.Overlay? &&
            (v.share != Absent <==> !o.isPrivate) &&
            (v.delete != Absent <==> IsOwner(userId, o.userId)) &&
            (v.share == Disabled <==> !o.isPrivate && sharing == Some(o.id)) &&
            (v.delete == Disabled <==> IsOwner(userId, o.userId) && deleting == Some(o.id))
  {
  }

  /** The share endpoint of an outfit. */
  function ShareUrl(id: int): string
  {
    "/api/outfits/" + IntToDecimal(id) + "/share"
  }

  class MyOutfitsList {
    /** The page number read from the query string; `None` is NaN. */
    const page: Option<int>
    /** `session?.user?.id`. */
    const currentUserId: Option<string>
    var outfits: seq<CardOutfit>
    var totalPages: int
    var isLoading: bool
    var sharingOutfit: Option<int>
    var deletingOutfit: Option<int>
    /** Every request sent, in order. */
    var requests: seq<Request>

    constructor (query: Option<string>, userId: Option<string>)
      ensures page == PageFromQuery(query) && currentUserId == userId
      ensures outfits == [] && totalPages == 1 && isLoading
      ensures sharingOutfit.None? && deletingOutfit.None? && requests == []
      ensures View() == Spinner
    {
      page := PageFromQuery(query);
      currentUserId := userId;
      outfits := [];
      totalPages := 1;
      isLoading := true;
      sharingOutfit := None;
      deletingOutfit := None;
      requests := [];
    }

    /** What the list renders. */
    function View(): (v: ListView)
      reads this
      ensures v == Spinner <==> isLoading
      ensures v.Grid? ==> |v.cards| == |outfits|
      ensures v.Grid? ==> forall k :: 0 <= k < |outfits| ==>
                v.cards[k] == MyCard(outfits[k], sharingOutfit, deletingOutfit, currentUserId)
      ensures v.Grid? ==> v.pagination == PaginationControls("/my-outfits", page, totalPages)
    {
      if isLoading then Spinner
      else
        var sharing, deleting, userId := sharingOutfit, deletingOutfit, currentUserId;
        Grid(Seqs.Map(outfits, (o: CardOutfit) => MyCard(o, sharing, deleting, userId)),
             PaginationControls("/my-outfits", page, totalPages))
    }

    /** The start of `fetchMyOutfits`: loading on, the page requested. */
    method BeginFetch()
      modifies this`isLoading, this`requests
      ensures isLoading
      ensures requests == old(requests) + [Get("/api/my-outfits?page=" + PageText(page))]
    {
      isLoading := true;
      requests := requests + [Get("/api/my-outfits?page=" + PageText(page))];
    }

    /** The end of `fetchMyOutfits`: a good answer replaces the list and the page count, a
        failed one keeps both; loading is off either way. */
    method FinishFetch(answer: Option<PageData<CardOutfit>>)
      modifies this`outfits, this`totalPages, this`isLoading
      ensures answer.Some? ==> outfits == answer.value.outfits && totalPages == answer.value.totalPages
      ensures answer.None? ==> outfits == old(outfits) && totalPages == old(totalPages)
      ensures !isLoading
    {
      if answer.Some? {
        outfits := answer.value.outfits;
        totalPages := answer.value.totalPages;
      }
      isLoading := false;
    }

    /** The start of `handleShare`: a second share of the outfit already being shared does
        nothing; otherwise the marker is set and the request sent. */
    method BeginShare(id: int) returns (started: bool)
      modifies this`sharingOutfit, this`requests
      ensures started <==> old(sharingOutfit) != Some(id)
      ensures !started ==> sharingOutfit == old(sharingOutfit) && requests == old(requests)
      ensures started ==> sharingOutfit == Some(id) && requests == old(requests) + [Post(ShareUrl(id))]
    {
      if sharingOutfit == Some(id) {
        return false;
      }
      sharingOutfit := Some(id);
      requests := requests + [Post(ShareUrl(id))];
      return true;
    }

    /** The `finally` of `handleShare`, reached on success and on failure alike. */
    method FinishShare()
      modifies this`sharingOutfit
      ensures sharingOutfit.None?
    {
      sharingOutfit := None;
    }

    /** The start of `handleDelete`, guarded like sharing. */
    method BeginDelete(id: int) returns (started: bool)
      modifies this`deletingOutfit, this`requests
      ensures started <==> old(deletingOutfit) != Some(id)
      ensures !started ==> deletingOutfit == old(deletingOutfit) && requests == old(requests)
      ensures started ==> deletingOutfit == Some(id) && requests == old(requests) + [Delete(OutfitUrl(id))]
    {
      if deletingOutfit == Some(id) {
        return false;
      }
      deletingOutfit := Some(id);
      requests := requests + [Delete(OutfitUrl(id))];
      return true;
    }

    /** The end of `handleDelete`: on success the outfits with that id leave the list; the
        marker is cleared whatever the answer. */
    method FinishDelete(id: int, ok: bool)
      modifies this`outfits, this`deletingOutfit
      ensures ok ==> outfits == RemoveById(old(outfits), id)
      ensures !ok ==> outfits == old(outfits)
      ensures deletingOutfit.None?
    {
      if ok {
        outfits := RemoveById(outfits, id);
      }
      deletingOutfit := None;
    }
  }
}
