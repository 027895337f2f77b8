/**
 * The public feed (app/outfits/page.tsx): the outfits as the feed endpoint returns them,
 * the props their cards get, the admin-only actions and the re-fetch after an admin delete.
 */
module Feed {
  import opened Wrappers
  import opened JsText
  import opened OutfitFields
  import opened OutfitCard
  import opened Listing
  import Seqs

  /** An outfit of the feed; `items` may be missing from the answer. The spread passes the
      share slug and owner id through when the answer carries them. */
  datatype FeedOutfit = FeedOutfit(id: int, name: string, description: Option<string>, imageUrl: Option<string>,
                                   tags: seq<string>, createdAt: string, userName: Option<string>,
                                   items: Option<seq<OutfitItem>>, shareSlug: Option<string>,
                                   userId: Option<string>)

  /** `{...outfit, isPrivate: false, items: outfit.items || []}`. */
  function ToCard(o: FeedOutfit): (c: CardOutfit)
    ensures !c.isPrivate
    ensures c.items == (if o.items.Some? then o.items.value else [])
    ensures c.id == o.id && c.name == o.name && c.description == o.description && c.imageUrl == o.imageUrl
    ensures c.tags == o.tags && c.createdAt == o.createdAt && c.shareSlug == o.shareSlug && c.userId == o.userId
  {
    CardOutfit(o.id, o.name, o.description, o.imageUrl, o.tags, false, o.shareSlug, o.createdAt,
               o.items.GetOr([]), o.userId)
  }

  /** The props of a feed card: actions only for an admin whose status has loaded, no share
      callback, the re-fetch as the delete callback, no busy markers. */
  function FeedCard(o: FeedOutfit, admin: AdminStatus, userId: Option<string>): (p: CardProps)
    ensures p.outfit == ToCard(o)
    ensures p.showActions <==> admin.isAdmin && !admin.loading
    ensures !p.hasOnShare && p.hasOnDelete && p.sharingOutfit.None? && p.deletingOutfit.None?
    ensures p.currentUserId == userId
  {
    CardProps(ToCard(o), admin.isAdmin && !admin.loading, false, true, None, None, userId)
  }

  /** A feed card shows nothing to anyone but a loaded admin; the admin sees "Public", no
      share button, the admin delete, and the owner's delete only on their own outfits, never
      disabled. */
  lemma FeedCardControls(o: FeedOutfit, admin: AdminStatus, userId: Option<string>)
    ensures var v := ActionOverlay(FeedCard(o, admin, userId), admin);
            (v == NoOverlay <==> !(admin.isAdmin && !admin.loading)) &&
            (v.Overlay? ==> v.privacyLabel == "Public" && v.share == Absent && v.adminDelete &&
                            (v.delete == Enabled <==> IsOwner(userId, o.userId)) && v.delete != Disabled)
  {
  }

  /** A card's pieces count is the answer's item count, and zero when the answer has none. */
  lemma FeedPiecesLabel(o: FeedOutfit)
    requires o.items.None?
    ensures PiecesLabel(|ToCard(o).items|) == "0 pieces"
  {
    assert NatToDecimal(0) == "0";
  }

  /** The URL `fetchOutfits` requests for a page. */
  function FeedUrl(page: Option<int>): string
  {
    "/api/outfits?page=" + PageText(page)
  }

  /** What the feed's `onDelete` sends when a card confirms deleting outfit `id`. The feed
      passes `handleAdminDelete`, which ignores the id and only re-fetches the page. */
  function FeedDeleteRequests(page: Option<int>, id: int): seq<Request>
  {
    [Get(FeedUrl(page))]
  }

  /** As written, confirming the owner's delete on a feed card sends no DELETE request,
      so the outfit is not deleted; the page is only fetched again. */
  lemma FeedDeleteSendsNoDelete(page: Option<int>, id: int)
    ensures forall k :: 0 <= k < |FeedDeleteRequests(page, id)| ==> !FeedDeleteRequests(page, id)[k].Delete?
    ensures Delete(OutfitUrl(id)) !in FeedDeleteRequests(page, id)
  {
  }

  /** The corrected callback: delete the outfit, as the owner's own list does, then fetch
      the page again. */
  function CorrectedFeedDeleteRequests(page: Option<int>, id: int): (rs: seq<Request>)
    ensures |rs| == 2 && rs[0] == Delete(OutfitUrl(id)) && rs[1] == Get(FeedUrl(page))
  {
    [Delete(OutfitUrl(id)), Get(FeedUrl(page))]
  }

  /** The corrected callback deletes exactly the outfit the card confirmed and ends with the
      same re-fetch the written one sends. */
  lemma CorrectedFeedDeleteDeletes(page: Option<int>, id: int)
    ensures Delete(OutfitUrl(id)) in CorrectedFeedDeleteRequests(page, id)
    ensures Delete(OutfitUrl(id)) !in FeedDeleteRequests(page, id)
    ensures forall other: int :: other != id ==> Delete(OutfitUrl(other)) !in CorrectedFeedDeleteRequests(page, id)
    ensures CorrectedFeedDeleteRequests(page, id)[1..] == FeedDeleteRequests(page, id)
  {
    forall other: int | other != id
      ensures Delete(OutfitUrl(other)) !in CorrectedFeedDeleteRequests(page, id)
    {
      OutfitUrlDistinct(id, other);
    }
  }

  /** Different outfits have different endpoints. */
  lemma OutfitUrlDistinct(a: int, b: int)
    requires a != b
    ensures OutfitUrl(a) != OutfitUrl(b)
  {
    ParseIntDecimal(a);
    ParseIntDecimal(b);
    assert OutfitUrl(a)[13..] == IntToDecimal(a);
    assert OutfitUrl(b)[13..] == IntToDecimal(b);
  }

  class OutfitsFeed {
    const page: Option<int>
    const currentUserId: Option<string>
    /** What `useAdmin` reports; it changes once the hook has loaded. */
    var admin: AdminStatus
    var outfits: seq<FeedOutfit>
    var totalPages: int
    var isLoading: bool
    /** Every request sent, in order. */
    var requests: seq<Request>

    constructor (query: Option<string>, userId: Option<string>, initialAdmin: AdminStatus)
      ensures page == PageFromQuery(query) && currentUserId == userId && admin == initialAdmin
      ensures outfits == [] && totalPages == 1 && isLoading && requests == []
      ensures View() == Spinner
    {
      page := PageFromQuery(query);
      currentUserId := userId;
      admin := initialAdmin;
      outfits := [];
      totalPages := 1;
      isLoading := true;
      requests := [];
    }

    /** What the list renders. */
    function View(): (v: ListView)
      reads this
      ensures v == Spinner <==> isLoading
      ensures v.Grid? ==> |v.cards| == |outfits|
      ensures v.Grid? ==> forall k :: 0 <= k < |outfits| ==> v.cards[k] == FeedCard(outfits[k], admin, currentUserId)
      ensures v.Grid? ==> v.pagination == PaginationControls("/outfits", page, totalPages)
      ensures v.Grid? && totalPages <= 1 ==> v.pagination == NoPagination
    {
      if isLoading then Spinner
      else
        var status, userId := admin, currentUserId;
        Grid(Seqs.Map(outfits, (o: FeedOutfit) => FeedCard(o, status, userId)),
             PaginationControls("/outfits", page, totalPages))
    }

    /** `useAdmin` finishing. */
    method AdminLoaded(isAdmin: bool)
      modifies this`admin
      ensures admin == AdminStatus(isAdmin, false)
    {
      admin := AdminStatus(isAdmin, false);
    }

    /** The start of `fetchOutfits`: loading on, the page requested. */
    method BeginFetch()
      modifies this`isLoading, this`requests
      ensures isLoading && requests == old(requests) + [Get(FeedUrl(page))]
    {
      isLoading := true;
      requests := requests + [Get(FeedUrl(page))];
    }

    /** The end of `fetchOutfits`: a good answer replaces the list and the page count, a
        failed one keeps both; loading is off either way. */
    method FinishFetch(answer: Option<PageData<FeedOutfit>>)
      modifies this`outfits, this`totalPages, this`isLoading
      ensures answer.Some? ==> outfits == answer.value.outfits && totalPages == answer.value.totalPages
      ensures answer.None? ==> outfits == old(outfits) && totalPages == old(totalPages)
      ensures !isLoading
    {
      if answer.Some? {
        outfits := answer.value.outfits;
        totalPages := answer.value.totalPages;
      }
      isLoading := false;
    }

    /** `handleAdminDelete`, which the feed passes to every card as `onDelete`; the card
        calls it with the outfit's id when its owner confirms the delete dialog. It ignores
        the id and re-fetches the current page. The card's own admin delete button does
        not come here: it reloads the window. */
    method HandleAdminDelete(outfitId: int)
      modifies this`isLoading, this`requests
      ensures isLoading && requests == old(requests) + FeedDeleteRequests(page, outfitId)
      ensures |requests| > 0 && requests[|requests| - 1] == Get("/api/outfits?page=" + PageText(page))
    {
      BeginFetch();
    }
  }
}
