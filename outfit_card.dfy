/**
 * The outfit card (components/ui/outfit-card.tsx): who counts as the owner, which
 * controls it shows, where it links, its delete-confirmation dialog and its pieces label.
 */
module OutfitCard {
  import opened Wrappers
  import opened JsText
  import opened OutfitFields

  /** The outfit a card shows. */
  datatype CardOutfit = CardOutfit(id: int, name: string, description: Option<string>, imageUrl: Option<string>,
                                   tags: seq<string>, isPrivate: bool, shareSlug: Option<string>,
                                   createdAt: string, items: seq<OutfitItem>, userId: Option<string>)

  /** The card's props; `onShare` and `onDelete` are recorded as given or not. */
  datatype CardProps = CardProps(outfit: CardOutfit, showActions: bool, hasOnShare: bool, hasOnDelete: bool,
                                 sharingOutfit: Option<int>, deletingOutfit: Option<int>,
                                 currentUserId: Option<string>)

  /** What the admin hook reports. */
  datatype AdminStatus = AdminStatus(isAdmin: bool, loading: bool)

  datatype Button = Absent | Enabled | Disabled

  /** The overlay over the image: nothing, or the privacy label and the three controls. */
  datatype Overlay = NoOverlay | Overlay(privacyLabel: string, share: Button, delete: Button, adminDelete: bool)

  /** `currentUserId && outfit.userId && currentUserId === outfit.userId`. */
  predicate IsOwner(currentUserId: Option<string>, userId: Option<string>)
  {
    currentUserId.Some? && currentUserId.value != "" &&
    userId.Some? && userId.value != "" &&
    currentUserId.value == userId.value
  }

  /** A button that is shown when `shown` holds, disabled while its action runs for this outfit. */
  function ButtonFor(shown: bool, busy: Option<int>, id: int): (b: Button)
    ensures b == Absent <==> !shown
    ensures b == Disabled <==> shown && busy == Some(id)
  {
    if !shown then Absent else if busy == Some(id) then Disabled else Enabled
  }

  /** The overlay the card renders. */
  function ActionOverlay(p: CardProps, admin: AdminStatus): (r: Overlay)
    ensures r == NoOverlay <==> !p.showActions
    ensures r.Overlay? ==> r.privacyLabel == (if p.outfit.isPrivate then "Private" else "Public")
    ensures r.Overlay? ==> (r.share != Absent <==> !p.outfit.isPrivate && p.hasOnShare)
    ensures r.Overlay? ==> (r.delete != Absent <==> p.hasOnDelete && IsOwner(p.currentUserId, p.outfit.userId))
    ensures r.Overlay? ==> (r.adminDelete <==> !p.outfit.isPrivate && admin.isAdmin && !admin.loading)
    ensures r.Overlay? ==> (r.share == Disabled <==> r.share != Absent && p.sharingOutfit == Some(p.outfit.id))
    ensures r.Overlay? ==> (r.delete == Disabled <==> r.delete != Absent && p.deletingOutfit == Some(p.outfit.id))
  {
    if !p.showActions then NoOverlay
    else
      Overlay(if p.outfit.isPrivate then "Private" else "Public",
              ButtonFor(!p.outfit.isPrivate && p.hasOnShare, p.sharingOutfit, p.outfit.id),
              ButtonFor(p.hasOnDelete && IsOwner(p.currentUserId, p.outfit.userId), p.deletingOutfit, p.outfit.id),
              !p.outfit.isPrivate && admin.isAdmin && !admin.loading)
  }

  /** A private outfit never offers sharing or the admin delete, whoever looks at it. */
  lemma PrivateOutfitControls(p: CardProps, admin: AdminStatus)
    requires p.outfit.isPrivate
    ensures ActionOverlay(p, admin) == NoOverlay ||
            (ActionOverlay(p, admin).share == Absent && !ActionOverlay(p, admin).adminDelete)
  {
  }

  /** A viewer who is not signed in, or whose id differs from the outfit's, never gets the
      owner's delete button. */
  lemma NonOwnerCannotDelete(p: CardProps, admin: AdminStatus)
    requires p.currentUserId.None? || p.outfit.userId.None? || p.currentUserId != p.outfit.userId
    ensures !ActionOverlay(p, admin).Overlay? || ActionOverlay(p, admin).delete == Absent
  {
  }

  /** The link target: "#" while the dialog is open, the outfit's page otherwise. */
  function Href(dialogOpen: bool, id: int): (href: string)
    ensures dialogOpen ==> href == "#"
    ensures !dialogOpen ==> |href| > 9 && href[..9] == "/outfits/" && ParseInt(href[9..]) == Some(id)
  {
    if dialogOpen then "#"
    else
      var href := "/outfits/" + IntToDecimal(id);
      assert href[9..] == IntToDecimal(id);
      ParseIntDecimal(id);
      href
  }

  /** `${n} piece${n !== 1 ? 's' : ''}`. */
  function PiecesLabel(n: nat): (text: string)
    ensures |text| > 6
    ensures text[|text| - 6..] == " piece" <==> n == 1
    ensures n != 1 <==> text[|text| - 7..] == " pieces"
  {
    var text := NatToDecimal(n) + " piece" + (if n != 1 then "s" else "");
    assert n != 1 ==> text[|text| - 1] == 's' && text[|text| - 7..] == " pieces";
    assert n == 1 ==> text[|text| - 6..] == " piece";
    text
  }

  /** The tag line under the name: shown only when there are tags, as `tags.join(', ')`;
      for well-formed tags it is exactly the text the tag parser reads back. */
  function TagsLine(tags: seq<string>): (line: Option<string>)
    ensures line.None? <==> tags == []
    ensures AllTags(tags) && line.Some? ==> ParseTags(line.value) == tags
  {
    if tags == [] then None
    else if AllTags(tags) then TagsRoundTrip(tags); Some(Join(tags, ", "))
    else Some(Join(tags, ", "))
  }

  /** The card's only state: whether the delete dialog is open; and, as a record, every
      call it makes to `onDelete`. */
  class CardState {
    var showDeleteDialog: bool
    var deleteCalls: seq<int>

    constructor ()
      ensures !showDeleteDialog && deleteCalls == []
    {
      showDeleteDialog := false;
      deleteCalls := [];
    }

    /** `handleDeleteClick`. */
    method HandleDeleteClick()
      modifies this`showDeleteDialog
      ensures showDeleteDialog
    {
      showDeleteDialog := true;
    }

    /** `handleConfirmDelete`: calls `onDelete(outfit.id)` and then closes the dialog; without
        `onDelete` nothing happens and the dialog stays as it was. */
    method HandleConfirmDelete(outfitId: int, hasOnDelete: bool)
      modifies this
      ensures hasOnDelete ==> deleteCalls == old(deleteCalls) + [outfitId] && !showDeleteDialog
      ensures !hasOnDelete ==> deleteCalls == old(deleteCalls) && showDeleteDialog == old(showDeleteDialog)
    {
      if hasOnDelete {
        deleteCalls := deleteCalls + [outfitId];
        showDeleteDialog := false;
      }
    }

    /** The dialog's close callback. */
    method Close()
      modifies this`showDeleteDialog
      ensures !showDeleteDialog
    {
      showDeleteDialog := false;
    }
  }
}
