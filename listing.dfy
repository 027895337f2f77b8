/**
 * What the two outfit list pages (app/my-outfits/page.tsx and app/outfits/page.tsx) share:
 * the page number read from the query string, the pagination controls under the grid and
 * what the list shows while loading and after.
 */
module Listing {
  import opened Wrappers
  import opened JsText
  import opened OutfitCard

  /** `parseInt(searchParams.get("page") || "1")`; `None` stands for NaN. An absent or
      empty parameter falls back to "1". */
  function PageFromQuery(q: Option<string>): (page: Option<int>)
    ensures q.None? ==> page == Some(1)
    ensures q == Some("") ==> page == Some(1)
  {
    assert ParseInt("1") == Some(1) by { ParseIntDecimal(1); }
    ParseInt(if q.Some? && q.value != "" then q.value else "1")
  }

  /** How a page number renders inside a template literal: NaN prints as "NaN". */
  function PageText(page: Option<int>): (text: string)
    ensures text != []
    ensures page.None? ==> text == "NaN"
    ensures page.Some? ==> ParseInt(text) == page
  {
    if page.Some? then ParseIntDecimal(page.value); IntToDecimal(page.value) else "NaN"
  }

  /** `${base}?page=${n}`. */
  function PageLink(base: string, n: int): (href: string)
    ensures |href| > |base| + 6 && href[..|base|] == base && href[|base|..|base| + 6] == "?page="
  {
    base + "?page=" + IntToDecimal(n)
  }

  /** The query value of a page link reads back as the page it was built from. */
  lemma PageLinkRoundTrip(base: string, n: int)
    ensures PageFromQuery(Some(PageLink(base, n)[|base| + 6..])) == Some(n)
  {
    assert PageLink(base, n)[|base| + 6..] == IntToDecimal(n);
    ParseIntDecimal(n);
  }

  /** The pagination row: nothing, or an optional "Previous" link, the "Page X of Y" text and
      an optional "Next" link. */
  datatype Controls = NoPagination | Pager(previous: Option<string>, caption: string, next: Option<string>)

  /** `totalPages > 1 ? (… page > 1 && Previous … page < totalPages && Next …) : null`. A NaN
      page compares false against everything, so it gets neither link. */
  function PaginationControls(base: string, page: Option<int>, totalPages: int): (c: Controls)
    ensures c.NoPagination? <==> totalPages <= 1
    ensures c.Pager? ==> (c.previous.Some? <==> page.Some? && page.value > 1)
    ensures c.Pager? ==> (c.next.Some? <==> page.Some? && page.value < totalPages)
    ensures c.Pager? && c.previous.Some? ==> c.previous == Some(PageLink(base, page.value - 1))
    ensures c.Pager? && c.next.Some? ==> c.next == Some(PageLink(base, page.value + 1))
    ensures c.Pager? ==> c.caption == "Page " + PageText(page) + " of " + IntToDecimal(totalPages)
  {
    if totalPages <= 1 then NoPagination
    else
      Pager(if page.Some? && page.value > 1 then Some(PageLink(base, page.value - 1)) else None,
            "Page " + PageText(page) + " of " + IntToDecimal(totalPages),
            if page.Some? && page.value < totalPages then Some(PageLink(base, page.value + 1)) else None)
  }

  /** Following "Previous" or "Next" lands on the neighbouring page. */
  lemma LinksReachNeighbours(base: string, page: Option<int>, totalPages: int)
    requires PaginationControls(base, page, totalPages).Pager?
    ensures var c := PaginationControls(base, page, totalPages);
            (c.previous.Some? ==> PageFromQuery(Some(c.previous.value[|base| + 6..])) == Some(page.value - 1)) &&
            (c.next.Some? ==> PageFromQuery(Some(c.next.value[|base| + 6..])) == Some(page.value + 1))
  {
    var c := PaginationControls(base, page, totalPages);
    if c.previous.Some? {
      PageLinkRoundTrip(base, page.value - 1);
    }
    if c.next.Some? {
      PageLinkRoundTrip(base, page.value + 1);
    }
  }

  /** Without a page parameter the list shows the first page and offers no "Previous". */
  lemma DefaultPageHasNoPrevious(base: string, totalPages: int)
    ensures PageFromQuery(None) == Some(1)
    ensures PaginationControls(base, PageFromQuery(None), totalPages).Pager? ==>
            PaginationControls(base, PageFromQuery(None), totalPages).previous.None?
  {
  }

  /** On a page both neighbours of which exist, both links are offered. */
  lemma MiddlePageHasBothLinks(base: string, page: int, totalPages: int)
    requires 1 < page < totalPages
    ensures var c := PaginationControls(base, Some(page), totalPages);
            c.Pager? && c.previous.Some? && c.next.Some?
  {
  }

  /** What a list page renders: the spinner while loading, otherwise the cards (an empty
      list shows the "no outfits" message) followed by the pagination row. */
  datatype ListView = Spinner | Grid(cards: seq<CardProps>, pagination: Controls)

  /** The JSON a list endpoint answers with. */
  datatype PageData<T> = PageData(outfits: seq<T>, totalPages: int)

  /** A request a page sends, by method and URL. */
  datatype Request = Get(url: string) | Post(url: string) | Delete(url: string)

  /** The endpoint of one outfit. */
  function OutfitUrl(id: int): string
  {
    "/api/outfits/" + IntToDecimal(id)
  }
}
