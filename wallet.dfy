/** The therapist's earnings page (Wallet): the transaction query built from
    the filters and explicit overrides, the page navigation, the merge of the
    server's pagination reply, and the "Showing X to Y of Z" label. */
module Wallet {
  import opened Text

  const DefaultLimit: int := 10

  datatype Direction = Prev | Next

  /** `{ currentPage, totalPages, limit, totalItems }` */
  datatype Pagination = Pagination(currentPage: int, totalPages: int, limit: int, totalItems: int)

  /** The pagination part of a wallet reply. */
  datatype PageReply = PageReply(currentPage: int, totalPages: int, totalItems: int)

  /** The arguments of fetchWalletData; None is an absent key, and Some("")
      an explicit empty string. */
  datatype Overrides = Overrides(
    page: Option<int>,
    txType: Option<string>,
    startDate: Option<string>,
    endDate: Option<string>)

  /** The query sent to the wallet service; None is `undefined`. */
  datatype WalletQuery = WalletQuery(
    page: int,
    limit: int,
    txType: Option<string>,
    startDate: Option<string>,
    endDate: Option<string>)

  /** `value || undefined`: an empty filter is not sent. */
  function Sent(value: string): (r: Option<string>)
    ensures r.None? <==> value == ""
    ensures r.Some? ==> r.value == value
  {
    if value == "" then None else Some(value)
  }

  /** fetchWalletData's query: each override given, even '', wins over the
      page's own state (`??`), then empty filters are dropped. */
  function Query(o: Overrides, p: Pagination, txType: string, startDate: string, endDate: string)
    : (q: WalletQuery)
    ensures q.limit == p.limit
    ensures q.page == if o.page.Some? then o.page.value else p.currentPage
    ensures q.txType == Sent(if o.txType.Some? then o.txType.value else txType)
    ensures q.startDate == Sent(if o.startDate.Some? then o.startDate.value else startDate)
    ensures q.endDate == Sent(if o.endDate.Some? then o.endDate.value else endDate)
  {
    WalletQuery(o.page.GetOr(p.currentPage), p.limit,
                Sent(o.txType.GetOr(txType)), Sent(o.startDate.GetOr(startDate)),
                Sent(o.endDate.GetOr(endDate)))
  }

  /** The overrides of Clear Filters: page 1 and three explicit ''. */
  const ClearOverrides := Overrides(Some(1), Some(""), Some(""), Some(""))

  /** Clear Filters asks for the unfiltered first page whatever the filter
      fields still hold when the request is built. */
  lemma ClearedQueryIgnoresState(p: Pagination, txType: string, startDate: string, endDate: string)
    ensures Query(ClearOverrides, p, txType, startDate, endDate)
            == WalletQuery(1, p.limit, None, None, None)
  {
  }

  /** An explicit '' override and a '' field send the same query. */
  lemma EmptyOverrideLikeEmptyField(p: Pagination, startDate: string, endDate: string, txType: string)
    ensures Query(Overrides(Some(1), Some(""), None, None), p, txType, startDate, endDate)
            == Query(Overrides(Some(1), None, None, None), p, "", startDate, endDate)
  {
  }

  /** handlePageChange: the page before or after the current one, or nothing
      when that page is outside 1..totalPages. */
  function TargetPage(p: Pagination, d: Direction): (r: Option<int>)
    ensures r.Some? ==> 1 <= r.value <= p.totalPages
    ensures r.Some? ==> r.value == if d == Next then p.currentPage + 1 else p.currentPage - 1
    ensures r.None? <==> var t := if d == Next then p.currentPage + 1 else p.currentPage - 1;
                         t < 1 || t > p.totalPages
  {
    var target := if d == Next then p.currentPage + 1 else p.currentPage - 1;
    if target < 1 || target > p.totalPages then None else Some(target)
  }

  predicate PreviousDisabled(p: Pagination) {
    p.currentPage <= 1
  }

  predicate NextDisabled(p: Pagination) {
    p.currentPage >= p.totalPages
  }

  /** On a page within 1..totalPages, a button is enabled exactly when
      pressing it requests another page. */
  lemma ButtonsMatchPageChange(p: Pagination)
    requires 1 <= p.currentPage <= p.totalPages
    ensures !PreviousDisabled(p) <==> TargetPage(p, Prev).Some?
    ensures !NextDisabled(p) <==> TargetPage(p, Next).Some?
  {
  }

  /** Next then Prev comes back to the same page. */
  lemma NextThenPrevious(p: Pagination)
    requires p.currentPage >= 1 && TargetPage(p, Next).Some?
    ensures TargetPage(p.(currentPage := TargetPage(p, Next).value), Prev) == Some(p.currentPage)
  {
  }

  /** The pagination after a reply: the page limit is kept, the rest is the
      reply's. */
  function Merge(prev: Pagination, reply: PageReply): (p: Pagination)
    ensures p.limit == prev.limit
    ensures p.currentPage == reply.currentPage && p.totalPages == reply.totalPages
    ensures p.totalItems == reply.totalItems
  {
    prev.(currentPage := reply.currentPage, totalPages := reply.totalPages,
          totalItems := reply.totalItems)
  }

  /** "Showing first to last": the positions of the first and last
      transactions of the current page. */
  function RangeLabel(p: Pagination): (r: (int, int))
    ensures r.0 == (p.currentPage - 1) * p.limit + 1
    ensures r.1 <= p.currentPage * p.limit && r.1 <= p.totalItems
    ensures r.1 == p.currentPage * p.limit || r.1 == p.totalItems
  {
    var last := if p.currentPage * p.limit < p.totalItems then p.currentPage * p.limit
                else p.totalItems;
    ((p.currentPage - 1) * p.limit + 1, last)
  }

  /** On a non-empty page the label names at least one and at most `limit`
      transactions, none beyond the total. */
  lemma RangeLabelBounds(p: Pagination)
    requires p.currentPage >= 1 && p.limit >= 1
    requires (p.currentPage - 1) * p.limit < p.totalItems
    ensures var r := RangeLabel(p);
      1 <= r.0 <= r.1 <= p.totalItems && r.1 - r.0 + 1 <= p.limit
  {
    var r := RangeLabel(p);
    assert p.currentPage * p.limit == (p.currentPage - 1) * p.limit + p.limit;
  }

  /** Consecutive pages have consecutive labels: the next page starts right
      after the current one ends. */
  lemma RangeLabelsAdjacent(p: Pagination)
    requires p.currentPage >= 1 && p.limit >= 1
    requires p.currentPage * p.limit < p.totalItems
    ensures RangeLabel(p.(currentPage := p.currentPage + 1)).0 == RangeLabel(p).1 + 1
  {
    assert (p.currentPage + 1 - 1) * p.limit == p.currentPage * p.limit;
  }

  /** The page's filter fields and pagination. */
  class WalletPage {
    var txType: string
    var startDate: string
    var endDate: string
    var pagination: Pagination

    constructor ()
      ensures txType == "" && startDate == "" && endDate == ""
      ensures pagination == Pagination(1, 1, DefaultLimit, 0)
    {
      txType := "";
      startDate := "";
      endDate := "";
      pagination := Pagination(1, 1, DefaultLimit, 0);
    }

    /** The query fetchWalletData sends with the given overrides. */
    function QueryFor(o: Overrides): WalletQuery
      reads this
    {
      Query(o, pagination, txType, startDate, endDate)
    }

    /** Apply Filters: the first page with the current filters. */
    method HandleApplyFilters() returns (q: WalletQuery)
      ensures q == WalletQuery(1, pagination.limit, Sent(txType), Sent(startDate), Sent(endDate))
    {
      q := QueryFor(Overrides(Some(1), None, None, None));
    }

    /** Clear Filters: the three filters are emptied and the unfiltered
        first page is requested. */
    method HandleClearFilters() returns (q: WalletQuery)
      modifies this
      ensures txType == "" && startDate == "" && endDate == ""
      ensures pagination == old(pagination)
      ensures q == WalletQuery(1, pagination.limit, None, None, None)
    {
      q := QueryFor(ClearOverrides);
      txType := "";
      startDate := "";
      endDate := "";
    }

    /** handlePageChange: the request for the neighbouring page, if any. */
    method HandlePageChange(d: Direction) returns (q: Option<WalletQuery>)
      ensures q.Some? <==> TargetPage(pagination, d).Some?
      ensures q.Some? ==> q.value == WalletQuery(TargetPage(pagination, d).value, pagination.limit,
                                                 Sent(txType), Sent(startDate), Sent(endDate))
    {
      var target := TargetPage(pagination, d);
      if target.None? {
        return None;
      }
      q := Some(QueryFor(Overrides(target, None, None, None)));
    }

    /** A wallet reply arrives: its pagination is merged in. */
    method ReceiveWalletData(reply: PageReply)
      modifies this
      ensures pagination == Merge(old(pagination), reply)
      ensures txType == old(txType) && startDate == old(startDate) && endDate == old(endDate)
    {
      pagination := Merge(pagination, reply);
    }
  }
}
