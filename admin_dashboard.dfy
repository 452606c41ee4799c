/**
 * The admin dashboard: the query it sends for the registry and the
 * search it applies, in the browser, to the orders it received.
 */
module AdminDashboard {
  import opened Wrappers
  import opened Strings
  import opened Entities
  import Seqs
  import OrderListing

  /** An order as the registry returns it, with its user and cities joined in. */
  datatype DashboardOrder = DashboardOrder(
    order: Order,
    cityFromName: string,
    cityToName: string,
    userFullName: string,
    userPhone: string)

  /** The dashboard's filter inputs; an empty input is unset. */
  datatype DashboardFilters = DashboardFilters(
    paymentStatus: string,
    dateFrom: string,
    dateTo: string,
    search: string)

  /** The query parameters of the registry request. */
  datatype QueryParams = QueryParams(
    paymentStatus: Option<string>,
    startDate: Option<string>,
    endDate: Option<string>)

  /** fetchOrders: each of the three filters is sent only when it is non-empty. */
  function FetchParams(f: DashboardFilters): (p: QueryParams)
    ensures p.paymentStatus.Some? <==> f.paymentStatus != ""
    ensures p.startDate.Some? <==> f.dateFrom != ""
    ensures p.endDate.Some? <==> f.dateTo != ""
    ensures p.paymentStatus.Some? ==> p.paymentStatus.value == f.paymentStatus
    ensures p.startDate.Some? ==> p.startDate.value == f.dateFrom
    ensures p.endDate.Some? ==> p.endDate.value == f.dateTo
  {
    QueryParams(
      if f.paymentStatus != "" then Some(f.paymentStatus) else None,
      if f.dateFrom != "" then Some(f.dateFrom) else None,
      if f.dateTo != "" then Some(f.dateTo) else None)
  }

  /**
   * What the registry receives from this request: no single day, and a
   * range bound exactly where the request carries one.
   */
  predicate Receives(p: QueryParams, g: OrderListing.Filters) {
    && g.date.None?
    && (g.startDate.Some? <==> p.startDate.Some?)
    && (g.endDate.Some? <==> p.endDate.Some?)
  }

  /**
   * Picking only one of "from" and "to" filters nothing by date: the
   * registry answers as if neither had been picked.
   */
  lemma OneBoundFiltersNothing(rows: seq<Order>, f: DashboardFilters, g: OrderListing.Filters)
    requires f.dateFrom == "" || f.dateTo == ""
    requires Receives(FetchParams(f), g)
    ensures OrderListing.FindAll(rows, g) == OrderListing.FindAll(rows, g.(startDate := None, endDate := None))
  {
    OrderListing.RangeIgnoredUnlessComplete(rows, g);
  }

  /**
   * The search test for an already lower-cased needle: the user's name,
   * the car brand and both city names are lower-cased; the phone is
   * searched as it is.
   */
  predicate MatchesSearch(o: DashboardOrder, needle: string) {
    || Contains(Lower(o.userFullName), needle)
    || Contains(o.userPhone, needle)
    || Contains(Lower(o.order.carBrand), needle)
    || Contains(Lower(o.cityFromName), needle)
    || Contains(Lower(o.cityToName), needle)
  }

  /**
   * applyFilters: a copy of the list, narrowed by the search when one is
   * typed. The order of the list is kept.
   */
  function ApplyFilters(orders: seq<DashboardOrder>, search: string): (r: seq<DashboardOrder>)
    ensures search == "" ==> r == orders
    ensures Seqs.IsSubsequence(r, orders)
    ensures forall o :: o in r <==> o in orders && (search == "" || MatchesSearch(o, Lower(search)))
  {
    if search == "" then
      Seqs.FilterAll(orders, o => true);
      Seqs.FilterIsSubsequence(orders, o => true);
      orders
    else
      Seqs.FilterIsSubsequence(orders, o => MatchesSearch(o, Lower(search)));
      Seqs.Filter(orders, o => MatchesSearch(o, Lower(search)))
  }

  /** The empty search matches everything, so applyFilters is always the search filter. */
  lemma ApplyFiltersIsSearch(orders: seq<DashboardOrder>, search: string)
    ensures ApplyFilters(orders, search) == Seqs.Filter(orders, o => MatchesSearch(o, Lower(search)))
  {
    if search == "" {
      forall o | o in orders ensures MatchesSearch(o, Lower(search)) {
        ContainsEmpty(o.userPhone);
      }
      Seqs.FilterAll(orders, o => MatchesSearch(o, Lower(search)));
    }
  }

  /** The search ignores the case of what is typed. */
  lemma SearchIgnoresCase(orders: seq<DashboardOrder>, search: string)
    ensures ApplyFilters(orders, Lower(search)) == ApplyFilters(orders, search)
  {
    LowerIdempotent(search);
    ApplyFiltersIsSearch(orders, search);
    ApplyFiltersIsSearch(orders, Lower(search));
  }
}
