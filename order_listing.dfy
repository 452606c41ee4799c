/**
 * OrdersService.findAll: the admin registry query. Filters narrow the
 * table, one date window applies, an ordering is chosen and a page is cut.
 */
module OrderListing {
  import opened Wrappers
  import opened Calendar
  import opened Entities
  import Seqs
  import Sorting

  datatype SortOrder = Asc | Desc

  /**
   * The query parameters. An absent or empty parameter is None; `page` and
   * `limit` are 0 when absent (0 is falsy too).
   */
  datatype Filters = Filters(
    date: Option<Date>,
    startDate: Option<Date>,
    endDate: Option<Date>,
    cityFromId: Option<Id>,
    cityToId: Option<Id>,
    paymentStatus: Option<PaymentStatus>,
    sortBy: Option<string>,
    sortOrder: Option<SortOrder>,
    page: nat,
    limit: nat)

  /** The reply: one page of orders, the number of all matches, and the page and limit echoed. */
  datatype Listing = Listing(orders: seq<Order>, total: nat, page: nat, limit: nat)

  /**
   * The date window on startDate: `date` selects that day and takes
   * precedence; otherwise the inclusive range applies only when both
   * bounds are given.
   */
  predicate InDateWindow(f: Filters, d: Date) {
    if f.date.Some? then d == f.date.value
    else if f.startDate.Some? && f.endDate.Some? then Le(f.startDate.value, d) && Le(d, f.endDate.value)
    else true
  }

  /** An order passes every given filter. */
  predicate Matches(f: Filters, o: Order) {
    && (f.cityFromId.Some? ==> o.cityFromId == f.cityFromId.value)
    && (f.cityToId.Some? ==> o.cityToId == f.cityToId.value)
    && (f.paymentStatus.Some? ==> o.paymentStatus == f.paymentStatus.value)
    && InDateWindow(f, o.startDate)
  }

  function DateAsc(a: Order, b: Order): bool { Le(a.startDate, b.startDate) }
  function DateDesc(a: Order, b: Order): bool { Le(b.startDate, a.startDate) }
  function PriceAsc(a: Order, b: Order): bool { a.totalPrice <= b.totalPrice }
  function PriceDesc(a: Order, b: Order): bool { b.totalPrice <= a.totalPrice }
  function NewestFirst(a: Order, b: Order): bool { b.createdAt <= a.createdAt }

  lemma OrderingsArePreorders()
    ensures Sorting.IsTotalPreorder(DateAsc) && Sorting.IsTotalPreorder(DateDesc)
    ensures Sorting.IsTotalPreorder(PriceAsc) && Sorting.IsTotalPreorder(PriceDesc)
    ensures Sorting.IsTotalPreorder(NewestFirst)
  {
    forall a: Order, b: Order ensures DateAsc(a, b) || DateAsc(b, a) {
      LeIsTotalOrder(a.startDate, b.startDate, b.startDate);
    }
    forall a: Order, b: Order, c: Order | DateAsc(a, b) && DateAsc(b, c) ensures DateAsc(a, c) {
      LeIsTotalOrder(a.startDate, b.startDate, c.startDate);
    }
    forall a: Order, b: Order, c: Order | DateDesc(a, b) && DateDesc(b, c) ensures DateDesc(a, c) {
      LeIsTotalOrder(c.startDate, b.startDate, a.startDate);
    }
  }

  /** The direction of a given sortBy: ASC unless DESC is asked for. */
  predicate Descending(f: Filters) {
    f.sortOrder == Some(Desc)
  }

  /**
   * The ORDER BY: "date" or "price" sorts by startDate or totalPrice in the
   * direction; another sortBy leaves the matches as they come; no sortBy
   * puts the newest first.
   */
  function Arrange(f: Filters, s: seq<Order>): (r: seq<Order>)
    ensures multiset(r) == multiset(s)
    ensures !Truthy(f.sortBy) ==> forall i, j :: 0 <= i < j < |r| ==> r[i].createdAt >= r[j].createdAt
    ensures Truthy(f.sortBy) && f.sortBy.value == "date" ==>
      forall i, j :: 0 <= i < j < |r| ==>
        if Descending(f) then Le(r[j].startDate, r[i].startDate) else Le(r[i].startDate, r[j].startDate)
    ensures Truthy(f.sortBy) && f.sortBy.value == "price" ==>
      forall i, j :: 0 <= i < j < |r| ==>
        if Descending(f) then r[j].totalPrice <= r[i].totalPrice else r[i].totalPrice <= r[j].totalPrice
    ensures Truthy(f.sortBy) && f.sortBy.value != "date" && f.sortBy.value != "price" ==> r == s
  {
    OrderingsArePreorders();
    if Truthy(f.sortBy) then
      if f.sortBy.value == "date" then
        Sorting.InsertionSort(s, if Descending(f) then DateDesc else DateAsc)
      else if f.sortBy.value == "price" then
        Sorting.InsertionSort(s, if Descending(f) then PriceDesc else PriceAsc)
      else s
    else Sorting.InsertionSort(s, NewestFirst)
  }

  /** skip((page - 1) * limit).take(limit), applied only when both are given. */
  function Paginate(s: seq<Order>, page: nat, limit: nat): (r: seq<Order>)
    ensures page == 0 || limit == 0 ==> r == s
    ensures page > 0 && limit > 0 ==>
      var skip := (page - 1) * limit;
      && |r| == (if skip >= |s| then 0 else if skip + limit >= |s| then |s| - skip else limit)
      && forall k :: 0 <= k < |r| ==> r[k] == s[skip + k]
    ensures forall o :: o in r ==> o in s
  {
    if page == 0 || limit == 0 then s
    else
      var skip := (page - 1) * limit;
      if skip >= |s| then [] else s[skip..if skip + limit >= |s| then |s| else skip + limit]
  }

  /** The WHERE clause: the orders passing every filter, in table order. */
  function Matching(rows: seq<Order>, f: Filters): (r: seq<Order>)
    ensures forall o :: o in r <==> o in rows && Matches(f, o)
    ensures Seqs.IsSubsequence(r, rows)
  {
    Seqs.FilterIsSubsequence(rows, o => Matches(f, o));
    Seqs.Filter(rows, o => Matches(f, o))
  }

  /** findAll over the order table. */
  function FindAll(rows: seq<Order>, f: Filters): (r: Listing)
    ensures forall o :: o in r.orders ==> o in rows && Matches(f, o)
    ensures r.total == |Matching(rows, f)|
    ensures f.page == 0 || f.limit == 0 ==> multiset(r.orders) == multiset(Matching(rows, f))
    ensures f.page > 0 && f.limit > 0 ==> |r.orders| <= f.limit
    ensures r.page == (if f.page > 0 then f.page else 1)
    ensures r.limit == (if f.limit > 0 then f.limit else |r.orders|)
    ensures r.orders == Paginate(Arrange(f, Matching(rows, f)), f.page, f.limit)
    ensures forall i, j :: 0 <= i < j < |r.orders| ==> InOrder(f, r.orders[i], r.orders[j])
  {
    var matches := Matching(rows, f);
    var arranged := Arrange(f, matches);
    var paged := Paginate(arranged, f.page, f.limit);
    assert forall o :: o in arranged ==> o in multiset(matches);
    ArrangedInOrder(f, matches);
    PageKeepsOrder(f, arranged, f.page, f.limit);
    Listing(paged, |matches|, if f.page > 0 then f.page else 1, if f.limit > 0 then f.limit else |paged|)
  }

  /**
   * Two orders stand as the ORDER BY asks: newest first without sortBy, by
   * startDate or totalPrice in the direction for "date" or "price", and in
   * any order for another sortBy.
   */
  predicate InOrder(f: Filters, a: Order, b: Order) {
    if !Truthy(f.sortBy) then a.createdAt >= b.createdAt
    else if f.sortBy.value == "date" then
      if Descending(f) then Le(b.startDate, a.startDate) else Le(a.startDate, b.startDate)
    else if f.sortBy.value == "price" then
      if Descending(f) then b.totalPrice <= a.totalPrice else a.totalPrice <= b.totalPrice
    else true
  }

  /** Arrange puts every earlier order in order with every later one. */
  lemma ArrangedInOrder(f: Filters, s: seq<Order>)
    ensures forall i, j :: 0 <= i < j < |Arrange(f, s)| ==> InOrder(f, Arrange(f, s)[i], Arrange(f, s)[j])
  {
  }

  /** A page cut from a sequence in order is in order. */
  lemma PageKeepsOrder(f: Filters, s: seq<Order>, page: nat, limit: nat)
    requires forall i, j :: 0 <= i < j < |s| ==> InOrder(f, s[i], s[j])
    ensures forall i, j :: 0 <= i < j < |Paginate(s, page, limit)| ==>
      InOrder(f, Paginate(s, page, limit)[i], Paginate(s, page, limit)[j])
  {
    var r := Paginate(s, page, limit);
    if page > 0 && limit > 0 {
      var skip := (page - 1) * limit;
      forall i, j | 0 <= i < j < |r| ensures InOrder(f, r[i], r[j]) {
        assert r[i] == s[skip + i] && r[j] == s[skip + j];
      }
    }
  }

  /** Without paging, an order of the table is listed iff it passes every filter. */
  lemma ListedIffMatches(rows: seq<Order>, f: Filters, o: Order)
    requires f.page == 0 || f.limit == 0
    ensures o in FindAll(rows, f).orders <==> o in rows && Matches(f, o)
  {
    var r := FindAll(rows, f);
    var matches := Matching(rows, f);
    assert o in r.orders <==> o in multiset(r.orders);
    assert o in matches <==> o in multiset(matches);
  }

  /**
   * The range bounds matter only when both are given and no single day is:
   * otherwise the listing is the one without them.
   */
  lemma RangeIgnoredUnlessComplete(rows: seq<Order>, f: Filters)
    requires f.date.Some? || f.startDate.None? || f.endDate.None?
    ensures FindAll(rows, f) == FindAll(rows, f.(startDate := None, endDate := None))
  {
    var g := f.(startDate := None, endDate := None);
    Seqs.FilterCongruent(rows, o => Matches(f, o), o => Matches(g, o));
    assert Matching(rows, f) == Matching(rows, g);
    assert Arrange(f, Matching(rows, f)) == Arrange(g, Matching(rows, g));
  }

  /** A range with both bounds keeps exactly the dates between them, both ends included. */
  lemma RangeIsInclusive(f: Filters, d: Date)
    requires f.date.None? && f.startDate.Some? && f.endDate.Some?
    ensures InDateWindow(f, d) <==> Le(f.startDate.value, d) && Le(d, f.endDate.value)
    ensures InDateWindow(f, f.startDate.value) <==> Le(f.startDate.value, f.endDate.value)
  {
    LeIsTotalOrder(f.startDate.value, f.startDate.value, f.endDate.value);
  }

  /** Pages 1..n laid end to end are the first n * limit arranged matches. */
  lemma {:induction false} PagesTile(s: seq<Order>, n: nat, limit: nat)
    requires limit > 0
    ensures Pages(s, n, limit) == s[..if n * limit >= |s| then |s| else n * limit]
  {
    if n > 0 {
      PagesTile(s, n - 1, limit);
      var m := (n - 1) * limit;
      NextOffset(n, limit);
      var a := if m >= |s| then |s| else m;
      var b := if m + limit >= |s| then |s| else m + limit;
      PageIsSlice(s, n, limit, m);
      SliceConcat(s, a, b);
    }
  }

  /** Two adjacent slices from the start make one. */
  lemma SliceConcat(s: seq<Order>, a: nat, b: nat)
    requires a <= b <= |s|
    ensures s[..a] + s[a..b] == s[..b]
  {
  }

  /** The offset of page n + 1 is one limit past that of page n. */
  lemma NextOffset(n: nat, limit: nat)
    requires n > 0
    ensures 0 <= (n - 1) * limit && n * limit == (n - 1) * limit + limit
  {
  }

  /** Page n is the slice from its offset m = (n - 1) * limit, cut at the end of the sequence. */
  lemma PageIsSlice(s: seq<Order>, n: nat, limit: nat, m: nat)
    requires n > 0 && limit > 0 && m == (n - 1) * limit
    ensures Paginate(s, n, limit) == s[if m >= |s| then |s| else m..if m + limit >= |s| then |s| else m + limit]
  {
  }

  /** The concatenation of pages 1..n. */
  function Pages(s: seq<Order>, n: nat, limit: nat): seq<Order>
    requires limit > 0
  {
    if n == 0 then [] else Pages(s, n - 1, limit) + Paginate(s, n, limit)
  }
}
