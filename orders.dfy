/**
 * OrdersService: quoting a route, creating an order from a fresh
 * calculation, looking one up and overwriting its payment status.
 */
module Orders {
  import opened Wrappers
  import opened Calendar
  import opened Entities
  import opened Distance
  import Seqs
  import Cities
  import Users
  import PriceCalculator

  /** CalculateOrderDto; the date string has already been parsed to a calendar date. */
  datatype CalculateOrderDto = CalculateOrderDto(carBrand: string, cityFromId: Id, cityToId: Id, startDate: Date)

  /** CreateOrderDto: the calculation request plus the ordering user. */
  datatype CreateOrderDto = CreateOrderDto(carBrand: string, cityFromId: Id, cityToId: Id, startDate: Date, userId: Id)

  function AsCalculation(dto: CreateOrderDto): CalculateOrderDto {
    CalculateOrderDto(dto.carBrand, dto.cityFromId, dto.cityToId, dto.startDate)
  }

  /**
   * calculate: not-found when either city is unknown; otherwise the
   * calculator's quote for the two names and the date. Nothing is stored.
   */
  function Calculate(dto: CalculateOrderDto, cities: seq<City>, tariffs: seq<Tariff>,
                     apiKey: Option<string>, reply: Option<Metres>): (r: Result<PriceCalculator.Quote>)
    ensures r.Err? <==> Cities.FindOne(cities, dto.cityFromId).Err? || Cities.FindOne(cities, dto.cityToId).Err?
    ensures r.Err? ==> r.error == NotFound
    ensures r.Ok? ==>
      exists from, to :: from in cities && to in cities && from.id == dto.cityFromId && to.id == dto.cityToId &&
        r.value == PriceCalculator.Calculate(from.name, to.name, dto.startDate, tariffs, apiKey, reply)
  {
    match Cities.FindOne(cities, dto.cityFromId)
    case Err(e) => Err(e)
    case Ok(from) =>
      match Cities.FindOne(cities, dto.cityToId)
      case Err(e) => Err(e)
      case Ok(to) => Ok(PriceCalculator.Calculate(from.name, to.name, dto.startDate, tariffs, apiKey, reply))
  }

  /** The quote fields of a stored order. */
  function QuoteOf(o: Order): PriceCalculator.Quote {
    PriceCalculator.Quote(o.distance, o.appliedTariff, o.transportPrice, o.insurancePrice, o.totalPrice,
                          o.durationHours, o.durationDays, o.estimatedArrivalDate, o.isFixedRoute)
  }

  /**
   * The row create builds: the DTO's fields, overlaid by every field of the
   * calculation, with the column defaults (status unpaid, creation time).
   */
  function NewOrder(id: Id, dto: CreateOrderDto, q: PriceCalculator.Quote, now: nat): (o: Order)
    ensures QuoteOf(o) == q
    ensures o.id == id && o.paymentStatus == Unpaid && o.createdAt == now
    ensures o.userId == dto.userId && o.carBrand == dto.carBrand && o.startDate == dto.startDate
    ensures o.cityFromId == dto.cityFromId && o.cityToId == dto.cityToId
  {
    Order(id, dto.userId, dto.carBrand, dto.cityFromId, dto.cityToId, dto.startDate,
          q.distance, q.appliedTariff, q.isFixedRoute, q.transportPrice, q.insurancePrice, q.totalPrice,
          q.durationHours, q.durationDays, q.estimatedArrivalDate, Unpaid, now)
  }

  /** findOne: the order with that id, or not-found. */
  function FindOne(rows: seq<Order>, id: Id): (r: Result<Order>)
    ensures r.Ok? <==> exists o :: o in rows && o.id == id
    ensures r.Ok? ==> r.value in rows && r.value.id == id
    ensures r.Err? ==> r.error == NotFound
  {
    match Seqs.FindFirst(rows, (o: Order) => o.id == id)
    case Some(o) => Ok(o)
    case None => Err(NotFound)
  }

  predicate IdsUnique(rows: seq<Order>) {
    forall i, j :: 0 <= i < j < |rows| ==> rows[i].id != rows[j].id
  }

  /** The rows after storing `status` on the order with that id; every other field and row is kept. */
  function SetPaymentStatus(rows: seq<Order>, id: Id, status: PaymentStatus): (r: seq<Order>)
    ensures |r| == |rows|
    ensures forall i :: 0 <= i < |rows| ==> r[i] == if rows[i].id == id then rows[i].(paymentStatus := status) else rows[i]
  {
    seq(|rows|, i requires 0 <= i < |rows| => if rows[i].id == id then rows[i].(paymentStatus := status) else rows[i])
  }

  /** After the overwrite the order has the new status, whatever it had before, and only the status changed. */
  lemma StatusOverwritten(rows: seq<Order>, id: Id, status: PaymentStatus)
    requires FindOne(rows, id).Ok?
    ensures FindOne(SetPaymentStatus(rows, id, status), id) == Ok(FindOne(rows, id).value.(paymentStatus := status))
  {
    FindFirstStatus(rows, id, status);
  }

  lemma {:induction false} FindFirstStatus(rows: seq<Order>, id: Id, status: PaymentStatus)
    ensures Seqs.FindFirst(SetPaymentStatus(rows, id, status), (o: Order) => o.id == id) ==
      match Seqs.FindFirst(rows, (o: Order) => o.id == id)
      case Some(o) => Some(o.(paymentStatus := status))
      case None => None
  {
    if rows != [] {
      assert SetPaymentStatus(rows, id, status)[1..] == SetPaymentStatus(rows[1..], id, status);
      FindFirstStatus(rows[1..], id, status);
    }
  }

  /** Only the last status written counts: there is no transition rule. */
  lemma LastStatusWins(rows: seq<Order>, id: Id, a: PaymentStatus, b: PaymentStatus)
    ensures SetPaymentStatus(SetPaymentStatus(rows, id, a), id, b) == SetPaymentStatus(rows, id, b)
  {
  }

  /** Setting a status the order already has changes nothing. */
  lemma SetStatusIdempotent(rows: seq<Order>, id: Id, status: PaymentStatus)
    ensures SetPaymentStatus(SetPaymentStatus(rows, id, status), id, status) == SetPaymentStatus(rows, id, status)
  {
    LastStatusWins(rows, id, status, status);
  }

  /** Appending an order with the counter's id keeps the ids unique and below the next counter value. */
  lemma AppendFresh(rows: seq<Order>, o: Order, nextId: Id)
    requires IdsUnique(rows) && forall x :: x in rows ==> x.id < nextId
    requires o.id == nextId
    ensures IdsUnique(rows + [o]) && forall x :: x in rows + [o] ==> x.id < nextId + 1
  {
  }

  /** The orders table. New ids come from a counter, so they are fresh. */
  class OrderTable {
    var rows: seq<Order>
    var nextId: Id

    ghost predicate Valid()
      reads this
    {
      IdsUnique(rows) && forall o :: o in rows ==> o.id < nextId
    }

    constructor ()
      ensures Valid() && rows == [] && nextId == 0
    {
      rows := [];
      nextId := 0;
    }

    /**
     * create. The user lookup does not raise, so an unknown user only
     * fails at the save, on the foreign key; unknown cities are not-found.
     * The stored quote is always a fresh calculation.
     */
    method Create(dto: CreateOrderDto, cities: seq<City>, users: seq<User>, tariffs: seq<Tariff>,
                  apiKey: Option<string>, reply: Option<Metres>, now: nat) returns (r: Result<Order>)
      requires Valid()
      modifies this
      ensures Valid()
      ensures Calculate(AsCalculation(dto), cities, tariffs, apiKey, reply).Err? ==>
        r == Err(NotFound) && rows == old(rows) && nextId == old(nextId)
      ensures Calculate(AsCalculation(dto), cities, tariffs, apiKey, reply).Ok? && Users.FindOne(users, dto.userId).None? ==>
        r == Err(StorageViolation) && rows == old(rows) && nextId == old(nextId)
      ensures Calculate(AsCalculation(dto), cities, tariffs, apiKey, reply).Ok? && Users.FindOne(users, dto.userId).Some? ==>
        && r == Ok(NewOrder(old(nextId), dto, Calculate(AsCalculation(dto), cities, tariffs, apiKey, reply).value, now))
        && rows == old(rows) + [r.value]
        && nextId == old(nextId) + 1
      ensures r.Ok? ==>
        && r.value.totalPrice == r.value.transportPrice + r.value.transportPrice / 10.0
        && r.value.estimatedArrivalDate == AddDays(dto.startDate, r.value.durationDays)
    {
      var user := Users.FindOne(users, dto.userId);
      var calculation := Calculate(AsCalculation(dto), cities, tariffs, apiKey, reply);
      if calculation.Err? {
        r := Err(NotFound);
        return;
      }
      if user.None? {
        r := Err(StorageViolation);
        return;
      }
      var o := NewOrder(nextId, dto, calculation.value, now);
      Append(o);
      r := Ok(o);
    }

    /** save of a new row: the order, carrying the counter's id, goes at the end. */
    method Append(o: Order)
      requires Valid() && o.id == nextId
      modifies this
      ensures Valid()
      ensures rows == old(rows) + [o] && nextId == old(nextId) + 1
    {
      AppendFresh(rows, o, nextId);
      rows := rows + [o];
      nextId := nextId + 1;
    }

    /** updatePaymentStatus: not-found for an unknown id; otherwise the status is overwritten unconditionally. */
    method UpdatePaymentStatus(id: Id, status: PaymentStatus) returns (r: Result<Order>)
      requires Valid()
      modifies this
      ensures Valid() && nextId == old(nextId)
      ensures FindOne(old(rows), id).Err? ==> r == Err(NotFound) && rows == old(rows)
      ensures FindOne(old(rows), id).Ok? ==>
        && r == Ok(FindOne(old(rows), id).value.(paymentStatus := status))
        && rows == SetPaymentStatus(old(rows), id, status)
    {
      var found := FindOne(rows, id);
      if found.Err? {
        r := Err(NotFound);
        return;
      }
      rows := SetPaymentStatus(rows, id, status);
      r := Ok(found.value.(paymentStatus := status));
    }
  }

}
