/**
 * PriceCalculatorService.calculate: a fixed-price branch and a metered branch
 * with a month-indexed rate, 10% insurance and ceiling-based durations.
 */
module PriceCalculator {
  import opened Wrappers
  import opened Calendar
  import opened Constants
  import opened Entities
  import opened Distance
  import Tariffs

  /** CalculatePriceResult. */
  datatype Quote = Quote(
    distance: nat,
    appliedTariff: real,
    transportPrice: real,
    insurancePrice: real,
    totalPrice: real,
    durationHours: nat,
    durationDays: nat,
    estimatedArrivalDate: Date,
    isFixedRoute: bool)

  /** Math.ceil(a / b) on whole numbers: the least n with n * b >= a. */
  function CeilDiv(a: nat, b: nat): (n: nat)
    requires b > 0
    ensures n * b >= a
    ensures n == 0 || (n - 1) * b < a
  {
    if a == 0 then 0 else (a - 1) / b + 1
  }

  /** The per-km rate for a distance: a missing row or a zero rate gives the default. */
  function RateFor(tariff: Option<Tariff>, distance: nat): real {
    if distance <= 1000 then
      if tariff.Some? && tariff.value.pricePerKmUnder1000 != 0.0 then tariff.value.pricePerKmUnder1000
      else DefaultPricePerKmUnder1000
    else
      if tariff.Some? && tariff.value.pricePerKmOver1000 != 0.0 then tariff.value.pricePerKmOver1000
      else DefaultPricePerKmOver1000
  }

  /** durationHours: the fewest whole hours that cover the distance at 1000 km per 24 hours. */
  function HoursAtNorm(distance: nat): (h: nat)
    ensures h * KmPerDay >= distance * 24
    ensures h == 0 || (h - 1) * KmPerDay < distance * 24
  {
    CeilDiv(distance * 24, KmPerDay)
  }

  /** durationDays: the fewest whole days that cover the hours. */
  function DaysForHours(hours: nat): (d: nat)
    ensures d * 24 >= hours
    ensures d == 0 || (d - 1) * 24 < hours
  {
    CeilDiv(hours, 24)
  }

  /** The transport price: the distance times the per-km rate. */
  function TransportPrice(distance: nat, pricePerKm: real): real {
    distance as real * pricePerKm
  }

  /** The common tail: insurance, total and arrival from a transport price and the durations. */
  function Priced(distance: nat, appliedTariff: real, transportPrice: real, durationHours: nat,
                  durationDays: nat, startDate: Date, isFixedRoute: bool): (q: Quote)
    ensures q.distance == distance && q.appliedTariff == appliedTariff && q.transportPrice == transportPrice
    ensures q.durationHours == durationHours && q.durationDays == durationDays && q.isFixedRoute == isFixedRoute
    ensures q.insurancePrice == transportPrice / 10.0
    ensures q.totalPrice == transportPrice + transportPrice / 10.0
    ensures q.estimatedArrivalDate == AddDays(startDate, durationDays)
  {
    var insurancePrice := transportPrice * InsuranceRate;
    Quote(distance, appliedTariff, transportPrice, insurancePrice, transportPrice + insurancePrice,
          durationHours, durationDays, AddDays(startDate, durationDays), isFixedRoute)
  }

  /** The fixed branch: 1000 km at no rate, the table price, one day of 24 hours. */
  function FixedQuote(price: real, startDate: Date): (q: Quote)
    ensures q.isFixedRoute && q.distance == 1000 && q.appliedTariff == 0.0 && q.transportPrice == price
    ensures q.durationDays == 1 && q.durationHours == 24
    ensures q.insurancePrice == q.transportPrice / 10.0
    ensures q.totalPrice == q.transportPrice + q.insurancePrice
    ensures q.estimatedArrivalDate == AddDays(startDate, q.durationDays)
  {
    var durationDays := CeilDiv(1000, KmPerDay);
    Priced(1000, 0.0, price, durationDays * 24, durationDays, startDate, true)
  }

  /** The metered branch: distance times the rate, durations at the daily norm. */
  function MeteredQuote(distance: nat, pricePerKm: real, startDate: Date): (q: Quote)
    ensures !q.isFixedRoute && q.distance == distance && q.appliedTariff == pricePerKm
    ensures q.transportPrice == TransportPrice(distance, pricePerKm)
    ensures q.durationHours == HoursAtNorm(distance) && q.durationDays == DaysForHours(q.durationHours)
    ensures q.insurancePrice == q.transportPrice / 10.0
    ensures q.totalPrice == q.transportPrice + q.insurancePrice
    ensures q.estimatedArrivalDate == AddDays(startDate, q.durationDays)
  {
    var durationHours := HoursAtNorm(distance);
    Priced(distance, pricePerKm, TransportPrice(distance, pricePerKm), durationHours,
           DaysForHours(durationHours), startDate, false)
  }

  /**
   * The quote for a route and a start date. `tariffs` is the tariff table
   * (read through findByMonth); `apiKey` and `reply` are the routing
   * service's configuration and answer, used only on the metered branch.
   */
  function Calculate(cityFrom: string, cityTo: string, startDate: Date, tariffs: seq<Tariff>,
                     apiKey: Option<string>, reply: Option<Metres>): (q: Quote)
    // the fixed branch is taken exactly for the listed keys
    ensures q.isFixedRoute <==> RouteKey(cityFrom, cityTo) in FixedRoutes
    ensures q.isFixedRoute ==>
      && q.distance == 1000 && q.appliedTariff == 0.0
      && q.transportPrice == FixedRoutes[RouteKey(cityFrom, cityTo)]
      && q.durationDays == 1 && q.durationHours == 24
    ensures !q.isFixedRoute ==>
      && q.distance == GetDistance(cityFrom, cityTo, apiKey, reply)
      && q.appliedTariff == RateFor(Tariffs.FindByMonth(tariffs, startDate.month), q.distance)
      && q.transportPrice == TransportPrice(q.distance, q.appliedTariff)
      && q.durationHours == HoursAtNorm(q.distance)
      && q.durationDays == DaysForHours(q.durationHours)
    // common tail: insurance is a tenth, the total adds it
    ensures q.insurancePrice == q.transportPrice / 10.0
    ensures q.totalPrice == q.transportPrice + q.insurancePrice
    ensures q.estimatedArrivalDate == AddDays(startDate, q.durationDays)
  {
    var routeKey := RouteKey(cityFrom, cityTo);
    FixedPriceIsTruthy(routeKey);
    if InTable(FixedRoutes, routeKey, 0.0) then
      FixedQuote(FixedRoutes[routeKey], startDate)
    else
      var distance := GetDistance(cityFrom, cityTo, apiKey, reply);
      MeteredQuote(distance, RateFor(Tariffs.FindByMonth(tariffs, startDate.month), distance), startDate)
  }

  /** The truthiness test on a fixed price selects exactly the table's keys. */
  lemma FixedPriceIsTruthy(key: string)
    ensures InTable(FixedRoutes, key, 0.0) <==> key in FixedRoutes
  {
    FixedRoutesTable();
  }

  /** In both branches the hours are the fewest at the daily norm and the days the fewest covering them. */
  lemma DurationsAreCeilings(cityFrom: string, cityTo: string, startDate: Date, tariffs: seq<Tariff>,
                             apiKey: Option<string>, reply: Option<Metres>)
    ensures var q := Calculate(cityFrom, cityTo, startDate, tariffs, apiKey, reply);
      q.durationHours == HoursAtNorm(q.distance) && q.durationDays == DaysForHours(q.durationHours)
  {
    var q := Calculate(cityFrom, cityTo, startDate, tariffs, apiKey, reply);
    if q.isFixedRoute {
      assert HoursAtNorm(1000) == 24;
      assert DaysForHours(24) == 1;
    }
  }

  /** The fixed-price example: Москва to Сочи on any date. */
  lemma MoscowSochi(startDate: Date, tariffs: seq<Tariff>, apiKey: Option<string>, reply: Option<Metres>)
    ensures var q := Calculate("Москва", "Сочи", startDate, tariffs, apiKey, reply);
      && q.isFixedRoute && q.distance == 1000 && q.durationDays == 1 && q.durationHours == 24
      && q.transportPrice == 200000.0 && q.insurancePrice == 20000.0 && q.totalPrice == 220000.0
      && q.estimatedArrivalDate == NextDay(startDate)
  {
    FixedPairKeys();
  }

  /** The nested ceiling collapses: days are the fewest whole days at 1000 km a day. */
  lemma DaysAreKmCeiling(distance: nat)
    ensures DaysForHours(HoursAtNorm(distance)) == CeilDiv(distance, KmPerDay)
  {
    var h := HoursAtNorm(distance);
    var d := DaysForHours(h);
    var c := CeilDiv(distance, KmPerDay);
    // c days hold enough hours, so the fewest hours fit in c days: d <= c
    assert h <= 24 * c;
    // d days of hours cover the distance, so c <= d
    assert d * 1000 >= distance;
  }

  /** On every quote: the days cover the hours, the hours cover the distance, and the total is 1.1 times transport. */
  lemma QuoteInvariants(cityFrom: string, cityTo: string, startDate: Date, tariffs: seq<Tariff>,
                        apiKey: Option<string>, reply: Option<Metres>)
    ensures var q := Calculate(cityFrom, cityTo, startDate, tariffs, apiKey, reply);
      && q.durationDays * 24 >= q.durationHours
      && q.durationDays == CeilDiv(q.distance, KmPerDay)
      && q.totalPrice == q.transportPrice * 11.0 / 10.0
      && Le(startDate, q.estimatedArrivalDate)
  {
    var q := Calculate(cityFrom, cityTo, startDate, tariffs, apiKey, reply);
    DurationsAreCeilings(cityFrom, cityTo, startDate, tariffs, apiKey, reply);
    DaysAreKmCeiling(q.distance);
  }

  /** The month-indexed rate: the row of the start date's month, with 1000 km itself counted as under. */
  lemma MeteredRate(cityFrom: string, cityTo: string, startDate: Date, tariffs: seq<Tariff>, t: Tariff,
                    apiKey: Option<string>, reply: Option<Metres>)
    requires Tariffs.MonthsUnique(tariffs) && t in tariffs && t.month == startDate.month
    requires t.pricePerKmUnder1000 != 0.0 && t.pricePerKmOver1000 != 0.0
    ensures var q := Calculate(cityFrom, cityTo, startDate, tariffs, apiKey, reply);
      !q.isFixedRoute ==>
        q.appliedTariff == (if q.distance <= 1000 then t.pricePerKmUnder1000 else t.pricePerKmOver1000)
  {
    Tariffs.FindByMonthUnique(tariffs, t);
  }

  /**
   * A rate of zero passes the DTO bounds, but the calculator replaces it by
   * the default: the applied rate is never zero.
   */
  lemma ZeroRateFallsBack(tariff: Option<Tariff>, distance: nat)
    requires tariff.Some?
    ensures distance <= 1000 && tariff.value.pricePerKmUnder1000 == 0.0 ==> RateFor(tariff, distance) == 150.0
    ensures distance > 1000 && tariff.value.pricePerKmOver1000 == 0.0 ==> RateFor(tariff, distance) == 100.0
    ensures RateFor(tariff, distance) != 0.0
  {
  }

  lemma MissingTariffUsesDefaults(distance: nat)
    ensures RateFor(None, distance) == if distance <= 1000 then 150.0 else 100.0
  {
  }

  /**
   * The tariff DTO admits a month in 1..12 with zero rates, and a row
   * stored from it prices exactly as if the month had no row at all.
   */
  lemma ZeroRateRowIsNoRow(dto: Tariffs.CreateTariffDto, id: Id, distance: nat)
    requires dto.pricePerKmUnder1000 == 0.0 && dto.pricePerKmOver1000 == 0.0
    ensures Tariffs.IsValidCreateTariff(dto) <==> 1 <= dto.month <= 12
    ensures RateFor(Some(Tariff(id, dto.month, dto.pricePerKmUnder1000, dto.pricePerKmOver1000)), distance) == RateFor(None, distance)
  {
  }
}
