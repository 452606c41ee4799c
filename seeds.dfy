/**
 * The seeder: it creates the listed cities and a tariff for every month,
 * skipping whatever already exists, so that it can be run again.
 */
module Seeds {
  import opened Entities
  import Seqs
  import Cities
  import Tariffs

  const SeedCityNames: seq<string> :=
    ["Москва", "Сочи", "Бишкек", "Санкт-Петербург", "Екатеринбург", "Новосибирск", "Казань", "Краснодар"]

  /** The rates the seeder gives a month it creates. */
  const SeedPricePerKmUnder1000: real := 150.0
  const SeedPricePerKmOver1000: real := 100.0

  predicate HasCity(rows: seq<City>, name: string) {
    exists c :: c in rows && c.name == name
  }

  predicate HasMonth(rows: seq<Tariff>, month: int) {
    exists t :: t in rows && t.month == month
  }

  /** A tariff as the seeder creates it. */
  predicate IsSeedTariff(t: Tariff) {
    1 <= t.month <= 12 && t.pricePerKmUnder1000 == SeedPricePerKmUnder1000 && t.pricePerKmOver1000 == SeedPricePerKmOver1000
  }

  /** One pass of the city loop: the name is created unless a city already has it. */
  method SeedCity(cities: Cities.CityTable, name: string)
    requires cities.Valid()
    modifies cities
    ensures cities.Valid()
    ensures HasCity(cities.rows, name)
    ensures |old(cities.rows)| <= |cities.rows| && cities.rows[..|old(cities.rows)|] == old(cities.rows)
    ensures forall n :: HasCity(old(cities.rows), n) ==> HasCity(cities.rows, n)
    ensures forall c :: c in cities.rows ==> c in old(cities.rows) || c.name == name
    ensures HasCity(old(cities.rows), name) ==> cities.rows == old(cities.rows) && cities.nextId == old(cities.nextId)
    ensures !HasCity(old(cities.rows), name) ==>
      cities.rows == old(cities.rows) + [City(old(cities.nextId), name)] && cities.nextId == old(cities.nextId) + 1
  {
    var existing := Seqs.FindFirst(cities.rows, (c: City) => c.name == name);
    if existing.None? {
      assert !HasCity(cities.rows, name);
      var _ := cities.Create(Cities.CreateCityDto(name));
      assert cities.rows[|old(cities.rows)|].name == name;
      forall n | HasCity(old(cities.rows), n) ensures HasCity(cities.rows, n) {
        var x :| x in old(cities.rows) && x.name == n;
        assert x in cities.rows;
      }
    }
  }

  /** The city loop: a listed name that is missing is created; an existing city is left alone. */
  method SeedCities(cities: Cities.CityTable)
    requires cities.Valid()
    modifies cities
    ensures cities.Valid()
    ensures forall name :: name in SeedCityNames ==> HasCity(cities.rows, name)
    ensures |old(cities.rows)| <= |cities.rows| && cities.rows[..|old(cities.rows)|] == old(cities.rows)
    ensures forall c :: c in cities.rows ==> c in old(cities.rows) || c.name in SeedCityNames
    ensures (forall name :: name in SeedCityNames ==> HasCity(old(cities.rows), name)) ==>
      cities.rows == old(cities.rows) && cities.nextId == old(cities.nextId)
  {
    for i := 0 to |SeedCityNames|
      invariant cities.Valid()
      invariant forall k :: 0 <= k < i ==> HasCity(cities.rows, SeedCityNames[k])
      invariant |old(cities.rows)| <= |cities.rows| && cities.rows[..|old(cities.rows)|] == old(cities.rows)
      invariant forall c :: c in cities.rows ==> c in old(cities.rows) || c.name in SeedCityNames
      invariant (forall name :: name in SeedCityNames ==> HasCity(old(cities.rows), name)) ==>
        cities.rows == old(cities.rows) && cities.nextId == old(cities.nextId)
    {
      ghost var before := cities.rows;
      SeedCity(cities, SeedCityNames[i]);
      assert cities.rows[..|old(cities.rows)|] == cities.rows[..|before|][..|old(cities.rows)|];
    }
  }

  /** One pass of the month loop: the month gets a tariff at the seed rates unless it has one. */
  method SeedMonth(tariffs: Tariffs.TariffTable, month: int)
    requires tariffs.Valid()
    requires 1 <= month <= 12
    modifies tariffs
    ensures tariffs.Valid()
    ensures HasMonth(tariffs.rows, month)
    ensures |old(tariffs.rows)| <= |tariffs.rows| && tariffs.rows[..|old(tariffs.rows)|] == old(tariffs.rows)
    ensures forall m :: HasMonth(old(tariffs.rows), m) ==> HasMonth(tariffs.rows, m)
    ensures forall t :: t in tariffs.rows ==> t in old(tariffs.rows) || IsSeedTariff(t)
    ensures HasMonth(old(tariffs.rows), month) ==> tariffs.rows == old(tariffs.rows) && tariffs.nextId == old(tariffs.nextId)
    ensures !HasMonth(old(tariffs.rows), month) ==>
      && tariffs.rows == old(tariffs.rows) + [Tariff(old(tariffs.nextId), month, SeedPricePerKmUnder1000, SeedPricePerKmOver1000)]
      && tariffs.nextId == old(tariffs.nextId) + 1
  {
    var existing := Tariffs.FindByMonth(tariffs.rows, month);
    if existing.None? {
      assert !HasMonth(tariffs.rows, month);
      var _ := tariffs.Create(Tariffs.CreateTariffDto(month, SeedPricePerKmUnder1000, SeedPricePerKmOver1000));
      assert tariffs.rows[|old(tariffs.rows)|].month == month;
      forall m | HasMonth(old(tariffs.rows), m) ensures HasMonth(tariffs.rows, m) {
        var t :| t in old(tariffs.rows) && t.month == m;
        assert t in tariffs.rows;
      }
    }
  }

  /** The month loop: a month without a tariff gets one at the seed rates; an existing one is left alone. */
  method SeedTariffs(tariffs: Tariffs.TariffTable)
    requires tariffs.Valid()
    modifies tariffs
    ensures tariffs.Valid()
    ensures forall m :: 1 <= m <= 12 ==> HasMonth(tariffs.rows, m)
    ensures |old(tariffs.rows)| <= |tariffs.rows| && tariffs.rows[..|old(tariffs.rows)|] == old(tariffs.rows)
    ensures forall t :: t in tariffs.rows ==> t in old(tariffs.rows) || IsSeedTariff(t)
    ensures (forall m :: 1 <= m <= 12 ==> HasMonth(old(tariffs.rows), m)) ==>
      tariffs.rows == old(tariffs.rows) && tariffs.nextId == old(tariffs.nextId)
  {
    for month := 1 to 13
      invariant tariffs.Valid()
      invariant forall m :: 1 <= m < month ==> HasMonth(tariffs.rows, m)
      invariant |old(tariffs.rows)| <= |tariffs.rows| && tariffs.rows[..|old(tariffs.rows)|] == old(tariffs.rows)
      invariant forall t :: t in tariffs.rows ==> t in old(tariffs.rows) || IsSeedTariff(t)
      invariant (forall m :: 1 <= m <= 12 ==> HasMonth(old(tariffs.rows), m)) ==>
        tariffs.rows == old(tariffs.rows) && tariffs.nextId == old(tariffs.nextId)
    {
      ghost var before := tariffs.rows;
      SeedMonth(tariffs, month);
      assert tariffs.rows[..|old(tariffs.rows)|] == tariffs.rows[..|before|][..|old(tariffs.rows)|];
    }
  }

  /** seed: the cities, then the tariffs. */
  method Seed(cities: Cities.CityTable, tariffs: Tariffs.TariffTable)
    requires cities.Valid() && tariffs.Valid()
    modifies cities, tariffs
    ensures cities.Valid() && tariffs.Valid()
    ensures forall name :: name in SeedCityNames ==> HasCity(cities.rows, name)
    ensures forall m :: 1 <= m <= 12 ==> HasMonth(tariffs.rows, m)
    ensures |old(cities.rows)| <= |cities.rows| && cities.rows[..|old(cities.rows)|] == old(cities.rows)
    ensures |old(tariffs.rows)| <= |tariffs.rows| && tariffs.rows[..|old(tariffs.rows)|] == old(tariffs.rows)
    ensures forall c :: c in cities.rows ==> c in old(cities.rows) || c.name in SeedCityNames
    ensures forall t :: t in tariffs.rows ==> t in old(tariffs.rows) || IsSeedTariff(t)
    // a second run finds everything in place and changes nothing
    ensures (forall name :: name in SeedCityNames ==> HasCity(old(cities.rows), name)) &&
            (forall m :: 1 <= m <= 12 ==> HasMonth(old(tariffs.rows), m)) ==>
      && cities.rows == old(cities.rows) && cities.nextId == old(cities.nextId)
      && tariffs.rows == old(tariffs.rows) && tariffs.nextId == old(tariffs.nextId)
  {
    SeedCities(cities);
    SeedTariffs(tariffs);
  }

  /** The city names the seeder lists are pairwise distinct, so it creates at most one row per name. */
  lemma SeedNamesDistinct()
    ensures forall i, j :: 0 <= i < j < |SeedCityNames| ==> SeedCityNames[i] != SeedCityNames[j]
  {
  }
}
