/** The tariff registry (one row per month) and the tariff DTO bounds. */
module Tariffs {
  import opened Wrappers
  import opened Entities
  import Sorting
  import Seqs

  /** CreateTariffDto. */
  datatype CreateTariffDto = CreateTariffDto(month: int, pricePerKmUnder1000: real, pricePerKmOver1000: real)

  /** UpdateTariffDto: each field may be left out. */
  datatype UpdateTariffDto = UpdateTariffDto(month: Option<int>, pricePerKmUnder1000: Option<real>, pricePerKmOver1000: Option<real>)

  /** The DTO's bounds: a month in 1..12 and two non-negative rates (zero passes). */
  predicate IsValidCreateTariff(dto: CreateTariffDto) {
    1 <= dto.month <= 12 && dto.pricePerKmUnder1000 >= 0.0 && dto.pricePerKmOver1000 >= 0.0
  }

  predicate MonthsUnique(rows: seq<Tariff>) {
    forall i, j :: 0 <= i < j < |rows| ==> rows[i].month != rows[j].month
  }

  predicate IdsUnique(rows: seq<Tariff>) {
    forall i, j :: 0 <= i < j < |rows| ==> rows[i].id != rows[j].id
  }

  function MonthLe(a: Tariff, b: Tariff): bool {
    a.month <= b.month
  }

  /** findAll: every tariff, by month ascending. */
  function FindAll(rows: seq<Tariff>): (r: seq<Tariff>)
    ensures multiset(r) == multiset(rows)
    ensures forall i, j :: 0 <= i < j < |r| ==> r[i].month <= r[j].month
  {
    Sorting.InsertionSort(rows, MonthLe)
  }

  /** The row with that id, as the repository's findOne returns it. */
  function FindById(rows: seq<Tariff>, id: Id): (r: Option<Tariff>)
    ensures r.Some? ==> r.value in rows && r.value.id == id
    ensures r.None? ==> forall t :: t in rows ==> t.id != id
  {
    Seqs.FindFirst(rows, (t: Tariff) => t.id == id)
  }

  /** findOne: the tariff with that id, or not-found. */
  function FindOne(rows: seq<Tariff>, id: Id): (r: Result<Tariff>)
    ensures r.Ok? <==> exists t :: t in rows && t.id == id
    ensures r.Ok? ==> r.value in rows && r.value.id == id
    ensures r.Err? ==> r.error == NotFound
  {
    match FindById(rows, id)
    case Some(t) => Ok(t)
    case None => Err(NotFound)
  }

  /** findByMonth: the tariff of that month or None; it never raises. */
  function FindByMonth(rows: seq<Tariff>, month: int): (r: Option<Tariff>)
    ensures r.Some? ==> r.value in rows && r.value.month == month
    ensures r.None? ==> forall t :: t in rows ==> t.month != month
  {
    Seqs.FindFirst(rows, (t: Tariff) => t.month == month)
  }

  /** With one row per month, findByMonth finds exactly that row. */
  lemma FindByMonthUnique(rows: seq<Tariff>, t: Tariff)
    requires MonthsUnique(rows)
    requires t in rows
    ensures FindByMonth(rows, t.month) == Some(t)
  {
    var r := FindByMonth(rows, t.month);
    var i :| 0 <= i < |rows| && rows[i] == t;
    var j :| 0 <= j < |rows| && rows[j] == r.value;
    assert i == j;
  }

  /** Object.assign of the supplied fields onto a row. */
  function Patch(t: Tariff, dto: UpdateTariffDto): (r: Tariff)
    ensures r.id == t.id
    ensures r.month == (if dto.month.Some? then dto.month.value else t.month)
    ensures r.pricePerKmUnder1000 == (if dto.pricePerKmUnder1000.Some? then dto.pricePerKmUnder1000.value else t.pricePerKmUnder1000)
    ensures r.pricePerKmOver1000 == (if dto.pricePerKmOver1000.Some? then dto.pricePerKmOver1000.value else t.pricePerKmOver1000)
  {
    Tariff(
      t.id,
      if dto.month.Some? then dto.month.value else t.month,
      if dto.pricePerKmUnder1000.Some? then dto.pricePerKmUnder1000.value else t.pricePerKmUnder1000,
      if dto.pricePerKmOver1000.Some? then dto.pricePerKmOver1000.value else t.pricePerKmOver1000)
  }

  /** The primary key of a row. */
  function TariffId(t: Tariff): Id {
    t.id
  }

  /** Another row already holds this month (the unique index would refuse the save). */
  predicate MonthTakenByOther(rows: seq<Tariff>, id: Id, month: int) {
    exists t :: t in rows && t.id != id && t.month == month
  }

  /** The tariffs table. New ids come from a counter, so they are fresh. */
  class TariffTable {
    var rows: seq<Tariff>
    var nextId: Id

    ghost predicate Valid()
      reads this
    {
      IdsUnique(rows) && MonthsUnique(rows) && forall t :: t in rows ==> t.id < nextId
    }

    constructor ()
      ensures Valid() && rows == [] && nextId == 0
    {
      rows := [];
      nextId := 0;
    }

    /**
     * create. The service saves without checking; the unique index on month
     * refuses a second tariff for a month, and the table is left as it was.
     */
    method Create(dto: CreateTariffDto) returns (r: Result<Tariff>)
      requires Valid()
      modifies this
      ensures Valid()
      ensures (exists t :: t in old(rows) && t.month == dto.month) ==>
        r == Err(StorageViolation) && rows == old(rows) && nextId == old(nextId)
      ensures (forall t :: t in old(rows) ==> t.month != dto.month) ==>
        && r == Ok(Tariff(old(nextId), dto.month, dto.pricePerKmUnder1000, dto.pricePerKmOver1000))
        && rows == old(rows) + [r.value]
        && nextId == old(nextId) + 1
    {
      if FindByMonth(rows, dto.month).Some? {
        r := Err(StorageViolation);
        return;
      }
      var t := Tariff(nextId, dto.month, dto.pricePerKmUnder1000, dto.pricePerKmOver1000);
      rows := rows + [t];
      nextId := nextId + 1;
      r := Ok(t);
    }

    /**
     * update: not-found for an unknown id; otherwise the supplied fields are
     * overwritten and nothing else changes (a month taken by another row is
     * refused by the unique index).
     */
    method Update(id: Id, dto: UpdateTariffDto) returns (r: Result<Tariff>)
      requires Valid()
      modifies this
      ensures Valid() && nextId == old(nextId)
      ensures FindOne(old(rows), id).Err? ==> r == Err(NotFound) && rows == old(rows)
      ensures FindOne(old(rows), id).Ok? ==>
        var t := Patch(FindOne(old(rows), id).value, dto);
        if MonthTakenByOther(old(rows), id, t.month) then r == Err(StorageViolation) && rows == old(rows)
        else r == Ok(t) && rows == Seqs.ReplaceByKey(old(rows), TariffId, t)
    {
      var found := FindOne(rows, id);
      if found.Err? {
        r := Err(NotFound);
        return;
      }
      var t := Patch(found.value, dto);
      var other := FindByMonth(rows, t.month);
      if other.Some? && other.value.id != id {
        r := Err(StorageViolation);
        return;
      }
      forall u | u in rows && u.month == t.month ensures u.id == id {
        FindByMonthUnique(rows, u);
      }
      var old_rows := rows;
      rows := Seqs.ReplaceByKey(rows, TariffId, t);
      ReplacePreservesKeys(old_rows, t);
      r := Ok(t);
    }
  }

  /** Replacing a row by one with the same id and a month no other row has keeps both keys unique. */
  lemma ReplacePreservesKeys(rows: seq<Tariff>, t: Tariff)
    requires IdsUnique(rows) && MonthsUnique(rows)
    requires !MonthTakenByOther(rows, t.id, t.month)
    ensures IdsUnique(Seqs.ReplaceByKey(rows, TariffId, t)) && MonthsUnique(Seqs.ReplaceByKey(rows, TariffId, t))
    ensures forall u :: u in Seqs.ReplaceByKey(rows, TariffId, t) ==> u == t || u in rows
  {
    var r := Seqs.ReplaceByKey(rows, TariffId, t);
    forall i, j | 0 <= i < j < |r| ensures r[i].month != r[j].month {
      if rows[i].id == t.id && rows[j].id != t.id {
        assert rows[j] in rows;
      } else if rows[j].id == t.id && rows[i].id != t.id {
        assert rows[i] in rows;
      }
    }
    forall u | u in r ensures u == t || u in rows {
      var i :| 0 <= i < |r| && r[i] == u;
    }
  }
}
