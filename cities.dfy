/** The city registry: unique names, and no deletion while an order uses the city. */
module Cities {
  import opened Wrappers
  import opened Strings
  import opened Entities
  import Sorting
  import Seqs

  /** CreateCityDto. */
  datatype CreateCityDto = CreateCityDto(name: string)

  /** UpdateCityDto: the name may be left out. */
  datatype UpdateCityDto = UpdateCityDto(name: Option<string>)

  predicate IdsUnique(rows: seq<City>) {
    forall i, j :: 0 <= i < j < |rows| ==> rows[i].id != rows[j].id
  }

  predicate NamesUnique(rows: seq<City>) {
    forall i, j :: 0 <= i < j < |rows| ==> rows[i].name != rows[j].name
  }

  function NameLe(a: City, b: City): bool {
    StrLe(a.name, b.name)
  }

  lemma NameLeIsTotalPreorder()
    ensures Sorting.IsTotalPreorder(NameLe)
  {
    forall a: City, b: City ensures NameLe(a, b) || NameLe(b, a) {
      StrLeTotal(a.name, b.name);
    }
    forall a: City, b: City, c: City | NameLe(a, b) && NameLe(b, c) ensures NameLe(a, c) {
      StrLeTransitive(a.name, b.name, c.name);
    }
  }

  /** findAll: every city, by name ascending. */
  function FindAll(rows: seq<City>): (r: seq<City>)
    ensures multiset(r) == multiset(rows)
    ensures forall i, j :: 0 <= i < j < |r| ==> StrLe(r[i].name, r[j].name)
  {
    NameLeIsTotalPreorder();
    Sorting.InsertionSort(rows, NameLe)
  }

  /** The row with that id, as the repository's findOne returns it. */
  function FindById(rows: seq<City>, id: Id): (r: Option<City>)
    ensures r.Some? ==> r.value in rows && r.value.id == id
    ensures r.None? <==> forall c :: c in rows ==> c.id != id
  {
    Seqs.FindFirst(rows, (c: City) => c.id == id)
  }

  /** findOne: the city with that id, or not-found. */
  function FindOne(rows: seq<City>, id: Id): (r: Result<City>)
    ensures r.Ok? <==> exists c :: c in rows && c.id == id
    ensures r.Ok? ==> r.value in rows && r.value.id == id
    ensures r.Err? ==> r.error == NotFound
  {
    match FindById(rows, id)
    case Some(c) => Ok(c)
    case None => Err(NotFound)
  }

  /** With unique ids, findOne finds exactly the row holding the id. */
  lemma FindOneUnique(rows: seq<City>, i: nat)
    requires IdsUnique(rows)
    requires i < |rows|
    ensures FindOne(rows, rows[i].id) == Ok(rows[i])
  {
    var r := FindById(rows, rows[i].id);
    var j :| 0 <= j < |rows| && rows[j] == r.value;
    assert i == j;
  }

  /** An order that has the city as its origin or its destination. */
  predicate UsesCity(o: Order, id: Id) {
    o.cityFromId == id || o.cityToId == id
  }

  /** The number of orders with the city as origin or destination. */
  function ReferenceCount(orders: seq<Order>, id: Id): (n: nat)
    ensures n == 0 <==> forall o :: o in orders ==> !UsesCity(o, id)
    ensures n <= |orders|
  {
    var using := Seqs.Filter(orders, (o: Order) => UsesCity(o, id));
    assert using != [] ==> using[0] in using;
    |using|
  }

  /** Another row already has this name (the unique index would refuse the save). */
  predicate NameTakenByOther(rows: seq<City>, id: Id, name: string) {
    exists c :: c in rows && c.id != id && c.name == name
  }

  /** The primary key of a row. */
  function CityId(c: City): Id {
    c.id
  }

  /** The rows without the city of that id. */
  function WithoutCity(rows: seq<City>, id: Id): seq<City> {
    Seqs.Filter(rows, (c: City) => c.id != id)
  }

  /** With unique ids, removing a city takes out exactly its one row and keeps the rest in order. */
  lemma WithoutCityRemovesOneRow(rows: seq<City>, i: nat)
    requires IdsUnique(rows)
    requires i < |rows|
    ensures WithoutCity(rows, rows[i].id) == rows[..i] + rows[i + 1..]
  {
    var id := rows[i].id;
    forall c | c in rows[..i] ensures c.id != id {
      var j :| 0 <= j < i && rows[..i][j] == c;
      assert rows[j] == c;
    }
    forall c | c in rows[i + 1..] ensures c.id != id {
      var j :| 0 <= j < |rows| - i - 1 && rows[i + 1..][j] == c;
      assert rows[i + 1 + j] == c;
    }
    assert rows == rows[..i] + [rows[i]] + rows[i + 1..];
    Seqs.FilterDropsOne(rows[..i], rows[i], rows[i + 1..], (c: City) => c.id != id);
  }

  /** The cities table. New ids come from a counter, so they are fresh. */
  class CityTable {
    var rows: seq<City>
    var nextId: Id

    ghost predicate Valid()
      reads this
    {
      IdsUnique(rows) && NamesUnique(rows) && forall c :: c in rows ==> c.id < nextId
    }

    constructor ()
      ensures Valid() && rows == [] && nextId == 0
    {
      rows := [];
      nextId := 0;
    }

    /**
     * create. The service saves without a duplicate check; the unique index
     * on name refuses a second city with the same name.
     */
    method Create(dto: CreateCityDto) returns (r: Result<City>)
      requires Valid()
      modifies this
      ensures Valid()
      ensures (exists c :: c in old(rows) && c.name == dto.name) ==>
        r == Err(StorageViolation) && rows == old(rows) && nextId == old(nextId)
      ensures (forall c :: c in old(rows) ==> c.name != dto.name) ==>
        && r == Ok(City(old(nextId), dto.name))
        && rows == old(rows) + [r.value]
        && nextId == old(nextId) + 1
    {
      var same := Seqs.FindFirst(rows, (c: City) => c.name == dto.name);
      if same.Some? {
        r := Err(StorageViolation);
        return;
      }
      var c := City(nextId, dto.name);
      rows := rows + [c];
      nextId := nextId + 1;
      r := Ok(c);
    }

    /**
     * update: not-found for an unknown id; otherwise a supplied name
     * overwrites the old one (refused by the unique index when another city
     * has it) and nothing else changes.
     */
    method Update(id: Id, dto: UpdateCityDto) returns (r: Result<City>)
      requires Valid()
      modifies this
      ensures Valid() && nextId == old(nextId)
      ensures FindOne(old(rows), id).Err? ==> r == Err(NotFound) && rows == old(rows)
      ensures FindOne(old(rows), id).Ok? ==>
        var c := City(id, if dto.name.Some? then dto.name.value else FindOne(old(rows), id).value.name);
        if NameTakenByOther(old(rows), id, c.name) then r == Err(StorageViolation) && rows == old(rows)
        else r == Ok(c) && rows == Seqs.ReplaceByKey(old(rows), CityId, c)
    {
      var found := FindOne(rows, id);
      if found.Err? {
        r := Err(NotFound);
        return;
      }
      var c := City(id, if dto.name.Some? then dto.name.value else found.value.name);
      var other := Seqs.FindFirst(rows, (x: City) => x.id != id && x.name == c.name);
      if other.Some? {
        r := Err(StorageViolation);
        return;
      }
      var old_rows := rows;
      rows := Seqs.ReplaceByKey(rows, CityId, c);
      ReplacePreservesKeys(old_rows, c);
      r := Ok(c);
    }

    /**
     * remove: not-found for an unknown id, checked before any counting;
     * bad-request carrying the count while orders use the city; otherwise
     * exactly that city is deleted.
     */
    method Remove(id: Id, orders: seq<Order>) returns (r: Result<()>)
      requires Valid()
      modifies this
      ensures Valid() && nextId == old(nextId)
      ensures FindOne(old(rows), id).Err? ==> r == Err(NotFound) && rows == old(rows)
      ensures FindOne(old(rows), id).Ok? && ReferenceCount(orders, id) > 0 ==>
        r == Err(BadRequest(ReferenceCount(orders, id))) && rows == old(rows)
      ensures FindOne(old(rows), id).Ok? && ReferenceCount(orders, id) == 0 ==>
        r == Ok(()) && rows == WithoutCity(old(rows), id)
    {
      var found := FindOne(rows, id);
      if found.Err? {
        r := Err(NotFound);
        return;
      }
      var n := ReferenceCount(orders, id);
      if n > 0 {
        r := Err(BadRequest(n));
        return;
      }
      ghost var i :| 0 <= i < |rows| && rows[i] == found.value;
      WithoutCityRemovesOneRow(rows, i);
      RemoveAtPreservesKeys(rows, i);
      rows := WithoutCity(rows, id);
      r := Ok(());
    }
  }

  /** Taking one row out keeps both keys unique. */
  lemma RemoveAtPreservesKeys(rows: seq<City>, i: nat)
    requires IdsUnique(rows) && NamesUnique(rows)
    requires i < |rows|
    ensures IdsUnique(rows[..i] + rows[i + 1..]) && NamesUnique(rows[..i] + rows[i + 1..])
  {
    var r := rows[..i] + rows[i + 1..];
    forall k | 0 <= k < |r| ensures r[k] == rows[if k < i then k else k + 1] {
    }
  }

  /** Replacing a row by one with the same id and a name no other row has keeps both keys unique. */
  lemma ReplacePreservesKeys(rows: seq<City>, c: City)
    requires IdsUnique(rows) && NamesUnique(rows)
    requires !NameTakenByOther(rows, c.id, c.name)
    ensures IdsUnique(Seqs.ReplaceByKey(rows, CityId, c)) && NamesUnique(Seqs.ReplaceByKey(rows, CityId, c))
    ensures forall x :: x in Seqs.ReplaceByKey(rows, CityId, c) ==> x == c || x in rows
  {
    var r := Seqs.ReplaceByKey(rows, CityId, c);
    forall i, j | 0 <= i < j < |r| ensures r[i].name != r[j].name {
      if rows[i].id == c.id && rows[j].id != c.id {
        assert rows[j] in rows;
      } else if rows[j].id == c.id && rows[i].id != c.id {
        assert rows[i] in rows;
      }
    }
    forall x | x in r ensures x == c || x in rows {
      var i :| 0 <= i < |r| && r[i] == x;
    }
  }
}
