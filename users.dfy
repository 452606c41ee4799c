/** The user registry (phone unique) and the CreateUserDto validator. */
module Users {
  import opened Wrappers
  import opened Strings
  import opened Entities
  import Seqs

  /** CreateUserDto. */
  datatype CreateUserDto = CreateUserDto(fullName: string, phone: string)

  /** `[1-9]\d{1,14}`: a non-zero digit, then one to fourteen digits. */
  predicate IsPhoneBody(b: string) {
    2 <= |b| <= 15 && '1' <= b[0] <= '9' && forall i :: 1 <= i < |b| ==> IsDigit(b[i])
  }

  /** `^\+?[1-9]\d{1,14}$`: an optional '+' and the body. */
  predicate MatchesPhonePattern(p: string) {
    IsPhoneBody(p) || (p != [] && p[0] == '+' && IsPhoneBody(p[1..]))
  }

  /** The DTO's rules: a non-empty fullName and a phone matching the pattern. */
  predicate IsValidCreateUser(dto: CreateUserDto) {
    dto.fullName != "" && MatchesPhonePattern(dto.phone)
  }

  /** The body rule in terms of digits: 2 to 15 digits, the first not zero. */
  lemma BodyByDigits(b: string)
    ensures IsPhoneBody(b) <==> 2 <= |b| <= 15 && b == Digits(b) && b[0] != '0'
  {
    DigitsOfDigits(b);
  }

  /** A leading '+' carries no digit. */
  lemma PlusDigits(p: string)
    requires p != [] && p[0] == '+'
    ensures Digits(p) == Digits(p[1..])
  {
    assert p == [p[0]] + p[1..];
    DigitsConcat([p[0]], p[1..]);
    assert Digits([p[0]]) == "";
  }

  /**
   * The pattern in terms of the phone's digits: the phone is its digits,
   * with or without one leading '+', there are 2 to 15 of them and the
   * first is not zero.
   */
  lemma PhonePatternByDigits(p: string)
    ensures MatchesPhonePattern(p) <==>
      && (p == Digits(p) || p == "+" + Digits(p))
      && 2 <= |Digits(p)| <= 15
      && Digits(p)[0] != '0'
  {
    if p != [] && p[0] == '+' {
      PlusDigits(p);
      BodyByDigits(p[1..]);
      assert !IsDigit(p[0]);
      assert p == "+" + p[1..];
    } else {
      BodyByDigits(p);
      assert ("+" + Digits(p))[0] == '+';
    }
  }

  /** The documented example passes. */
  lemma ExamplePhoneAccepted()
    ensures MatchesPhonePattern("+79991234567")
  {
    assert "+79991234567"[1..] == "79991234567";
  }

  predicate IdsUnique(rows: seq<User>) {
    forall i, j :: 0 <= i < j < |rows| ==> rows[i].id != rows[j].id
  }

  predicate PhonesUnique(rows: seq<User>) {
    forall i, j :: 0 <= i < j < |rows| ==> rows[i].phone != rows[j].phone
  }

  /** findOne: the user with that id, or None; it does not raise. */
  function FindOne(rows: seq<User>, id: Id): (r: Option<User>)
    ensures r.Some? ==> r.value in rows && r.value.id == id
    ensures r.None? <==> forall u :: u in rows ==> u.id != id
  {
    Seqs.FindFirst(rows, (u: User) => u.id == id)
  }

  /** findByPhone: the user with that phone, or None. */
  function FindByPhone(rows: seq<User>, phone: string): (r: Option<User>)
    ensures r.Some? ==> r.value in rows && r.value.phone == phone
    ensures r.None? <==> forall u :: u in rows ==> u.phone != phone
  {
    Seqs.FindFirst(rows, (u: User) => u.phone == phone)
  }

  /** GET /users/by-phone: the controller turns a missing user into not-found. */
  function ByPhone(rows: seq<User>, phone: string): (r: Result<User>)
    ensures r.Ok? <==> exists u :: u in rows && u.phone == phone
    ensures r.Ok? ==> r.value in rows && r.value.phone == phone
    ensures r.Err? ==> r.error == NotFound
  {
    match FindByPhone(rows, phone)
    case Some(u) => Ok(u)
    case None => Err(NotFound)
  }

  /** With unique phones, the user found by a phone is the only one holding it. */
  lemma FindByPhoneUnique(rows: seq<User>, u: User)
    requires PhonesUnique(rows)
    requires u in rows
    ensures FindByPhone(rows, u.phone) == Some(u)
  {
    var r := FindByPhone(rows, u.phone);
    var i :| 0 <= i < |rows| && rows[i] == u;
    var j :| 0 <= j < |rows| && rows[j] == r.value;
    assert i == j;
  }

  /** The users table. New ids come from a counter, so they are fresh. */
  class UserTable {
    var rows: seq<User>
    var nextId: Id

    ghost predicate Valid()
      reads this
    {
      IdsUnique(rows) && PhonesUnique(rows) && forall u :: u in rows ==> u.id < nextId
    }

    constructor ()
      ensures Valid() && rows == [] && nextId == 0
    {
      rows := [];
      nextId := 0;
    }

    /**
     * create: a phone already registered is a conflict and the table is
     * left as it was; otherwise exactly one user with the DTO's fields is
     * added.
     */
    method Create(dto: CreateUserDto) returns (r: Result<User>)
      requires Valid()
      modifies this
      ensures Valid()
      ensures (exists u :: u in old(rows) && u.phone == dto.phone) ==>
        r == Err(Conflict) && rows == old(rows) && nextId == old(nextId)
      ensures (forall u :: u in old(rows) ==> u.phone != dto.phone) ==>
        && r == Ok(User(old(nextId), dto.fullName, dto.phone))
        && rows == old(rows) + [r.value]
        && nextId == old(nextId) + 1
    {
      if FindByPhone(rows, dto.phone).Some? {
        r := Err(Conflict);
        return;
      }
      var u := User(nextId, dto.fullName, dto.phone);
      rows := rows + [u];
      nextId := nextId + 1;
      r := Ok(u);
    }
  }

  /** After a successful create, looking the phone up finds the new user. */
  lemma CreatedUserIsFound(rows: seq<User>, u: User)
    requires PhonesUnique(rows + [u])
    ensures FindByPhone(rows + [u], u.phone) == Some(u)
  {
    FindByPhoneUnique(rows + [u], u);
  }
}
