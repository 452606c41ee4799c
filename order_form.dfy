/**
 * The order form's schema: every rule that fails reports an error on its
 * field, and the form is submitted only when no rule fails.
 */
module OrderForm {
  import opened Wrappers
  import opened Calendar

  /** The form's values, as the inputs hold them. */
  datatype OrderFormData = OrderFormData(
    carBrand: string,
    carModel: string,
    cityFromId: string,
    cityToId: string,
    startDate: string)

  datatype Field = CarBrand | CarModel | CityFromId | CityToId | StartDate

  predicate IsHexDigit(c: char) {
    ('0' <= c <= '9') || ('a' <= c <= 'f') || ('A' <= c <= 'F')
  }

  /** The dash positions of the textual UUID form 8-4-4-4-12. */
  predicate IsUuidDash(i: int) {
    i == 8 || i == 13 || i == 18 || i == 23
  }

  /** z.string().uuid(): 36 characters, dashes at the group borders, hex digits elsewhere. */
  predicate IsUuid(s: string) {
    |s| == 36 && forall i :: 0 <= i < 36 ==> if IsUuidDash(i) then s[i] == '-' else IsHexDigit(s[i])
  }

  /**
   * The start date rule: the chosen day, read from its YYYY-MM-DD text,
   * is today or later. Text that is not a date fails, as an invalid Date
   * compares false.
   */
  predicate NotInPast(startDate: string, today: Date) {
    match ParseIsoDate(startDate)
    case None => false
    case Some(d) => Le(today, d)
  }

  /**
   * The fields with an error. The distinct-cities rule reports on the
   * destination.
   */
  function Errors(f: OrderFormData, today: Date): (e: set<Field>)
    ensures CarBrand in e <==> f.carBrand == ""
    ensures CarModel in e <==> f.carModel == ""
    ensures CityFromId in e <==> !IsUuid(f.cityFromId)
    ensures CityToId in e <==> !IsUuid(f.cityToId) || f.cityFromId == f.cityToId
    ensures StartDate in e <==> f.startDate == "" || !NotInPast(f.startDate, today)
  {
    (if f.carBrand == "" then {CarBrand} else {})
    + (if f.carModel == "" then {CarModel} else {})
    + (if !IsUuid(f.cityFromId) then {CityFromId} else {})
    + (if !IsUuid(f.cityToId) || f.cityFromId == f.cityToId then {CityToId} else {})
    + (if f.startDate == "" || !NotInPast(f.startDate, today) then {StartDate} else {})
  }

  /** The form is submitted exactly when there are no errors. */
  predicate IsValid(f: OrderFormData, today: Date) {
    Errors(f, today) == {}
  }

  /** Valid exactly when every rule holds together. */
  lemma ValidIffAllRules(f: OrderFormData, today: Date)
    ensures IsValid(f, today) <==>
      && f.carBrand != "" && f.carModel != ""
      && IsUuid(f.cityFromId) && IsUuid(f.cityToId) && f.cityFromId != f.cityToId
      && NotInPast(f.startDate, today)
  {
    var e := Errors(f, today);
    if !IsValid(f, today) {
      var x :| x in e;
    }
    if f.startDate == "" {
      assert ParseIsoDate(f.startDate).None?;
    }
  }

  /** Choosing the same city twice is reported on the destination only. */
  lemma SameCityOnDestination(f: OrderFormData, today: Date)
    requires IsUuid(f.cityFromId) && f.cityFromId == f.cityToId
    ensures CityToId in Errors(f, today) && CityFromId !in Errors(f, today)
  {
  }

  /** Today is accepted as a start date; any earlier day is refused. */
  lemma TodayIsNotPast(f: OrderFormData, today: Date)
    requires ParseIsoDate(f.startDate).Some?
    ensures var d := ParseIsoDate(f.startDate).value;
      && (d == today ==> StartDate !in Errors(f, today))
      && (Lt(d, today) ==> StartDate in Errors(f, today))
  {
    var d := ParseIsoDate(f.startDate).value;
    LeIsTotalOrder(d, today, d);
    if d == today {
      assert f.startDate != "" by {
        assert ParseIsoDate("").None?;
      }
    }
  }
}
