/**
 * The phone field of the login and registration forms: the input mask
 * formatPhone, the field rules of the two zod schemas, and the normaliser
 * the two pages apply before they talk to the server.
 */
module PhoneFormat {
  import opened Strings
  import Users

  /** The smaller of two naturals. */
  function Min(a: nat, b: nat): nat {
    if a <= b then a else b
  }

  /** String.prototype.slice(i, j) for 0 <= i <= j: both ends are clamped to the length. */
  function Slice(s: string, i: nat, j: nat): (r: string)
    requires i <= j
    ensures r == s[Min(i, |s|)..Min(j, |s|)]
  {
    s[Min(i, |s|)..Min(j, |s|)]
  }

  /** The mask applied to a string of digits. */
  function Mask(n: string): string {
    if |n| == 0 then ""
    else if |n| <= 1 then "+" + n
    else if |n| <= 4 then "+" + n[..1] + " (" + n[1..]
    else if |n| <= 7 then "+" + n[..1] + " (" + n[1..4] + ") " + n[4..]
    else "+" + n[..1] + " (" + n[1..4] + ") " + n[4..7] + "-" + Slice(n, 7, 9) + "-" + Slice(n, 9, 11)
  }

  /** formatPhone: the mask over the digits of the typed value. */
  function FormatPhone(value: string): string {
    Mask(Digits(value))
  }

  /** The first eleven digits, or all of them when there are fewer. */
  function KeptDigits(n: string): (r: string)
    ensures |r| == Min(11, |n|)
  {
    n[..Min(11, |n|)]
  }

  /** The empty result means exactly: no digits were typed. */
  lemma FormatEmptyIff(value: string)
    ensures FormatPhone(value) == "" <==> Digits(value) == ""
  {
  }

  /** A non-empty result starts with '+'. */
  lemma FormatStartsWithPlus(value: string)
    ensures FormatPhone(value) != "" ==> FormatPhone(value)[0] == '+'
  {
  }

  /** The punctuation the mask inserts carries no digits. */
  lemma PunctuationHasNoDigits()
    ensures Digits("+") == "" && Digits(" (") == "" && Digits(") ") == "" && Digits("-") == ""
  {
    assert " ("[1..] == "(";
    assert ") "[1..] == " ";
  }

  /** Digits(a + p + b) for punctuation p and a string of digits b. */
  lemma DigitsStep(a: string, p: string, b: string)
    requires Digits(p) == ""
    requires forall k :: 0 <= k < |b| ==> IsDigit(b[k])
    ensures Digits(a + p + b) == Digits(a) + b
  {
    DigitsConcat(a, p);
    DigitsConcat(a + p, b);
    DigitsOfDigits(b);
  }

  /** A piece of a string of digits is a string of digits. */
  lemma PieceIsDigits(n: string, i: nat, j: nat)
    requires i <= j <= |n|
    requires forall k :: 0 <= k < |n| ==> IsDigit(n[k])
    ensures forall k :: 0 <= k < |n[i..j]| ==> IsDigit(n[i..j][k])
  {
  }

  /** The "+d (ddd) ddd" head of the long mask carries the first seven digits. */
  lemma LongHeadDigits(n: string)
    requires |n| > 7
    requires forall k :: 0 <= k < |n| ==> IsDigit(n[k])
    ensures Digits("" + "+" + n[..1] + " (" + n[1..4] + ") " + n[4..7]) == n[..7]
  {
    PunctuationHasNoDigits();
    var a := "" + "+" + n[..1];
    var c := a + " (" + n[1..4];
    PieceIsDigits(n, 0, 1);
    PieceIsDigits(n, 1, 4);
    PieceIsDigits(n, 4, 7);
    assert n[0..1] == n[..1];
    DigitsStep("", "+", n[..1]);
    DigitsStep(a, " (", n[1..4]);
    DigitsStep(c, ") ", n[4..7]);
    assert n[..1] + n[1..4] + n[4..7] == n[..7];
  }

  /** Two dash-led groups of digits add exactly those digits. */
  lemma TwoDashGroups(e: string, s1: string, s2: string)
    requires forall k :: 0 <= k < |s1| ==> IsDigit(s1[k])
    requires forall k :: 0 <= k < |s2| ==> IsDigit(s2[k])
    ensures Digits(e + "-" + s1 + "-" + s2) == Digits(e) + s1 + s2
  {
    PunctuationHasNoDigits();
    DigitsStep(e, "-", s1);
    DigitsStep(e + "-" + s1, "-", s2);
  }

  /** The long branch of the mask, written as its head and two dash-led groups. */
  lemma LongMaskUnfold(n: string)
    requires |n| > 7
    ensures Mask(n) == ("" + "+" + n[..1] + " (" + n[1..4] + ") " + n[4..7]) + "-" + Slice(n, 7, 9) + "-" + Slice(n, 9, 11)
  {
  }

  /** The seven head digits and the two groups are the kept digits. */
  lemma LongKept(n: string)
    requires |n| > 7
    ensures n[..7] + Slice(n, 7, 9) + Slice(n, 9, 11) == KeptDigits(n)
  {
  }

  /** The mask over more than seven digits keeps the first eleven. */
  lemma LongMaskDigits(n: string)
    requires |n| > 7
    requires forall k :: 0 <= k < |n| ==> IsDigit(n[k])
    ensures Digits(Mask(n)) == KeptDigits(n)
  {
    var s1, s2 := Slice(n, 7, 9), Slice(n, 9, 11);
    var e := "" + "+" + n[..1] + " (" + n[1..4] + ") " + n[4..7];
    LongMaskUnfold(n);
    LongHeadDigits(n);
    PieceIsDigits(n, 7, Min(9, |n|));
    PieceIsDigits(n, Min(9, |n|), Min(11, |n|));
    TwoDashGroups(e, s1, s2);
    LongKept(n);
  }

  /** The mask over two to four digits keeps them all. */
  lemma ShortMaskDigits(n: string)
    requires 2 <= |n| <= 4
    requires forall k :: 0 <= k < |n| ==> IsDigit(n[k])
    ensures Digits(Mask(n)) == KeptDigits(n)
  {
    PunctuationHasNoDigits();
    var a := "" + "+" + n[..1];
    assert a + " (" + n[1..] == Mask(n);
    PieceIsDigits(n, 0, 1);
    PieceIsDigits(n, 1, |n|);
    assert n[0..1] == n[..1] && n[1..|n|] == n[1..];
    DigitsStep("", "+", n[..1]);
    DigitsStep(a, " (", n[1..]);
    assert n[..1] + n[1..] == KeptDigits(n);
  }

  /** The mask over five to seven digits keeps them all. */
  lemma MediumMaskDigits(n: string)
    requires 5 <= |n| <= 7
    requires forall k :: 0 <= k < |n| ==> IsDigit(n[k])
    ensures Digits(Mask(n)) == KeptDigits(n)
  {
    PunctuationHasNoDigits();
    var a := "" + "+" + n[..1];
    var c := a + " (" + n[1..4];
    assert c + ") " + n[4..] == Mask(n);
    PieceIsDigits(n, 0, 1);
    PieceIsDigits(n, 1, 4);
    PieceIsDigits(n, 4, |n|);
    assert n[0..1] == n[..1] && n[4..|n|] == n[4..];
    DigitsStep("", "+", n[..1]);
    DigitsStep(a, " (", n[1..4]);
    DigitsStep(c, ") ", n[4..]);
    assert n[..1] + n[1..4] + n[4..] == KeptDigits(n);
  }

  /** The mask keeps the first eleven digits, in order, and drops the rest. */
  lemma MaskDigits(n: string)
    requires forall k :: 0 <= k < |n| ==> IsDigit(n[k])
    ensures Digits(Mask(n)) == KeptDigits(n)
  {
    if |n| == 0 {
    } else if |n| <= 1 {
      PunctuationHasNoDigits();
      DigitsStep("", "+", n);
      assert "" + "+" + n == Mask(n);
      assert n[..|n|] == n;
    } else if |n| <= 4 {
      ShortMaskDigits(n);
    } else if |n| <= 7 {
      MediumMaskDigits(n);
    } else {
      LongMaskDigits(n);
    }
  }

  /** The digits of the formatted value are the first min(11, n) digits typed, in order. */
  lemma FormatKeepsDigits(value: string)
    ensures Digits(FormatPhone(value)) == KeptDigits(Digits(value))
    ensures |Digits(FormatPhone(value))| == Min(11, |Digits(value)|)
  {
    MaskDigits(Digits(value));
  }

  /** Only the first eleven digits reach the mask's output. */
  lemma MaskOfKept(n: string)
    ensures Mask(KeptDigits(n)) == Mask(n)
  {
    if |n| > 11 {
      var m := KeptDigits(n);
      assert m[..1] == n[..1] && m[1..4] == n[1..4] && m[4..7] == n[4..7];
      assert Slice(m, 7, 9) == Slice(n, 7, 9) && Slice(m, 9, 11) == Slice(n, 9, 11);
    } else {
      assert KeptDigits(n) == n;
    }
  }

  /** Reformatting a formatted value returns it unchanged. */
  lemma FormatIdempotent(value: string)
    ensures FormatPhone(FormatPhone(value)) == FormatPhone(value)
  {
    FormatKeepsDigits(value);
    MaskOfKept(Digits(value));
  }

  /** Two to four digits: "+d (ddd", with no closing parenthesis. */
  lemma ShortMask(value: string)
    requires 2 <= |Digits(value)| <= 4
    ensures var n := Digits(value);
      FormatPhone(value) == ['+', n[0], ' ', '('] + n[1..] && ')' !in FormatPhone(value)
  {
    var n := Digits(value);
    assert n[..1] == [n[0]];
    assert forall k :: 0 <= k < |n| ==> IsDigit(n[k]);
  }

  /** Five to seven digits: "+d (ddd) " and the rest. */
  lemma MediumMask(value: string)
    requires 5 <= |Digits(value)| <= 7
    ensures var n := Digits(value);
      FormatPhone(value) == ['+', n[0], ' ', '('] + n[1..4] + [')', ' '] + n[4..]
  {
    var n := Digits(value);
    assert n[..1] == [n[0]];
  }

  /** The twelve characters "+d (ddd) ddd" that open the long mask. */
  lemma LongHead(n: string)
    requires |n| > 7
    ensures var h := "" + "+" + n[..1] + " (" + n[1..4] + ") " + n[4..7];
      && |h| == 12 && h[0] == '+' && h[1] == n[0] && h[2..4] == " (" && h[4..7] == n[1..4]
      && h[7..9] == ") " && h[9..12] == n[4..7]
  {
  }

  /** A head followed by two dash-led groups, by position. */
  lemma DashedGroups(h: string, s1: string, s2: string)
    ensures var r := h + "-" + s1 + "-" + s2;
      && |r| == |h| + 2 + |s1| + |s2| && r[..|h|] == h && r[|h|] == '-'
      && r[|h| + 1..|h| + 1 + |s1|] == s1 && r[|h| + 1 + |s1|] == '-' && r[|h| + 2 + |s1|..] == s2
  {
    var r := h + "-" + s1 + "-" + s2;
    assert r == h + ("-" + s1 + "-" + s2);
    assert r[|h| + 1..] == s1 + "-" + s2;
  }

  /** The long mask over a string n of more than seven characters, by position. */
  lemma LongMaskShape(n: string)
    requires |n| > 7
    ensures var r, k, t := Mask(n), Min(9, |n|) - 7, Min(11, |n|) - Min(9, |n|);
      && |r| == 14 + k + t
      && r[0] == '+' && r[1] == n[0] && r[2..4] == " (" && r[4..7] == n[1..4]
      && r[7..9] == ") " && r[9..12] == n[4..7] && r[12] == '-'
      && r[13..13 + k] == n[7..7 + k] && r[13 + k] == '-'
      && r[14 + k..] == n[Min(9, |n|)..Min(11, |n|)]
  {
    var s1, s2 := Slice(n, 7, 9), Slice(n, 9, 11);
    var h := "" + "+" + n[..1] + " (" + n[1..4] + ") " + n[4..7];
    var r := h + "-" + s1 + "-" + s2;
    LongMaskUnfold(n);
    LongHead(n);
    DashedGroups(h, s1, s2);
    assert r[2..4] == r[..12][2..4] && r[4..7] == r[..12][4..7];
    assert r[7..9] == r[..12][7..9] && r[9..12] == r[..12][9..12];
  }

  /**
   * More than seven digits: "+d (ddd) ddd-dd-dd", the last two groups cut
   * short when fewer digits were typed; both dashes are always there.
   */
  lemma LongMask(value: string)
    requires |Digits(value)| > 7
    ensures var n, r := Digits(value), FormatPhone(value);
      var k, t := Min(9, |n|) - 7, Min(11, |n|) - Min(9, |n|);
      && |r| == 14 + k + t
      && r[0] == '+' && r[1] == n[0] && r[2..4] == " (" && r[4..7] == n[1..4]
      && r[7..9] == ") " && r[9..12] == n[4..7] && r[12] == '-'
      && r[13..13 + k] == n[7..7 + k] && r[13 + k] == '-'
      && r[14 + k..] == n[Min(9, |n|)..Min(11, |n|)]
  {
    LongMaskShape(Digits(value));
  }

  /** The phone rule of both schemas: non-empty, with 10 or 11 digits. */
  predicate IsValidPhoneField(phone: string) {
    Utf16Length(phone) >= 1 && 10 <= |Digits(phone)| <= 11
  }

  /** The fullName rule of the registration schema: at least one, and at least three, UTF-16 units. */
  predicate IsValidFullName(fullName: string) {
    Utf16Length(fullName) >= 1 && Utf16Length(fullName) >= 3
  }

  /** The registration schema: both fields valid. */
  predicate IsValidRegistration(fullName: string, phone: string) {
    IsValidFullName(fullName) && IsValidPhoneField(phone)
  }

  /** The login schema: the phone field valid. */
  predicate IsValidLogin(phone: string) {
    IsValidPhoneField(phone)
  }

  /**
   * The field rule is exactly the digit count: a field with 10 or 11
   * digits is never empty.
   */
  lemma PhoneFieldByDigits(phone: string)
    ensures IsValidPhoneField(phone) <==> 10 <= |Digits(phone)| <= 11
  {
  }

  /**
   * The field holds the mask's output, which keeps at most eleven digits:
   * it is valid exactly when at least ten digits were typed.
   */
  lemma FormattedFieldValid(value: string)
    ensures IsValidPhoneField(FormatPhone(value)) <==> |Digits(value)| >= 10
  {
    FormatKeepsDigits(value);
  }

  /**
   * The fullName rule is exactly three UTF-16 units or more: a name of
   * three characters always passes, one of a single character never does.
   */
  lemma FullNameRule(s: string)
    ensures IsValidFullName(s) <==> Utf16Length(s) >= 3
    ensures |s| >= 3 ==> IsValidFullName(s)
    ensures |s| <= 1 ==> !IsValidFullName(s)
  {
  }

  /** At the boundary: the three-letter "Лев" passes, the two-letter "Ян" does not. */
  lemma FullNameBoundary()
    ensures IsValidFullName("Лев") && !IsValidFullName("Ян")
  {
  }

  /**
   * The normaliser of both pages: the digits, behind "+" when they begin
   * with '7' and behind "+7" otherwise.
   */
  function ForServer(phone: string): string {
    var d := Digits(phone);
    if |d| > 0 && d[0] == '7' then "+" + d else "+7" + d
  }

  /** The normaliser reads only the digits. */
  lemma ForServerOnDigits(phone: string)
    ensures ForServer(phone) == ForServer(Digits(phone))
  {
    DigitsOfDigits(Digits(phone));
  }

  /** What follows the '+': the digits, with a '7' put in front unless they begin with one. */
  lemma ForServerTail(phone: string)
    ensures var d := Digits(phone);
      && ForServer(phone) == "+" + (if |d| > 0 && d[0] == '7' then d else "7" + d)
      && ForServer(phone)[1..] == (if |d| > 0 && d[0] == '7' then d else "7" + d)
  {
  }

  /** A '7' in front of digits leaves a string of digits. */
  lemma SevenThenDigits(d: string)
    requires forall i :: 0 <= i < |d| ==> IsDigit(d[i])
    ensures forall i :: 0 <= i < |"7" + d| ==> IsDigit(("7" + d)[i])
  {
  }

  /**
   * The result depends on the digits only, is a '+' followed by digits,
   * and its digits are the typed ones, with a '7' put in front unless
   * they already begin with one.
   */
  lemma ForServerShape(phone: string)
    ensures ForServer(phone) == ForServer(Digits(phone))
    ensures |ForServer(phone)| >= 2 && ForServer(phone)[..2] == "+7"
    ensures forall i :: 1 <= i < |ForServer(phone)| ==> IsDigit(ForServer(phone)[i])
    ensures var d := Digits(phone);
      ForServer(phone)[1..] == if |d| > 0 && d[0] == '7' then d else "7" + d
  {
    var d := Digits(phone);
    ForServerOnDigits(phone);
    ForServerTail(phone);
    SevenThenDigits(d);
    var r := ForServer(phone);
    var tail := r[1..];
    assert tail[0] == '7';
    assert forall i :: 0 <= i < |tail| ==> IsDigit(tail[i]);
    forall i | 1 <= i < |r| ensures IsDigit(r[i]) {
      assert r[i] == tail[i - 1];
    }
  }

  /** The digits of a normalised phone. */
  lemma DigitsOfForServer(phone: string)
    ensures Digits(ForServer(phone)) == ForServer(phone)[1..]
  {
    var r := ForServer(phone);
    ForServerShape(phone);
    assert r == [r[0]] + r[1..];
    DigitsConcat([r[0]], r[1..]);
    DigitsOfDigits(r[1..]);
  }

  /** Normalising a normalised phone changes nothing. */
  lemma ForServerIdempotent(phone: string)
    ensures ForServer(ForServer(phone)) == ForServer(phone)
  {
    var r := ForServer(phone);
    DigitsOfForServer(phone);
    ForServerShape(phone);
    assert Digits(r)[0] == '7';
  }

  /**
   * The server's phone pattern accepts the normalised phone exactly when
   * the digits typed are 2 to 15 beginning with '7', or 1 to 14 otherwise
   * (a '7' is put in front of them).
   */
  lemma ForServerMatchesPattern(phone: string)
    ensures var d := Digits(phone);
      Users.MatchesPhonePattern(ForServer(phone)) <==>
        if |d| > 0 && d[0] == '7' then 2 <= |d| <= 15 else 1 <= |d| <= 14
  {
    var r := ForServer(phone);
    ForServerShape(phone);
    assert r[0] == '+';
    assert !Users.IsPhoneBody(r);
  }

  /** A phone the login form accepts is normalised into one the server accepts. */
  lemma AcceptedPhoneReachesServer(phone: string)
    requires IsValidPhoneField(phone)
    ensures Users.MatchesPhonePattern(ForServer(phone))
  {
    ForServerMatchesPattern(phone);
  }

  /**
   * A number typed with the domestic trunk prefix 8 keeps it: the
   * normaliser puts "+7" in front of all the digits, so "8 999 123-45-67"
   * goes to the server as "+789991234567".
   */
  lemma TrunkPrefixKept(rest: string)
    requires forall k :: 0 <= k < |rest| ==> IsDigit(rest[k])
    ensures ForServer("8" + rest) == "+78" + rest
  {
    var d := "8" + rest;
    assert forall k :: 0 <= k < |d| ==> IsDigit(d[k]);
    DigitsOfDigits(d);
  }
}
