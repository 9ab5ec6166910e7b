/**
 * The argument checks and normalisers of the three lookup commands, and
 * Python's `int(...)` on the admin command's user id.
 *
 * Python's `str.isdigit` and `str.upper` are Unicode-aware; this model
 * restricts both to ASCII: the digits are '0'..'9' and only 'a'..'z' change
 * case.
 */
module Validation {
  import opened Common

  const AADHAAR_LENGTH := 12
  const MIN_VEHICLE_LENGTH := 5
  const MIN_PHONE_LENGTH := 8

  predicate IsDigit(c: char)
  {
    '0' <= c <= '9'
  }

  /** `s.isdigit()`: false on the empty string, else every character a digit. */
  predicate IsDigits(s: string)
  {
    |s| > 0 && forall i :: 0 <= i < |s| ==> IsDigit(s[i])
  }

  /** `s.replace(c, '')`. */
  function Remove(s: string, c: char): (r: string)
    ensures |r| == |s| - multiset(s)[c]
    ensures forall i :: 0 <= i < |r| ==> r[i] != c
    ensures multiset(r)[c] == 0
    ensures forall d :: d != c ==> multiset(r)[d] == multiset(s)[d]
  {
    if s == [] then []
    else
      assert s == [s[0]] + s[1..];
      (if s[0] == c then [] else [s[0]]) + Remove(s[1..], c)
  }

  /** Removing a character that does not occur changes nothing. */
  lemma {:induction false} RemoveAbsent(s: string, c: char)
    requires forall i :: 0 <= i < |s| ==> s[i] != c
    ensures Remove(s, c) == s
  {
    if s != [] {
      RemoveAbsent(s[1..], c);
    }
  }

  /** Every character of `Remove(s, c)` is a character of `s`. */
  lemma RemoveKeeps(s: string, c: char, i: int)
    requires 0 <= i < |Remove(s, c)|
    ensures Remove(s, c)[i] in s
  {
    var r := Remove(s, c);
    assert r[i] in multiset(r);
    assert multiset(r)[r[i]] == multiset(s)[r[i]];
  }

  function UpperChar(c: char): char
  {
    if 'a' <= c <= 'z' then (c as int - 32) as char else c
  }

  /** `s.upper()` on ASCII letters. */
  function Upper(s: string): (r: string)
    ensures |r| == |s|
    ensures forall i :: 0 <= i < |s| ==> r[i] == UpperChar(s[i])
  {
    seq(|s|, i requires 0 <= i < |s| => UpperChar(s[i]))
  }

  /** Upper-casing neither adds nor removes spaces. */
  lemma {:induction false} UpperSpaces(s: string)
    ensures multiset(Upper(s))[' '] == multiset(s)[' ']
  {
    if s != [] {
      UpperSpaces(s[1..]);
      assert s == [s[0]] + s[1..];
      assert Upper(s) == [UpperChar(s[0])] + Upper(s[1..]);
    }
  }

  /** `/aadhaar`: the argument is used as given and must be exactly 12 digits. */
  predicate AadhaarAccepted(q: string)
  {
    IsDigits(q) && |q| == AADHAAR_LENGTH
  }

  /** `/vehicle`: `arg.upper().replace(' ', '')`. */
  function NormalizeVehicle(arg: string): (q: string)
    ensures forall i :: 0 <= i < |q| ==> q[i] != ' ' && !('a' <= q[i] <= 'z')
    ensures forall d :: d != ' ' ==> multiset(q)[d] == multiset(Upper(arg))[d]
    ensures |q| == |arg| - multiset(arg)[' ']
  {
    var u := Upper(arg);
    var q := Remove(u, ' ');
    UpperSpaces(arg);
    forall i | 0 <= i < |q| ensures !('a' <= q[i] <= 'z') {
      RemoveKeeps(u, ' ', i);
    }
    q
  }

  predicate VehicleAccepted(q: string)
  {
    |q| >= MIN_VEHICLE_LENGTH
  }

  /** `/phone`: `arg.replace(' ', '').replace('+', '')`. */
  function NormalizePhone(arg: string): (q: string)
    ensures forall i :: 0 <= i < |q| ==> q[i] != ' ' && q[i] != '+'
    ensures forall d :: d != ' ' && d != '+' ==> multiset(q)[d] == multiset(arg)[d]
    ensures |q| == |arg| - multiset(arg)[' '] - multiset(arg)['+']
  {
    var nospace := Remove(arg, ' ');
    var q := Remove(nospace, '+');
    forall i | 0 <= i < |q| ensures q[i] != ' ' {
      RemoveKeeps(nospace, '+', i);
    }
    q
  }

  predicate PhoneAccepted(q: string)
  {
    IsDigits(q) && |q| >= MIN_PHONE_LENGTH
  }

  /** Normalising a vehicle number twice is the same as normalising it once. */
  lemma {:induction false} NormalizeVehicleIdempotent(arg: string)
    ensures NormalizeVehicle(NormalizeVehicle(arg)) == NormalizeVehicle(arg)
  {
    var q := NormalizeVehicle(arg);
    assert Upper(q) == q;
    RemoveAbsent(q, ' ');
  }

  /** Normalising a phone number twice is the same as normalising it once. */
  lemma {:induction false} NormalizePhoneIdempotent(arg: string)
    ensures NormalizePhone(NormalizePhone(arg)) == NormalizePhone(arg)
  {
    var q := NormalizePhone(arg);
    RemoveAbsent(q, ' ');
    RemoveAbsent(q, '+');
  }

  /** A phone argument is accepted exactly when, besides spaces and plus signs, it
      holds only digits, and at least eight of them. */
  lemma PhoneAcceptedChars(arg: string)
    ensures PhoneAccepted(NormalizePhone(arg)) ==>
              forall i :: 0 <= i < |arg| ==> IsDigit(arg[i]) || arg[i] == ' ' || arg[i] == '+'
    ensures ((forall i :: 0 <= i < |arg| ==> IsDigit(arg[i]) || arg[i] == ' ' || arg[i] == '+')
             && |NormalizePhone(arg)| >= MIN_PHONE_LENGTH) ==> PhoneAccepted(NormalizePhone(arg))
  {
    var nospace := Remove(arg, ' ');
    var q := NormalizePhone(arg);
    forall i | 0 <= i < |arg| && !(IsDigit(arg[i]) || arg[i] == ' ' || arg[i] == '+')
      ensures !IsDigits(q)
    {
      var c := arg[i];
      assert c in multiset(arg);
      assert multiset(q)[c] == multiset(arg)[c];
      assert c in multiset(q);
      var j :| 0 <= j < |q| && q[j] == c;
    }
    if forall i :: 0 <= i < |arg| ==> IsDigit(arg[i]) || arg[i] == ' ' || arg[i] == '+' {
      forall j | 0 <= j < |q| ensures IsDigit(q[j]) {
        RemoveKeeps(nospace, '+', j);
        var k :| 0 <= k < |nospace| && nospace[k] == q[j];
        RemoveKeeps(arg, ' ', k);
      }
    }
  }

  // ---- Python int() on a command argument ----

  /** Decimal digits with single underscores between digits (the base-10 rule of `int()`, which allows leading zeros). */
  predicate IsIntBody(d: string)
  {
    && |d| > 0
    && IsDigit(d[0]) && IsDigit(d[|d| - 1])
    && (forall i :: 0 <= i < |d| ==> IsDigit(d[i]) || d[i] == '_')
    && (forall i :: 0 <= i < |d| - 1 ==> d[i] == '_' ==> IsDigit(d[i + 1]))
  }

  function DigitValue(c: char): nat
  {
    if IsDigit(c) then c as int - '0' as int else 0
  }

  /** The value of a digit string, most significant first, ignoring underscores. */
  function DigitsValue(d: string): nat
  {
    if d == [] then 0
    else if d[|d| - 1] == '_' then DigitsValue(d[..|d| - 1])
    else DigitsValue(d[..|d| - 1]) * 10 + DigitValue(d[|d| - 1])
  }

  /** `int(s)` for a whitespace-free token: an optional sign, then digits;
      None stands for the ValueError. */
  function ParseInt(s: string): (r: Option<int>)
    ensures r.Some? ==> |s| > 0
    ensures r.Some? && IsDigit(s[0]) ==> r.value >= 0
  {
    if |s| > 0 && (s[0] == '+' || s[0] == '-') then
      if IsIntBody(s[1..]) then
        Some(if s[0] == '-' then 0 - DigitsValue(s[1..]) else DigitsValue(s[1..]) as int)
      else None
    else if IsIntBody(s) then Some(DigitsValue(s))
    else None
  }

  /** A plain digit string is a valid literal body. */
  lemma DigitsAreIntBody(d: string)
    requires IsDigits(d)
    ensures IsIntBody(d)
  {
  }

  /** `int()` raises on any character that is not a digit or an underscore, other
      than a leading sign. */
  lemma ParseIntRejects(s: string, i: int)
    requires 0 <= i < |s| && !IsDigit(s[i]) && s[i] != '_'
    requires !(i == 0 && (s[i] == '+' || s[i] == '-'))
    ensures ParseInt(s).None?
  {
    if s[0] == '+' || s[0] == '-' {
      assert s[1..][i - 1] == s[i];
    }
  }

  /** `int()` raises on an underscore that opens or closes the digits or follows
      another underscore. `b` is where the digits start, after an optional sign. */
  lemma ParseIntRejectsUnderscore(s: string, i: int)
    requires 0 <= i < |s| && s[i] == '_'
    requires var b := if s[0] == '+' || s[0] == '-' then 1 else 0;
      b <= i && (i == b || i == |s| - 1 || s[i + 1] == '_')
    ensures ParseInt(s).None?
  {
    if s[0] == '+' || s[0] == '-' {
      var d := s[1..];
      assert d[i - 1] == '_';
      if i < |s| - 1 {
        assert d[i] == s[i + 1];
      }
    }
  }

  /** A leading zero does not change the value of a digit string. */
  lemma {:induction false} LeadingZeroValue(d: string)
    ensures DigitsValue("0" + d) == DigitsValue(d)
  {
    if d != [] {
      LeadingZeroValue(d[..|d| - 1]);
      assert ("0" + d)[..|d|] == "0" + d[..|d| - 1];
    }
  }

  /** A digit string reads as its value. */
  lemma ParseDigits(d: string)
    requires IsDigits(d)
    ensures ParseInt(d) == Some(DigitsValue(d) as int)
  {
    DigitsAreIntBody(d);
    assert IsDigit(d[0]);
  }

  /** `int()` accepts leading zeros: `int("0" + d) == int(d)`. */
  lemma ParseLeadingZero(d: string)
    requires IsDigits(d)
    ensures ParseInt("0" + d) == ParseInt(d)
  {
    var z := "0" + d;
    assert forall i :: 1 <= i < |z| ==> z[i] == d[i - 1];
    ParseDigits(z);
    ParseDigits(d);
    LeadingZeroValue(d);
  }

  /** `int()` accepts an explicit sign: `int("+" + d) == int(d)` and
      `int("-" + d) == -int(d)`. */
  lemma ParseSigned(d: string)
    requires IsDigits(d)
    ensures ParseInt("+" + d) == ParseInt(d)
    ensures ParseInt("-" + d) == Some(0 - DigitsValue(d))
  {
    ParseDigits(d);
    DigitsAreIntBody(d);
    var plus, minus := "+" + d, "-" + d;
    assert plus[1..] == d;
    assert minus[1..] == d;
  }

  /** `int()` skips single underscores between digits. */
  lemma ParseUnderscoreExample()
    ensures ParseInt("1_000") == Some(1000)
  {
    assert "1_000"[..4] == "1_00" && "1_00"[..3] == "1_0" && "1_0"[..2] == "1_" && "1_"[..1] == "1";
    assert DigitsValue("1_0") == 10;
    assert DigitsValue("1_000") == 1000;
    assert IsIntBody("1_000");
  }

  /** `int()` reads a signed token and one with leading zeros. */
  lemma ParseSignAndZerosExample()
    ensures ParseInt("-42") == Some(-42)
    ensures ParseInt("007") == Some(7)
  {
    assert "42"[..1] == "4";
    ParseSigned("42");
    assert "007" == "0" + "07" && "07" == "0" + "7";
    ParseLeadingZero("07");
    ParseLeadingZero("7");
    ParseDigits("7");
  }

  /** Tokens `int()` rejects with ValueError. */
  lemma ParseIntRejectsExamples()
    ensures ParseInt("1__0").None? && ParseInt("_1").None? && ParseInt("1_").None?
    ensures ParseInt("12a").None? && ParseInt("+").None? && ParseInt("").None?
  {
    ParseIntRejectsUnderscore("1__0", 1);
    ParseIntRejectsUnderscore("_1", 0);
    ParseIntRejectsUnderscore("1_", 1);
    ParseIntRejects("12a", 2);
  }

  function DigitChar(n: nat): char
    requires n < 10
  {
    ('0' as int + n) as char
  }

  /** The decimal digits of `n`, as `str(n)` prints them. */
  function NatToString(n: nat): (s: string)
    ensures |s| > 0
    ensures forall i :: 0 <= i < |s| ==> IsDigit(s[i])
  {
    if n < 10 then [DigitChar(n)] else NatToString(n / 10) + [DigitChar(n % 10)]
  }

  /** `str(n)` for a Python int. */
  function ShowInt(n: int): (s: string)
    ensures |s| > 0
  {
    if n < 0 then "-" + NatToString(-n) else NatToString(n)
  }

  lemma {:induction false} NatToStringValue(n: nat)
    ensures DigitsValue(NatToString(n)) == n
  {
    var s := NatToString(n);
    if n >= 10 {
      NatToStringValue(n / 10);
      assert s[..|s| - 1] == NatToString(n / 10);
    }
  }

  /** Parsing what `str` prints gives back the number: `int(str(n)) == n`. */
  lemma ParseShowInt(n: int)
    ensures ParseInt(ShowInt(n)) == Some(n)
  {
    if n < 0 {
      var body := NatToString(-n);
      var s := "-" + body;
      assert s[0] == '-' && s[1..] == body;
      DigitsAreIntBody(body);
      NatToStringValue(-n);
      assert ParseInt(s) == Some(0 - DigitsValue(body));
    } else {
      var s := NatToString(n);
      DigitsAreIntBody(s);
      NatToStringValue(n);
      assert IsDigit(s[0]);
      assert ParseInt(s) == Some(DigitsValue(s) as int);
    }
  }
}
