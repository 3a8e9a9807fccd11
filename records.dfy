/**
 * The JSON records the application keeps on disk: appointment files,
 * doctor profiles and user or admin accounts, and Python's `int()` as the
 * doctor dashboard applies it to a fee.
 */
module Records {
  import opened Wrappers
  import opened Text

  /** An appointment file: `{doctor, user, date, time, fee, status}`. */
  datatype Appointment = Appointment(
    doctor: string,
    user: string,
    date: string,
    time: seq<string>,
    fee: string,
    status: string)

  /** The file `appointment<id>.json` of the appointment directory. */
  datatype Entry = Entry(id: nat, appt: Appointment)

  /**
   * A doctor's `profile.json`. Profiles written by the sign-up form have
   * no `Fee` and no `Availability` key, hence the options.
   */
  datatype DoctorProfile = DoctorProfile(
    fullName: string,
    email: string,
    passwordHash: string,
    experience: string,
    fee: Option<string>,
    specialty: string,
    address: string,
    about: string,
    availability: Option<string>,
    image: string)

  /** A user or admin account file. */
  datatype Account = Account(fullName: string, email: string, contact: string, passwordHash: string, accountType: string)

  predicate DigitsOrUnderscores(s: string) {
    forall i :: 0 <= i < |s| ==> IsDigit(s[i]) || s[i] == '_'
  }

  /** Digits with single underscores between them, as `int()` accepts after the sign. */
  predicate DigitGroups(s: string) {
    && |s| > 0 && IsDigit(s[0]) && IsDigit(s[|s| - 1])
    && DigitsOrUnderscores(s)
    && forall i :: 0 <= i < |s| - 1 && s[i] == '_' ==> IsDigit(s[i + 1])
  }

  function DropUnderscores(s: string): (r: string)
    requires DigitsOrUnderscores(s)
    ensures AllDigits(r)
  {
    if s == [] then []
    else (if s[0] == '_' then [] else [s[0]]) + DropUnderscores(s[1..])
  }

  /** Without underscores there is nothing to drop. */
  lemma {:induction false} DropUnderscoresOfDigits(s: string)
    requires AllDigits(s)
    ensures DropUnderscores(s) == s
  {
    if s != [] {
      DropUnderscoresOfDigits(s[1..]);
      assert [s[0]] + s[1..] == s;
    }
  }

  /**
   * CPython's limit on the digits `int()` converts from a string (3.11 and
   * the patched older releases); underscores and the sign do not count.
   */
  const MaxIntDigits := 4300

  /**
   * Python's `int(s)`: surrounding white space, an optional sign, then digit
   * groups of at most `MaxIntDigits` digits; `None` where it raises.
   */
  function ParseInt(s: string): Option<int> {
    var t := Strip(s);
    if t == [] then None
    else
      var body := if t[0] == '-' || t[0] == '+' then t[1..] else t;
      match ParseMagnitude(body)
      case None => None
      case Some(v) => Some(if t[0] == '-' then -(v as int) else v)
  }

  /** The part of `int(s)` after the sign: digit groups within the digit limit. */
  function ParseMagnitude(body: string): Option<nat> {
    if !DigitGroups(body) || |DropUnderscores(body)| > MaxIntDigits then None
    else Some(DigitsValue(DropUnderscores(body)))
  }

  lemma PlainMagnitude(d: string)
    requires d != [] && AllDigits(d)
    ensures ParseMagnitude(d) == if |d| <= MaxIntDigits then Some(DigitsValue(d)) else None
  {
    DropUnderscoresOfDigits(d);
    assert DigitGroups(d);
  }

  /** What a fee adds to the income total: its integer value, or 0 when `int()` raises. */
  function FeeValue(fee: string): int {
    ParseInt(fee).GetOr(0)
  }

  /** A fee typed into the digits-only fee field adds exactly its decimal value, up to the digit limit. */
  lemma DigitFeeValue(fee: string)
    requires fee != [] && AllDigits(fee) && |fee| <= MaxIntDigits
    ensures FeeValue(fee) == DigitsValue(fee)
  {
    UnsignedFee(fee);
    DropUnderscoresOfDigits(fee);
    assert DigitGroups(fee);
  }

  /** Past the digit limit `int()` raises, and the fee adds nothing. */
  lemma LongFeeValue(fee: string)
    requires fee != [] && AllDigits(fee) && |fee| > MaxIntDigits
    ensures FeeValue(fee) == 0
  {
    UnsignedFee(fee);
    DropUnderscoresOfDigits(fee);
    assert DigitGroups(fee);
  }

  lemma DigitsOrUnderscoresAppend(a: string, b: string)
    requires DigitsOrUnderscores(a) && DigitsOrUnderscores(b)
    ensures DigitsOrUnderscores(a + b)
  {
    forall i | 0 <= i < |a + b|
      ensures IsDigit((a + b)[i]) || (a + b)[i] == '_'
    {
      if i < |a| {
        assert (a + b)[i] == a[i];
      } else {
        assert (a + b)[i] == b[i - |a|];
      }
    }
  }

  lemma {:induction false} DropUnderscoresAppend(a: string, b: string)
    requires DigitsOrUnderscores(a) && DigitsOrUnderscores(b)
    ensures DigitsOrUnderscores(a + b)
    ensures DropUnderscores(a + b) == DropUnderscores(a) + DropUnderscores(b)
  {
    DigitsOrUnderscoresAppend(a, b);
    if a == [] {
      assert a + b == b;
    } else {
      var head := if a[0] == '_' then [] else [a[0]];
      assert (a + b)[0] == a[0] && (a + b)[1..] == a[1..] + b;
      DropUnderscoresAppend(a[1..], b);
      calc {
        DropUnderscores(a + b);
        head + DropUnderscores(a[1..] + b);
        head + (DropUnderscores(a[1..]) + DropUnderscores(b));
        { assert head + (DropUnderscores(a[1..]) + DropUnderscores(b)) == (head + DropUnderscores(a[1..])) + DropUnderscores(b); }
        DropUnderscores(a) + DropUnderscores(b);
      }
    }
  }

  lemma StripDigitEnds(s: string)
    requires s != [] && IsDigit(s[0]) && IsDigit(s[|s| - 1])
    ensures Strip(s) == s
  {
    assert !IsSpace(s[0]) && !IsSpace(s[|s| - 1]);
    assert TrimStart(s) == s;
    assert TrimEnd(s) == s;
  }

  /** A string that starts and ends with a digit has nothing to strip and no sign. */
  lemma UnsignedFee(s: string)
    requires s != [] && IsDigit(s[0]) && IsDigit(s[|s| - 1])
    ensures FeeValue(s) == if DigitGroups(s) && |DropUnderscores(s)| <= MaxIntDigits then DigitsValue(DropUnderscores(s)) else 0
  {
    StripDigitEnds(s);
    assert s[0] != '-' && s[0] != '+';
    assert ParseInt(s) == match ParseMagnitude(s) case None => None case Some(v) => Some(v as int);
  }

  lemma GroupedShape(d1: string, d2: string)
    requires d1 != [] && d2 != [] && AllDigits(d1) && AllDigits(d2)
    ensures DigitGroups(d1 + "_" + d2)
  {
    var s := d1 + "_" + d2;
    assert s[0] == d1[0] && s[|s| - 1] == d2[|d2| - 1];
    forall i | 0 <= i < |s| - 1 && s[i] == '_'
      ensures IsDigit(s[i + 1])
    {
      assert i == |d1| && s[i + 1] == d2[0];
    }
  }

  lemma GroupedDigits(d1: string, d2: string)
    requires AllDigits(d1) && AllDigits(d2)
    ensures DigitsOrUnderscores(d1 + "_" + d2)
    ensures DropUnderscores(d1 + "_" + d2) == d1 + d2
  {
    var u := "_" + d2;
    assert d1 + "_" + d2 == d1 + u;
    assert u[0] == '_' && u[1..] == d2;
    assert DigitsOrUnderscores(u) by {
      forall i | 0 <= i < |u|
        ensures IsDigit(u[i]) || u[i] == '_'
      {
        if i > 0 {
          assert u[i] == d2[i - 1];
        }
      }
    }
    DropUnderscoresOfDigits(d1);
    DropUnderscoresOfDigits(d2);
    assert DropUnderscores(u) == [] + DropUnderscores(d2);
    assert [] + d2 == d2;
    DropUnderscoresAppend(d1, u);
    assert DropUnderscores(d1 + u) == d1 + d2;
  }

  /**
   * `int()` reads two digit groups joined by an underscore as the digits
   * run together; the underscore does not count toward the digit limit.
   */
  lemma FeeValueGrouped(d1: string, d2: string)
    requires d1 != [] && d2 != [] && AllDigits(d1) && AllDigits(d2) && |d1| + |d2| <= MaxIntDigits
    ensures FeeValue(d1 + "_" + d2) == DigitsValue(d1 + d2)
  {
    var s := d1 + "_" + d2;
    GroupedShape(d1, d2);
    GroupedDigits(d1, d2);
    UnsignedFee(s);
  }

  /** A leading minus sign negates the fee; the sign does not count toward the digit limit. */
  lemma FeeValueNegative(d: string)
    requires d != [] && AllDigits(d) && |d| <= MaxIntDigits
    ensures FeeValue("-" + d) == -(DigitsValue(d) as int)
  {
    var s := "-" + d;
    assert s[1..] == d;
    assert TrimStart(s) == s;
    assert s[|s| - 1] == d[|d| - 1];
    assert TrimEnd(s) == s;
    PlainMagnitude(d);
  }

  /** A fee with a decimal point is refused by `int()` and adds nothing. */
  lemma FeeValueDecimal(d1: string, d2: string)
    requires d1 != [] && d2 != [] && AllDigits(d1) && AllDigits(d2)
    ensures FeeValue(d1 + "." + d2) == 0
  {
    var s := d1 + "." + d2;
    assert s[0] == d1[0] && s[|s| - 1] == d2[|d2| - 1];
    assert s[|d1|] == '.';
    assert !DigitsOrUnderscores(s);
    UnsignedFee(s);
  }
}
