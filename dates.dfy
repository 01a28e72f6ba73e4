/** Calendar dates and the two textual forms the tracker uses: the ISO form
    "YYYY-MM-DD" that new transactions are stored with, and the display form
    "DD/MM/YYYY" of the metrics table and of `format_date`. */
module Dates {
  import opened Values

  datatype Date = Date(year: int, month: int, day: int)

  predicate LeapYear(y: int) {
    y % 4 == 0 && (y % 100 != 0 || y % 400 == 0)
  }

  function DaysInMonth(y: int, m: int): int
    requires 1 <= m <= 12
  {
    if m == 2 then (if LeapYear(y) then 29 else 28)
    else if m == 4 || m == 6 || m == 9 || m == 11 then 30
    else 31
  }

  /** A real calendar date with a four-digit year. */
  predicate ValidDate(d: Date) {
    && 1000 <= d.year <= 9999
    && 1 <= d.month <= 12
    && 1 <= d.day <= DaysInMonth(d.year, d.month)
  }

  // ---------------------------------------------------------------------
  // Decimal digits

  function Pow10(w: nat): nat {
    if w == 0 then 1 else 10 * Pow10(w - 1)
  }

  predicate IsDigit(c: char) {
    '0' <= c <= '9'
  }

  predicate AllDigits(s: string) {
    forall i :: 0 <= i < |s| ==> IsDigit(s[i])
  }

  function DigitChar(n: nat): char
    requires n < 10
  {
    ('0' as int + n) as char
  }

  function DigitVal(c: char): nat
    requires IsDigit(c)
  {
    c as int - '0' as int
  }

  /** The number a string of decimal digits denotes. */
  function DigitsValue(s: string): nat
    requires AllDigits(s)
  {
    if s == [] then 0 else 10 * DigitsValue(s[..|s| - 1]) + DigitVal(s[|s| - 1])
  }

  /** `n` written with exactly `w` digits, zero-padded on the left. */
  function Pad(n: nat, w: nat): (s: string)
    requires n < Pow10(w)
    ensures |s| == w && AllDigits(s)
  {
    if w == 0 then "" else Pad(n / 10, w - 1) + [DigitChar(n % 10)]
  }

  /** Reading back a padded number gives the number. */
  lemma {:induction false} PadValue(n: nat, w: nat)
    requires n < Pow10(w)
    ensures DigitsValue(Pad(n, w)) == n
  {
    if w > 0 {
      PadValue(n / 10, w - 1);
      var s := Pad(n, w);
      assert s[..|s| - 1] == Pad(n / 10, w - 1);
    }
  }

  lemma {:induction false} DigitsValueBound(s: string)
    requires AllDigits(s)
    ensures DigitsValue(s) < Pow10(|s|)
  {
    if s != [] {
      DigitsValueBound(s[..|s| - 1]);
    }
  }

  /** Padding the value of a digit string to its own width gives it back. */
  lemma {:induction false} PadOfValue(s: string)
    requires AllDigits(s)
    ensures DigitsValue(s) < Pow10(|s|) && Pad(DigitsValue(s), |s|) == s
  {
    DigitsValueBound(s);
    if s != [] {
      var p := s[..|s| - 1];
      PadOfValue(p);
      var q := DigitsValue(p);
      var d := DigitVal(s[|s| - 1]);
      DivMod10(q, d);
      assert DigitChar(d) == s[|s| - 1];
      assert Pad(DigitsValue(s), |s|) == Pad(q, |p|) + [DigitChar(d)];
      assert s == p + [s[|s| - 1]];
    }
  }

  lemma DivMod10(q: nat, d: nat)
    requires d < 10
    ensures (10 * q + d) / 10 == q && (10 * q + d) % 10 == d
  {
  }

  // ---------------------------------------------------------------------
  // ISO form, `strftime("%Y-%m-%d")`

  function FormatIso(d: Date): (s: string)
    requires ValidDate(d)
    ensures |s| == 10 && s[4] == '-' && s[7] == '-'
  {
    Pad(d.year, 4) + "-" + Pad(d.month, 2) + "-" + Pad(d.day, 2)
  }

  /** The date a canonical "YYYY-MM-DD" string names, or None when the
      string has another shape or names no calendar date. */
  function ParseIso(s: string): Option<Date> {
    if |s| == 10 && s[4] == '-' && s[7] == '-'
       && AllDigits(s[..4]) && AllDigits(s[5..7]) && AllDigits(s[8..])
    then
      var d := Date(DigitsValue(s[..4]), DigitsValue(s[5..7]), DigitsValue(s[8..]));
      if ValidDate(d) then Some(d) else None
    else None
  }

  /** What a successful ISO parse has seen: the shape, and the date whose
      fields are the values of the three digit groups. */
  lemma ParsedIso(s: string)
    requires ParseIso(s).Some?
    ensures |s| == 10 && s[4] == '-' && s[7] == '-'
    ensures AllDigits(s[..4]) && AllDigits(s[5..7]) && AllDigits(s[8..])
    ensures ParseIso(s).value == Date(DigitsValue(s[..4]), DigitsValue(s[5..7]), DigitsValue(s[8..]))
    ensures ValidDate(ParseIso(s).value)
  {
  }

  /** Every calendar date survives being written and read back in ISO form. */
  lemma IsoRoundTrip(d: Date)
    requires ValidDate(d)
    ensures ParseIso(FormatIso(d)) == Some(d)
  {
    var s := FormatIso(d);
    assert s[..4] == Pad(d.year, 4);
    assert s[5..7] == Pad(d.month, 2);
    assert s[8..] == Pad(d.day, 2);
    PadValue(d.year, 4);
    PadValue(d.month, 2);
    PadValue(d.day, 2);
  }

  /** A string that parses is the canonical spelling of its date. */
  lemma IsoCanonical(s: string)
    requires ParseIso(s).Some?
    ensures FormatIso(ParseIso(s).value) == s
  {
    ParsedIso(s);
    var d := ParseIso(s).value;
    PadOfValue(s[..4]);
    PadOfValue(s[5..7]);
    PadOfValue(s[8..]);
    var f := FormatIso(d);
    assert f == s[..4] + "-" + s[5..7] + "-" + s[8..];
    forall i | 0 <= i < 10 ensures f[i] == s[i] {
      if i < 4 {
        assert f[i] == s[..4][i];
      } else if 5 <= i < 7 {
        assert f[i] == s[5..7][i - 5];
      } else if 8 <= i {
        assert f[i] == s[8..][i - 8];
      }
    }
  }

  // ---------------------------------------------------------------------
  // Display form, `strftime("%d/%m/%Y")`

  function FormatDmy(d: Date): (s: string)
    requires ValidDate(d)
    ensures |s| == 10 && s[2] == '/' && s[5] == '/'
  {
    Pad(d.day, 2) + "/" + Pad(d.month, 2) + "/" + Pad(d.year, 4)
  }

  function ParseDmy(s: string): Option<Date> {
    if |s| == 10 && s[2] == '/' && s[5] == '/'
       && AllDigits(s[..2]) && AllDigits(s[3..5]) && AllDigits(s[6..])
    then
      var d := Date(DigitsValue(s[6..]), DigitsValue(s[3..5]), DigitsValue(s[..2]));
      if ValidDate(d) then Some(d) else None
    else None
  }

  /** The display form names the same day, month and year. */
  lemma DmyRoundTrip(d: Date)
    requires ValidDate(d)
    ensures ParseDmy(FormatDmy(d)) == Some(d)
  {
    var s := FormatDmy(d);
    assert s[..2] == Pad(d.day, 2);
    assert s[3..5] == Pad(d.month, 2);
    assert s[6..] == Pad(d.year, 4);
    PadValue(d.year, 4);
    PadValue(d.month, 2);
    PadValue(d.day, 2);
  }

  /** Re-rendering an ISO date for display moves its day, month and year
      fields and changes nothing else. */
  lemma IsoToDmyRearranges(s: string)
    requires ParseIso(s).Some?
    ensures FormatDmy(ParseIso(s).value) == s[8..10] + "/" + s[5..7] + "/" + s[..4]
  {
    ParsedIso(s);
    var d := ParseIso(s).value;
    var y, m, dd := s[..4], s[5..7], s[8..];
    PadOfValue(y);
    PadOfValue(m);
    PadOfValue(dd);
    assert Pad(d.year, 4) == y && Pad(d.month, 2) == m && Pad(d.day, 2) == dd;
    assert s[8..10] == dd;
  }
}
