/** The small validators and formatters of `utils.py`. */
module Utils {
  import opened Values
  import opened Dates

  /** `validate_isin`: true exactly for a string of twelve characters. No
      character of it is examined, and anything that is not a string (None
      included) is rejected. */
  function ValidateIsin(isin: Cell): (ok: bool)
    ensures ok <==> (isin.Text? && |isin.s| == 12)
  {
    isin.Text? && |isin.s| == 12
  }

  // ---------------------------------------------------------------------
  // format_currency

  /** The default symbol of `format_currency`: the euro sign's UTF-8 bytes
      read as Windows-1252, i.e. the three characters U+00E2 U+201A U+00AC. */
  const DefaultSymbol: string := "\U{E2}\U{201A}\U{AC}"

  /** A natural number in decimal, without leading zeros. */
  function Decimal(n: nat): (s: string)
    ensures 1 <= |s| && AllDigits(s)
    ensures |s| > 1 ==> s[0] != '0'
  {
    if n < 10 then [DigitChar(n)] else Decimal(n / 10) + [DigitChar(n % 10)]
  }

  /** `n` in decimal with a comma between every group of three digits,
      counted from the right (the `,` of a Python format specification). */
  function Grouped(n: nat): string {
    if n < 1000 then Decimal(n) else Grouped(n / 1000) + "," + Pad(n % 1000, 3)
  }

  /** The shape of a grouped number: a leading group of one to three digits,
      then groups of exactly three digits, each after a comma. */
  predicate WellGrouped(s: string) {
    if |s| <= 3 then 1 <= |s| && AllDigits(s)
    else s[|s| - 4] == ',' && AllDigits(s[|s| - 3..]) && WellGrouped(s[..|s| - 4])
  }

  function RemoveCommas(s: string): (t: string)
    ensures |t| <= |s|
  {
    if s == [] then ""
    else RemoveCommas(s[..|s| - 1]) + (if s[|s| - 1] == ',' then "" else [s[|s| - 1]])
  }

  /** `format_currency(value, symbol)` for an amount given in whole cents:
      the symbol followed by the signed amount. */
  function FormatCurrency(cents: int, symbol: string): string {
    symbol + SignedAmount(cents)
  }

  /** A minus sign for a negative amount, the grouped integer part, a point
      and exactly two decimals. */
  function SignedAmount(cents: int): string {
    var mag: nat := if cents < 0 then -cents else cents;
    (if cents < 0 then "-" else "") + Magnitude(mag)
  }

  function Magnitude(mag: nat): string {
    Grouped(mag / 100) + "." + Pad(mag % 100, 2)
  }

  /** Reads an amount in whole cents back from the text `FormatCurrency`
      produces with the given symbol. */
  function ParseCurrency(s: string, symbol: string): Option<int> {
    if |s| <= |symbol| || s[..|symbol|] != symbol then None
    else ParseSigned(s[|symbol|..])
  }

  function ParseSigned(body: string): Option<int>
    requires body != []
  {
    if body[0] == '-' then
      match ParseMagnitude(body[1..])
      case Some(v) => Some(-(v as int))
      case None => None
    else
      match ParseMagnitude(body)
      case Some(v) => Some(v as int)
      case None => None
  }

  /** Reads "<grouped digits>.<two digits>" as a number of cents. */
  function ParseMagnitude(m: string): Option<nat> {
    if |m| < 4 || m[|m| - 3] != '.' || !AllDigits(m[|m| - 2..]) then None
    else
      var whole := RemoveCommas(m[..|m| - 3]);
      if whole == [] || !AllDigits(whole) then None
      else Some(100 * DigitsValue(whole) + DigitsValue(m[|m| - 2..]))
  }

  lemma {:induction false} DecimalValue(n: nat)
    ensures DigitsValue(Decimal(n)) == n
  {
    if n >= 10 {
      DecimalValue(n / 10);
      var s := Decimal(n);
      assert s[..|s| - 1] == Decimal(n / 10);
    }
  }

  lemma {:induction false} RemoveCommasAppend(a: string, b: string)
    ensures RemoveCommas(a + b) == RemoveCommas(a) + RemoveCommas(b)
    decreases |b|
  {
    if b != [] {
      var b' := b[..|b| - 1];
      assert (a + b)[..|a + b| - 1] == a + b';
      RemoveCommasAppend(a, b');
    } else {
      assert a + b == a;
    }
  }

  lemma {:induction false} RemoveCommasOfDigits(s: string)
    requires AllDigits(s)
    ensures RemoveCommas(s) == s
  {
    if s != [] {
      RemoveCommasOfDigits(s[..|s| - 1]);
      assert s == s[..|s| - 1] + [s[|s| - 1]];
    }
  }

  lemma AllDigitsAppend(a: string, b: string)
    requires AllDigits(a) && AllDigits(b)
    ensures AllDigits(a + b)
  {
    forall i | 0 <= i < |a + b| ensures IsDigit((a + b)[i]) {
      if i < |a| { assert (a + b)[i] == a[i]; } else { assert (a + b)[i] == b[i - |a|]; }
    }
  }

  lemma ShiftDigit(x: int, p: int, y: int, d: int)
    ensures 10 * (x * p + y) + d == x * (10 * p) + (10 * y + d)
  {
  }

  lemma {:induction false} DigitsValueAppend(a: string, b: string)
    requires AllDigits(a) && AllDigits(b)
    ensures AllDigits(a + b)
    ensures DigitsValue(a + b) == DigitsValue(a) * Pow10(|b|) + DigitsValue(b)
    decreases |b|
  {
    AllDigitsAppend(a, b);
    if b == [] {
      assert a + b == a;
    } else {
      var b' := b[..|b| - 1];
      var ab := a + b;
      assert ab[..|ab| - 1] == a + b';
      assert ab[|ab| - 1] == b[|b| - 1];
      DigitsValueAppend(a, b');
      ShiftDigit(DigitsValue(a), Pow10(|b'|), DigitsValue(b'), DigitVal(b[|b| - 1]));
    }
  }

  /** Without its commas a grouped number is the plain decimal of `n`. */
  lemma {:induction false} GroupedValue(n: nat)
    ensures AllDigits(RemoveCommas(Grouped(n)))
    ensures 1 <= |RemoveCommas(Grouped(n))|
    ensures DigitsValue(RemoveCommas(Grouped(n))) == n
  {
    if n < 1000 {
      RemoveCommasOfDigits(Decimal(n));
      DecimalValue(n);
    } else {
      GroupedValue(n / 1000);
      var head := RemoveCommas(Grouped(n / 1000));
      var tail := Pad(n % 1000, 3);
      GroupedStep(n);
      PadValue(n % 1000, 3);
      DigitsValueAppend(head, tail);
      assert Pow10(3) == 1000;
      assert DigitsValue(head + tail) == (n / 1000) * 1000 + n % 1000;
    }
  }

  /** One step of grouping: the commas of the leading groups are removed,
      and the comma before the last group disappears. */
  lemma GroupedStep(n: nat)
    requires n >= 1000
    ensures RemoveCommas(Grouped(n)) == RemoveCommas(Grouped(n / 1000)) + Pad(n % 1000, 3)
  {
    var head := Grouped(n / 1000);
    var tail := Pad(n % 1000, 3);
    assert Grouped(n) == (head + ",") + tail;
    RemoveCommasAppend(head + ",", tail);
    RemoveCommasAppend(head, ",");
    assert RemoveCommas(",") == "";
    RemoveCommasOfDigits(tail);
  }

  /** The grouped form is well grouped and begins with a digit. */
  lemma {:induction false} GroupedShape(n: nat)
    ensures |Grouped(n)| >= 1
    ensures WellGrouped(Grouped(n))
    ensures IsDigit(Grouped(n)[0])
    ensures Grouped(n)[0] == '0' ==> n == 0
  {
    if n >= 1000 {
      GroupedShape(n / 1000);
      var s := Grouped(n);
      var head := Grouped(n / 1000);
      assert s == head + "," + Pad(n % 1000, 3);
      assert |s| > 3 && s[|s| - 4] == ',';
      assert s[..|s| - 4] == head;
      assert s[0] == head[0];
      assert s[|s| - 3..] == Pad(n % 1000, 3);
    } else if n >= 10 {
      assert |Decimal(n / 10)| <= 2 by {
        if n / 10 >= 10 { assert |Decimal(n / 100)| == 1; }
      }
    }
  }

  /** Reading "<g>.<two digits>" when `g` without its commas is a
      non-empty digit string. */
  lemma ParseMagnitudeOf(g: string, frac: string)
    requires AllDigits(RemoveCommas(g)) && 1 <= |RemoveCommas(g)| && |frac| == 2 && AllDigits(frac)
    ensures var m := g + "." + frac;
      && |m| >= 4 && m[|m| - 3] == '.' && m[|m| - 2..] == frac
      && ParseMagnitude(m) == Some(100 * DigitsValue(RemoveCommas(g)) + DigitsValue(frac))
  {
    var m := g + "." + frac;
    assert m[|m| - 3] == '.';
    assert m[|m| - 2..] == frac;
    assert m[..|m| - 3] == g;
  }

  /** The unsigned part of a formatted amount reads back as the amount. */
  lemma MagnitudeRoundTrip(mag: nat)
    ensures var m := Magnitude(mag);
      && |m| >= 4 && IsDigit(m[0]) && m[|m| - 3] == '.' && AllDigits(m[|m| - 2..])
      && ParseMagnitude(m) == Some(mag)
  {
    var g := Grouped(mag / 100);
    var frac := Pad(mag % 100, 2);
    GroupedShape(mag / 100);
    GroupedValue(mag / 100);
    PadValue(mag % 100, 2);
    ParseMagnitudeOf(g, frac);
    var m := g + "." + frac;
    assert Magnitude(mag) == m;
    assert m[0] == g[0];
    assert 100 * (mag / 100) + mag % 100 == mag;
  }

  lemma SignedRoundTrip(cents: int)
    ensures var b := SignedAmount(cents);
      && |b| >= 4 && b[|b| - 3] == '.' && AllDigits(b[|b| - 2..])
      && ParseSigned(b) == Some(cents)
  {
    var mag: nat := if cents < 0 then -cents else cents;
    var m := Magnitude(mag);
    MagnitudeRoundTrip(mag);
    var b := SignedAmount(cents);
    if cents < 0 {
      assert b == "-" + m;
      assert b[0] == '-' && b[1..] == m;
      assert b[|b| - 2..] == m[|m| - 2..];
    } else {
      assert b == m && b[0] != '-';
    }
  }

  /** `format_currency` starts with the symbol, ends with a point and two
      decimals, and loses nothing: the amount can be read back. */
  lemma FormatCurrencyRoundTrip(cents: int, symbol: string)
    ensures var s := FormatCurrency(cents, symbol);
      && |s| > |symbol| + 3
      && s[..|symbol|] == symbol
      && s[|s| - 3] == '.' && AllDigits(s[|s| - 2..])
      && ParseCurrency(s, symbol) == Some(cents)
  {
    var s := FormatCurrency(cents, symbol);
    var b := SignedAmount(cents);
    SignedRoundTrip(cents);
    assert s[..|symbol|] == symbol;
    assert s[|symbol|..] == b;
    assert s[|s| - 2..] == b[|b| - 2..];
  }

  lemma Middle(a: string, b: string, c: string)
    ensures (a + (b + c))[|a|..|a| + |b|] == b
  {
    assert (a + (b + c))[|a|..] == b + c;
  }

  /** The grouped integer part of a formatted amount, as it stands between
      the symbol (and the minus sign of a negative amount) and the decimal
      point: groups of three digits after the first, and no leading zero
      unless the integer part is 0. */
  lemma FormatCurrencyGrouped(cents: int, symbol: string)
    ensures var s := FormatCurrency(cents, symbol);
      var start := |symbol| + (if cents < 0 then 1 else 0);
      && start + 4 <= |s|
      && (cents < 0 ==> s[|symbol|] == '-')
      && WellGrouped(s[start..|s| - 3])
      && (s[start] == '0' ==> s[start..|s| - 3] == "0")
  {
    var mag: nat := if cents < 0 then -cents else cents;
    IntegerPart(cents, symbol);
    GroupedShape(mag / 100);
  }

  lemma GroupedOf1234()
    ensures Grouped(1234) == "1,234"
  {
    assert Pad(2, 1) == "2";
    assert Pad(23, 2) == "23";
    assert Pad(234, 3) == "234";
    assert Grouped(1) == "1";
  }

  lemma MagnitudeOf123450()
    ensures Magnitude(123450) == "1,234.50"
  {
    assert 123450 / 100 == 1234 && 123450 % 100 == 50;
    GroupedOf1234();
    assert Pad(5, 1) == "5";
    assert Pad(50, 2) == "50";
  }

  /** A negative amount: the minus sign follows the symbol and the integer
      part is grouped like a positive one. */
  lemma NegativeAmountExample()
    ensures FormatCurrency(-123450, "\U{20AC}") == "\U{20AC}-1,234.50"
  {
    MagnitudeOf123450();
    assert SignedAmount(-123450) == "-" + Magnitude(123450);
  }

  /** What stands between the symbol (and sign) and the decimal point is
      the grouped integer part of the amount's magnitude. */
  lemma IntegerPart(cents: int, symbol: string)
    ensures var s := FormatCurrency(cents, symbol);
      var start := |symbol| + (if cents < 0 then 1 else 0);
      var mag: nat := if cents < 0 then -cents else cents;
      && |s| >= start + 3
      && (cents < 0 ==> s[|symbol|] == '-')
      && s[start..|s| - 3] == Grouped(mag / 100)
  {
    var mag: nat := if cents < 0 then -cents else cents;
    var sign := if cents < 0 then "-" else "";
    var g := Grouped(mag / 100);
    var tail := "." + Pad(mag % 100, 2);
    var s := FormatCurrency(cents, symbol);
    assert s == (symbol + sign) + (g + tail) by {
      assert SignedAmount(cents) == sign + Magnitude(mag);
    }
    Middle(symbol + sign, g, tail);
    if cents < 0 {
      assert s[|symbol|] == (symbol + sign)[|symbol|];
    }
  }

  /** `format_currency(value)` with its default symbol, as written. */
  function FormatCurrencyDefault(cents: int): string {
    FormatCurrency(cents, DefaultSymbol)
  }

  /** The euro sign, U+20AC, which the default symbol evidently stands for. */
  const EuroSign: string := "\U{20AC}"

  /** As written, the default output does not start with the euro sign but
      with the three characters of its mis-decoded bytes, so it does not
      read back as a euro amount. */
  lemma DefaultSymbolIsNotEuro(cents: int)
    ensures var s := FormatCurrencyDefault(cents);
      && s[..3] == "\U{E2}\U{201A}\U{AC}"
      && s[0] != EuroSign[0]
      && ParseCurrency(s, EuroSign) == None
  {
    FormatCurrencyRoundTrip(cents, DefaultSymbol);
  }

  /** `format_currency(value)` with the euro sign as its default symbol: one
      character of symbol, then the amount, which reads back. */
  function FormatEuro(cents: int): (s: string)
    ensures |s| > 4 && s[0] == '\U{20AC}'
    ensures ParseCurrency(s, EuroSign) == Some(cents)
  {
    FormatCurrencyRoundTrip(cents, EuroSign);
    FormatCurrency(cents, EuroSign)
  }

  // ---------------------------------------------------------------------
  // format_date

  /** `format_date(date)` with its default format "%d/%m/%Y": two-digit day,
      two-digit month and four-digit year separated by slashes, naming the
      same date. */
  function FormatDate(d: Date): (s: string)
    requires ValidDate(d)
    ensures |s| == 10 && s[2] == '/' && s[5] == '/'
    ensures AllDigits(s[..2]) && AllDigits(s[3..5]) && AllDigits(s[6..])
    ensures ParseDmy(s) == Some(d)
  {
    DmyRoundTrip(d);
    var s := FormatDmy(d);
    assert s[..2] == Pad(d.day, 2);
    assert s[3..5] == Pad(d.month, 2);
    assert s[6..] == Pad(d.year, 4);
    s
  }
}
