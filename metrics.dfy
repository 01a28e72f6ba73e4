/** `metrics.py`: the per-transaction valuation table and the maximum
    drawdown of a value series. */
module Metrics {
  import opened Values
  import opened Dates
  import opened Frames
  import opened Schema

  /** Columns that are created with 0 in every row when no record has them. */
  const RequiredColumns: seq<string> := [Quantity, PurchasePrice, CurrentPrice]
  /** Columns rounded to two decimals at the end. */
  const RoundedColumns: seq<string> := [PurchasePrice, CurrentPrice, Cost, MarketValue]

  /** Every column the metrics table is guaranteed to have. */
  const MetricColumns: set<string> := {Quantity, PurchasePrice, CurrentPrice, Cost, MarketValue, Growth}

  // ---------------------------------------------------------------------
  // Cell arithmetic

  /** The value a cell contributes to float arithmetic (a bool counts as 0
      or 1); None for anything that is not a finite number. */
  function Numeric(c: Cell): Option<real> {
    match c
    case Num(x) => Some(x)
    case Flag(b) => Some(if b then 1.0 else 0.0)
    case _ => None
  }

  /** `a * b` on two cells. */
  function Product(a: Cell, b: Cell): Cell {
    if Numeric(a).Some? && Numeric(b).Some? then Num(Numeric(a).value * Numeric(b).value)
    else Undefined
  }

  /** `(mv - cost) / cost * 100`; undefined (NaN or an infinity) when the
      cost is zero or either operand is not a number. */
  function GrowthPct(mv: Cell, cost: Cell): Cell {
    if Numeric(mv).Some? && Numeric(cost).Some? && Numeric(cost).value != 0.0
    then Num((Numeric(mv).value - Numeric(cost).value) / Numeric(cost).value * 100.0)
    else Undefined
  }

  /** `.round(2)` of one cell; the rounding itself is the parameter `round2`. */
  function Rounded(c: Cell, round2: real -> real): Cell {
    if c.Num? then Num(round2(c.x)) else c
  }

  predicate DateLe(a: Date, b: Date) {
    a.year < b.year || (a.year == b.year && (a.month < b.month || (a.month == b.month && a.day <= b.day)))
  }

  /** The calendar days a pandas nanosecond timestamp can hold at midnight. */
  predicate InTimestampRange(d: Date) {
    DateLe(Date(1677, 9, 22), d) && DateLe(d, Date(2262, 4, 11))
  }

  /** `pd.to_datetime(c, errors='coerce').strftime('%d/%m/%Y')`: a canonical
      ISO date becomes "DD/MM/YYYY"; anything else becomes NaT. */
  function DisplayDate(c: Cell): (r: Cell)
    ensures r.Text? <==> c.Text? && ParseIso(c.s).Some? && InTimestampRange(ParseIso(c.s).value)
    ensures !r.Text? ==> r == Undefined
    ensures r.Text? ==> ParseDmy(r.s) == ParseIso(c.s)
  {
    if c.Text? && ParseIso(c.s).Some? && InTimestampRange(ParseIso(c.s).value)
    then DmyRoundTrip(ParseIso(c.s).value); Text(FormatDmy(ParseIso(c.s).value))
    else Undefined
  }

  // ---------------------------------------------------------------------
  // calculate_metrics

  /** The input value of column `k` in row `i` once the required columns have
      been ensured: the record's own value, NaN when only other records have
      the key, and 0 when no record has it. */
  function Source(ts: seq<Record>, i: int, k: string): Cell
    requires 0 <= i < |ts|
  {
    if k in ts[i] then ts[i][k] else if k in AllKeys(ts) then Undefined else Num(0.0)
  }

  /** The six metric columns of row `i`: the quantity as given, the prices
      rounded, cost and market value as rounded products, and the growth
      rounded from the unrounded cost and market value. */
  ghost predicate MetricValues(ts: seq<Record>, i: int, round2: real -> real, out: Row)
    requires 0 <= i < |ts|
    requires MetricColumns <= out.Keys
  {
    var q := Source(ts, i, Quantity);
    var p := Source(ts, i, PurchasePrice);
    var c := Source(ts, i, CurrentPrice);
    && out[Quantity] == q
    && out[PurchasePrice] == Rounded(p, round2)
    && out[CurrentPrice] == Rounded(c, round2)
    && out[Cost] == Rounded(Product(q, p), round2)
    && out[MarketValue] == Rounded(Product(q, c), round2)
    && out[Growth] == Rounded(GrowthPct(Product(q, c), Product(q, p)), round2)
  }

  /** The other columns of row `i`: the purchase date shown as "DD/MM/YYYY"
      (or NaT), every remaining column as the record gave it. */
  ghost predicate KeptColumns(ts: seq<Record>, i: int, out: Row)
    requires 0 <= i < |ts|
  {
    && (PurchaseDate in out ==> out[PurchaseDate] == DisplayDate(Source(ts, i, PurchaseDate)))
    && forall k :: k in out && k !in MetricColumns && k != PurchaseDate ==> out[k] == Source(ts, i, k)
  }

  /** What row `i` of the metrics table holds. */
  ghost predicate MetricsRow(ts: seq<Record>, i: int, round2: real -> real, cols: set<string>, out: Row)
    requires 0 <= i < |ts|
  {
    && out.Keys == cols
    && MetricColumns <= cols
    && MetricValues(ts, i, round2, out)
    && KeptColumns(ts, i, out)
  }

  /** The metrics table of a non-empty list of transactions: the records'
      columns plus the metric columns, one row per record, in order. */
  ghost predicate MetricsSpec(ts: seq<Record>, round2: real -> real, df: Frame) {
    && df.columns == AllKeys(ts) + MetricColumns
    && |df.rows| == |ts|
    && forall i :: 0 <= i < |ts| ==> MetricsRow(ts, i, round2, df.columns, df.rows[i])
  }

  /** A row after the Costo, Market Value and Crescita % columns have been
      computed and its purchase date re-rendered. */
  ghost function DerivedRow(r: Row, round2: real -> real): Row {
    var withCost := r[Cost := Product(At(r, Quantity), At(r, PurchasePrice))];
    var withValue := withCost[MarketValue := Product(At(withCost, Quantity), At(withCost, CurrentPrice))];
    var withGrowth := withValue[Growth := Rounded(GrowthPct(At(withValue, MarketValue), At(withValue, Cost)), round2)];
    if PurchaseDate in withGrowth then withGrowth[PurchaseDate := DisplayDate(At(withGrowth, PurchaseDate))]
    else withGrowth
  }

  /** A row whose inputs are `Source`, once derived (`DerivedRow`) and
      rounded, holds the metric values `MetricValues` describes. */
  lemma RowValues(ts: seq<Record>, i: int, round2: real -> real, b: Row, out: Row)
    requires 0 <= i < |ts|
    requires {Quantity, PurchasePrice, CurrentPrice} <= b.Keys
    requires forall k :: k in b ==> b[k] == Source(ts, i, k)
    requires out.Keys == DerivedRow(b, round2).Keys
    requires forall k :: k in DerivedRow(b, round2) ==>
      out[k] == if k in RoundedColumns then Rounded(DerivedRow(b, round2)[k], round2) else DerivedRow(b, round2)[k]
    ensures MetricColumns <= out.Keys
    ensures MetricValues(ts, i, round2, out)
  {
    ColumnNamesDistinct();
    var d := DerivedRow(b, round2);
    var q := Source(ts, i, Quantity);
    var p := Source(ts, i, PurchasePrice);
    var c := Source(ts, i, CurrentPrice);
    assert d[Quantity] == q && d[PurchasePrice] == p && d[CurrentPrice] == c;
    assert d[Cost] == Product(q, p);
    assert d[MarketValue] == Product(q, c);
    assert d[Growth] == Rounded(GrowthPct(Product(q, c), Product(q, p)), round2);
    assert Quantity !in RoundedColumns && Growth !in RoundedColumns;
  }

  /** The same row keeps or re-renders every other column as `KeptColumns`
      describes. */
  lemma RowKept(ts: seq<Record>, i: int, round2: real -> real, b: Row, out: Row)
    requires 0 <= i < |ts|
    requires forall k :: k in b ==> b[k] == Source(ts, i, k)
    requires out.Keys == DerivedRow(b, round2).Keys
    requires forall k :: k in DerivedRow(b, round2) ==>
      out[k] == if k in RoundedColumns then Rounded(DerivedRow(b, round2)[k], round2) else DerivedRow(b, round2)[k]
    ensures KeptColumns(ts, i, out)
  {
    ColumnNamesDistinct();
    var d := DerivedRow(b, round2);
    if PurchaseDate in out {
      assert PurchaseDate in b;
      assert d[PurchaseDate] == DisplayDate(b[PurchaseDate]);
      assert PurchaseDate !in RoundedColumns;
    }
    forall k | k in out && k !in MetricColumns && k != PurchaseDate
      ensures out[k] == Source(ts, i, k)
    {
      assert k !in RoundedColumns;
      assert d[k] == b[k];
    }
  }

  /** Line 17 for one column: a column no record has is added with 0 in
      every row; a column that is already there is left alone. */
  method EnsureColumn(ts: seq<Record>, df0: Frame, col: string) returns (df: Frame)
    requires |df0.rows| == |ts| && AllKeys(ts) <= df0.columns
    requires forall i :: 0 <= i < |ts| ==> df0.rows[i].Keys == df0.columns
    requires forall i, k :: 0 <= i < |ts| && k in df0.rows[i] ==> df0.rows[i][k] == Source(ts, i, k)
    ensures df.columns == df0.columns + {col} && |df.rows| == |ts|
    ensures forall i :: 0 <= i < |ts| ==> df.rows[i].Keys == df.columns
    ensures forall i, k :: 0 <= i < |ts| && k in df.rows[i] ==> df.rows[i][k] == Source(ts, i, k)
  {
    df := df0;
    if col !in df.columns {
      df := SetColumn(df, col, _ => Num(0.0));
      forall i, k | 0 <= i < |ts| && k in df.rows[i] ensures df.rows[i][k] == Source(ts, i, k) {
        if k == col {
          assert col !in AllKeys(ts) && col !in ts[i];
        } else {
          assert df.rows[i][k] == df0.rows[i][k];
        }
      }
    }
  }

  /** Lines 14-17: each required column that no record has is added with 0
      in every row. */
  /** The first `j` required columns, as a set. */
  function RequiredSoFar(j: nat): set<string>
    requires j <= |RequiredColumns|
  {
    if j == 0 then {} else RequiredSoFar(j - 1) + {RequiredColumns[j - 1]}
  }

  method AddRequiredColumns(ts: seq<Record>) returns (df: Frame)
    ensures df.columns == AllKeys(ts) + {Quantity, PurchasePrice, CurrentPrice}
    ensures |df.rows| == |ts|
    ensures forall i :: 0 <= i < |ts| ==> df.rows[i].Keys == df.columns
    ensures forall i, k :: 0 <= i < |ts| && k in df.rows[i] ==> df.rows[i][k] == Source(ts, i, k)
  {
    df := FromRecords(ts);
    for j := 0 to |RequiredColumns|
      invariant df.columns == AllKeys(ts) + RequiredSoFar(j)
      invariant |df.rows| == |ts|
      invariant forall i :: 0 <= i < |ts| ==> df.rows[i].Keys == df.columns
      invariant forall i, k :: 0 <= i < |ts| && k in df.rows[i] ==> df.rows[i][k] == Source(ts, i, k)
    {
      df := EnsureColumn(ts, df, RequiredColumns[j]);
    }
    assert RequiredSoFar(3) == {Quantity, PurchasePrice, CurrentPrice};
  }

  /** Lines 20-26: Costo, Market Value and Crescita % are computed for
      every row, and the purchase date, when there is one, is re-rendered. */
  method DeriveColumns(df0: Frame, round2: real -> real) returns (df: Frame)
    requires forall i :: 0 <= i < |df0.rows| ==> df0.rows[i].Keys == df0.columns
    ensures df.columns == df0.columns + {Cost, MarketValue, Growth} && |df.rows| == |df0.rows|
    ensures forall i :: 0 <= i < |df0.rows| ==> df.rows[i].Keys == df.columns
    ensures forall i :: 0 <= i < |df0.rows| ==> df.rows[i] == DerivedRow(df0.rows[i], round2)
  {
    df := SetColumn(df0, Cost, r => Product(At(r, Quantity), At(r, PurchasePrice)));
    df := SetColumn(df, MarketValue, r => Product(At(r, Quantity), At(r, CurrentPrice)));
    df := SetColumn(df, Growth, r => Rounded(GrowthPct(At(r, MarketValue), At(r, Cost)), round2));
    assert forall i :: 0 <= i < |df0.rows| ==> df.rows[i].Keys == df.columns;
    if PurchaseDate in df.columns {
      df := SetColumn(df, PurchaseDate, r => DisplayDate(At(r, PurchaseDate)));
    }
  }

  /** Lines 29-32: each of the price and value columns is rounded. */
  method RoundColumns(df0: Frame, round2: real -> real) returns (df: Frame)
    requires forall i :: 0 <= i < |df0.rows| ==> df0.rows[i].Keys == df0.columns
    ensures df.columns == df0.columns && |df.rows| == |df0.rows|
    ensures forall i :: 0 <= i < |df0.rows| ==> df.rows[i].Keys == df0.columns
    ensures forall i, k :: 0 <= i < |df0.rows| && k in df0.rows[i] ==>
      df.rows[i][k] == if k in RoundedColumns then Rounded(df0.rows[i][k], round2) else df0.rows[i][k]
  {
    df := df0;
    for j := 0 to |RoundedColumns|
      invariant df.columns == df0.columns
      invariant |df.rows| == |df0.rows|
      invariant forall i :: 0 <= i < |df0.rows| ==> df.rows[i].Keys == df0.columns
      invariant forall i, k :: 0 <= i < |df0.rows| && k in df0.rows[i] ==>
        df.rows[i][k] == if k in RoundedColumns[..j] then Rounded(df0.rows[i][k], round2) else df0.rows[i][k]
    {
      var col := RoundedColumns[j];
      assert RoundedColumns[..j + 1] == RoundedColumns[..j] + [col];
      assert col !in RoundedColumns[..j];
      if col in df.columns {
        df := SetColumn(df, col, r => Rounded(At(r, col), round2));
      }
    }
    assert RoundedColumns[..4] == RoundedColumns;
  }

  /** `calculate_metrics(transactions)`: an empty list gives an empty frame;
      otherwise missing required columns are filled with 0, Costo, Market
      Value and Crescita % are computed for every row, the purchase date is
      re-rendered for display, and the price and value columns are rounded. */
  method CalculateMetrics(transactions: seq<Record>, round2: real -> real) returns (df: Frame)
    ensures transactions == [] ==> df == EmptyFrame
    ensures transactions != [] ==> MetricsSpec(transactions, round2, df)
  {
    if transactions == [] {
      return EmptyFrame;
    }
    var ts := transactions;
    df := AddRequiredColumns(ts);
    ghost var base := df;
    df := DeriveColumns(df, round2);
    df := RoundColumns(df, round2);
    forall i | 0 <= i < |ts| ensures MetricsRow(ts, i, round2, df.columns, df.rows[i]) {
      RowValues(ts, i, round2, base.rows[i], df.rows[i]);
      RowKept(ts, i, round2, base.rows[i], df.rows[i]);
    }
  }

  /** A required column that no record has reads 0 in every row. */
  lemma MissingRequiredIsZero(ts: seq<Record>, round2: real -> real, df: Frame, i: int, k: string)
    requires ts != [] && MetricsSpec(ts, round2, df)
    requires 0 <= i < |ts| && k in RequiredColumns && k !in AllKeys(ts)
    ensures df.rows[i][k] == (if k == Quantity then Num(0.0) else Num(round2(0.0)))
  {
    assert MetricsRow(ts, i, round2, df.columns, df.rows[i]);
    assert k !in ts[i];
  }

  /** A stored ISO date inside the timestamp range is shown with its day,
      month and year fields moved to "DD/MM/YYYY". */
  lemma DisplayDateOfIso(s: string)
    requires ParseIso(s).Some? && InTimestampRange(ParseIso(s).value)
    ensures DisplayDate(Text(s)) == Text(s[8..10] + "/" + s[5..7] + "/" + s[..4])
  {
    IsoToDmyRearranges(s);
  }

  /** Growth depends only on the two prices: the quantity cancels out. */
  lemma GrowthIgnoresQuantity(q: real, p: real, c: real)
    requires q != 0.0 && p != 0.0
    ensures GrowthPct(Product(Num(q), Num(c)), Product(Num(q), Num(p))) == Num((c - p) / p * 100.0)
  {
    var r := (c - p) / p;
    var qp := q * p;
    assert qp != 0.0;
    assert r * p == c - p;
    assert q * c - q * p == r * qp by {
      assert q * c - q * p == q * (c - p);
      assert q * (r * p) == r * (q * p);
    }
    assert (r * qp) / qp == r;
  }

  /** A zero cost gives an undefined growth rather than a number. */
  lemma GrowthOfZeroCost(mv: Cell)
    ensures GrowthPct(mv, Num(0.0)) == Undefined
  {
  }

  /** Ten units bought at 50 and now at 55 cost 500, are worth 550 and have
      grown by 10 %, before rounding. */
  lemma MetricsExample(round2: real -> real, df: Frame)
    requires MetricsSpec([map[Quantity := Num(10.0), PurchasePrice := Num(50.0), CurrentPrice := Num(55.0)]], round2, df)
    ensures df.rows[0][Cost] == Num(round2(500.0))
    ensures df.rows[0][MarketValue] == Num(round2(550.0))
    ensures df.rows[0][Growth] == Num(round2(10.0))
  {
    var ts := [map[Quantity := Num(10.0), PurchasePrice := Num(50.0), CurrentPrice := Num(55.0)]];
    assert MetricsRow(ts, 0, round2, df.columns, df.rows[0]);
    assert Source(ts, 0, Quantity) == Num(10.0);
    assert Source(ts, 0, PurchasePrice) == Num(50.0);
    assert Source(ts, 0, CurrentPrice) == Num(55.0);
  }

  // ---------------------------------------------------------------------
  // max_drawdown

  datatype Extended = Finite(r: real) | MinusInfinity | NaN

  function Max(a: real, b: real): real {
    if a >= b then a else b
  }

  /** `values.cummax()`: the largest value seen so far. */
  function RunningMax(v: seq<real>): (m: seq<real>)
    ensures |m| == |v|
    ensures forall i, j :: 0 <= j <= i < |v| ==> v[j] <= m[i]
    ensures forall i, j :: 0 <= i <= j < |v| ==> m[i] <= m[j]
    ensures forall i :: 0 <= i < |v| ==> exists j :: 0 <= j <= i && m[i] == v[j]
  {
    if v == [] then []
    else
      var init := v[..|v| - 1];
      var p := RunningMax(init);
      var last := if p == [] then v[|v| - 1] else Max(p[|p| - 1], v[|v| - 1]);
      assert forall j :: 0 <= j < |init| ==> init[j] == v[j];
      assert exists j :: 0 <= j <= |init| && last == v[j] by {
        if p == [] || v[|v| - 1] >= p[|p| - 1] {
          assert last == v[|init|];
        } else {
          var j :| 0 <= j <= |init| - 1 && p[|p| - 1] == init[j];
          assert last == v[j];
        }
      }
      p + [last]
  }

  /** `(v - m) / m` in floating point, with `v <= m`. */
  function Drawdown(v: real, m: real): Extended {
    if m != 0.0 then Finite((v - m) / m)
    else if v == 0.0 then NaN
    else MinusInfinity
  }

  function Drawdowns(v: seq<real>): (d: seq<Extended>)
    ensures |d| == |v|
  {
    var m := RunningMax(v);
    seq(|v|, i requires 0 <= i < |v| => Drawdown(v[i], m[i]))
  }

  function MinExt(a: Extended, b: Extended): Extended {
    match (a, b)
    case (NaN, _) => b
    case (_, NaN) => a
    case (MinusInfinity, _) => MinusInfinity
    case (_, MinusInfinity) => MinusInfinity
    case (Finite(x), Finite(y)) => Finite(if x <= y then x else y)
  }

  /** `Series.min()`: the least value, skipping NaN; NaN when there is none. */
  function MinSkipNaN(s: seq<Extended>): Extended {
    if s == [] then NaN else MinExt(MinSkipNaN(s[..|s| - 1]), s[|s| - 1])
  }

  /** `max_drawdown(values)`. */
  function MaxDrawdown(values: seq<real>): Extended {
    MinSkipNaN(Drawdowns(values))
  }

  /** The minimum of finite values is finite, is one of them and is below
      each of them. */
  lemma {:induction false} MinOfFinite(s: seq<Extended>)
    requires s != []
    requires forall i :: 0 <= i < |s| ==> s[i].Finite?
    ensures MinSkipNaN(s).Finite?
    ensures forall i :: 0 <= i < |s| ==> MinSkipNaN(s).r <= s[i].r
    ensures exists i :: 0 <= i < |s| && MinSkipNaN(s) == s[i]
  {
    var init := s[..|s| - 1];
    if init == [] {
      assert MinSkipNaN(s) == s[0];
    } else {
      MinOfFinite(init);
      var k :| 0 <= k < |init| && MinSkipNaN(init) == init[k];
      if MinSkipNaN(init).r <= s[|s| - 1].r {
        assert MinSkipNaN(s) == s[k];
      } else {
        assert MinSkipNaN(s) == s[|s| - 1];
      }
    }
  }

  lemma DrawdownOfPositive(v: real, m: real)
    requires 0.0 < v <= m
    ensures Drawdown(v, m).Finite?
    ensures -1.0 < Drawdown(v, m).r <= 0.0
  {
    var q := (v - m) / m;
    assert q * m == v - m;
    assert (q + 1.0) * m == v;
  }

  /** For a series of strictly positive values the maximum drawdown is a
      finite value in (-1, 0], the drawdown of one of the points, and no
      point's drawdown is below it. */
  lemma MaxDrawdownBounds(values: seq<real>)
    requires values != []
    requires forall i :: 0 <= i < |values| ==> values[i] > 0.0
    ensures MaxDrawdown(values).Finite?
    ensures -1.0 < MaxDrawdown(values).r <= 0.0
    ensures forall i :: 0 <= i < |values| ==> Drawdowns(values)[i].Finite? && MaxDrawdown(values).r <= Drawdowns(values)[i].r
    ensures exists i :: 0 <= i < |values| && MaxDrawdown(values) == Drawdowns(values)[i]
  {
    var m := RunningMax(values);
    var d := Drawdowns(values);
    forall i | 0 <= i < |values| ensures d[i].Finite? && -1.0 < d[i].r <= 0.0 {
      assert values[i] <= m[i];
      DrawdownOfPositive(values[i], m[i]);
    }
    MinOfFinite(d);
  }

  /** A value at its running maximum has no drawdown. */
  lemma DrawdownAtPeak(v: real)
    requires v > 0.0
    ensures Drawdown(v, v) == Finite(0.0)
  {
    assert v - v == 0.0;
    assert 0.0 / v == 0.0;
  }

  predicate NonDecreasing(v: seq<real>) {
    forall i, j :: 0 <= i <= j < |v| ==> v[i] <= v[j]
  }

  /** A series that never falls has no drawdown. */
  lemma NonDecreasingNoDrawdown(values: seq<real>)
    requires values != []
    requires forall i :: 0 <= i < |values| ==> values[i] > 0.0
    requires NonDecreasing(values)
    ensures MaxDrawdown(values) == Finite(0.0)
  {
    var m := RunningMax(values);
    var d := Drawdowns(values);
    forall i | 0 <= i < |values| ensures d[i] == Finite(0.0) {
      var j :| 0 <= j <= i && m[i] == values[j];
      assert values[j] <= values[i] <= m[i];
      assert m[i] == values[i];
      assert d[i] == Drawdown(values[i], values[i]);
      DrawdownAtPeak(values[i]);
    }
    MinOfFinite(d);
    var k :| 0 <= k < |d| && MinSkipNaN(d) == d[k];
  }
}
