/** The figures and the column choice of the dashboard page
    (`views/dashboard.py`), computed from the metrics table. */
module Dashboard {
  import opened Values
  import opened Frames
  import opened Metrics
  import opened Schema
  import opened Seqs

  // ---------------------------------------------------------------------
  // Totals

  /** `df[k].sum()`: the numeric cells of column `k` added up; NaN and other
      non-numeric cells are skipped, and an empty column sums to 0. */
  function ColumnSum(rows: seq<Row>, k: string): real {
    if rows == [] then 0.0
    else
      var last := At(rows[|rows| - 1], k);
      ColumnSum(rows[..|rows| - 1], k) + (if Numeric(last).Some? then Numeric(last).value else 0.0)
  }

  /** Summing two blocks of rows one after the other is summing them together. */
  lemma {:induction false} ColumnSumAppend(a: seq<Row>, b: seq<Row>, k: string)
    ensures ColumnSum(a + b, k) == ColumnSum(a, k) + ColumnSum(b, k)
    decreases |b|
  {
    if b == [] {
      assert a + b == a;
    } else {
      var b' := b[..|b| - 1];
      assert (a + b)[..|a + b| - 1] == a + b';
      assert (a + b)[|a + b| - 1] == b[|b| - 1];
      ColumnSumAppend(a, b', k);
    }
  }

  /** A column whose every cell is a non-negative number has a non-negative sum. */
  lemma {:induction false} ColumnSumNonNegative(rows: seq<Row>, k: string)
    requires forall i :: 0 <= i < |rows| ==> Numeric(At(rows[i], k)).Some? ==> Numeric(At(rows[i], k)).value >= 0.0
    ensures ColumnSum(rows, k) >= 0.0
  {
    if rows != [] {
      ColumnSumNonNegative(rows[..|rows| - 1], k);
    }
  }

  /** The four figures at the top of the page. */
  datatype Summary = Summary(invested: real, marketValue: real, gain: real, returnPct: real)

  /** Lines 15 and 18: the sum of a column, or 0 when the frame lacks it. */
  function Total(df: Frame, k: string): (t: real)
    ensures k !in df.columns ==> t == 0.0
    ensures k in df.columns ==> t == ColumnSum(df.rows, k)
  {
    if k in df.columns then ColumnSum(df.rows, k) else 0.0
  }

  /** Line 24: the gain as a percentage of the amount invested, or exactly 0
      when nothing positive was invested. */
  function ReturnPct(gain: real, invested: real): (r: real)
    ensures invested <= 0.0 ==> r == 0.0
    ensures invested > 0.0 ==> r * invested == gain * 100.0
  {
    if invested > 0.0 then gain / invested * 100.0 else 0.0
  }

  /** Lines 15-24: total invested, total market value, their difference and
      the guarded return percentage. */
  function Summarize(df: Frame): (s: Summary)
    ensures s.invested == Total(df, Cost) && s.marketValue == Total(df, MarketValue)
    ensures s.gain == s.marketValue - s.invested
    ensures s.returnPct == ReturnPct(s.gain, s.invested)
  {
    var invested := Total(df, Cost);
    var value := Total(df, MarketValue);
    Summary(invested, value, value - invested, ReturnPct(value - invested, invested))
  }

  /** With money invested, the return is positive exactly when the portfolio
      is worth more than it cost, and zero exactly when it is worth the same. */
  lemma ReturnSign(df: Frame)
    requires Summarize(df).invested > 0.0
    ensures Summarize(df).returnPct > 0.0 <==> Summarize(df).marketValue > Summarize(df).invested
    ensures Summarize(df).returnPct == 0.0 <==> Summarize(df).marketValue == Summarize(df).invested
  {
    var s := Summarize(df);
    var g := s.gain;
    var c := s.invested;
    assert s.returnPct == g / c * 100.0;
    if g > 0.0 {
      assert g / c > 0.0;
    } else if g < 0.0 {
      assert g / c < 0.0;
    }
  }

  /** The invested amount grown by the return percentage is the market value. */
  lemma ReturnReconstructsValue(df: Frame)
    requires Summarize(df).invested > 0.0
    ensures Summarize(df).invested * (1.0 + Summarize(df).returnPct / 100.0) == Summarize(df).marketValue
  {
    var s := Summarize(df);
    assert s.returnPct * s.invested == s.gain * 100.0;
    assert s.invested * (1.0 + s.returnPct / 100.0) == s.invested + s.returnPct * s.invested / 100.0;
  }

  /** The dashboard of a non-empty ledger: the amount invested is the sum of
      the rounded costs of its rows. */
  lemma InvestedIsSumOfCosts(ts: seq<Record>, round2: real -> real, df: Frame)
    requires ts != [] && MetricsSpec(ts, round2, df)
    ensures Summarize(df).invested == ColumnSum(df.rows, Cost)
    ensures Summarize(df).marketValue == ColumnSum(df.rows, MarketValue)
  {
    assert Cost in MetricColumns && MarketValue in MetricColumns;
  }

  // ---------------------------------------------------------------------
  // Column choice

  /** Lines 31-43: the columns the table can show, in the order offered. */
  const DisplayColumns: seq<string> :=
    [Ticker, Quantity, PurchasePrice, CurrentPrice, Cost, MarketValue, Growth,
     Currency, PurchaseDate, Issuer, Isin]

  /** Lines 46-47: the columns of the fixed list that the frame has. */
  function Offered(df: Frame): (r: seq<string>)
    ensures forall c :: c in r <==> c in DisplayColumns && c in df.columns
  {
    WhereMembers(DisplayColumns, c => c in df.columns);
    Where(DisplayColumns, c => c in df.columns)
  }

  /** The offered columns keep the fixed list's order. */
  lemma OfferedOrdered(df: Frame)
    ensures Subsequence(Offered(df), DisplayColumns)
  {
    WhereOrdered(DisplayColumns, c => c in df.columns);
  }

  /** Line 53: the first `min(8, n)` offered columns are selected at first. */
  function DefaultSelection(offered: seq<string>): (r: seq<string>)
    ensures |r| == if |offered| < 8 then |offered| else 8
    ensures r == offered[..|r|]
  {
    offered[..if |offered| < 8 then |offered| else 8]
  }

  /** Every metrics table offers the six metric columns, so the page never
      falls to its "no column" warning for a non-empty ledger. */
  lemma MetricsOfferMetricColumns(ts: seq<Record>, round2: real -> real, df: Frame)
    requires ts != [] && MetricsSpec(ts, round2, df)
    ensures forall c :: c in MetricColumns ==> c in Offered(df)
  {
    assert DisplayColumns[1] == Quantity && DisplayColumns[2] == PurchasePrice && DisplayColumns[3] == CurrentPrice;
    assert DisplayColumns[4] == Cost && DisplayColumns[5] == MarketValue && DisplayColumns[6] == Growth;
  }

  /** Line 58: the table restricted to the selected columns, row by row. */
  function Display(df: Frame, selected: seq<string>): (out: Frame)
    requires forall c :: c in selected ==> c in df.columns
    ensures out.columns == set c | c in selected
    ensures |out.rows| == |df.rows|
    ensures forall i :: 0 <= i < |df.rows| ==> out.rows[i].Keys == out.columns
    ensures forall i, c :: 0 <= i < |df.rows| && c in out.columns ==> out.rows[i][c] == At(df.rows[i], c)
  {
    var cols := set c | c in selected;
    Frame(cols, seq(|df.rows|, i requires 0 <= i < |df.rows| => map c | c in cols :: At(df.rows[i], c)))
  }
}
