/** A pandas DataFrame built from a list of dicts: the set of its columns and
    one row per record, every row holding a value for every column. */
module Frames {
  import opened Values

  type Row = map<string, Cell>

  datatype Frame = Frame(columns: set<string>, rows: seq<Row>)

  /** `pd.DataFrame()`: no columns, no rows. */
  const EmptyFrame: Frame := Frame({}, [])

  /** Every row has exactly the frame's columns. */
  ghost predicate WellFormed(df: Frame) {
    forall i :: 0 <= i < |df.rows| ==> df.rows[i].Keys == df.columns
  }

  /** The keys that occur in at least one record: the columns pandas gives a
      frame built from the records. */
  function AllKeys(recs: seq<Record>): (ks: set<string>)
    ensures forall i, k :: 0 <= i < |recs| && k in recs[i] ==> k in ks
  {
    if recs == [] then {}
    else
      var init := recs[..|recs| - 1];
      assert forall i :: 0 <= i < |init| ==> init[i] == recs[i];
      AllKeys(init) + recs[|recs| - 1].Keys
  }

  /** Every key of `AllKeys` comes from some record. */
  lemma {:induction false} AllKeysFrom(recs: seq<Record>, k: string)
    requires k in AllKeys(recs)
    ensures exists i :: 0 <= i < |recs| && k in recs[i]
  {
    var init := recs[..|recs| - 1];
    if k !in recs[|recs| - 1] {
      AllKeysFrom(init, k);
      var i :| 0 <= i < |init| && k in init[i];
      assert init[i] == recs[i];
    }
  }

  /** A record as a frame row: the record's own value in each column it has,
      NaN in each column it lacks. */
  function Filled(r: Record, cols: set<string>): (row: Row)
    ensures row.Keys == cols
    ensures forall k :: k in cols && k in r ==> row[k] == r[k]
    ensures forall k :: k in cols && k !in r ==> row[k] == Undefined
  {
    map k | k in cols :: if k in r then r[k] else Undefined
  }

  /** `pd.DataFrame(records)`. */
  function FromRecords(recs: seq<Record>): (df: Frame)
    ensures WellFormed(df)
    ensures df.columns == AllKeys(recs) && |df.rows| == |recs|
    ensures forall i :: 0 <= i < |recs| ==> df.rows[i] == Filled(recs[i], AllKeys(recs))
  {
    var cols := AllKeys(recs);
    Frame(cols, seq(|recs|, i requires 0 <= i < |recs| => Filled(recs[i], cols)))
  }

  /** The cell of a row under a column, NaN when the row has no such column. */
  function At(r: Row, k: string): Cell {
    if k in r then r[k] else Undefined
  }

  /** `df[name] = f(row)` evaluated for every row: adds the column when it is
      new and overwrites it otherwise; every other cell is kept. */
  function SetColumn(df: Frame, name: string, f: Row -> Cell): (out: Frame)
    ensures out.columns == df.columns + {name}
    ensures |out.rows| == |df.rows|
    ensures forall i :: 0 <= i < |df.rows| ==> out.rows[i] == df.rows[i][name := f(df.rows[i])]
  {
    Frame(df.columns + {name},
          seq(|df.rows|, i requires 0 <= i < |df.rows| => df.rows[i][name := f(df.rows[i])]))
  }
}
