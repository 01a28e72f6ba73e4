/** `database.py`: the `etf_holdings` table and `insert_holdings`, which
    stores one row per holding under the ETF it belongs to. */
module Database {
  import opened Values
  import opened Seqs

  /** Source keys of a holdings record and the table columns they go to
      (lines 59-70), in the order the row lists them. */
  const KeyColumns: seq<(string, string)> := [
    ("Ticker", "ticker"),
    ("Nome", "nome"),
    ("Settore", "settore"),
    ("Asset Class", "asset_class"),
    ("Valore di mercato", "valore_mercato"),
    ("Ponderazione (%)", "ponderazione"),
    ("Valore nozionale", "valore_nozionale"),
    ("Nominale", "nominale"),
    ("Prezzo", "prezzo"),
    ("Area Geografica", "area_geografica"),
    ("Cambio", "cambio"),
    ("Valuta di mercato", "valuta_mercato")]

  const EtfTickerColumn: string := "etf_ticker"

  /** The columns of `etf_holdings` that an insert fills. */
  const HoldingColumns: set<string> :=
    {EtfTickerColumn, "ticker", "nome", "settore", "asset_class", "valore_mercato", "ponderazione",
     "valore_nozionale", "nominale", "prezzo", "area_geografica", "cambio", "valuta_mercato"}

  /** Lines 57-71: the row stored for one holding: the ETF's ticker, and for
      every source key its value, or None when the holding lacks it. */
  function HoldingRow(etfTicker: string, h: Record): (row: Record)
    ensures EtfTickerColumn in row && row[EtfTickerColumn] == Text(etfTicker)
    ensures forall j :: 0 <= j < |KeyColumns| ==> KeyColumns[j].1 in row && row[KeyColumns[j].1] == Get(h, KeyColumns[j].0)
    ensures forall col :: col in row ==> col in HoldingColumns
  {
    map[
      EtfTickerColumn := Text(etfTicker),
      "ticker" := Get(h, "Ticker"),
      "nome" := Get(h, "Nome"),
      "settore" := Get(h, "Settore"),
      "asset_class" := Get(h, "Asset Class"),
      "valore_mercato" := Get(h, "Valore di mercato"),
      "ponderazione" := Get(h, "Ponderazione (%)"),
      "valore_nozionale" := Get(h, "Valore nozionale"),
      "nominale" := Get(h, "Nominale"),
      "prezzo" := Get(h, "Prezzo"),
      "area_geografica" := Get(h, "Area Geografica"),
      "cambio" := Get(h, "Cambio"),
      "valuta_mercato" := Get(h, "Valuta di mercato")]
  }

  /** The rows stored for a list of holdings, one per holding, in order. */
  function HoldingRows(etfTicker: string, holdings: seq<Record>): (rows: seq<Record>)
    ensures |rows| == |holdings|
    ensures forall i :: 0 <= i < |holdings| ==> rows[i] == HoldingRow(etfTicker, holdings[i])
  {
    seq(|holdings|, i requires 0 <= i < |holdings| => HoldingRow(etfTicker, holdings[i]))
  }

  /** Every stored row carries the ETF ticker it was inserted under. */
  lemma RowsCarryTicker(etfTicker: string, holdings: seq<Record>)
    ensures forall i :: 0 <= i < |holdings| ==> HoldingRows(etfTicker, holdings)[i][EtfTickerColumn] == Text(etfTicker)
  {
  }

  /** Inserting two lists one after the other stores the rows of the joined list. */
  lemma HoldingRowsAppend(etfTicker: string, a: seq<Record>, b: seq<Record>)
    ensures HoldingRows(etfTicker, a + b) == HoldingRows(etfTicker, a) + HoldingRows(etfTicker, b)
  {
    var l := HoldingRows(etfTicker, a + b);
    var r := HoldingRows(etfTicker, a) + HoldingRows(etfTicker, b);
    forall i | 0 <= i < |l| ensures l[i] == r[i] {
      if i < |a| {
        assert (a + b)[i] == a[i];
      } else {
        assert (a + b)[i] == b[i - |a|];
      }
    }
  }

  /** The `etf_holdings` table, which `insert_holdings` only appends to. */
  class HoldingsTable {
    var rows: seq<Record>

    constructor(initial: seq<Record>)
      ensures rows == initial
    {
      rows := initial;
    }

    /** Lines 55-74: one insert per holding, in order, each response
        collected. `accepts` says which rows the database stores; the first
        row it refuses raises an error that ends the call, leaving the rows
        inserted before it in place. A stored row's response is the row. */
    method InsertHoldings(etfTicker: string, holdings: seq<Record>, accepts: Record -> bool)
      returns (results: seq<Record>, failed: bool)
      modifies this
      ensures |results| <= |holdings|
      ensures results == HoldingRows(etfTicker, holdings[..|results|])
      ensures rows == old(rows) + results
      ensures failed <==> |results| < |holdings|
      ensures !failed ==> rows == old(rows) + HoldingRows(etfTicker, holdings)
      ensures failed ==> !accepts(HoldingRow(etfTicker, holdings[|results|]))
      ensures forall i :: 0 <= i < |results| ==> accepts(results[i])
    {
      results := [];
      failed := false;
      var k := 0;
      while k < |holdings|
        invariant 0 <= k <= |holdings|
        invariant results == HoldingRows(etfTicker, holdings[..k])
        invariant rows == old(rows) + results
        invariant forall i :: 0 <= i < |results| ==> accepts(results[i])
      {
        var data := HoldingRow(etfTicker, holdings[k]);
        if !accepts(data) {
          failed := true;
          return;
        }
        rows := rows + [data];
        results := results + [data];
        assert holdings[..k + 1] == holdings[..k] + [holdings[k]];
        HoldingRowsAppend(etfTicker, holdings[..k], [holdings[k]]);
        k := k + 1;
      }
      assert holdings[..k] == holdings;
    }
  }

  /** Lines 78-108: the two example holdings. */
  const ExampleHoldings: seq<Record> := [
    map["Ticker" := Text("AAPL"), "Nome" := Text("Apple Inc."), "Settore" := Text("Tecnologia"),
        "Asset Class" := Text("Azione"), "Valore di mercato" := Num(1000000.0),
        "Ponderazione (%)" := Num(5.2), "Valore nozionale" := Num(52000.0), "Nominale" := Num(300.0),
        "Prezzo" := Num(173.5), "Area Geografica" := Text("USA"), "Cambio" := Num(1.0),
        "Valuta di mercato" := Text("USD")],
    map["Ticker" := Text("MSFT"), "Nome" := Text("Microsoft Corp."), "Settore" := Text("Tecnologia"),
        "Asset Class" := Text("Azione"), "Valore di mercato" := Num(800000.0),
        "Ponderazione (%)" := Num(4.1), "Valore nozionale" := Num(32800.0), "Nominale" := Num(200.0),
        "Prezzo" := Num(164.0), "Area Geografica" := Text("USA"), "Cambio" := Num(1.0),
        "Valuta di mercato" := Text("USD")]]

  /** The example stores two rows under VWCE, for AAPL and then MSFT. */
  lemma ExampleRows()
    ensures var rows := HoldingRows("VWCE", ExampleHoldings);
      && |rows| == 2
      && rows[0] == HoldingRow("VWCE", ExampleHoldings[0])
      && rows[1] == HoldingRow("VWCE", ExampleHoldings[1])
      && rows[0][EtfTickerColumn] == Text("VWCE") && rows[1][EtfTickerColumn] == Text("VWCE")
  {
  }

  /** The first example row is Apple's, with its weight. */
  lemma ExampleFirstRow()
    ensures var row := HoldingRow("VWCE", ExampleHoldings[0]);
      row["ticker"] == Text("AAPL") && row["ponderazione"] == Num(5.2)
  {
    var h := ExampleHoldings[0];
    assert KeyColumns[0] == ("Ticker", "ticker") && KeyColumns[5] == ("Ponderazione (%)", "ponderazione");
    assert Get(h, "Ticker") == Text("AAPL") && Get(h, "Ponderazione (%)") == Num(5.2);
  }

  /** The second example row is Microsoft's, with its price. */
  lemma ExampleSecondRow()
    ensures var row := HoldingRow("VWCE", ExampleHoldings[1]);
      row["ticker"] == Text("MSFT") && row["prezzo"] == Num(164.0)
  {
    var h := ExampleHoldings[1];
    assert KeyColumns[0] == ("Ticker", "ticker") && KeyColumns[8] == ("Prezzo", "prezzo");
    assert Get(h, "Ticker") == Text("MSFT") && Get(h, "Prezzo") == Num(164.0);
  }
}
