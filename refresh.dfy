/** The "update current prices" button of the sidebar (`views/sidebar.py`):
    every listed ETF gets a price lookup, and every price found is written
    to the prices table. The lookup (`get_etf_price`) and the answer of the
    write are parameters: `get_etf_list` and `insert_update_etf_price` are
    imported from `database` at line 9, but `database.py` does not define
    them. */
module PriceRefresh {
  import opened Values
  import opened Seqs

  /** An element of `get_etf_list()`: a dict, or a bare ticker. */
  datatype Item = Entry(fields: Record) | Bare(value: Cell)

  /** Line 21: the dict's 'etf_ticker' (None when absent), or the item itself. */
  function TickerOf(item: Item): (t: Cell)
    ensures item.Entry? ==> t == Get(item.fields, "etf_ticker")
    ensures item.Bare? ==> t == item.value
  {
    match item
    case Entry(fields) => Get(fields, "etf_ticker")
    case Bare(value) => value
  }

  /** What happened to one item. */
  datatype Fate =
    | NoPrice(ticker: Cell)                 // line 34
    | Refused(ticker: Cell, price: Cell)    // line 31
    | Stored(ticker: Cell, price: Cell)     // line 29

  /** The messages the page shows, in order. */
  datatype Notice = PriceUnavailable(ticker: Cell) | UpdateFailed(ticker: Cell) | Updated

  /** Lines 21-35 for one item: a write is attempted only for a price that
      is not None, and it counts when its response is not None. */
  function FateOf(item: Item, getPrice: Cell -> Cell, stores: (Cell, Cell) -> bool): (f: Fate)
    ensures f.ticker == TickerOf(item)
    ensures f.NoPrice? <==> getPrice(TickerOf(item)) == NoneValue
    ensures !f.NoPrice? ==> f.price == getPrice(TickerOf(item))
    ensures f.Stored? <==> !f.NoPrice? && stores(TickerOf(item), getPrice(TickerOf(item)))
  {
    var t := TickerOf(item);
    var p := getPrice(t);
    if p == NoneValue then NoPrice(t)
    else if stores(t, p) then Stored(t, p)
    else Refused(t, p)
  }

  function IsStored(getPrice: Cell -> Cell, stores: (Cell, Cell) -> bool): (f: Item -> bool)
    ensures forall item :: f(item) == FateOf(item, getPrice, stores).Stored?
  {
    item => FateOf(item, getPrice, stores).Stored?
  }

  /** The error messages for the items of `items`, in order. */
  function Errors(items: seq<Item>, getPrice: Cell -> Cell, stores: (Cell, Cell) -> bool): (e: seq<Notice>)
    ensures |e| <= |items|
    ensures forall j :: 0 <= j < |e| ==> !e[j].Updated?
  {
    if items == [] then []
    else
      Errors(items[..|items| - 1], getPrice, stores) +
      match FateOf(items[|items| - 1], getPrice, stores)
      case NoPrice(t) => [PriceUnavailable(t)]
      case Refused(t, _) => [UpdateFailed(t)]
      case Stored(_, _) => []
  }

  /** The writes attempted for the items of `items`, in order. */
  function Writes(items: seq<Item>, getPrice: Cell -> Cell, stores: (Cell, Cell) -> bool): (w: seq<(Cell, Cell)>)
    ensures |w| <= |items|
    ensures forall j :: 0 <= j < |w| ==> w[j].1 != NoneValue
  {
    if items == [] then []
    else
      Writes(items[..|items| - 1], getPrice, stores) +
      match FateOf(items[|items| - 1], getPrice, stores)
      case NoPrice(_) => []
      case Refused(t, p) => [(t, p)]
      case Stored(t, p) => [(t, p)]
  }

  /** The prices table after the stored writes of `items`. */
  function PricesAfter(prices: map<Cell, Cell>, items: seq<Item>, getPrice: Cell -> Cell,
                       stores: (Cell, Cell) -> bool): (after: map<Cell, Cell>)
    ensures forall t :: t in prices ==> t in after
    ensures forall t :: t in after && t !in prices ==> exists i :: 0 <= i < |items| && TickerOf(items[i]) == t
  {
    if items == [] then prices
    else
      var before := PricesAfter(prices, items[..|items| - 1], getPrice, stores);
      match FateOf(items[|items| - 1], getPrice, stores)
      case Stored(t, p) => before[t := p]
      case _ => before
  }

  /** The prices table that `insert_update_etf_price` writes to. */
  class PriceTable {
    var prices: map<Cell, Cell>

    constructor(initial: map<Cell, Cell>)
      ensures prices == initial
    {
      prices := initial;
    }
  }

  /** Lines 16-38: every item is looked up once, in order; a failure is
      reported and the loop goes on; the success message closes the run. */
  method RefreshPrices(table: PriceTable, items: seq<Item>, getPrice: Cell -> Cell, stores: (Cell, Cell) -> bool)
    returns (successCount: nat, notices: seq<Notice>, writes: seq<(Cell, Cell)>)
    modifies table
    ensures successCount == |Where(items, IsStored(getPrice, stores))|
    ensures notices == Errors(items, getPrice, stores) + [Updated]
    ensures writes == Writes(items, getPrice, stores)
    ensures table.prices == PricesAfter(old(table.prices), items, getPrice, stores)
    ensures successCount + |notices| == |items| + 1
  {
    successCount := 0;
    notices := [];
    writes := [];
    for k := 0 to |items|
      invariant successCount == |Where(items[..k], IsStored(getPrice, stores))|
      invariant notices == Errors(items[..k], getPrice, stores)
      invariant writes == Writes(items[..k], getPrice, stores)
      invariant table.prices == PricesAfter(old(table.prices), items[..k], getPrice, stores)
    {
      assert items[..k + 1][..k] == items[..k];
      var ticker := TickerOf(items[k]);
      var price := getPrice(ticker);
      if price != NoneValue {
        writes := writes + [(ticker, price)];
        var response := stores(ticker, price);
        if response {
          table.prices := table.prices[ticker := price];
          successCount := successCount + 1;
        } else {
          notices := notices + [UpdateFailed(ticker)];
        }
      } else {
        notices := notices + [PriceUnavailable(ticker)];
      }
    }
    assert items[..|items|] == items;
    CountedOrReported(items, getPrice, stores);
    notices := notices + [Updated];
  }

  /** Every item is either counted or reported, never both. */
  lemma {:induction false} CountedOrReported(items: seq<Item>, getPrice: Cell -> Cell, stores: (Cell, Cell) -> bool)
    ensures |Where(items, IsStored(getPrice, stores))| + |Errors(items, getPrice, stores)| == |items|
  {
    if items != [] {
      CountedOrReported(items[..|items| - 1], getPrice, stores);
    }
  }

  /** A write is attempted for exactly the items whose price is not None, so
      a price of 0 is written too. */
  lemma {:induction false} WritesAreFoundPrices(items: seq<Item>, getPrice: Cell -> Cell, stores: (Cell, Cell) -> bool)
    ensures forall j :: 0 <= j < |Writes(items, getPrice, stores)| ==>
      Writes(items, getPrice, stores)[j].1 != NoneValue
      && Writes(items, getPrice, stores)[j].1 == getPrice(Writes(items, getPrice, stores)[j].0)
    ensures forall i :: 0 <= i < |items| && getPrice(TickerOf(items[i])) != NoneValue ==>
      (TickerOf(items[i]), getPrice(TickerOf(items[i]))) in Writes(items, getPrice, stores)
  {
    if items != [] {
      var init := items[..|items| - 1];
      WritesAreFoundPrices(init, getPrice, stores);
      var w := Writes(items, getPrice, stores);
      assert w[..|Writes(init, getPrice, stores)|] == Writes(init, getPrice, stores);
      forall i | 0 <= i < |items| && getPrice(TickerOf(items[i])) != NoneValue
        ensures (TickerOf(items[i]), getPrice(TickerOf(items[i]))) in w
      {
        if i < |init| {
          assert items[i] == init[i];
          var pair := (TickerOf(items[i]), getPrice(TickerOf(items[i])));
          assert pair in Writes(init, getPrice, stores);
          var j :| 0 <= j < |Writes(init, getPrice, stores)| && Writes(init, getPrice, stores)[j] == pair;
          assert w[j] == pair;
        }
      }
    }
  }

  /** The price the last item stored is in the table afterwards. */
  lemma StoredPriceKept(prices: map<Cell, Cell>, items: seq<Item>, getPrice: Cell -> Cell, stores: (Cell, Cell) -> bool)
    requires items != [] && FateOf(items[|items| - 1], getPrice, stores).Stored?
    ensures var f := FateOf(items[|items| - 1], getPrice, stores);
      f.ticker in PricesAfter(prices, items, getPrice, stores)
      && PricesAfter(prices, items, getPrice, stores)[f.ticker] == f.price
  {
  }

  /** Three tickers where only the second has no price: the first and
      third are written and counted, the second is reported. */
  lemma ThreeTickersExample(getPrice: Cell -> Cell, stores: (Cell, Cell) -> bool)
    requires getPrice(Text("A")) == Num(10.0) && getPrice(Text("B")) == NoneValue && getPrice(Text("C")) == Num(0.0)
    requires forall t, p :: stores(t, p)
    ensures var items := [Bare(Text("A")), Entry(map["etf_ticker" := Text("B")]), Bare(Text("C"))];
      && |Where(items, IsStored(getPrice, stores))| == 2
      && Errors(items, getPrice, stores) == [PriceUnavailable(Text("B"))]
      && Writes(items, getPrice, stores) == [(Text("A"), Num(10.0)), (Text("C"), Num(0.0))]
  {
    var items := [Bare(Text("A")), Entry(map["etf_ticker" := Text("B")]), Bare(Text("C"))];
    assert items[..2] == [Bare(Text("A")), Entry(map["etf_ticker" := Text("B")])];
    assert items[..2][..1] == [Bare(Text("A"))];
    assert [Bare(Text("A"))][..0] == [];
  }
}
