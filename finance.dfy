/** `finance_info.py`: choosing a price from what the quote provider answers,
    and the summary of an ETF's information. The provider is given as two
    functions from a symbol to its answer, None standing for a raised
    exception. */
module FinanceInfo {
  import opened Values

  /** `yf.Ticker(symbol).info`, or None when fetching it raises. */
  type InfoSource = string -> Option<Record>
  /** The closing prices of `history(period='1d')`, oldest first, or None
      when fetching them raises. */
  type HistorySource = string -> Option<seq<real>>

  /** Line 16: the Borsa Italiana symbol of a ticker. */
  function MilanSymbol(ticker: string): (sym: string)
    ensures |sym| == |ticker| + 3 && sym[..|ticker|] == ticker && sym[|ticker|..] == ".MI"
  {
    ticker + ".MI"
  }

  /** Line 21: `currentPrice` when it is truthy, else `regularMarketPrice`. */
  function Candidate(info: Record): (c: Cell)
    ensures Truthy(Get(info, "currentPrice")) ==> c == info["currentPrice"]
    ensures !Truthy(Get(info, "currentPrice")) ==> c == Get(info, "regularMarketPrice")
  {
    Or(Get(info, "currentPrice"), Get(info, "regularMarketPrice"))
  }

  /** Line 23: the candidate is None or equals 0. */
  predicate Missing(c: Cell) {
    c == NoneValue || EqualsZero(c)
  }

  /** Lines 15-33, `get_etf_price(ticker)`. A ticker that is not a string
      makes `ticker + '.MI'` raise, which gives None like any other error. */
  function GetEtfPrice(ticker: Cell, info: InfoSource, history: HistorySource): (price: Cell)
    ensures !ticker.Text? ==> price == NoneValue
    ensures ticker.Text? && info(MilanSymbol(ticker.s)).None? ==> price == NoneValue
    ensures ticker.Text? && info(MilanSymbol(ticker.s)).Some? ==>
      var c := Candidate(info(MilanSymbol(ticker.s)).value);
      var h := history(MilanSymbol(ticker.s));
      && (!Missing(c) ==> price == c)
      && (Missing(c) && h.None? ==> price == NoneValue)
      && (Missing(c) && h.Some? && h.value != [] ==> price == Num(h.value[|h.value| - 1]))
      && (Missing(c) && h.Some? && h.value == [] ==> price == c)
  {
    if !ticker.Text? then NoneValue
    else
      var symbol := MilanSymbol(ticker.s);
      match info(symbol)
      case None => NoneValue
      case Some(i) =>
        var c := Candidate(i);
        if Missing(c) then
          match history(symbol)
          case None => NoneValue
          case Some(closes) => if closes != [] then Num(closes[|closes| - 1]) else c
        else c
  }

  /** Only the ".MI" symbol of the ticker is ever asked for: two providers
      that agree on that symbol give the same price. */
  lemma PriceUsesMilanSymbolOnly(ticker: string, info1: InfoSource, history1: HistorySource,
                                 info2: InfoSource, history2: HistorySource)
    requires info1(MilanSymbol(ticker)) == info2(MilanSymbol(ticker))
    requires history1(MilanSymbol(ticker)) == history2(MilanSymbol(ticker))
    ensures GetEtfPrice(Text(ticker), info1, history1) == GetEtfPrice(Text(ticker), info2, history2)
  {
  }

  /** When the candidate is missing and the history has positive closes, the
      last close replaces it, so the price is a positive number. */
  lemma PriceFallback(ticker: string, info: InfoSource, history: HistorySource)
    requires info(MilanSymbol(ticker)).Some?
    requires Missing(Candidate(info(MilanSymbol(ticker)).value))
    requires history(MilanSymbol(ticker)).Some? && history(MilanSymbol(ticker)).value != []
    requires forall i :: 0 <= i < |history(MilanSymbol(ticker)).value| ==> history(MilanSymbol(ticker)).value[i] > 0.0
    ensures GetEtfPrice(Text(ticker), info, history).Num?
    ensures GetEtfPrice(Text(ticker), info, history).x > 0.0
  {
  }

  /** The information summary of lines 50-58. */
  datatype EtfInfo = EtfInfo(
    ticker: string,
    name: Cell,
    price: Cell,
    currency: Cell,
    exchange: Cell,
    sector: Cell,
    lastUpdate: string)

  const NotAvailable: Cell := Text("N/A")

  /** Lines 46-62, `get_etf_info(ticker)`: the ticker as given, each text
      field from the provider or 'N/A' when the key is absent, the price
      chosen as in line 21, and `now` as the update time. */
  function GetEtfInfo(ticker: string, info: InfoSource, now: string): (r: Option<EtfInfo>)
    ensures info(ticker).None? <==> r.None?
    ensures r.Some? ==> r.value.ticker == ticker && r.value.lastUpdate == now
    ensures r.Some? ==> r.value.price == Candidate(info(ticker).value)
    ensures r.Some? ==>
      var i := info(ticker).value;
      && ("longName" !in i ==> r.value.name == NotAvailable)
      && ("longName" in i ==> r.value.name == i["longName"])
      && ("currency" !in i ==> r.value.currency == NotAvailable)
      && ("currency" in i ==> r.value.currency == i["currency"])
      && ("exchange" !in i ==> r.value.exchange == NotAvailable)
      && ("exchange" in i ==> r.value.exchange == i["exchange"])
      && ("sector" !in i ==> r.value.sector == NotAvailable)
      && ("sector" in i ==> r.value.sector == i["sector"])
  {
    match info(ticker)
    case None => None
    case Some(i) =>
      Some(EtfInfo(
        ticker,
        GetOr(i, "longName", NotAvailable),
        Candidate(i),
        GetOr(i, "currency", NotAvailable),
        GetOr(i, "exchange", NotAvailable),
        GetOr(i, "sector", NotAvailable),
        now))
  }
}
