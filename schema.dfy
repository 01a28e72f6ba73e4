/** The keys of a transaction record, which are also the column names of the
    metrics table. */
module Schema {
  const Ticker: string := "Ticker"
  const Quantity: string := "Quantità"
  const PurchasePrice: string := "Prezzo di acquisto"
  const CurrentPrice: string := "Prezzo corrente"
  const PurchaseDate: string := "Data acquisto"
  const Currency: string := "Valuta"
  const Issuer: string := "Emittente"
  const Fee: string := "Tassa"
  const Broker: string := "Intermediario"
  const PurchaseFees: string := "Spese acquisto"
  const TestFlag: string := "Transazione prova"
  const Isin: string := "ISIN"
  const InsertedAt: string := "Data inserimento"

  // Columns the metrics table adds.
  const Cost: string := "Costo"
  const MarketValue: string := "Market Value"
  const Growth: string := "Crescita %"

  /** The column names are pairwise different (their lengths are). */
  lemma ColumnNamesDistinct()
    ensures |Quantity| == 8 && |PurchasePrice| == 18 && |CurrentPrice| == 15 && |Cost| == 5
    ensures |MarketValue| == 12 && |Growth| == 10 && |PurchaseDate| == 13
  {
  }
}
