/** The two tables the services read and write (app/models.py). */
module Models {
  import opened Common

  /** One row of the `exchangerate` table: how many VND one USD buys at
      `recordedAt`. */
  datatype ExchangeRate = ExchangeRate(recordedAt: Timestamp, usdToVnd: real)

  /** One row of the `assetprice` table: the price of asset `assetId`
      (1 is gold, 2 is bitcoin) at `priceRecordedAt`, and the VND price
      computed with the exchange rate recorded at `exchangeRateRecordedAt`. */
  datatype AssetPrice = AssetPrice(
    assetId: int,
    priceRecordedAt: Timestamp,
    exchangeRateRecordedAt: Timestamp,
    usdPrice: real,
    vndPrice: real)

  const GoldId := 1
  const BitcoinId := 2

  /** The database session: each table is the sequence of its rows in
      insertion order, and `session.add` followed by `commit` appends. */
  class Session {
    var exchangeRates: seq<ExchangeRate>
    var assetPrices: seq<AssetPrice>

    constructor ()
      ensures exchangeRates == [] && assetPrices == []
    {
      exchangeRates := [];
      assetPrices := [];
    }
  }
}
