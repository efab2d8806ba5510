/**
 * The records the monitoring engine keeps per asset, the constants it works
 * with, and the fixed catalog of monitored assets
 * (server/bot-controller.ts, lines 6-17 and 50-141).
 */
module Assets {
  import opened Options

  /** How long an asset stays pinned at the top tier after promotion, in ms. */
  const ReadyHoldDuration: int := 300000
  /** How far back the per-asset price history reaches, in ms. */
  const PriceHistoryDuration: int := 3600000
  /** A confidence at or above this is "ready". */
  const ReadyThreshold: real := 88.0
  /** The top confidence tier: the ceiling of the drift and the ranked subset. */
  const TopTier: real := 92.0
  /** The floor of the drift. */
  const PercentageFloor: real := 15.0
  /** Assets processed together in one batch of a refresh cycle. */
  const BatchSize: nat := 10

  /** A parabolic SAR reading: price trending above or below the stop. */
  datatype Direction = Long | Short
  datatype Status = Ready | Trading | Cooldown
  datatype Category = Crypto | Forex

  datatype Candle = Candle(open: real, high: real, low: real, close: real, timestamp: int)

  /** One entry of an asset's rolling price history. */
  datatype PricePoint = PricePoint(timestamp: int, price: real)

  /** `MonitoredAsset`; `None` stands for JavaScript's `null` or `undefined`. */
  datatype MonitoredAsset = MonitoredAsset(
    name: string,
    percentage: real,
    status: Status,
    sar1m: Option<Direction>,
    sar5m: Option<Direction>,
    sar15m: Option<Direction>,
    category: Category,
    currentPrice: Option<real>,
    priceDropPercentage: Option<real>,
    rank: Option<int>)

  /**
   * `SARCalculator.calculateSAR` reduced to the direction the engine reads
   * from it: any function of the candle series.  Its algorithm is not part
   * of this model.
   */
  type SarCalculator = seq<Candle> -> Option<Direction>

  /** A catalog entry: no readings, price, drop or rank yet. */
  function Entry(name: string, percentage: real, status: Status, category: Category): MonitoredAsset
  {
    MonitoredAsset(name, percentage, status, None, None, None, category, None, None, None)
  }

  /** The assets the engine monitors, in catalog order. */
  const Catalog: seq<MonitoredAsset> := [
    Entry("ETHUSD_otc", 88.0, Ready, Crypto),
    Entry("BNB OTC", 92.0, Ready, Crypto),
    Entry("Solana OTC", 88.0, Ready, Crypto),
    Entry("Chainlink OTC", 92.0, Ready, Crypto),
    Entry("Toncoin OTC", 92.0, Ready, Crypto),
    Entry("Polygon OTC", 92.0, Ready, Crypto),
    Entry("Dogecoin OTC", 92.0, Ready, Crypto),
    Entry("Bitcoin OTC", 88.0, Ready, Crypto),
    Entry("Cardano OTC", 64.0, Cooldown, Crypto),
    Entry("Polkadot OTC", 48.0, Cooldown, Crypto),
    Entry("TRON OTC", 48.0, Cooldown, Crypto),
    Entry("Ethereum OTC", 39.0, Cooldown, Crypto),
    Entry("Avalanche OTC", 31.0, Cooldown, Crypto),
    Entry("Bitcoin ETF OTC", 20.0, Cooldown, Crypto),
    Entry("Bitcoin", 18.0, Cooldown, Crypto),
    Entry("EUR/USD OTC", 92.0, Ready, Forex),
    Entry("AUD/CAD OTC", 92.0, Ready, Forex),
    Entry("AUD/NZD OTC", 88.0, Ready, Forex),
    Entry("AUD/USD OTC", 88.0, Ready, Forex),
    Entry("BHD/CNY OTC", 88.0, Ready, Forex),
    Entry("CHF/JPY OTC", 88.0, Ready, Forex),
    Entry("EUR/CHF OTC", 92.0, Ready, Forex),
    Entry("EUR/RUB OTC", 92.0, Ready, Forex),
    Entry("GBP/AUD OTC", 88.0, Ready, Forex),
    Entry("NGN/USD OTC", 88.0, Ready, Forex),
    Entry("USD/COP OTC", 88.0, Ready, Forex),
    Entry("USD/INR OTC", 88.0, Ready, Forex),
    Entry("USD/PKR OTC", 92.0, Ready, Forex),
    Entry("USD/RUB OTC", 92.0, Ready, Forex),
    Entry("CAD/CHF", 88.0, Ready, Forex),
    Entry("CAD/JPY", 88.0, Ready, Forex),
    Entry("EUR/NZD OTC", 92.0, Ready, Forex),
    Entry("USD/DZD OTC", 48.0, Cooldown, Forex),
    Entry("AUD/CHF OTC", 47.0, Cooldown, Forex),
    Entry("EUR/HUF OTC", 46.0, Cooldown, Forex),
    Entry("USD/PHP OTC", 45.0, Cooldown, Forex),
    Entry("USD/BRL OTC", 44.0, Cooldown, Forex),
    Entry("USD/EGP OTC", 43.0, Cooldown, Forex),
    Entry("AUD/USD", 42.0, Cooldown, Forex),
    Entry("USD/CLP OTC", 41.0, Cooldown, Forex),
    Entry("USD/CHF OTC", 40.0, Cooldown, Forex),
    Entry("USD/ARS OTC", 39.0, Cooldown, Forex),
    Entry("GBP/JPY OTC", 38.0, Cooldown, Forex),
    Entry("USD/CHF", 37.0, Cooldown, Forex),
    Entry("GBP/USD OTC", 36.0, Cooldown, Forex),
    Entry("USD/CNH OTC", 35.0, Cooldown, Forex),
    Entry("YER/USD OTC", 34.0, Cooldown, Forex),
    Entry("EUR/AUD", 33.0, Cooldown, Forex),
    Entry("KES/USD OTC", 32.0, Cooldown, Forex),
    Entry("USD/IDR OTC", 31.0, Cooldown, Forex),
    Entry("SAR/CNY OTC", 30.0, Cooldown, Forex),
    Entry("GBP/CHF", 29.0, Cooldown, Forex),
    Entry("MAD/USD OTC", 28.0, Cooldown, Forex),
    Entry("ZAR/USD OTC", 27.0, Cooldown, Forex),
    Entry("NZD/USD OTC", 26.0, Cooldown, Forex),
    Entry("USD/VND OTC", 25.0, Cooldown, Forex),
    Entry("LBP/USD OTC", 24.0, Cooldown, Forex),
    Entry("USD/CAD OTC", 23.0, Cooldown, Forex),
    Entry("CAD/JPY OTC", 22.0, Cooldown, Forex),
    Entry("USD/SGD OTC", 21.0, Cooldown, Forex),
    Entry("AUD/CHF", 20.0, Cooldown, Forex),
    Entry("CHF/JPY", 19.0, Cooldown, Forex),
    Entry("EUR/CHF", 18.0, Cooldown, Forex),
    Entry("EUR/GBP", 17.0, Cooldown, Forex),
    Entry("GBP/CAD", 16.0, Cooldown, Forex),
    Entry("EUR/TRY OTC", 15.0, Cooldown, Forex),
    Entry("TND/USD OTC", 14.0, Cooldown, Forex),
    Entry("UAH/USD OTC", 13.0, Cooldown, Forex),
    Entry("USD/MXN OTC", 12.0, Cooldown, Forex),
    Entry("AUD/JPY", 11.0, Cooldown, Forex),
    Entry("EUR/JPY", 10.0, Cooldown, Forex),
    Entry("USD/JPY", 9.0, Cooldown, Forex),
    Entry("USD/THB OTC", 8.0, Cooldown, Forex),
    Entry("USD/MYR OTC", 7.0, Cooldown, Forex),
    Entry("AED/CNY OTC", 6.0, Cooldown, Forex),
    Entry("CHF/NOK OTC", 5.0, Cooldown, Forex),
    Entry("AUD/CAD", 4.0, Cooldown, Forex),
    Entry("EUR/CAD", 3.0, Cooldown, Forex),
    Entry("GBP/USD", 2.0, Cooldown, Forex),
    Entry("IQD/CNY OTC", 1.0, Cooldown, Forex)
  ]

  /** The assets whose hold starts when the engine is constructed. */
  const InitiallyHeld: set<string> := {
    "BNB OTC", "EUR/USD OTC", "Chainlink OTC", "Polygon OTC", "Dogecoin OTC", "Toncoin OTC",
    "AUD/CAD OTC", "EUR/CHF OTC", "EUR/RUB OTC", "USD/PKR OTC", "USD/RUB OTC", "EUR/NZD OTC"
  }
}
