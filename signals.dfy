/**
 * The confluence scan of the SAR loop (server/bot-controller.ts, lines
 * 242-260) and the trade outcome rule (lines 502-508).
 */
module Signals {
  import opened Options
  import opened Assets

  /** All three readings are present and name the same direction. */
  predicate Agree(a: MonitoredAsset) {
    && a.sar1m.Some? && a.sar5m.Some? && a.sar15m.Some?
    && a.sar1m == a.sar5m && a.sar5m == a.sar15m
  }

  /** An eligible asset (at least 88) whose readings agree. */
  predicate Confluent(a: MonitoredAsset) {
    a.percentage >= ReadyThreshold && Agree(a)
  }

  /**
   * Scans the eligible assets in array order and stops at the first
   * confluence; nothing is scanned while the bot is stopped or a trade is
   * open. The position found is returned (the source only logs it).
   */
  method FindConfluence(assets: seq<MonitoredAsset>, running: bool, tradeOpen: bool)
    returns (found: Option<nat>)
    ensures found.Some? ==>
      && running && !tradeOpen
      && found.value < |assets| && Confluent(assets[found.value])
      && (forall j :: 0 <= j < found.value ==> !Confluent(assets[j]))
    ensures found.None? <==>
      (!running || tradeOpen || forall j :: 0 <= j < |assets| ==> !Confluent(assets[j]))
  {
    found := None;
    if running && !tradeOpen {
      var i := 0;
      while i < |assets|
        invariant 0 <= i <= |assets|
        invariant forall j :: 0 <= j < i ==> !Confluent(assets[j])
      {
        if assets[i].percentage >= ReadyThreshold && Agree(assets[i]) {
          found := Some(i);
          return;
        }
        i := i + 1;
      }
    }
  }

  datatype TradeDirection = Call | Put
  datatype TradeResult = Win | Loss

  /** A call wins on a strictly higher exit, a put on a strictly lower one. */
  function CalculateTradeResult(direction: TradeDirection, entryPrice: real, exitPrice: real): (r: TradeResult)
    ensures r == Win ==> exitPrice != entryPrice
    ensures direction == Call ==> (r == Win <==> exitPrice > entryPrice)
    ensures direction == Put ==> (r == Win <==> exitPrice < entryPrice)
  {
    match direction
    case Call => if exitPrice > entryPrice then Win else Loss
    case Put => if exitPrice < entryPrice then Win else Loss
  }

  /** The opposite direction: a call and a put never both win. */
  function Opposite(d: TradeDirection): TradeDirection {
    if d == Call then Put else Call
  }

  /**
   * When the price moved, exactly one of the two directions wins; when it
   * did not, both lose.
   */
  lemma OneSideWins(d: TradeDirection, entryPrice: real, exitPrice: real)
    ensures entryPrice != exitPrice ==>
      (CalculateTradeResult(d, entryPrice, exitPrice) == Win <==>
       CalculateTradeResult(Opposite(d), entryPrice, exitPrice) == Loss)
    ensures entryPrice == exitPrice ==>
      CalculateTradeResult(d, entryPrice, exitPrice) == Loss
  {
  }
}
