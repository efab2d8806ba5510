/**
 * The engine object itself (server/bot-controller.ts): the state it
 * publishes, the ready timestamps and price histories it keeps beside that
 * state, and the operations that update them in place.
 */
module Bot {
  import opened Options
  import opened Assets
  import opened Readiness
  import opened Readings
  import opened Ranking
  import opened Signals
  import opened Sorting

  datatype OpenTrade = OpenTrade(
    id: string,
    direction: TradeDirection,
    amount: real,
    entryPrice: real,
    startTime: string,
    duration: int,
    asset: string)

  datatype AccountInfo = AccountInfo(uid: int, isDemo: bool)

  /** How `start` and `stop` end: normally, or with the error they throw. */
  datatype Outcome = Done | Rejected(message: string)

  /** The balance and price `start` resets the state to. */
  const StartBalance: real := 5.30
  const StartPrice: real := 3625.42

  /** The timestamp map right after construction: the initially held assets, stamped `now`. */
  function InitialStamps(now: int): (m: map<string, int>)
    ensures forall n :: n in m <==> n in InitiallyHeld
    ensures forall n :: n in m ==> m[n] == now
  {
    map n | n in InitiallyHeld :: now
  }

  /**
   * An initially held asset is in its hold for the first five minutes after
   * construction (when the clock is not at 0); any other asset has no stamp.
   */
  lemma InitialHold(now: int, t: int, n: string)
    ensures n in InitiallyHeld && now != 0 && t - now < ReadyHoldDuration ==>
      InReadyHold(Lookup(InitialStamps(now), n), t)
    ensures n !in InitiallyHeld ==> Lookup(InitialStamps(now), n) == None
  {
  }

  class Controller {
    var running: bool
    var connected: bool
    var balance: real
    var currentPrice: real
    var monitored: seq<MonitoredAsset>
    var currentTrade: Option<OpenTrade>
    var accountInfo: Option<AccountInfo>
    var readyTimestamps: map<string, int>
    var priceHistory: map<string, seq<PricePoint>>

    ghost predicate Valid()
      reads this
    {
      NonZeroPrices(priceHistory)
    }

    /** The part of the state a refresh cycle reads and writes. */
    function ReadView(): ReadState
      reads this
    {
      ReadState(monitored, priceHistory, currentPrice)
    }

    /**
     * Construction (lines 40-48 and 145-177): the catalog with a starting
     * drop per asset (a random value in the source), the account and balance
     * reported by the trading client, and the twelve initially held assets
     * stamped with the construction time.
     */
    constructor(initialBalance: real, account: AccountInfo, initialDrops: seq<real>, now: int)
      requires |initialDrops| == |Catalog|
      ensures Valid()
      ensures !running && !connected && currentPrice == 0.0 && currentTrade == None
      ensures balance == initialBalance && accountInfo == Some(account)
      ensures |monitored| == |Catalog|
      ensures forall i :: 0 <= i < |Catalog| ==>
        monitored[i] == Catalog[i].(priceDropPercentage := Some(initialDrops[i]))
      ensures readyTimestamps == InitialStamps(now)
      ensures priceHistory == map[]
    {
      running := false;
      connected := false;
      balance := initialBalance;
      currentPrice := 0.0;
      monitored := seq(|Catalog|, i requires 0 <= i < |Catalog| =>
        Catalog[i].(priceDropPercentage := Some(initialDrops[i])));
      currentTrade := None;
      accountInfo := Some(account);
      readyTimestamps := InitialStamps(now);
      priceHistory := map[];
    }

    /**
     * The readiness tick (lines 191-221), one asset after the other;
     * `deltas[i]` is asset i's random drift.
     */
    method Tick(now: int, deltas: seq<real>)
      requires |deltas| == |monitored|
      modifies this
      ensures running == old(running) && connected == old(connected) && balance == old(balance)
      ensures currentPrice == old(currentPrice) && currentTrade == old(currentTrade)
      ensures accountInfo == old(accountInfo) && priceHistory == old(priceHistory)
      ensures TickState(monitored, readyTimestamps) == TickAll(old(monitored), old(readyTimestamps), now, deltas)
    {
      var i := 0;
      while i < |monitored|
        invariant 0 <= i <= |monitored| == |deltas|
        invariant running == old(running) && connected == old(connected) && balance == old(balance)
        invariant currentPrice == old(currentPrice) && currentTrade == old(currentTrade)
        invariant accountInfo == old(accountInfo) && priceHistory == old(priceHistory)
        invariant TickState(monitored, readyTimestamps) ==
          TickPrefix(old(monitored), old(readyTimestamps), now, deltas, i)
      {
        TickAt(i, now, deltas[i]);
        i := i + 1;
      }
    }

    /** The tick's loop body (lines 197-220) for asset `i`. */
    method TickAt(i: nat, now: int, delta: real)
      requires i < |monitored|
      modifies this
      ensures running == old(running) && connected == old(connected) && balance == old(balance)
      ensures currentPrice == old(currentPrice) && currentTrade == old(currentTrade)
      ensures accountInfo == old(accountInfo) && priceHistory == old(priceHistory)
      ensures TickState(monitored, readyTimestamps) ==
        TickOne(old(TickState(monitored, readyTimestamps)), i, now, delta)
    {
      var asset := monitored[i];
      var stamp := Lookup(readyTimestamps, asset.name);
      var newPercentage: real;
      var newStatus: Status;
      if stamp.Some? && stamp.value != 0 && now - stamp.value < ReadyHoldDuration {
        newPercentage := TopTier;
        newStatus := Ready;
      } else {
        newPercentage := Clamp(asset.percentage + delta);
        newStatus := if newPercentage >= ReadyThreshold then Ready else Cooldown;
        if newStatus == Ready && asset.status != Ready {
          readyTimestamps := readyTimestamps[asset.name := now];
        }
      }
      monitored := monitored[i := asset.(percentage := newPercentage, status := newStatus)];
    }

    /**
     * The per-asset callback (lines 283-346) for asset `i`, given what its
     * three candle requests delivered.
     */
    method UpdateAssetReadings(i: nat, f: CandleFetch, now: int, sar: SarCalculator)
      requires i < |monitored| && Valid() && CloseUsable(monitored[i], f)
      modifies this
      ensures running == old(running) && connected == old(connected) && balance == old(balance)
      ensures currentTrade == old(currentTrade) && accountInfo == old(accountInfo)
      ensures readyTimestamps == old(readyTimestamps)
      ensures Valid()
      ensures ReadView() == ReadAsset(old(ReadView()), i, f, now, sar)
    {
      if f.FetchFailed? {
        return;
      }
      var asset := RecordOneMinute(monitored[i], f.c1m, now, sar);
      if |f.c5m| > 0 {
        asset := asset.(sar5m := sar(f.c5m));
      }
      if |f.c15m| > 0 {
        asset := asset.(sar15m := sar(f.c15m));
      }
      monitored := monitored[i := asset];
    }

    /**
     * The 1-minute branch of the callback (lines 292-326): returns the
     * asset's new value and records the price, and for an asset at 92 its
     * history and drop.
     */
    method RecordOneMinute(asset: MonitoredAsset, c1: seq<Candle>, now: int, sar: SarCalculator)
      returns (updated: MonitoredAsset)
      requires Valid()
      requires asset.percentage != TopTier || c1 == [] || Last(c1).close != 0.0
      modifies this
      ensures running == old(running) && connected == old(connected) && balance == old(balance)
      ensures currentTrade == old(currentTrade) && accountInfo == old(accountInfo)
      ensures readyTimestamps == old(readyTimestamps) && monitored == old(monitored)
      ensures Valid()
      ensures ReadState([updated], priceHistory, currentPrice) ==
        ReadOneMinute(old(ReadView()), asset, c1, now, sar)
    {
      updated := asset;
      if |c1| > 0 {
        updated := updated.(sar1m := sar(c1));
        var close := c1[|c1| - 1].close;
        currentPrice := close;
        if updated.percentage == TopTier {
          updated := updated.(currentPrice := Some(close));
          var prior := HistoryOf(priceHistory, updated.name);
          var history := RecordPrice(prior, now, close);
          RecordedNonZero(prior, now, close);
          updated := updated.(priceDropPercentage := Some(DropPercentage(history, close)));
          StoreNonZero(priceHistory, updated.name, history);
          priceHistory := priceHistory[updated.name := history];
        }
      }
    }

    /**
     * The refresh cycle (lines 272-358): the assets in batches of ten, each
     * batch in array order, then the ranking. `fetches[i]` and `nows[i]` are
     * what asset i's requests delivered and when; `fallbacks[i]` is its
     * random drop should it still have none.
     */
    method UpdateRealSarForAllAssets(fetches: seq<CandleFetch>, nows: seq<int>, sar: SarCalculator,
                                     fallbacks: seq<real>)
      requires Valid()
      requires |fetches| == |nows| == |fallbacks| == |monitored|
      requires forall i :: 0 <= i < |monitored| ==> CloseUsable(monitored[i], fetches[i])
      modifies this
      ensures Valid()
      ensures var r := ReadPrefix(old(ReadView()), fetches, nows, sar, |old(monitored)|);
        && monitored == Ranked(r.assets, fallbacks)
        && priceHistory == r.histories && currentPrice == r.currentPrice
      ensures running == old(running) && connected == old(connected) && balance == old(balance)
      ensures currentTrade == old(currentTrade) && accountInfo == old(accountInfo)
      ensures readyTimestamps == old(readyTimestamps)
    {
      ghost var init := ReadView();
      // the slices the loop visits: batch `b` is positions `i` up to `end`
      ghost var batches := Batches(init.assets, BatchSize);
      ghost var b := 0;
      var n := |monitored|;
      var i := 0;
      assert init.assets[0..] == init.assets;
      while i < n
        invariant 0 <= i && 0 <= b <= |batches|
        invariant Batches(init.assets[(if i < n then i else n)..], BatchSize) == batches[b..]
        invariant Valid() && |monitored| == n
        invariant ReadView() == ReadPrefix(init, fetches, nows, sar, if i < n then i else n)
        invariant running == old(running) && connected == old(connected) && balance == old(balance)
        invariant currentTrade == old(currentTrade) && accountInfo == old(accountInfo)
        invariant readyTimestamps == old(readyTimestamps)
      {
        var end := if i + BatchSize < n then i + BatchSize else n;
        BatchesFrom(init.assets, BatchSize, i);
        assert init.assets[i..end] == batches[b];
        UpdateBatch(i, end, fetches, nows, sar, init);
        i := i + BatchSize;
        b := b + 1;
      }
      assert b == |batches|;
      UpdateRanking(fallbacks);
    }

    /**
     * One batch of the refresh cycle (lines 279-347): the assets at positions
     * `start` up to `end`, one after the other.
     */
    method UpdateBatch(start: nat, end: nat, fetches: seq<CandleFetch>, nows: seq<int>,
                       sar: SarCalculator, ghost init: ReadState)
      requires start <= end <= |init.assets| == |fetches| == |nows|
      requires NonZeroPrices(init.histories)
      requires forall i :: 0 <= i < |init.assets| ==> CloseUsable(init.assets[i], fetches[i])
      requires Valid() && ReadView() == ReadPrefix(init, fetches, nows, sar, start)
      modifies this
      ensures running == old(running) && connected == old(connected) && balance == old(balance)
      ensures currentTrade == old(currentTrade) && accountInfo == old(accountInfo)
      ensures readyTimestamps == old(readyTimestamps)
      ensures Valid() && ReadView() == ReadPrefix(init, fetches, nows, sar, end)
    {
      var j := start;
      while j < end
        invariant start <= j <= end
        invariant Valid() && ReadView() == ReadPrefix(init, fetches, nows, sar, j)
        invariant running == old(running) && connected == old(connected) && balance == old(balance)
        invariant currentTrade == old(currentTrade) && accountInfo == old(accountInfo)
        invariant readyTimestamps == old(readyTimestamps)
      {
        ghost var prev := ReadView();
        assert monitored[j] == init.assets[j];
        UpdateAssetReadings(j, fetches[j], nows[j], sar);
        assert ReadPrefix(init, fetches, nows, sar, j + 1) == ReadAsset(prev, j, fetches[j], nows[j], sar);
        j := j + 1;
      }
    }

    /**
     * The ranking (lines 361-389): fill in missing drops, pick the assets at
     * 92 that are ready, sort them by drop (largest first, stable) and number
     * them from 1.
     */
    method UpdateRanking(fallbacks: seq<real>)
      requires |fallbacks| == |monitored|
      modifies this
      ensures running == old(running) && connected == old(connected) && balance == old(balance)
      ensures currentPrice == old(currentPrice) && currentTrade == old(currentTrade)
      ensures accountInfo == old(accountInfo) && readyTimestamps == old(readyTimestamps)
      ensures priceHistory == old(priceHistory)
      ensures monitored == Ranked(old(monitored), fallbacks)
    {
      FillMissingDrops(fallbacks);
      var ready := SelectReady(monitored);
      var order := SortDesc(ready, KeyOf(monitored));
      RankOrderMembers(monitored);
      RankOrderDistinct(monitored);
      NumberInOrder(order);
    }

    /** Lines 363-370: every asset without a drop takes its fallback. */
    method FillMissingDrops(fallbacks: seq<real>)
      requires |fallbacks| == |monitored|
      modifies this
      ensures running == old(running) && connected == old(connected) && balance == old(balance)
      ensures currentPrice == old(currentPrice) && currentTrade == old(currentTrade)
      ensures accountInfo == old(accountInfo) && readyTimestamps == old(readyTimestamps)
      ensures priceHistory == old(priceHistory)
      ensures monitored == FillDrops(old(monitored), fallbacks)
    {
      var i := 0;
      while i < |monitored|
        invariant 0 <= i <= |monitored| == |fallbacks|
        invariant forall j :: 0 <= j < i ==> monitored[j] == FillDrop(old(monitored)[j], fallbacks[j])
        invariant forall j :: i <= j < |monitored| ==> monitored[j] == old(monitored)[j]
        invariant running == old(running) && connected == old(connected) && balance == old(balance)
        invariant currentPrice == old(currentPrice) && currentTrade == old(currentTrade)
        invariant accountInfo == old(accountInfo) && readyTimestamps == old(readyTimestamps)
        invariant priceHistory == old(priceHistory)
      {
        if monitored[i].priceDropPercentage.None? {
          monitored := monitored[i := monitored[i].(priceDropPercentage := Some(fallbacks[i]))];
        }
        i := i + 1;
      }
    }

    /** Lines 380-382: the asset at position `order[k]` gets rank `k + 1`. */
    method NumberInOrder(order: seq<nat>)
      requires forall p :: 0 <= p < |order| ==> order[p] < |monitored|
      modifies this
      ensures running == old(running) && connected == old(connected) && balance == old(balance)
      ensures currentPrice == old(currentPrice) && currentTrade == old(currentTrade)
      ensures accountInfo == old(accountInfo) && readyTimestamps == old(readyTimestamps)
      ensures priceHistory == old(priceHistory)
      ensures monitored == AssignRanks(old(monitored), order, |order|)
    {
      var k := 0;
      while k < |order|
        invariant 0 <= k <= |order|
        invariant monitored == AssignRanks(old(monitored), order, k)
        invariant running == old(running) && connected == old(connected) && balance == old(balance)
        invariant currentPrice == old(currentPrice) && currentTrade == old(currentTrade)
        invariant accountInfo == old(accountInfo) && readyTimestamps == old(readyTimestamps)
        invariant priceHistory == old(priceHistory)
      {
        monitored := monitored[order[k] := monitored[order[k]].(rank := Some(k + 1))];
        k := k + 1;
      }
    }

    /**
     * One pass of the SAR loop (lines 240-268): the refresh cycle, then the
     * confluence scan when the bot is running with no trade open.
     */
    method SarCycle(fetches: seq<CandleFetch>, nows: seq<int>, sar: SarCalculator, fallbacks: seq<real>)
      returns (found: Option<nat>)
      requires Valid()
      requires |fetches| == |nows| == |fallbacks| == |monitored|
      requires forall i :: 0 <= i < |monitored| ==> CloseUsable(monitored[i], fetches[i])
      modifies this
      ensures Valid()
      ensures var r := ReadPrefix(old(ReadView()), fetches, nows, sar, |old(monitored)|);
        && monitored == Ranked(r.assets, fallbacks)
        && priceHistory == r.histories && currentPrice == r.currentPrice
      ensures running == old(running) && currentTrade == old(currentTrade)
      ensures connected == old(connected) && balance == old(balance) && accountInfo == old(accountInfo)
      ensures readyTimestamps == old(readyTimestamps)
      ensures found.Some? ==>
        && running && currentTrade.None?
        && found.value < |monitored| && Confluent(monitored[found.value])
        && (forall j :: 0 <= j < found.value ==> !Confluent(monitored[j]))
      ensures found.None? <==>
        (!running || currentTrade.Some? || forall j :: 0 <= j < |monitored| ==> !Confluent(monitored[j]))
    {
      UpdateRealSarForAllAssets(fetches, nows, sar, fallbacks);
      found := FindConfluence(monitored, running, currentTrade.Some?);
    }

    /**
     * `start` (lines 434-454): refused while running; otherwise a fresh state
     * with the fixed balance and price and the catalog without drops or
     * ranks. The account information is not carried over.
     */
    method Start() returns (outcome: Outcome)
      modifies this
      ensures old(running) ==> outcome == Rejected("Bot is already running") && unchanged(this)
      ensures !old(running) ==>
        && outcome == Done
        && running && connected && balance == StartBalance && currentPrice == StartPrice
        && monitored == Catalog && currentTrade == None && accountInfo == None
        && readyTimestamps == old(readyTimestamps) && priceHistory == old(priceHistory)
    {
      if running {
        return Rejected("Bot is already running");
      }
      running := true;
      connected := true;
      balance := StartBalance;
      currentPrice := StartPrice;
      monitored := Catalog;
      currentTrade := None;
      accountInfo := None;
      outcome := Done;
    }

    /** `stop` (lines 456-471): refused unless running; otherwise disconnects and drops the open trade. */
    method Stop() returns (outcome: Outcome)
      modifies this
      ensures !old(running) ==> outcome == Rejected("Bot is not running") && unchanged(this)
      ensures old(running) ==>
        && outcome == Done
        && !running && !connected && currentTrade == None
        && balance == old(balance) && currentPrice == old(currentPrice) && monitored == old(monitored)
        && accountInfo == old(accountInfo)
        && readyTimestamps == old(readyTimestamps) && priceHistory == old(priceHistory)
    {
      if !running {
        return Rejected("Bot is not running");
      }
      running := false;
      connected := false;
      currentTrade := None;
      outcome := Done;
    }
  }
}
