/**
 * One refresh cycle's per-asset update (server/bot-controller.ts, lines
 * 271-347): the three timeframe readings, the engine-wide last price, and,
 * for assets at the top tier, the rolling one-hour price history and the
 * drop percentage measured against its oldest entry.
 */
module Readings {
  import opened Options
  import opened Assets

  function Last<T>(s: seq<T>): T
    requires s != []
  {
    s[|s| - 1]
  }

  /** `history.shift()` while the head is older than `cutoff` (lines 315-317). */
  function Pruned(h: seq<PricePoint>, cutoff: int): (r: seq<PricePoint>)
    ensures |r| <= |h| && r == h[|h| - |r|..]
    ensures r != [] ==> r[0].timestamp >= cutoff
    ensures forall i :: 0 <= i < |h| - |r| ==> h[i].timestamp < cutoff
    decreases |h|
  {
    if h != [] && h[0].timestamp < cutoff then Pruned(h[1..], cutoff) else h
  }

  /** The pruning loop itself. */
  method PruneHistory(h: seq<PricePoint>, cutoff: int) returns (r: seq<PricePoint>)
    ensures r == Pruned(h, cutoff)
  {
    r := h;
    while |r| > 0 && r[0].timestamp < cutoff
      invariant Pruned(r, cutoff) == Pruned(h, cutoff)
      decreases |r|
    {
      r := r[1..];
    }
  }

  ghost predicate Chronological(h: seq<PricePoint>) {
    forall i, j :: 0 <= i < j < |h| ==> h[i].timestamp <= h[j].timestamp
  }

  /** A price history after `(now, price)` is pushed and entries older than an hour are shifted out. */
  function Recorded(h: seq<PricePoint>, now: int, price: real): seq<PricePoint> {
    Pruned(h + [PricePoint(now, price)], now - PriceHistoryDuration)
  }

  /**
   * The new entry is never pruned, so the history ends with it; every entry
   * comes from the old history or is the new one; and when the old history
   * was in time order and not newer than `now`, the result is in time order
   * and lies entirely inside the one-hour window.
   */
  lemma RecordedWindow(h: seq<PricePoint>, now: int, price: real)
    ensures var r := Recorded(h, now, price);
      && r != []
      && Last(r) == PricePoint(now, price)
      && (forall k :: 0 <= k < |r| ==> r[k] in h + [PricePoint(now, price)])
      && (Chronological(h) && (h != [] ==> Last(h).timestamp <= now) ==>
            && Chronological(r)
            && forall k :: 0 <= k < |r| ==> r[k].timestamp >= now - PriceHistoryDuration)
  {
    RecordedEnds(h, now, price);
    if Chronological(h) && (h != [] ==> Last(h).timestamp <= now) {
      AppendChronological(h, PricePoint(now, price));
      PrunedChronological(h + [PricePoint(now, price)], now - PriceHistoryDuration);
    }
  }

  /** Pruning keeps a suffix, which ends with the entry just pushed (the window reaches back from `now`). */
  lemma RecordedEnds(h: seq<PricePoint>, now: int, price: real)
    ensures var r := Recorded(h, now, price);
      && r != []
      && Last(r) == PricePoint(now, price)
      && (forall k :: 0 <= k < |r| ==> r[k] in h + [PricePoint(now, price)])
  {
    var p := PricePoint(now, price);
    var e := h + [p];
    var r := Recorded(h, now, price);
    var d := |e| - |r|;
    assert r == e[d..];
    assert e[|e| - 1] == p;
    assert r != [];
    assert Last(r) == p by {
      assert Last(r) == e[d + |r| - 1] == e[|e| - 1];
    }
    forall k | 0 <= k < |r| ensures r[k] in e {
      assert r[k] == e[d + k];
    }
  }

  /** Pruning a history in time order leaves one in time order, inside the window. */
  lemma PrunedChronological(h: seq<PricePoint>, cutoff: int)
    requires Chronological(h)
    ensures var r := Pruned(h, cutoff);
      && Chronological(r)
      && forall k :: 0 <= k < |r| ==> r[k].timestamp >= cutoff
  {
    var r := Pruned(h, cutoff);
    var d := |h| - |r|;
    assert r == h[d..];
    assert Chronological(r) by {
      forall i, j | 0 <= i < j < |r| ensures r[i].timestamp <= r[j].timestamp {
        assert r[i] == h[d + i] && r[j] == h[d + j];
      }
    }
    forall k | 0 <= k < |r| ensures r[k].timestamp >= cutoff {
      if k > 0 {
        assert r[0] == h[d] && r[k] == h[d + k];
      }
    }
  }

  /** Lines 309-317: push the new entry, then shift out the entries older than the window. */
  method RecordPrice(h: seq<PricePoint>, now: int, price: real) returns (r: seq<PricePoint>)
    ensures r == Recorded(h, now, price)
  {
    r := PruneHistory(h + [PricePoint(now, price)], now - PriceHistoryDuration);
  }

  /** Recording a nonzero price into a history without zero prices keeps it free of them. */
  lemma RecordedNonZero(h: seq<PricePoint>, now: int, price: real)
    requires price != 0.0
    requires forall k :: 0 <= k < |h| ==> h[k].price != 0.0
    ensures var r := Recorded(h, now, price);
      r != [] && forall k :: 0 <= k < |r| ==> r[k].price != 0.0
  {
    RecordedWindow(h, now, price);
  }

  lemma AppendChronological(h: seq<PricePoint>, p: PricePoint)
    requires Chronological(h) && (h != [] ==> Last(h).timestamp <= p.timestamp)
    ensures Chronological(h + [p])
  {
    var e := h + [p];
    forall i, j | 0 <= i < j < |e| ensures e[i].timestamp <= e[j].timestamp {
      if j < |h| {
        assert e[i] == h[i] && e[j] == h[j];
      } else if i < |h| - 1 {
        assert e[i] == h[i] && h[i].timestamp <= h[|h| - 1].timestamp;
      }
    }
  }

  /**
   * `(oldest - current) / oldest * 100` once the history holds more than one
   * entry, and 0 before that (lines 320-325).
   */
  function DropPercentage(h: seq<PricePoint>, current: real): (r: real)
    requires |h| > 1 ==> h[0].price != 0.0
    ensures |h| <= 1 ==> r == 0.0
    ensures |h| > 1 ==> r * h[0].price == (h[0].price - current) * 100.0
    ensures |h| > 1 && h[0].price > 0.0 ==> (r > 0.0 <==> current < h[0].price)
    ensures |h| > 0 && h[0].price > 0.0 && current >= 0.0 ==> r <= 100.0
  {
    if |h| > 1 then
      var oldest := h[0].price;
      var q := (oldest - current) / oldest;
      assert q * oldest == oldest - current;
      q * 100.0
    else 0.0
  }

  /**
   * What the three `getCandles` calls of one asset delivered.  A missing
   * series (`null`/`undefined`) is written as an empty one, since the code
   * treats both alike; `FetchFailed` is a call that threw, which the
   * per-asset `catch` swallows before any field is written.
   */
  datatype CandleFetch =
    | FetchFailed
    | Fetched(c1m: seq<Candle>, c5m: seq<Candle>, c15m: seq<Candle>)

  /** The engine state a refresh cycle writes. */
  datatype ReadState = ReadState(
    assets: seq<MonitoredAsset>,
    histories: map<string, seq<PricePoint>>,
    currentPrice: real)

  function HistoryOf(m: map<string, seq<PricePoint>>, name: string): seq<PricePoint> {
    if name in m then m[name] else []
  }

  /** No stored price is zero, so the drop percentage never divides by zero. */
  ghost predicate NonZeroPrices(m: map<string, seq<PricePoint>>) {
    forall n, i :: n in m && 0 <= i < |m[n]| ==> m[n][i].price != 0.0
  }

  lemma StoreNonZero(m: map<string, seq<PricePoint>>, n: string, h: seq<PricePoint>)
    requires NonZeroPrices(m)
    requires forall k :: 0 <= k < |h| ==> h[k].price != 0.0
    ensures NonZeroPrices(m[n := h])
  {
  }

  /** The last 1-minute close that would enter asset `a`'s history is not zero. */
  predicate CloseUsable(a: MonitoredAsset, f: CandleFetch) {
    a.percentage != TopTier || f.FetchFailed? || f.c1m == [] || Last(f.c1m).close != 0.0
  }

  /** `calculateSAR(candles)?.direction ?? null` when candles arrived, else the old reading. */
  function Reading(prev: Option<Direction>, candles: seq<Candle>, sar: SarCalculator): Option<Direction> {
    if |candles| > 0 then sar(candles) else prev
  }

  /**
   * The 1-minute branch of the callback (lines 292-326) for asset `a`: the
   * new value of `a` (as the one element of `assets`), the histories and the
   * engine's price.
   */
  function ReadOneMinute(st: ReadState, a: MonitoredAsset, c1: seq<Candle>, now: int,
                         sar: SarCalculator): (r: ReadState)
    requires NonZeroPrices(st.histories)
    requires a.percentage != TopTier || c1 == [] || Last(c1).close != 0.0
    ensures |r.assets| == 1 && NonZeroPrices(r.histories)
  {
    if c1 == [] then ReadState([a], st.histories, st.currentPrice)
    else
      var close := Last(c1).close;
      var withReading := a.(sar1m := sar(c1));
      if a.percentage == TopTier then
        var prior := HistoryOf(st.histories, a.name);
        var h := Recorded(prior, now, close);
        RecordedNonZero(prior, now, close);
        StoreNonZero(st.histories, a.name, h);
        ReadState([withReading.(currentPrice := Some(close),
                                priceDropPercentage := Some(DropPercentage(h, close)))],
                  st.histories[a.name := h], close)
      else ReadState([withReading], st.histories, close)
  }

  /** The update of asset `i` (the body of the per-asset callback, lines 283-346). */
  function ReadAsset(st: ReadState, i: nat, f: CandleFetch, now: int, sar: SarCalculator): (r: ReadState)
    requires i < |st.assets| && NonZeroPrices(st.histories) && CloseUsable(st.assets[i], f)
    ensures |r.assets| == |st.assets| && NonZeroPrices(r.histories)
    ensures forall j :: 0 <= j < |st.assets| && j != i ==> r.assets[j] == st.assets[j]
  {
    var a := st.assets[i];
    match f
    case FetchFailed => st
    case Fetched(c1, c5, c15) =>
      var s1 := ReadOneMinute(st, a, c1, now, sar);
      var a1 := s1.assets[0];
      var b := a1.(sar5m := Reading(a1.sar5m, c5, sar), sar15m := Reading(a1.sar15m, c15, sar));
      ReadState(st.assets[i := b], s1.histories, s1.currentPrice)
  }

  /** The cycle after the first `k` assets are updated, in array order. */
  function ReadPrefix(st: ReadState, fetches: seq<CandleFetch>, nows: seq<int>,
                      sar: SarCalculator, k: nat): (r: ReadState)
    requires k <= |st.assets| == |fetches| == |nows|
    requires NonZeroPrices(st.histories)
    requires forall i :: 0 <= i < |st.assets| ==> CloseUsable(st.assets[i], fetches[i])
    ensures |r.assets| == |st.assets| && NonZeroPrices(r.histories)
    ensures forall i :: k <= i < |st.assets| ==> r.assets[i] == st.assets[i]
    decreases k
  {
    if k == 0 then st
    else
      var prev := ReadPrefix(st, fetches, nows, sar, k - 1);
      ReadAsset(prev, k - 1, fetches[k - 1], nows[k - 1], sar)
  }

  /** Whether a fetch delivered 1-minute candles. */
  predicate HasOneMinute(f: CandleFetch) {
    f.Fetched? && f.c1m != []
  }

  /**
   * The readings rule, for every asset: a failed fetch leaves the asset as it
   * was; otherwise each timeframe with candles takes the calculator's
   * direction (or none), each timeframe without keeps its reading, and only
   * the readings, the price and the drop may change, the latter two only for
   * a top-tier asset with 1-minute candles.
   */
  lemma {:induction false} ReadingsRule(st: ReadState, fetches: seq<CandleFetch>, nows: seq<int>,
                                        sar: SarCalculator, k: nat)
    requires k <= |st.assets| == |fetches| == |nows|
    requires NonZeroPrices(st.histories)
    requires forall i :: 0 <= i < |st.assets| ==> CloseUsable(st.assets[i], fetches[i])
    ensures forall i :: 0 <= i < k ==>
      var a, b, f := st.assets[i], ReadPrefix(st, fetches, nows, sar, k).assets[i], fetches[i];
      && (f.FetchFailed? ==> b == a)
      && (f.Fetched? ==>
            && b == a.(sar1m := Reading(a.sar1m, f.c1m, sar),
                       sar5m := Reading(a.sar5m, f.c5m, sar),
                       sar15m := Reading(a.sar15m, f.c15m, sar),
                       currentPrice := b.currentPrice,
                       priceDropPercentage := b.priceDropPercentage)
            && (a.percentage != TopTier || f.c1m == [] ==>
                  b.currentPrice == a.currentPrice && b.priceDropPercentage == a.priceDropPercentage))
  {
    if k > 0 {
      ReadingsRule(st, fetches, nows, sar, k - 1);
      var prev := ReadPrefix(st, fetches, nows, sar, k - 1);
      assert prev.assets[k - 1] == st.assets[k - 1];
    }
  }

  /** Histories of names none of the first `k` assets carries are untouched. */
  lemma {:induction false} HistoryFrame(st: ReadState, fetches: seq<CandleFetch>, nows: seq<int>,
                                        sar: SarCalculator, k: nat, n: string)
    requires k <= |st.assets| == |fetches| == |nows|
    requires NonZeroPrices(st.histories)
    requires forall i :: 0 <= i < |st.assets| ==> CloseUsable(st.assets[i], fetches[i])
    requires forall i :: 0 <= i < k ==> st.assets[i].name != n
    ensures HistoryOf(ReadPrefix(st, fetches, nows, sar, k).histories, n) == HistoryOf(st.histories, n)
  {
    if k > 0 {
      HistoryFrame(st, fetches, nows, sar, k - 1, n);
      var prev := ReadPrefix(st, fetches, nows, sar, k - 1);
      assert prev.assets[k - 1] == st.assets[k - 1];
    }
  }

  /** What the cycle leaves in asset `i`'s history, price and drop, judged against the start state. */
  ghost predicate HistoryOutcome(st: ReadState, f: CandleFetch, now: int, r: ReadState, i: nat)
    requires i < |st.assets| && i < |r.assets|
  {
    var a := st.assets[i];
    if a.percentage == TopTier && HasOneMinute(f) then
      var h := Recorded(HistoryOf(st.histories, a.name), now, Last(f.c1m).close);
      && HistoryOf(r.histories, a.name) == h
      && h != [] && h[0].price != 0.0
      && r.assets[i].currentPrice == Some(Last(f.c1m).close)
      && r.assets[i].priceDropPercentage == Some(DropPercentage(h, Last(f.c1m).close))
    else
      HistoryOf(r.histories, a.name) == HistoryOf(st.histories, a.name)
  }

  /** One step, for the asset it updates. */
  lemma StepHistoryOwn(prev: ReadState, i: nat, f: CandleFetch, now: int, sar: SarCalculator)
    requires i < |prev.assets| && NonZeroPrices(prev.histories) && CloseUsable(prev.assets[i], f)
    ensures HistoryOutcome(prev, f, now, ReadAsset(prev, i, f, now, sar), i)
  {
    var a := prev.assets[i];
    if a.percentage == TopTier && HasOneMinute(f) {
      var prior := HistoryOf(prev.histories, a.name);
      RecordedNonZero(prior, now, Last(f.c1m).close);
    }
  }

  /** One step leaves the histories of other names alone. */
  lemma StepHistoryOther(prev: ReadState, i: nat, f: CandleFetch, now: int, sar: SarCalculator, n: string)
    requires i < |prev.assets| && NonZeroPrices(prev.histories) && CloseUsable(prev.assets[i], f)
    requires prev.assets[i].name != n
    ensures HistoryOf(ReadAsset(prev, i, f, now, sar).histories, n) == HistoryOf(prev.histories, n)
  {
  }

  /** An outcome survives a step that leaves the asset and its history alone. */
  lemma OutcomeCarries(st: ReadState, f: CandleFetch, now: int, prev: ReadState, r: ReadState, i: nat)
    requires i < |st.assets| && i < |prev.assets| && i < |r.assets|
    requires HistoryOutcome(st, f, now, prev, i)
    requires r.assets[i] == prev.assets[i]
    requires HistoryOf(r.histories, st.assets[i].name) == HistoryOf(prev.histories, st.assets[i].name)
    ensures HistoryOutcome(st, f, now, r, i)
  {
  }

  /** The step's own outcome, judged against the state before it, counts against the start state. */
  lemma OutcomeFromStep(st: ReadState, prev: ReadState, f: CandleFetch, now: int, r: ReadState, i: nat)
    requires i < |st.assets| && i < |prev.assets| && i < |r.assets|
    requires prev.assets[i] == st.assets[i]
    requires HistoryOf(prev.histories, st.assets[i].name) == HistoryOf(st.histories, st.assets[i].name)
    requires HistoryOutcome(prev, f, now, r, i)
    ensures HistoryOutcome(st, f, now, r, i)
  {
  }

  /**
   * With distinct asset names, a top-tier asset with 1-minute candles ends
   * the cycle with its own history extended by `(now, close)` and pruned to
   * the hour, its price set to that close and its drop measured on that
   * history; every other asset's history is left as it was.
   */
  lemma {:induction false} HistoryRule(st: ReadState, fetches: seq<CandleFetch>, nows: seq<int>,
                                       sar: SarCalculator, k: nat)
    requires k <= |st.assets| == |fetches| == |nows|
    requires NonZeroPrices(st.histories)
    requires forall i :: 0 <= i < |st.assets| ==> CloseUsable(st.assets[i], fetches[i])
    requires forall i, j :: 0 <= i < j < |st.assets| ==> st.assets[i].name != st.assets[j].name
    ensures forall i :: 0 <= i < k ==>
      HistoryOutcome(st, fetches[i], nows[i], ReadPrefix(st, fetches, nows, sar, k), i)
  {
    if k > 0 {
      var prev := ReadPrefix(st, fetches, nows, sar, k - 1);
      var r := ReadPrefix(st, fetches, nows, sar, k);
      var a, f := st.assets[k - 1], fetches[k - 1];
      assert prev.assets[k - 1] == a;
      HistoryRule(st, fetches, nows, sar, k - 1);
      forall i | 0 <= i < k
        ensures HistoryOutcome(st, fetches[i], nows[i], r, i)
      {
        if i < k - 1 {
          StepHistoryOther(prev, k - 1, f, nows[k - 1], sar, st.assets[i].name);
          OutcomeCarries(st, fetches[i], nows[i], prev, r, i);
        } else {
          HistoryFrame(st, fetches, nows, sar, k - 1, a.name);
          StepHistoryOwn(prev, k - 1, f, nows[k - 1], sar);
          OutcomeFromStep(st, prev, f, nows[k - 1], r, i);
        }
      }
    }
  }

  /**
   * `state.currentPrice` is written by every asset with 1-minute candles, so
   * after the cycle it holds the close of the last such asset in processing
   * order, or its old value when there is none.
   */
  lemma LastWriterWins(st: ReadState, fetches: seq<CandleFetch>, nows: seq<int>,
                       sar: SarCalculator, k: nat)
    requires k <= |st.assets| == |fetches| == |nows|
    requires NonZeroPrices(st.histories)
    requires forall i :: 0 <= i < |st.assets| ==> CloseUsable(st.assets[i], fetches[i])
    ensures var r := ReadPrefix(st, fetches, nows, sar, k);
      && ((forall i :: 0 <= i < k ==> !HasOneMinute(fetches[i])) ==> r.currentPrice == st.currentPrice)
      && (forall j :: 0 <= j < k && HasOneMinute(fetches[j])
                      && (forall i :: j < i < k ==> !HasOneMinute(fetches[i])) ==>
            r.currentPrice == Last(fetches[j].c1m).close)
  {
    PriceOfLastWriter(st, fetches, nows, sar, k);
    LastWriterIsLast(fetches, k);
  }

  /** The position of the last of the first `k` fetches that delivered 1-minute candles. */
  function LastWriter(fetches: seq<CandleFetch>, k: nat): (r: Option<nat>)
    requires k <= |fetches|
    ensures r.Some? ==> r.value < k && HasOneMinute(fetches[r.value])
  {
    if k == 0 then None
    else if HasOneMinute(fetches[k - 1]) then Some(k - 1)
    else LastWriter(fetches, k - 1)
  }

  /** `LastWriter` is none exactly when no fetch wrote, and otherwise no later fetch wrote. */
  lemma {:induction false} LastWriterIsLast(fetches: seq<CandleFetch>, k: nat)
    requires k <= |fetches|
    ensures LastWriter(fetches, k).None? <==> forall i :: 0 <= i < k ==> !HasOneMinute(fetches[i])
    ensures forall j :: 0 <= j < k && HasOneMinute(fetches[j])
                        && (forall i :: j < i < k ==> !HasOneMinute(fetches[i])) ==>
              LastWriter(fetches, k) == Some(j)
  {
    if k > 0 {
      LastWriterIsLast(fetches, k - 1);
    }
  }

  /** The price after the first `k` assets is that of their last writer, or the old one. */
  lemma {:induction false} PriceOfLastWriter(st: ReadState, fetches: seq<CandleFetch>, nows: seq<int>,
                                             sar: SarCalculator, k: nat)
    requires k <= |st.assets| == |fetches| == |nows|
    requires NonZeroPrices(st.histories)
    requires forall i :: 0 <= i < |st.assets| ==> CloseUsable(st.assets[i], fetches[i])
    ensures ReadPrefix(st, fetches, nows, sar, k).currentPrice ==
      match LastWriter(fetches, k)
      case None => st.currentPrice
      case Some(j) => Last(fetches[j].c1m).close
  {
    if k > 0 {
      PriceOfLastWriter(st, fetches, nows, sar, k - 1);
      var prev := ReadPrefix(st, fetches, nows, sar, k - 1);
      StepPrice(prev, k - 1, fetches[k - 1], nows[k - 1], sar);
    }
  }

  /** One step writes the engine's price exactly when the fetch delivered 1-minute candles. */
  lemma StepPrice(prev: ReadState, i: nat, f: CandleFetch, now: int, sar: SarCalculator)
    requires i < |prev.assets| && NonZeroPrices(prev.histories) && CloseUsable(prev.assets[i], f)
    ensures ReadAsset(prev, i, f, now, sar).currentPrice ==
      if HasOneMinute(f) then Last(f.c1m).close else prev.currentPrice
  {
  }

  function Flatten<T>(batches: seq<seq<T>>): seq<T> {
    if batches == [] then [] else batches[0] + Flatten(batches[1..])
  }

  /**
   * The slices `s[i..i + size]` for `i = 0, size, 2 * size, ...` (lines
   * 278-279): together they are `s`, in order; each is non-empty and holds at
   * most `size` elements; all but the last hold exactly `size`.
   */
  function Batches<T>(s: seq<T>, size: nat): (r: seq<seq<T>>)
    requires size > 0
    ensures Flatten(r) == s
    ensures forall k :: 0 <= k < |r| ==> 0 < |r[k]| <= size
    ensures forall k :: 0 <= k < |r| - 1 ==> |r[k]| == size
    decreases |s|
  {
    if s == [] then []
    else if |s| <= size then [s]
    else
      var rest := Batches(s[size..], size);
      assert ([s[..size]] + rest)[1..] == rest;
      assert s == s[..size] + s[size..];
      [s[..size]] + rest
  }

  /**
   * The slices from offset `i` on: the first is `s[i..i + size]` (or up to
   * the end), followed by the slices from where it stops.
   */
  lemma BatchesFrom<T>(s: seq<T>, size: nat, i: nat)
    requires size > 0 && i < |s|
    ensures var end := if i + size < |s| then i + size else |s|;
      Batches(s[i..], size) == [s[i..end]] + Batches(s[end..], size)
  {
    var t := s[i..];
    if |t| > size {
      assert t[..size] == s[i..i + size];
      assert t[size..] == s[i + size..];
    } else {
      assert Batches(t, size) == [t] && t == s[i..|s|];
      assert Batches(s[|s|..], size) == [];
    }
  }
}
