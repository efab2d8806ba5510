/**
 * The readiness tick (server/bot-controller.ts, lines 191-221): every five
 * seconds each asset either stays pinned at the top tier while its ready
 * hold runs, or drifts by a random delta clamped to [15, 92]; its status is
 * then "ready" exactly when its percentage reaches 88, and a move from
 * non-ready to ready stamps the start of a new hold.
 */
module Readiness {
  import opened Options
  import opened Assets

  function Lookup(m: map<string, int>, k: string): Option<int> {
    if k in m then Some(m[k]) else None
  }

  /**
   * `readyTimestamp && (now - readyTimestamp) < READY_HOLD_DURATION`: a
   * missing stamp and a stamp of 0 are both falsy in JavaScript.
   */
  predicate InReadyHold(stamp: Option<int>, now: int) {
    stamp.Some? && stamp.value != 0 && now - stamp.value < ReadyHoldDuration
  }

  /** `Math.max(15, Math.min(92, x))`. */
  function Clamp(x: real): (r: real)
    ensures PercentageFloor <= r <= TopTier
    ensures PercentageFloor <= x <= TopTier ==> r == x
    ensures x < PercentageFloor ==> r == PercentageFloor
    ensures x > TopTier ==> r == TopTier
  {
    var capped := if x < TopTier then x else TopTier;
    if PercentageFloor > capped then PercentageFloor else capped
  }

  /** The new asset, and whether its hold timestamp is to be set to `now`. */
  datatype TickStep = TickStep(asset: MonitoredAsset, promoted: bool)

  /** One asset's update in the tick, given its ready timestamp. */
  function TickAsset(a: MonitoredAsset, stamp: Option<int>, now: int, delta: real): (r: TickStep)
    // only percentage and status change
    ensures r.asset == a.(percentage := r.asset.percentage, status := r.asset.status)
    ensures PercentageFloor <= r.asset.percentage <= TopTier
    ensures r.asset.status == Ready <==> r.asset.percentage >= ReadyThreshold
    ensures r.asset.status != Trading
    ensures InReadyHold(stamp, now) ==>
      r.asset.percentage == TopTier && r.asset.status == Ready && !r.promoted
    ensures !InReadyHold(stamp, now) ==>
      && r.asset.percentage == Clamp(a.percentage + delta)
      && (r.promoted <==> r.asset.status == Ready && a.status != Ready)
  {
    if InReadyHold(stamp, now) then
      TickStep(a.(percentage := TopTier, status := Ready), false)
    else
      var p := Clamp(a.percentage + delta);
      var s := if p >= ReadyThreshold then Ready else Cooldown;
      TickStep(a.(percentage := p, status := s), s == Ready && a.status != Ready)
  }

  /** The engine's asset list and its ready-timestamp map. */
  datatype TickState = TickState(assets: seq<MonitoredAsset>, stamps: map<string, int>)

  /** The loop body for asset `i`, reading the timestamp map as it is at that point. */
  function TickOne(st: TickState, i: nat, now: int, delta: real): TickState
    requires i < |st.assets|
  {
    var a := st.assets[i];
    var step := TickAsset(a, Lookup(st.stamps, a.name), now, delta);
    TickState(st.assets[i := step.asset],
              if step.promoted then st.stamps[a.name := now] else st.stamps)
  }

  /** The tick after its loop has handled the first `k` assets. */
  function TickPrefix(assets: seq<MonitoredAsset>, stamps: map<string, int>, now: int,
                      deltas: seq<real>, k: nat): (r: TickState)
    requires k <= |assets| == |deltas|
    ensures |r.assets| == |assets|
    ensures forall i :: k <= i < |assets| ==> r.assets[i] == assets[i]
    decreases k
  {
    if k == 0 then TickState(assets, stamps)
    else TickOne(TickPrefix(assets, stamps, now, deltas, k - 1), k - 1, now, deltas[k - 1])
  }

  /** The whole tick; `deltas[i]` stands for asset i's `(Math.random() - 0.5) * 3`. */
  function TickAll(assets: seq<MonitoredAsset>, stamps: map<string, int>, now: int,
                   deltas: seq<real>): TickState
    requires |assets| == |deltas|
  {
    TickPrefix(assets, stamps, now, deltas, |assets|)
  }

  ghost predicate DistinctNames(assets: seq<MonitoredAsset>) {
    forall i, j :: 0 <= i < j < |assets| ==> assets[i].name != assets[j].name
  }

  /**
   * Whatever the timestamps, after a tick every asset lies in [15, 92], is
   * "ready" exactly when it is at or above 88, and has only its percentage
   * and status changed.
   */
  lemma {:induction false} TickKeepsInvariants(assets: seq<MonitoredAsset>, stamps: map<string, int>,
                                               now: int, deltas: seq<real>, k: nat)
    requires k <= |assets| == |deltas|
    ensures forall i :: 0 <= i < k ==>
      var b := TickPrefix(assets, stamps, now, deltas, k).assets[i];
      && b == assets[i].(percentage := b.percentage, status := b.status)
      && PercentageFloor <= b.percentage <= TopTier
      && (b.status == Ready <==> b.percentage >= ReadyThreshold)
  {
    if k > 0 {
      TickKeepsInvariants(assets, stamps, now, deltas, k - 1);
    }
  }

  /** Timestamps of names that none of the first `k` assets carries are untouched. */
  lemma {:induction false} TickStampsFrame(assets: seq<MonitoredAsset>, stamps: map<string, int>,
                                           now: int, deltas: seq<real>, k: nat, n: string)
    requires k <= |assets| == |deltas|
    requires forall i :: 0 <= i < k ==> assets[i].name != n
    ensures Lookup(TickPrefix(assets, stamps, now, deltas, k).stamps, n) == Lookup(stamps, n)
  {
    if k > 0 {
      TickStampsFrame(assets, stamps, now, deltas, k - 1, n);
      var prev := TickPrefix(assets, stamps, now, deltas, k - 1);
      assert prev.assets[k - 1] == assets[k - 1];
    }
  }

  /** Asset `i` ended the tick `r` as its own update from the original timestamps prescribes. */
  ghost predicate TickedOwnWay(assets: seq<MonitoredAsset>, stamps: map<string, int>, now: int,
                               deltas: seq<real>, r: TickState, i: nat)
    requires i < |assets| == |deltas| && i < |r.assets|
  {
    var step := TickAsset(assets[i], Lookup(stamps, assets[i].name), now, deltas[i]);
    && r.assets[i] == step.asset
    && Lookup(r.stamps, assets[i].name) == (if step.promoted then Some(now) else Lookup(stamps, assets[i].name))
  }

  /** The update of asset `j` leaves every other position, and the stamps of other names, alone. */
  lemma TickOneOther(st: TickState, j: nat, now: int, delta: real, i: nat)
    requires j < |st.assets| && i < |st.assets| && i != j
    requires st.assets[i].name != st.assets[j].name
    ensures TickOne(st, j, now, delta).assets[i] == st.assets[i]
    ensures Lookup(TickOne(st, j, now, delta).stamps, st.assets[i].name) == Lookup(st.stamps, st.assets[i].name)
  {
  }

  /**
   * With distinct names (as in the catalog) each asset's update reads its own
   * original timestamp, and the map changes under its name only by stamping
   * `now` when it is promoted.
   */
  lemma {:induction false} TickPerAsset(assets: seq<MonitoredAsset>, stamps: map<string, int>,
                                        now: int, deltas: seq<real>, k: nat)
    requires k <= |assets| == |deltas|
    requires DistinctNames(assets)
    ensures forall i :: 0 <= i < k ==>
      TickedOwnWay(assets, stamps, now, deltas, TickPrefix(assets, stamps, now, deltas, k), i)
  {
    if k > 0 {
      var prev := TickPrefix(assets, stamps, now, deltas, k - 1);
      var r := TickPrefix(assets, stamps, now, deltas, k);
      var a := assets[k - 1];
      assert prev.assets[k - 1] == a;
      TickPerAsset(assets, stamps, now, deltas, k - 1);
      forall i | 0 <= i < k
        ensures TickedOwnWay(assets, stamps, now, deltas, r, i)
      {
        if i < k - 1 {
          assert TickedOwnWay(assets, stamps, now, deltas, prev, i);
          assert prev.assets[i].name == assets[i].name != a.name;
          TickOneOther(prev, k - 1, now, deltas[k - 1], i);
        } else {
          TickStampsFrame(assets, stamps, now, deltas, k - 1, a.name);
        }
      }
    }
  }

  /** One asset through successive ticks at `times`, carrying its own timestamp. */
  function RunTicks(a: MonitoredAsset, stamp: Option<int>, times: seq<int>, deltas: seq<real>)
    : (MonitoredAsset, Option<int>)
    requires |times| == |deltas|
    decreases |times|
  {
    if times == [] then (a, stamp)
    else
      var step := TickAsset(a, stamp, times[0], deltas[0]);
      RunTicks(step.asset, if step.promoted then Some(times[0]) else stamp, times[1..], deltas[1..])
  }

  /**
   * Hysteresis: once stamped at `t0`, an asset reads 92 and "ready" after
   * every tick before `t0 + 300000`, whatever the random drift, and its
   * timestamp is not moved.
   */
  lemma {:induction false} HoldPersists(a: MonitoredAsset, t0: int, times: seq<int>, deltas: seq<real>)
    requires |times| == |deltas| > 0
    requires t0 != 0
    requires forall k :: 0 <= k < |times| ==> times[k] - t0 < ReadyHoldDuration
    decreases |times|
    ensures var (b, stamp) := RunTicks(a, Some(t0), times, deltas);
      b.percentage == TopTier && b.status == Ready && stamp == Some(t0)
  {
    var step := TickAsset(a, Some(t0), times[0], deltas[0]);
    if |times| > 1 {
      HoldPersists(step.asset, t0, times[1..], deltas[1..]);
    }
  }

  /**
   * A promotion at a nonzero time `now` starts a hold: a tick within the
   * next 300000 ms pins the asset, and the first tick after it drifts freely.
   */
  lemma PromotionStartsHold(a: MonitoredAsset, stamp: Option<int>, now: int, delta: real,
                            later: int, delta': real)
    requires now != 0
    requires TickAsset(a, stamp, now, delta).promoted
    ensures var b := TickAsset(a, stamp, now, delta).asset;
      && b.status == Ready && a.status != Ready
      && (later - now < ReadyHoldDuration ==>
            TickAsset(b, Some(now), later, delta').asset.percentage == TopTier)
      && (later - now >= ReadyHoldDuration ==>
            TickAsset(b, Some(now), later, delta').asset.percentage == Clamp(b.percentage + delta'))
  {
  }
}
