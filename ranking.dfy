/**
 * The drop ranking (server/bot-controller.ts, lines 361-389): assets at
 * exactly 92 that are "ready" are sorted by drop percentage, largest first
 * and ties in array order, and receive ranks 1, 2, ... in that order.
 */
module Ranking {
  import opened Options
  import opened Assets
  import opened Sorting

  /** The filter of line 373. */
  predicate TopTierReady(a: MonitoredAsset) {
    a.percentage == TopTier && a.status == Ready
  }

  /** `priceDropPercentage ?? 0`, the sort key of line 377. */
  function DropKey(a: MonitoredAsset): real {
    a.priceDropPercentage.GetOr(0.0)
  }

  /** Lines 366-368: an undefined drop takes the fallback (a random value in the source). */
  function FillDrop(a: MonitoredAsset, fallback: real): MonitoredAsset {
    if a.priceDropPercentage.None? then a.(priceDropPercentage := Some(fallback)) else a
  }

  function FillDrops(assets: seq<MonitoredAsset>, fallbacks: seq<real>): (r: seq<MonitoredAsset>)
    requires |fallbacks| == |assets|
    ensures |r| == |assets|
    ensures forall i :: 0 <= i < |assets| ==> TopTierReady(r[i]) == TopTierReady(assets[i])
  {
    seq(|assets|, i requires 0 <= i < |assets| => FillDrop(assets[i], fallbacks[i]))
  }

  /** The positions of the assets the ranking selects, in array order. */
  function ReadyIndices(assets: seq<MonitoredAsset>): (r: seq<nat>)
    ensures forall k :: 0 <= k < |r| ==> r[k] < |assets| && TopTierReady(assets[r[k]])
    ensures forall i :: 0 <= i < |assets| && TopTierReady(assets[i]) ==> i in r
    ensures forall j, k :: 0 <= j < k < |r| ==> r[j] < r[k]
  {
    if assets == [] then []
    else
      var init := ReadyIndices(assets[..|assets| - 1]);
      if TopTierReady(assets[|assets| - 1]) then init + [|assets| - 1] else init
  }

  /** The filter of lines 372-374, as positions into the asset list. */
  method SelectReady(assets: seq<MonitoredAsset>) returns (ready: seq<nat>)
    ensures ready == ReadyIndices(assets)
  {
    ready := [];
    var i := 0;
    while i < |assets|
      invariant 0 <= i <= |assets|
      invariant ready == ReadyIndices(assets[..i])
    {
      assert assets[..i + 1][..i] == assets[..i];
      if assets[i].percentage == TopTier && assets[i].status == Ready {
        ready := ready + [i];
      }
      i := i + 1;
    }
    assert assets[..i] == assets;
  }

  /** The sort key of the asset at a position. */
  function KeyOf(assets: seq<MonitoredAsset>): nat -> real {
    (i: nat) => if i < |assets| then DropKey(assets[i]) else 0.0
  }

  /** `readyAssets` after its sort: positions, best rank first. */
  function RankOrder(assets: seq<MonitoredAsset>): seq<nat> {
    SortDesc(ReadyIndices(assets), KeyOf(assets))
  }

  /** The `forEach` of lines 380-382 after its first `k` steps. */
  function AssignRanks(assets: seq<MonitoredAsset>, order: seq<nat>, k: nat): (r: seq<MonitoredAsset>)
    requires k <= |order|
    requires forall p :: 0 <= p < |order| ==> order[p] < |assets|
    ensures |r| == |assets|
    decreases k
  {
    if k == 0 then assets
    else
      var prev := AssignRanks(assets, order, k - 1);
      prev[order[k - 1] := prev[order[k - 1]].(rank := Some(k))]
  }

  /** The asset list after `updateAsset92PercentRanking`. */
  function Ranked(assets: seq<MonitoredAsset>, fallbacks: seq<real>): (r: seq<MonitoredAsset>)
    requires |fallbacks| == |assets|
    ensures |r| == |assets|
  {
    var filled := FillDrops(assets, fallbacks);
    RankOrderMembers(filled);
    var order := RankOrder(filled);
    AssignRanks(filled, order, |order|)
  }

  ghost predicate Distinct(s: seq<nat>) {
    forall p, q :: 0 <= p < q < |s| ==> s[p] != s[q]
  }

  ghost predicate Increasing(s: seq<nat>) {
    forall j, k :: 0 <= j < k < |s| ==> s[j] < s[k]
  }

  lemma {:induction false} WithKeyIncreasing(s: seq<nat>, key: nat -> real, v: real)
    requires Increasing(s)
    ensures Increasing(WithKey(s, key, v))
  {
    if s != [] {
      var tail := WithKey(s[1..], key, v);
      WithKeyIncreasing(s[1..], key, v);
      WithKeyElements(s[1..], key, v);
      if key(s[0]) == v {
        var w := [s[0]] + tail;
        assert WithKey(s, key, v) == w;
        forall j, k | 0 <= j < k < |w| ensures w[j] < w[k] {
          if j == 0 {
            assert w[k] == tail[k - 1] && tail[k - 1] in s[1..];
          } else {
            assert w[j] == tail[j - 1] && w[k] == tail[k - 1];
          }
        }
      } else {
        assert WithKey(s, key, v) == tail;
      }
    }
  }

  /** The sorted order holds exactly the selected positions. */
  lemma RankOrderMembers(assets: seq<MonitoredAsset>)
    ensures var order := RankOrder(assets);
      && |order| == |ReadyIndices(assets)|
      && (forall p :: 0 <= p < |order| ==> order[p] < |assets| && TopTierReady(assets[order[p]]))
      && (forall i :: 0 <= i < |assets| && TopTierReady(assets[i]) ==> i in order)
  {
    var idx := ReadyIndices(assets);
    var order := RankOrder(assets);
    assert multiset(order) == multiset(idx);
    forall p | 0 <= p < |order|
      ensures order[p] < |assets| && TopTierReady(assets[order[p]])
    {
      assert order[p] in multiset(order);
      assert order[p] in idx;
    }
    forall i | 0 <= i < |assets| && TopTierReady(assets[i])
      ensures i in order
    {
      assert i in multiset(idx);
    }
  }

  /** Equal drops keep their array order (the sort is stable). */
  lemma RankOrderStable(assets: seq<MonitoredAsset>, p: nat, q: nat)
    requires p < q < |RankOrder(assets)|
    requires KeyOf(assets)(RankOrder(assets)[p]) == KeyOf(assets)(RankOrder(assets)[q])
    ensures RankOrder(assets)[p] < RankOrder(assets)[q]
  {
    var idx, key := ReadyIndices(assets), KeyOf(assets);
    var order := RankOrder(assets);
    var v := key(order[p]);
    WithKeyPositions(order, key, p, q);
    var p', q' :| 0 <= p' < q' < |WithKey(order, key, v)|
      && WithKey(order, key, v)[p'] == order[p] && WithKey(order, key, v)[q'] == order[q];
    SortStable(idx, key, v);
    WithKeyIncreasing(idx, key, v);
  }

  /** No position appears twice in the sorted order. */
  lemma RankOrderDistinct(assets: seq<MonitoredAsset>)
    ensures Distinct(RankOrder(assets))
  {
    var order := RankOrder(assets);
    forall p, q | 0 <= p < q < |order| ensures order[p] != order[q] {
      if order[p] == order[q] {
        RankOrderStable(assets, p, q);
      }
    }
  }

  /** After the `forEach`, the asset at sorted position `p` carries rank `p + 1`; the rest is untouched. */
  lemma {:induction false} AssignRanksAt(assets: seq<MonitoredAsset>, order: seq<nat>, k: nat)
    requires k <= |order|
    requires forall p :: 0 <= p < |order| ==> order[p] < |assets|
    requires Distinct(order)
    ensures forall p :: 0 <= p < k ==>
      AssignRanks(assets, order, k)[order[p]] == assets[order[p]].(rank := Some(p + 1))
    ensures forall i :: 0 <= i < |assets| && i !in order[..k] ==>
      AssignRanks(assets, order, k)[i] == assets[i]
  {
    if k > 0 {
      AssignRanksAt(assets, order, k - 1);
      var prev := AssignRanks(assets, order, k - 1);
      assert order[k - 1] !in order[..k - 1];
      forall i | 0 <= i < |assets| && i !in order[..k]
        ensures AssignRanks(assets, order, k)[i] == assets[i]
      {
        assert i !in order[..k - 1];
      }
    }
  }

  /** The number of assets the ranking selects. */
  function ReadyCount(assets: seq<MonitoredAsset>): nat {
    |ReadyIndices(assets)|
  }

  lemma {:induction false} ReadyIndicesAgree(a: seq<MonitoredAsset>, b: seq<MonitoredAsset>)
    requires |a| == |b|
    requires forall i :: 0 <= i < |a| ==> (TopTierReady(a[i]) <==> TopTierReady(b[i]))
    ensures ReadyIndices(a) == ReadyIndices(b)
  {
    if a != [] {
      ReadyIndicesAgree(a[..|a| - 1], b[..|b| - 1]);
    }
  }

  /** The asset at sorted position `p` ends with rank `p + 1` and its drop filled in. */
  lemma RankedSelected(assets: seq<MonitoredAsset>, fallbacks: seq<real>)
    requires |fallbacks| == |assets|
    ensures var filled := FillDrops(assets, fallbacks);
      var order, r := RankOrder(filled), Ranked(assets, fallbacks);
      forall p :: 0 <= p < |order| ==>
        order[p] < |assets| && r[order[p]] == FillDrop(assets[order[p]], fallbacks[order[p]]).(rank := Some(p + 1))
  {
    var filled := FillDrops(assets, fallbacks);
    RankOrderMembers(filled);
    RankOrderDistinct(filled);
    var order := RankOrder(filled);
    AssignRanksAt(filled, order, |order|);
  }

  /** An asset outside the selected subset only has its drop filled in; a rank it had is kept. */
  lemma RankedUnselected(assets: seq<MonitoredAsset>, fallbacks: seq<real>)
    requires |fallbacks| == |assets|
    ensures var r := Ranked(assets, fallbacks);
      forall i :: 0 <= i < |assets| && !TopTierReady(assets[i]) ==> r[i] == FillDrop(assets[i], fallbacks[i])
  {
    var filled := FillDrops(assets, fallbacks);
    RankOrderMembers(filled);
    RankOrderDistinct(filled);
    var order := RankOrder(filled);
    AssignRanksAt(filled, order, |order|);
    assert order[..|order|] == order;
    forall i, p | 0 <= i < |assets| && !TopTierReady(assets[i]) && 0 <= p < |order|
      ensures order[p] != i
    {
      assert TopTierReady(filled[order[p]]);
    }
  }

  /**
   * Ranking fills every undefined drop with its fallback, keeps every other
   * field except the rank, and writes no rank outside the selected subset.
   */
  lemma RankingFrame(assets: seq<MonitoredAsset>, fallbacks: seq<real>)
    requires |fallbacks| == |assets|
    ensures var r := Ranked(assets, fallbacks);
      && |r| == |assets|
      && (forall i :: 0 <= i < |assets| ==>
            && r[i] == assets[i].(priceDropPercentage := r[i].priceDropPercentage, rank := r[i].rank)
            && r[i].priceDropPercentage == Some(assets[i].priceDropPercentage.GetOr(fallbacks[i])))
      && (forall i :: 0 <= i < |assets| && !TopTierReady(assets[i]) ==> r[i].rank == assets[i].rank)
  {
    RankedSelected(assets, fallbacks);
    RankedUnselected(assets, fallbacks);
    var r, filled := Ranked(assets, fallbacks), FillDrops(assets, fallbacks);
    RankOrderMembers(filled);
    var order := RankOrder(filled);
    forall i | 0 <= i < |assets|
      ensures r[i] == assets[i].(priceDropPercentage := r[i].priceDropPercentage, rank := r[i].rank)
      ensures r[i].priceDropPercentage == Some(assets[i].priceDropPercentage.GetOr(fallbacks[i]))
    {
      if TopTierReady(assets[i]) {
        var p :| 0 <= p < |order| && order[p] == i;
      }
    }
  }

  /** Where a selected asset sits in the sorted order, and what that gives it. */
  lemma RankedPosition(assets: seq<MonitoredAsset>, fallbacks: seq<real>, i: nat) returns (p: nat)
    requires |fallbacks| == |assets|
    requires i < |assets| && TopTierReady(assets[i])
    ensures var filled := FillDrops(assets, fallbacks);
      && p < |RankOrder(filled)| && RankOrder(filled)[p] == i
      && Ranked(assets, fallbacks)[i].rank == Some(p + 1)
      && DropKey(Ranked(assets, fallbacks)[i]) == KeyOf(filled)(i)
  {
    var filled := FillDrops(assets, fallbacks);
    RankedSelected(assets, fallbacks);
    RankOrderMembers(filled);
    var order := RankOrder(filled);
    p :| 0 <= p < |order| && order[p] == i;
  }

  /** Every selected asset carries a rank in 1..K, K being their number, and no two share one. */
  lemma RanksUnique(assets: seq<MonitoredAsset>, fallbacks: seq<real>)
    requires |fallbacks| == |assets|
    ensures var r, n := Ranked(assets, fallbacks), ReadyCount(assets);
      && (forall i :: 0 <= i < |assets| && TopTierReady(assets[i]) ==>
            r[i].rank.Some? && 1 <= r[i].rank.value <= n)
      && (forall i, j :: (0 <= i < |assets| && 0 <= j < |assets| && i != j
            && TopTierReady(assets[i]) && TopTierReady(assets[j])) ==> r[i].rank != r[j].rank)
  {
    var r, filled := Ranked(assets, fallbacks), FillDrops(assets, fallbacks);
    ReadyIndicesAgree(assets, filled);
    RankOrderMembers(filled);
    forall i | 0 <= i < |assets| && TopTierReady(assets[i])
      ensures r[i].rank.Some? && 1 <= r[i].rank.value <= ReadyCount(assets)
    {
      var p := RankedPosition(assets, fallbacks, i);
    }
    forall i, j | 0 <= i < |assets| && 0 <= j < |assets| && i != j
        && TopTierReady(assets[i]) && TopTierReady(assets[j])
      ensures r[i].rank != r[j].rank
    {
      var p := RankedPosition(assets, fallbacks, i);
      var q := RankedPosition(assets, fallbacks, j);
    }
  }

  /** Every rank 1..K is held by some selected asset: the ranks have no gaps. */
  lemma RanksDense(assets: seq<MonitoredAsset>, fallbacks: seq<real>)
    requires |fallbacks| == |assets|
    ensures var r := Ranked(assets, fallbacks);
      forall k :: 1 <= k <= ReadyCount(assets) ==>
        exists i :: 0 <= i < |assets| && TopTierReady(assets[i]) && r[i].rank == Some(k)
  {
    var r, filled := Ranked(assets, fallbacks), FillDrops(assets, fallbacks);
    var order := RankOrder(filled);
    ReadyIndicesAgree(assets, filled);
    RankOrderMembers(filled);
    RankedSelected(assets, fallbacks);
    forall k | 1 <= k <= ReadyCount(assets)
      ensures exists i :: 0 <= i < |assets| && TopTierReady(assets[i]) && r[i].rank == Some(k)
    {
      var i := order[k - 1];
      assert TopTierReady(filled[i]);
      assert TopTierReady(assets[i]) && r[i].rank == Some(k);
    }
  }

  /**
   * A better (smaller) rank never goes with a smaller drop, and between
   * equal drops the better rank goes to the asset earlier in the array.
   */
  lemma RanksOrdered(assets: seq<MonitoredAsset>, fallbacks: seq<real>)
    requires |fallbacks| == |assets|
    ensures var r := Ranked(assets, fallbacks);
      forall i, j :: (0 <= i < |assets| && 0 <= j < |assets|
        && TopTierReady(assets[i]) && TopTierReady(assets[j])
        && r[i].rank.Some? && r[j].rank.Some? && r[i].rank.value < r[j].rank.value) ==>
          && DropKey(r[i]) >= DropKey(r[j])
          && (DropKey(r[i]) == DropKey(r[j]) ==> i < j)
  {
    var r, filled := Ranked(assets, fallbacks), FillDrops(assets, fallbacks);
    forall i, j | 0 <= i < |assets| && 0 <= j < |assets|
        && TopTierReady(assets[i]) && TopTierReady(assets[j])
        && r[i].rank.Some? && r[j].rank.Some? && r[i].rank.value < r[j].rank.value
      ensures DropKey(r[i]) >= DropKey(r[j])
      ensures DropKey(r[i]) == DropKey(r[j]) ==> i < j
    {
      var p := RankedPosition(assets, fallbacks, i);
      var q := RankedPosition(assets, fallbacks, j);
      assert p < q;
      if DropKey(r[i]) == DropKey(r[j]) {
        RankOrderStable(filled, p, q);
      }
    }
  }
}
