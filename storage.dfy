/**
 * The in-memory store for users and trade records (server/storage.ts,
 * `MemStorage` with no database): two insertion-ordered maps keyed by fresh
 * ids, and the queries the engine's callers run over them.
 */
module Storage {
  import opened Options
  import opened Sorting

  /**
   * A field that may hold a string or a number. `Rendered(x)` is the string
   * `String(x)` produces for the number `x`. In JavaScript `Str("1")` and
   * `Rendered(1.0)` are the same string "1"; here they are different values,
   * so the model keeps apart strings that the source cannot tell apart. The
   * operations only pass such a field on, or test it with `Truthy`, which
   * gives both spellings of a string the same answer.
   */
  datatype Scalar = Str(s: string) | Num(x: real) | Rendered(x: real)

  /** JavaScript truthiness of a present value: "" and 0 are falsy. */
  predicate Truthy(v: Scalar) {
    match v
    case Str(s) => s != ""
    case Num(x) => x != 0.0
    case Rendered(_) => true
  }

  /** `typeof v === 'string' ? v : String(v)`. */
  function AsText(v: Scalar): (r: Scalar)
    ensures !r.Num?
    ensures v.Num? ==> r == Rendered(v.x)
    ensures !v.Num? ==> r == v
  {
    if v.Num? then Rendered(v.x) else v
  }

  datatype User = User(id: string, username: string, password: string)
  datatype InsertUser = InsertUser(username: string, password: string)

  /** A trade as the caller hands it in; `None` is an absent or null field. */
  datatype InsertTrade = InsertTrade(
    direction: string,
    amount: Scalar,
    asset: string,
    durationSeconds: int,
    entryPrice: Option<Scalar>,
    exitPrice: Option<Scalar>,
    result: Option<string>,
    sarSignal: Option<string>)

  /** A stored trade record; `occurredAt` is the creation time in milliseconds. */
  datatype Trade = Trade(
    id: string,
    occurredAt: int,
    direction: string,
    amount: Scalar,
    asset: string,
    durationSeconds: int,
    entryPrice: Option<Scalar>,
    exitPrice: Option<Scalar>,
    result: string,
    sarSignal: Option<string>)

  /**
   * A partial update: `None` leaves the field alone; for the nullable fields
   * `Some(None)` writes null.
   */
  datatype TradeUpdate = TradeUpdate(
    direction: Option<string>,
    amount: Option<Scalar>,
    asset: Option<string>,
    durationSeconds: Option<int>,
    entryPrice: Option<Option<Scalar>>,
    exitPrice: Option<Option<Scalar>>,
    result: Option<string>,
    sarSignal: Option<Option<string>>)

  const NoChange := TradeUpdate(None, None, None, None, None, None, None, None)

  const Pending := "pending"
  const Win := "win"
  const Loss := "loss"

  /** `v ? AsText(v) : null` for the two price fields. */
  function PriceField(v: Option<Scalar>): (r: Option<Scalar>)
    ensures r.Some? <==> v.Some? && Truthy(v.value)
    ensures r.Some? ==> r.value == AsText(v.value)
  {
    if v.Some? && Truthy(v.value) then Some(AsText(v.value)) else None
  }

  /** The record `createTrade` builds (lines 66-78). */
  function NewTrade(t: InsertTrade, id: string, now: int): (r: Trade)
    ensures r.id == id && r.occurredAt == now
    ensures r.direction == t.direction && r.asset == t.asset && r.durationSeconds == t.durationSeconds
    ensures r.amount == AsText(t.amount)
    ensures r.entryPrice == PriceField(t.entryPrice) && r.exitPrice == PriceField(t.exitPrice)
    ensures r.result != ""
    ensures t.result.Some? && t.result.value != "" ==> r.result == t.result.value
    ensures t.result.None? || t.result.value == "" ==> r.result == Pending
    ensures r.sarSignal.Some? <==> t.sarSignal.Some? && t.sarSignal.value != ""
    ensures r.sarSignal.Some? ==> r.sarSignal == t.sarSignal
  {
    Trade(
      id, now, t.direction, AsText(t.amount), t.asset, t.durationSeconds,
      PriceField(t.entryPrice), PriceField(t.exitPrice),
      if t.result.Some? && t.result.value != "" then t.result.value else Pending,
      if t.sarSignal.Some? && t.sarSignal.value != "" then t.sarSignal else None)
  }

  /** `{...trade, ...updates}` (line 103). */
  function Merge(t: Trade, u: TradeUpdate): (r: Trade)
    ensures r.id == t.id && r.occurredAt == t.occurredAt
  {
    Trade(
      t.id, t.occurredAt,
      u.direction.GetOr(t.direction),
      u.amount.GetOr(t.amount),
      u.asset.GetOr(t.asset),
      u.durationSeconds.GetOr(t.durationSeconds),
      u.entryPrice.GetOr(t.entryPrice),
      u.exitPrice.GetOr(t.exitPrice),
      u.result.GetOr(t.result),
      u.sarSignal.GetOr(t.sarSignal))
  }

  /**
   * A field named in the update takes the update's value, every other field
   * keeps the record's value.
   */
  lemma MergeFields(t: Trade, u: TradeUpdate)
    ensures var r := Merge(t, u);
      && (u.direction.Some? ==> r.direction == u.direction.value)
      && (u.direction.None? ==> r.direction == t.direction)
      && (u.amount.Some? ==> r.amount == u.amount.value)
      && (u.amount.None? ==> r.amount == t.amount)
      && (u.asset.Some? ==> r.asset == u.asset.value)
      && (u.asset.None? ==> r.asset == t.asset)
      && (u.durationSeconds.Some? ==> r.durationSeconds == u.durationSeconds.value)
      && (u.durationSeconds.None? ==> r.durationSeconds == t.durationSeconds)
      && (u.entryPrice.Some? ==> r.entryPrice == u.entryPrice.value)
      && (u.entryPrice.None? ==> r.entryPrice == t.entryPrice)
      && (u.exitPrice.Some? ==> r.exitPrice == u.exitPrice.value)
      && (u.exitPrice.None? ==> r.exitPrice == t.exitPrice)
      && (u.result.Some? ==> r.result == u.result.value)
      && (u.result.None? ==> r.result == t.result)
      && (u.sarSignal.Some? ==> r.sarSignal == u.sarSignal.value)
      && (u.sarSignal.None? ==> r.sarSignal == t.sarSignal)
  {
  }

  /** Applying the same update twice is applying it once; the empty update changes nothing. */
  lemma MergeIdempotent(t: Trade, u: TradeUpdate)
    ensures Merge(Merge(t, u), u) == Merge(t, u)
    ensures Merge(t, NoChange) == t
  {
  }

  /** The keys of `m` in insertion order, each once. */
  ghost predicate InsertionOrder<V>(ids: seq<string>, m: map<string, V>) {
    && (forall p, q :: 0 <= p < q < |ids| ==> ids[p] != ids[q])
    && (forall k :: k in m <==> k in ids)
  }

  /** `Array.from(m.values())`: the values in insertion order. */
  function ValuesInOrder<V>(ids: seq<string>, m: map<string, V>): (r: seq<V>)
    requires forall k :: k in ids ==> k in m
    ensures |r| == |ids|
    ensures forall p :: 0 <= p < |ids| ==> r[p] == m[ids[p]]
  {
    seq(|ids|, p requires 0 <= p < |ids| => m[ids[p]])
  }

  /** The number of ids is the number of stored entries. */
  lemma {:induction false} OrderCount<V>(ids: seq<string>, m: map<string, V>)
    requires InsertionOrder(ids, m)
    ensures |ids| == |m|
    decreases |ids|
  {
    if ids == [] {
      assert m.Keys == {};
    } else {
      var last := ids[|ids| - 1];
      var init := ids[..|ids| - 1];
      var m' := m - {last};
      assert last !in init;
      forall k ensures k in m' <==> k in init {
        if k in ids && k != last {
          var p :| 0 <= p < |ids| && ids[p] == k;
          assert p < |ids| - 1;
          assert init[p] == k;
        }
      }
      OrderCount(init, m');
      assert m.Keys == m'.Keys + {last};
    }
  }

  /** Appending a fresh key keeps the order and puts its value last. */
  lemma AppendInOrder<V>(ids: seq<string>, m: map<string, V>, id: string, v: V)
    requires InsertionOrder(ids, m) && id !in m
    ensures InsertionOrder(ids + [id], m[id := v])
    ensures ValuesInOrder(ids + [id], m[id := v]) == ValuesInOrder(ids, m) + [v]
  {
    var ids', m' := ids + [id], m[id := v];
    assert forall k :: k in ids' <==> k in ids || k == id;
    forall p, q | 0 <= p < q < |ids'| ensures ids'[p] != ids'[q] {
      if q == |ids| {
        assert ids'[p] == ids[p] && ids[p] in m;
      } else {
        assert ids'[p] == ids[p] && ids'[q] == ids[q];
      }
    }
    var a, b := ValuesInOrder(ids', m'), ValuesInOrder(ids, m) + [v];
    forall p | 0 <= p < |a| ensures a[p] == b[p] {
      if p < |ids| {
        assert ids'[p] == ids[p] && ids[p] in m && ids[p] != id;
      }
    }
  }

  /** `find` over the users in insertion order (lines 41-45). */
  function FindByUsername(users: seq<User>, username: string): (r: Option<User>)
    ensures r.Some? ==> r.value in users && r.value.username == username
    ensures r.None? <==> forall k :: 0 <= k < |users| ==> users[k].username != username
  {
    if users == [] then None
    else if users[0].username == username then Some(users[0])
    else FindByUsername(users[1..], username)
  }

  /** `find` returns the first match: no earlier user has the name. */
  lemma {:induction false} FindByUsernameFirst(users: seq<User>, username: string)
    requires FindByUsername(users, username).Some?
    ensures exists k ::
      && 0 <= k < |users|
      && users[k] == FindByUsername(users, username).value
      && forall j :: 0 <= j < k ==> users[j].username != username
  {
    if users[0].username != username {
      FindByUsernameFirst(users[1..], username);
      var k :| 0 <= k < |users[1..]| && users[1..][k] == FindByUsername(users, username).value
        && forall j :: 0 <= j < k ==> users[1..][j].username != username;
      assert users[k + 1] == users[1..][k];
      forall j | 0 <= j < k + 1 ensures users[j].username != username {
        if j > 0 {
          assert users[j] == users[1..][j - 1];
        }
      }
    } else {
      assert users[0] == FindByUsername(users, username).value;
    }
  }

  /**
   * After a user is appended, a lookup by its name finds a user with that
   * name, and finds the new user itself when the name was not taken.
   */
  lemma {:induction false} CreatedUserFound(users: seq<User>, u: User)
    ensures FindByUsername(users + [u], u.username).Some?
    ensures (forall k :: 0 <= k < |users| ==> users[k].username != u.username) ==>
      FindByUsername(users + [u], u.username) == Some(u)
  {
    if users != [] {
      assert (users + [u])[1..] == users[1..] + [u];
      CreatedUserFound(users[1..], u);
    }
  }

  /** `slice(0, end)`: a negative end counts from the back. */
  function SliceEnd(len: nat, end: int): (b: nat)
    ensures b <= len
    ensures end >= 0 ==> b == (if end < len then end else len)
    ensures end < 0 ==> b == (if len + end < 0 then 0 else len + end)
  {
    if end < 0 then (if len + end < 0 then 0 else len + end)
    else if end < len then end else len
  }

  function OccurredKey(t: Trade): real {
    t.occurredAt as real
  }

  /** Newest first (a stable sort), then the first `limit` (lines 148-150). */
  function RecentTrades(all: seq<Trade>, limit: int): (r: seq<Trade>)
    ensures |r| <= |all|
    ensures limit >= 0 ==> |r| == (if limit < |all| then limit else |all|)
    ensures SortedDesc(r, OccurredKey)
    ensures multiset(r) <= multiset(all)
  {
    var sorted := SortDesc(all, OccurredKey);
    var b := SliceEnd(|sorted|, limit);
    assert sorted == sorted[..b] + sorted[b..];
    sorted[..b]
  }

  /** No trade left out of the answer is newer than one in it. */
  lemma RecentTradesAreNewest(all: seq<Trade>, limit: int)
    ensures var r := RecentTrades(all, limit);
      forall t, u :: multiset(r)[t] < multiset(all)[t] && u in r ==> t.occurredAt <= u.occurredAt
  {
    var sorted := SortDesc(all, OccurredKey);
    SortedPrefixDominates(sorted, OccurredKey, SliceEnd(|sorted|, limit));
  }

  /**
   * Trades with the same timestamp come out in insertion order: those in
   * the answer are the first of them, and when the limit cuts nothing they
   * are all of them.
   */
  lemma RecentTradesStable(all: seq<Trade>, limit: int, at: int)
    ensures WithKey(RecentTrades(all, limit), OccurredKey, at as real) <= WithKey(all, OccurredKey, at as real)
    ensures limit >= |all| ==>
      WithKey(RecentTrades(all, limit), OccurredKey, at as real) == WithKey(all, OccurredKey, at as real)
  {
    var sorted := SortDesc(all, OccurredKey);
    var b := SliceEnd(|sorted|, limit);
    assert sorted == sorted[..b] + sorted[b..];
    WithKeyConcat(sorted[..b], sorted[b..], OccurredKey, at as real);
    SortStable(all, OccurredKey, at as real);
  }

  /** The number of trades whose result is `result`. */
  function Count(trades: seq<Trade>, result: string): (n: nat)
    ensures n <= |trades|
  {
    if trades == [] then 0
    else (if trades[0].result == result then 1 else 0) + Count(trades[1..], result)
  }

  lemma {:induction false} CountAppend(trades: seq<Trade>, t: Trade, result: string)
    ensures Count(trades + [t], result) == Count(trades, result) + (if t.result == result then 1 else 0)
  {
    if trades != [] {
      assert (trades + [t])[1..] == trades[1..] + [t];
      CountAppend(trades[1..], t, result);
    }
  }

  /** A trade cannot count as both a win and a loss. */
  lemma {:induction false} WinsAndLosses(trades: seq<Trade>)
    ensures Count(trades, Win) + Count(trades, Loss) <= |trades|
  {
    if trades != [] {
      WinsAndLosses(trades[1..]);
    }
  }

  datatype TradeStats = TradeStats(wins: nat, losses: nat, total: nat, winRate: real)

  /** `Math.round(x * 10) / 10`: rounding to one decimal, halves upward. */
  function RoundTenth(x: real): (r: real)
    ensures x - 0.05 < r <= x + 0.05
    ensures 0.0 <= x <= 100.0 ==> 0.0 <= r <= 100.0
  {
    var f := (x * 10.0 + 0.5).Floor;
    assert 0.0 <= x <= 100.0 ==> 0 <= f <= 1000 by {
      assert f as real <= x * 10.0 + 0.5 < f as real + 1.0;
    }
    f as real / 10.0
  }

  /** `total > 0 ? (wins / total) * 100 : 0`. */
  function WinRate(wins: nat, total: nat): (r: real)
    requires wins <= total
    ensures total == 0 ==> r == 0.0
    ensures total > 0 ==> r * total as real == wins as real * 100.0
    ensures 0.0 <= r <= 100.0
  {
    if total == 0 then 0.0
    else
      var q := wins as real / total as real;
      assert q * total as real == wins as real;
      assert q <= 1.0 by {
        assert (1.0 - q) * total as real == (total - wins) as real >= 0.0;
      }
      q * 100.0
  }

  /** The statistics over the stored trades (lines 178-189). */
  function Stats(trades: seq<Trade>): (s: TradeStats)
    ensures s.total == |trades| && s.wins == Count(trades, Win) && s.losses == Count(trades, Loss)
    ensures s.wins + s.losses <= s.total
    ensures s.total == 0 ==> s.winRate == 0.0
    ensures 0.0 <= s.winRate <= 100.0
  {
    WinsAndLosses(trades);
    var wins, losses, total := Count(trades, Win), Count(trades, Loss), |trades|;
    TradeStats(wins, losses, total, RoundTenth(WinRate(wins, total)))
  }

  /** The published win rate is within 0.05 of the exact percentage of wins. */
  lemma WinRateAccuracy(trades: seq<Trade>)
    requires |trades| > 0
    ensures var s := Stats(trades);
      var exact := WinRate(s.wins, s.total);
      && exact * s.total as real == s.wins as real * 100.0
      && exact - 0.05 < s.winRate <= exact + 0.05
  {
  }

  /** Storing one more trade adds one to the total and one to its result's count. */
  lemma StatsAppend(trades: seq<Trade>, t: Trade)
    ensures var s, s' := Stats(trades), Stats(trades + [t]);
      && s'.total == s.total + 1
      && s'.wins == s.wins + (if t.result == Win then 1 else 0)
      && s'.losses == s.losses + (if t.result == Loss then 1 else 0)
  {
    CountAppend(trades, t, Win);
    CountAppend(trades, t, Loss);
  }

  class MemStorage {
    var users: map<string, User>
    var userIds: seq<string>
    var trades: map<string, Trade>
    var tradeIds: seq<string>

    /** Both maps remember their insertion order, and every record sits under its own id. */
    ghost predicate Valid()
      reads this
    {
      && InsertionOrder(userIds, users) && InsertionOrder(tradeIds, trades)
      && (forall id :: id in users ==> users[id].id == id)
      && (forall id :: id in trades ==> trades[id].id == id)
    }

    constructor()
      ensures Valid()
      ensures users == map[] && userIds == [] && trades == map[] && tradeIds == []
    {
      users := map[];
      userIds := [];
      trades := map[];
      tradeIds := [];
    }

    function UsersInOrder(): seq<User>
      reads this
      requires Valid()
    {
      ValuesInOrder(userIds, users)
    }

    function TradesInOrder(): seq<Trade>
      reads this
      requires Valid()
    {
      ValuesInOrder(tradeIds, trades)
    }

    /** `createUser` (lines 47-52); `id` is the fresh UUID. */
    method CreateUser(insertUser: InsertUser, id: string) returns (user: User)
      requires Valid() && id !in users
      modifies this
      ensures Valid()
      ensures user == User(id, insertUser.username, insertUser.password)
      ensures users == old(users)[id := user] && userIds == old(userIds) + [id]
      ensures trades == old(trades) && tradeIds == old(tradeIds)
      ensures GetUserByUsername(insertUser.username).Some?
    {
      user := User(id, insertUser.username, insertUser.password);
      AppendInOrder(userIds, users, id, user);
      CreatedUserFound(UsersInOrder(), user);
      users := users[id := user];
      userIds := userIds + [id];
    }

    /** `getUserByUsername` (lines 41-45). */
    function GetUserByUsername(username: string): (r: Option<User>)
      reads this
      requires Valid()
      ensures r.Some? ==> r.value.username == username && r.value.id in users && users[r.value.id] == r.value
      ensures r.None? <==> forall id :: id in users ==> users[id].username != username
    {
      var all := UsersInOrder();
      var r := FindByUsername(all, username);
      assert r.None? <==> forall id :: id in users ==> users[id].username != username by {
        if r.None? {
          forall id | id in users ensures users[id].username != username {
            var p :| 0 <= p < |userIds| && userIds[p] == id;
            assert all[p] == users[id];
          }
        }
      }
      if r.Some? then
        var p :| 0 <= p < |all| && all[p] == r.value;
        assert users[userIds[p]] == r.value;
        r
      else r
    }

    /** `createTrade` without a database (lines 66-80); `id` is the fresh UUID, `now` the clock. */
    method CreateTrade(t: InsertTrade, id: string, now: int) returns (trade: Trade)
      requires Valid() && id !in trades
      modifies this
      ensures Valid()
      ensures trade == NewTrade(t, id, now)
      ensures trades == old(trades)[id := trade] && tradeIds == old(tradeIds) + [id]
      ensures users == old(users) && userIds == old(userIds)
      ensures GetTrade(id) == Some(trade)
    {
      trade := NewTrade(t, id, now);
      AppendInOrder(tradeIds, trades, id, trade);
      trades := trades[id := trade];
      tradeIds := tradeIds + [id];
    }

    /**
     * `updateTrade` without a database (lines 101-107): an unknown id
     * changes nothing; a known one is replaced by the merged record in its
     * old place in the order.
     */
    method UpdateTrade(id: string, updates: TradeUpdate) returns (r: Option<Trade>)
      requires Valid()
      modifies this
      ensures Valid()
      ensures users == old(users) && userIds == old(userIds) && tradeIds == old(tradeIds)
      ensures id !in old(trades) ==> r == None && trades == old(trades)
      ensures id in old(trades) ==>
        && r == Some(Merge(old(trades)[id], updates))
        && trades == old(trades)[id := r.value]
    {
      if id in trades {
        var updated := Merge(trades[id], updates);
        trades := trades[id := updated];
        return Some(updated);
      }
      return None;
    }

    /** `getTrade` without a database (line 127). */
    function GetTrade(id: string): (r: Option<Trade>)
      reads this
      ensures r.Some? <==> id in trades
      ensures r.Some? ==> r.value == trades[id]
    {
      if id in trades then Some(trades[id]) else None
    }

    /** `getRecentTrades` without a database (lines 130-151); no limit means 50. */
    function GetRecentTrades(limit: Option<int>): (r: seq<Trade>)
      reads this
      requires Valid()
      ensures |r| <= |trades|
      ensures limit.GetOr(50) >= 0 ==> |r| == (if limit.GetOr(50) < |trades| then limit.GetOr(50) else |trades|)
      ensures SortedDesc(r, OccurredKey)
      ensures multiset(r) <= multiset(TradesInOrder())
      ensures forall t, u :: multiset(r)[t] < multiset(TradesInOrder())[t] && u in r ==> t.occurredAt <= u.occurredAt
      ensures forall k :: 0 <= k < |r| ==> r[k].id in trades && trades[r[k].id] == r[k]
    {
      OrderCount(tradeIds, trades);
      RecentTradesAreNewest(TradesInOrder(), limit.GetOr(50));
      var r := RecentTrades(TradesInOrder(), limit.GetOr(50));
      forall k | 0 <= k < |r| ensures r[k].id in trades && trades[r[k].id] == r[k] {
        StoredTrade(r[k]);
      }
      r
    }

    /** Every trade of `TradesInOrder()` is the record stored under its id. */
    lemma StoredTrade(t: Trade)
      requires Valid() && t in multiset(TradesInOrder())
      ensures t.id in trades && trades[t.id] == t
    {
      var all := TradesInOrder();
      var p :| 0 <= p < |all| && all[p] == t;
      assert tradeIds[p] in trades;
    }

    /** `getTradeStats` without a database (lines 178-189). */
    function GetTradeStats(): (s: TradeStats)
      reads this
      requires Valid()
      ensures s.total == |trades|
      ensures s.wins == Count(TradesInOrder(), Win) && s.losses == Count(TradesInOrder(), Loss)
      ensures s.wins + s.losses <= s.total
      ensures s.total == 0 ==> s.winRate == 0.0
      ensures 0.0 <= s.winRate <= 100.0
    {
      OrderCount(tradeIds, trades);
      Stats(TradesInOrder())
    }
  }
}
