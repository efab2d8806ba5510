/**
 * The stable sort that `Array.prototype.sort` performs (ECMAScript 2019 and
 * later) with a comparator `(a, b) => key(b) - key(a)`: largest key first,
 * elements with equal keys in their original order.  Modelled as an
 * insertion sort on sequences, with its three defining properties proved:
 * the result is a permutation of the input, it is ordered by descending key,
 * and for every key value the elements carrying it keep their relative order.
 */
module Sorting {

  /** Every key is at least as large as every key that follows it. */
  ghost predicate SortedDesc<T>(s: seq<T>, key: T -> real) {
    forall i, j :: 0 <= i < j < |s| ==> key(s[i]) >= key(s[j])
  }

  /** The elements of `s` whose key is `v`, in their order in `s`. */
  function WithKey<T>(s: seq<T>, key: T -> real, v: real): (r: seq<T>)
    ensures |r| <= |s|
  {
    if s == [] then []
    else (if key(s[0]) == v then [s[0]] else []) + WithKey(s[1..], key, v)
  }

  /** Places `x` after every element whose key is at least `key(x)`. */
  function Insert<T>(x: T, s: seq<T>, key: T -> real): (r: seq<T>)
    ensures |r| == |s| + 1
    ensures multiset(r) == multiset(s) + multiset{x}
  {
    if s == [] then [x]
    else if key(s[0]) >= key(x) then
      assert s == [s[0]] + s[1..];
      [s[0]] + Insert(x, s[1..], key)
    else [x] + s
  }

  /** An upper bound on all keys of `s` and on `key(x)` bounds every key after insertion. */
  lemma {:induction false} InsertBounded<T>(x: T, s: seq<T>, key: T -> real, b: real)
    requires key(x) <= b
    requires forall i :: 0 <= i < |s| ==> key(s[i]) <= b
    ensures forall i :: 0 <= i < |Insert(x, s, key)| ==> key(Insert(x, s, key)[i]) <= b
  {
    if s != [] && key(s[0]) >= key(x) {
      InsertBounded(x, s[1..], key, b);
      assert Insert(x, s, key) == [s[0]] + Insert(x, s[1..], key);
    }
  }

  /** Stable sort by descending key. */
  function SortDesc<T>(s: seq<T>, key: T -> real): (r: seq<T>)
    ensures multiset(r) == multiset(s)
    ensures |r| == |s|
    ensures SortedDesc(r, key)
  {
    if s == [] then []
    else
      var init := SortDesc(s[..|s| - 1], key);
      assert s == s[..|s| - 1] + [s[|s| - 1]];
      InsertSorted(s[|s| - 1], init, key);
      Insert(s[|s| - 1], init, key)
  }

  lemma {:induction false} InsertSorted<T>(x: T, s: seq<T>, key: T -> real)
    requires SortedDesc(s, key)
    ensures SortedDesc(Insert(x, s, key), key)
  {
    if s == [] {
      assert Insert(x, s, key) == [x];
    } else if key(s[0]) >= key(x) {
      var rest := Insert(x, s[1..], key);
      SortedTail(s, key);
      InsertSorted(x, s[1..], key);
      InsertBounded(x, s[1..], key, key(s[0]));
      SortedCons(s[0], rest, key);
      assert Insert(x, s, key) == [s[0]] + rest;
    } else {
      SortedCons(x, s, key);
    }
  }

  lemma SortedTail<T>(s: seq<T>, key: T -> real)
    requires SortedDesc(s, key) && s != []
    ensures SortedDesc(s[1..], key)
    ensures forall i :: 0 <= i < |s[1..]| ==> key(s[1..][i]) <= key(s[0])
  {
    forall i, j | 0 <= i < j < |s[1..]| ensures key(s[1..][i]) >= key(s[1..][j]) {
      assert s[1..][i] == s[i + 1] && s[1..][j] == s[j + 1];
    }
    forall i | 0 <= i < |s[1..]| ensures key(s[1..][i]) <= key(s[0]) {
      assert s[1..][i] == s[i + 1];
    }
  }

  lemma SortedCons<T>(h: T, t: seq<T>, key: T -> real)
    requires SortedDesc(t, key)
    requires forall i :: 0 <= i < |t| ==> key(t[i]) <= key(h)
    ensures SortedDesc([h] + t, key)
  {
    var r := [h] + t;
    forall i, j | 0 <= i < j < |r| ensures key(r[i]) >= key(r[j]) {
      assert r[j] == t[j - 1];
      if i > 0 {
        assert r[i] == t[i - 1];
      }
    }
  }

  /**
   * In a descending sequence cut at `b`, an element that occurs more often in
   * the whole than in the front part has a key no larger than any key in the
   * front part.
   */
  lemma SortedPrefixDominates<T>(s: seq<T>, key: T -> real, b: nat)
    requires SortedDesc(s, key) && b <= |s|
    ensures forall t, u :: multiset(s[..b])[t] < multiset(s)[t] && u in s[..b] ==> key(t) <= key(u)
  {
    var front, rest := s[..b], s[b..];
    assert s == front + rest;
    assert multiset(s) == multiset(front) + multiset(rest);
    forall t, u | multiset(front)[t] < multiset(s)[t] && u in front
      ensures key(t) <= key(u)
    {
      assert t in multiset(rest);
      var j :| 0 <= j < |rest| && rest[j] == t;
      var i :| 0 <= i < |front| && front[i] == u;
      assert s[i] == u && s[b + j] == t;
    }
  }

  lemma {:induction false} WithKeyConcat<T>(a: seq<T>, b: seq<T>, key: T -> real, v: real)
    ensures WithKey(a + b, key, v) == WithKey(a, key, v) + WithKey(b, key, v)
  {
    if a != [] {
      assert (a + b)[1..] == a[1..] + b;
      WithKeyConcat(a[1..], b, key, v);
    } else {
      assert a + b == b;
    }
  }

  lemma {:induction false} WithKeyNone<T>(s: seq<T>, key: T -> real, v: real)
    requires forall i :: 0 <= i < |s| ==> key(s[i]) != v
    ensures WithKey(s, key, v) == []
  {
    if s != [] {
      WithKeyNone(s[1..], key, v);
    }
  }

  /** Inserting `x` adds it behind every element that shares its key. */
  lemma {:induction false} InsertStable<T>(x: T, s: seq<T>, key: T -> real, v: real)
    requires SortedDesc(s, key)
    ensures WithKey(Insert(x, s, key), key, v)
         == WithKey(s, key, v) + (if key(x) == v then [x] else [])
  {
    if s == [] {
      assert Insert(x, s, key) == [x];
      assert WithKey([x], key, v) == (if key(x) == v then [x] else []) + WithKey([], key, v);
    } else if key(s[0]) >= key(x) {
      SortedTail(s, key);
      InsertStable(x, s[1..], key, v);
      InsertStablePassing(x, s, key, v);
    } else {
      InsertStableFront(x, s, key, v);
    }
  }

  /** `x` goes past the first element: the step from the rest of `s` to `s`. */
  lemma InsertStablePassing<T>(x: T, s: seq<T>, key: T -> real, v: real)
    requires s != [] && key(s[0]) >= key(x)
    requires WithKey(Insert(x, s[1..], key), key, v)
          == WithKey(s[1..], key, v) + (if key(x) == v then [x] else [])
    ensures WithKey(Insert(x, s, key), key, v)
         == WithKey(s, key, v) + (if key(x) == v then [x] else [])
  {
    var tailX := if key(x) == v then [x] else [];
    var head := if key(s[0]) == v then [s[0]] else [];
    var rest := Insert(x, s[1..], key);
    var tail := WithKey(s[1..], key, v);
    assert Insert(x, s, key) == [s[0]] + rest;
    WithKeyCons(s[0], rest, key, v);
    assert WithKey(s, key, v) == head + tail;
    ConcatAssoc(head, tail, tailX);
  }

  lemma ConcatAssoc<T>(a: seq<T>, b: seq<T>, c: seq<T>)
    ensures a + (b + c) == (a + b) + c
  {
  }

  lemma WithKeyCons<T>(a: T, t: seq<T>, key: T -> real, v: real)
    ensures WithKey([a] + t, key, v) == (if key(a) == v then [a] else []) + WithKey(t, key, v)
  {
    assert ([a] + t)[1..] == t;
  }

  /** `x` goes in front: no element of `s` shares its key. */
  lemma {:induction false} InsertStableFront<T>(x: T, s: seq<T>, key: T -> real, v: real)
    requires SortedDesc(s, key) && s != [] && key(s[0]) < key(x)
    ensures WithKey(Insert(x, s, key), key, v)
         == WithKey(s, key, v) + (if key(x) == v then [x] else [])
  {
    var tailX := if key(x) == v then [x] else [];
    var r := [x] + s;
    assert r == Insert(x, s, key);
    assert r[0] == x && r[1..] == s;
    assert WithKey(r, key, v) == tailX + WithKey(s, key, v);
    if key(x) == v {
      WithKeyNone(s, key, v);
    }
  }

  /** Stability: for every key value, the sort keeps the elements carrying it in input order. */
  lemma {:induction false} SortStable<T>(s: seq<T>, key: T -> real, v: real)
    ensures WithKey(SortDesc(s, key), key, v) == WithKey(s, key, v)
  {
    if s != [] {
      var init, x := s[..|s| - 1], s[|s| - 1];
      var tailX := if key(x) == v then [x] else [];
      assert WithKey(SortDesc(s, key), key, v) == WithKey(init, key, v) + tailX by {
        var sortedInit := SortDesc(init, key);
        assert SortDesc(s, key) == Insert(x, sortedInit, key);
        SortStable(init, key, v);
        InsertStable(x, sortedInit, key, v);
      }
      assert WithKey(s, key, v) == WithKey(init, key, v) + tailX by {
        assert s == init + [x];
        WithKeyConcat(init, [x], key, v);
        assert WithKey([x], key, v) == tailX + WithKey([], key, v);
      }
    }
  }

  lemma {:induction false} WithKeyElements<T>(s: seq<T>, key: T -> real, v: real)
    ensures forall k :: 0 <= k < |WithKey(s, key, v)| ==>
      WithKey(s, key, v)[k] in s && key(WithKey(s, key, v)[k]) == v
  {
    if s != [] {
      WithKeyElements(s[1..], key, v);
    }
  }

  /**
   * Two positions of `s` with the same key reappear, in the same order, in
   * the subsequence of elements with that key.
   */
  lemma {:induction false} WithKeyPositions<T>(s: seq<T>, key: T -> real, p: nat, q: nat)
    requires p < q < |s| && key(s[p]) == key(s[q])
    ensures exists p', q' ::
              && 0 <= p' < q' < |WithKey(s, key, key(s[p]))|
              && WithKey(s, key, key(s[p]))[p'] == s[p]
              && WithKey(s, key, key(s[p]))[q'] == s[q]
  {
    var v := key(s[p]);
    var w := WithKey(s, key, v);
    var tail := WithKey(s[1..], key, v);
    if p == 0 {
      var q0 := FindInWithKey(s[1..], key, v, q - 1);
      assert w == [s[0]] + tail;
      assert w[0] == s[p] && w[q0 + 1] == s[q];
    } else {
      WithKeyPositions(s[1..], key, p - 1, q - 1);
      var p', q' :| 0 <= p' < q' < |tail| && tail[p'] == s[p] && tail[q'] == s[q];
      if key(s[0]) == v {
        assert w == [s[0]] + tail;
        assert w[p' + 1] == s[p] && w[q' + 1] == s[q];
      } else {
        assert w == tail;
      }
    }
  }

  lemma {:induction false} FindInWithKey<T>(s: seq<T>, key: T -> real, v: real, q: nat) returns (k: nat)
    requires q < |s| && key(s[q]) == v
    ensures k < |WithKey(s, key, v)| && WithKey(s, key, v)[k] == s[q]
  {
    if q == 0 {
      k := 0;
    } else {
      var k' := FindInWithKey(s[1..], key, v, q - 1);
      k := if key(s[0]) == v then k' + 1 else k';
    }
  }
}
