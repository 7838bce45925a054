/** The rolling sample window and its nearest-rank percentiles (crates/oxproto/src/latency.rs). */
module Samples {
  import opened Prelude

  /** The last `n` elements, or all of them. */
  function LastN<T>(s: seq<T>, n: nat): seq<T> {
    if |s| <= n then s else s[|s| - n..]
  }

  /** Whatever is kept along the way, only the last `n` are left. */
  lemma {:induction false} LastNAgain<T>(a: seq<T>, b: seq<T>, n: nat)
    ensures LastN(LastN(a, n) + b, n) == LastN(a + b, n)
  {
  }

  lemma {:induction false} LastNSnoc(s: seq<u64>, n: nat, v: u64)
    requires n >= 1
    ensures LastN(LastN(s, n) + [v], n) == LastN(s + [v], n)
  {
  }

  lemma {:induction false} LastNNext(s: seq<u64>, i: nat, n: nat)
    requires i < |s| && n >= 1
    ensures LastN(LastN(s[..i], n) + [s[i]], n) == LastN(s[..i + 1], n)
  {
    LastNSnoc(s[..i], n, s[i]);
    assert s[..i + 1] == s[..i] + [s[i]];
  }

  // ---------------------------------------------------------------- order statistics

  function Insert(x: u64, s: seq<u64>): seq<u64> {
    if s == [] || x <= s[0] then [x] + s else [s[0]] + Insert(x, s[1..])
  }

  function Sort(s: seq<u64>): seq<u64> {
    if s == [] then [] else Insert(s[0], Sort(s[1..]))
  }

  ghost predicate Sorted(s: seq<u64>) {
    forall i, j :: 0 <= i < j < |s| ==> s[i] <= s[j]
  }

  /** How many samples are at most `v`. */
  function CountLe(s: seq<u64>, v: u64): nat {
    if s == [] then 0 else (if s[0] <= v then 1 else 0) + CountLe(s[1..], v)
  }

  lemma {:induction false} InsertFacts(x: u64, s: seq<u64>)
    requires Sorted(s)
    ensures Sorted(Insert(x, s)) && |Insert(x, s)| == |s| + 1
    ensures forall y :: y in Insert(x, s) <==> y == x || y in s
    ensures forall v :: CountLe(Insert(x, s), v) == CountLe(s, v) + if x <= v then 1 else 0
  {
    if s != [] && x > s[0] {
      InsertFacts(x, s[1..]);
      var t := Insert(x, s[1..]);
      var r := Insert(x, s);
      assert r[1..] == t;
      assert forall y :: y in s <==> y == s[0] || y in s[1..];
      forall j | 0 < j < |r|
        ensures s[0] <= r[j]
      {
        assert r[j] == t[j - 1] && t[j - 1] in t;
      }
    } else {
      assert ([x] + s)[1..] == s;
    }
  }

  lemma {:induction false} SortFacts(s: seq<u64>)
    ensures Sorted(Sort(s)) && |Sort(s)| == |s|
    ensures forall y :: y in Sort(s) <==> y in s
    ensures forall v :: CountLe(Sort(s), v) == CountLe(s, v)
  {
    if s != [] {
      SortFacts(s[1..]);
      InsertFacts(s[0], Sort(s[1..]));
      assert forall y :: y in s <==> y == s[0] || y in s[1..];
    }
  }

  lemma {:induction false} SortLength(s: seq<u64>)
    ensures |Sort(s)| == |s|
  {
    SortFacts(s);
  }

  /** In a sorted list, everything up to `k` is at most its value, ... */
  lemma {:induction false} CountAtLeast(s: seq<u64>, k: nat)
    requires Sorted(s) && k < |s|
    ensures CountLe(s, s[k]) >= k + 1
  {
    if k > 0 {
      CountAtLeast(s[1..], k - 1);
    }
  }

  /** ... and only what is strictly before it can be at most a smaller value. */
  lemma {:induction false} CountBelow(s: seq<u64>, k: nat, v: u64)
    requires Sorted(s) && k < |s| && v < s[k]
    ensures CountLe(s, v) <= k
  {
    if k == 0 {
      CountNone(s, v);
    } else {
      CountBelow(s[1..], k - 1, v);
    }
  }

  lemma {:induction false} CountNone(s: seq<u64>, v: u64)
    requires forall i :: 0 <= i < |s| ==> s[i] > v
    ensures CountLe(s, v) == 0
  {
    if s != [] {
      CountNone(s[1..], v);
    }
  }

  /** The 1-based rank: p percent of `n` rounded up, at least 1. */
  function Rank(p: nat, n: nat): (r: nat)
    requires n >= 1
    ensures 1 <= r && (p <= 100 ==> r <= n)
  {
    Max((p * n + 99) / 100, 1)
  }

  function Percentile(s: seq<u64>, p: nat): Option<u64> {
    if s == [] then None else
      assert |Sort(s)| == |s| by { SortLength(s); }
      Some(Sort(s)[Rank(Min(p, 100), |s|) - 1])
  }

  /** The sample of rank `r` has `r` samples at or below it, and every smaller value has fewer. */
  lemma {:induction false} RankedSample(s: seq<u64>, r: nat)
    requires 1 <= r <= |s|
    ensures |Sort(s)| == |s| && Sort(s)[r - 1] in s && CountLe(s, Sort(s)[r - 1]) >= r
    ensures forall y: u64 :: y < Sort(s)[r - 1] ==> CountLe(s, y) <= r - 1
  {
    SortFacts(s);
    var t := Sort(s);
    assert t[r - 1] in t;
    CountAtLeast(t, r - 1);
    forall y: u64 | y < t[r - 1]
      ensures CountLe(s, y) <= r - 1
    {
      CountBelow(t, r - 1, y);
    }
  }

  /** Nearest rank, by what it means: a sample with at least p percent of the samples at or below it,
      such that no smaller value has that many. */
  lemma {:induction false} PercentileIsNearestRank(s: seq<u64>, p: nat)
    requires s != [] && p <= 100
    ensures var x := Percentile(s, p).value;
            && x in s
            && 100 * CountLe(s, x) >= p * |s|
            && (p >= 1 ==> forall y: u64 :: y < x ==> 100 * CountLe(s, y) < p * |s|)
            && (p == 0 ==> forall y: u64 :: y < x ==> CountLe(s, y) == 0)
  {
    var r := Rank(p, |s|);
    RankedSample(s, r);
    RankExact(p, |s|);
    assert p == 0 ==> r == 1;
  }

  /** p percent, rounded up. */
  lemma {:induction false} RankExact(p: nat, n: nat)
    requires n >= 1
    ensures 100 * Rank(p, n) >= p * n && (p >= 1 ==> 100 * (Rank(p, n) - 1) < p * n)
  {
    var product := p * n;
    if p >= 1 {
      assert product >= 1;
    }
  }

  /** A percentile beyond 100 is the hundredth. */
  lemma {:induction false} PercentileClamped(s: seq<u64>, p: nat)
    requires p > 100
    ensures Percentile(s, p) == Percentile(s, 100)
  {
  }

  /** A higher percentile is never a smaller sample. */
  lemma {:induction false} PercentileMonotone(s: seq<u64>, p: nat, q: nat)
    requires s != [] && p <= q
    ensures Percentile(s, p).value <= Percentile(s, q).value
  {
    SortFacts(s);
    RankMonotone(Min(p, 100), Min(q, 100), |s|);
  }

  lemma {:induction false} RankMonotone(p: nat, q: nat, n: nat)
    requires p <= q && n >= 1
    ensures Rank(p, n) <= Rank(q, n)
  {
    assert p * n <= q * n;
  }

  ghost predicate IsMax(s: seq<u64>, x: u64) {
    x in s && forall y :: y in s ==> y <= x
  }

  /** The rank is the top one exactly for windows too small to tell p95 (p99) from the maximum. */
  lemma {:induction false} TopRankExact(n: nat)
    requires n >= 1
    ensures Rank(95, n) == n <==> n < 20
    ensures Rank(99, n) == n <==> n < 100
  {
  }

  lemma {:induction false} TopRankIsMax(s: seq<u64>, p: nat)
    requires s != [] && p <= 100 && Rank(p, |s|) == |s|
    ensures IsMax(s, Percentile(s, p).value)
  {
    SortFacts(s);
    var t := Sort(s);
    assert t[|t| - 1] in t;
    forall y | y in s
      ensures y <= t[|t| - 1]
    {
      assert y in t;
    }
  }

  /** The report prints p95 as the maximum below 20 samples and p99 below 100; so they are. */
  lemma {:induction false} SmallWindowsReportMax(s: seq<u64>)
    requires s != []
    ensures |s| < 20 ==> IsMax(s, Percentile(s, 95).value)
    ensures |s| < 100 ==> IsMax(s, Percentile(s, 99).value)
  {
    TopRankExact(|s|);
    if |s| < 20 {
      TopRankIsMax(s, 95);
    }
    if |s| < 100 {
      TopRankIsMax(s, 99);
    }
  }

  // ---------------------------------------------------------------- the ring

  /** An index into a ring of `n` slots, at most once around. */
  method WrapIndex(x: nat, n: nat) returns (k: nat)
    requires x < 2 * n
    ensures k == if x < n then x else x - n
  {
    k := x % n;
    if x >= n {
      assert x == n * 1 + (x - n);
    }
  }

  /** A full ring read from its oldest sample. */
  function Rotate(buf: seq<u64>, head: nat): seq<u64>
    requires head < |buf|
  {
    buf[head..] + buf[..head]
  }

  lemma {:induction false} RotatePush(buf: seq<u64>, head: nat, v: u64)
    requires head < |buf|
    ensures var next := if head + 1 < |buf| then head + 1 else 0;
            Rotate(buf[head := v], next) == Rotate(buf, head)[1..] + [v]
  {
    var b := buf[head := v];
    var r := Rotate(buf, head)[1..] + [v];
    if head + 1 < |buf| {
      assert r == buf[head + 1..] + buf[..head] + [v];
      assert b[..head + 1] == buf[..head] + [v] && b[head + 1..] == buf[head + 1..];
    } else {
      assert buf[head..] == [buf[head]];
      assert r == buf[..head] + [v] == b;
    }
  }

  /** The samples in a ring, oldest first. */
  function ViewOf(buf: seq<u64>, head: nat, capacity: nat): seq<u64> {
    if |buf| < capacity || head >= |buf| then buf else Rotate(buf, head)
  }

  lemma {:induction false} GrowView(buf: seq<u64>, v: u64, capacity: nat)
    requires |buf| < capacity
    ensures ViewOf(buf + [v], 0, capacity) == LastN(ViewOf(buf, 0, capacity) + [v], capacity)
  {
    assert Rotate(buf + [v], 0) == buf + [v];
  }

  lemma {:induction false} TurnView(buf: seq<u64>, head: nat, v: u64)
    requires head < |buf|
    ensures var next := if head + 1 < |buf| then head + 1 else 0;
            ViewOf(buf[head := v], next, |buf|) == LastN(ViewOf(buf, head, |buf|) + [v], |buf|)
  {
    RotatePush(buf, head, v);
    var old' := Rotate(buf, head);
    assert LastN(old' + [v], |buf|) == old'[1..] + [v];
  }

  lemma {:induction false} RotateAt(buf: seq<u64>, head: nat, i: nat)
    requires head < |buf| && i < |buf|
    ensures Rotate(buf, head)[i] == buf[if head + i < |buf| then head + i else head + i - |buf|]
  {
  }

  class SampleRing {
    const capacity: nat
    var buf: seq<u64>
    var head: nat
    var len: nat

    ghost predicate Valid()
      reads this
    {
      && 1 <= capacity && len == |buf| <= capacity && head < capacity
      && (len < capacity ==> head == 0)
    }

    /** The samples held, oldest first. */
    ghost function View(): seq<u64>
      requires Valid()
      reads this
    {
      ViewOf(buf, head, capacity)
    }

    constructor (capacity: nat)
      ensures Valid() && View() == [] && this.capacity == Max(capacity, 1)
    {
      this.capacity := Max(capacity, 1);
      buf, head, len := [], 0, 0;
    }

    /** Whatever was pushed before, the ring holds the last `capacity` values in order. */
    method Push(v: u64)
      requires Valid()
      modifies this
      ensures Valid() && View() == LastN(old(View()) + [v], capacity)
    {
      ghost var pushed := LastN(View() + [v], capacity);
      if len < capacity {
        GrowView(buf, v, capacity);
        buf := buf + [v];
        len := len + 1;
        assert View() == pushed;
      } else {
        TurnView(buf, head, v);
        buf := buf[head := v];
        head := WrapIndex(head + 1, capacity);
        assert View() == pushed;
      }
    }

    /** The index arithmetic of `iter`. */
    method Collect() returns (s: seq<u64>)
      requires Valid()
      ensures s == View()
    {
      s := [];
      for i := 0 to len
        invariant s == View()[..i]
      {
        if len < capacity {
          s := s + [buf[i]];
        } else {
          RotateAt(buf, head, i);
          var k := WrapIndex(head + i, capacity);
          s := s + [buf[k]];
        }
        assert View()[..i + 1] == View()[..i] + [View()[i]];
      }
    }

    method PercentileOf(p: nat) returns (r: Option<u64>)
      requires Valid()
      ensures r == Percentile(View(), p)
    {
      if len == 0 {
        return None;
      }
      var s := Collect();
      SortLength(s);
      var sorted := SortSamples(s);
      var rank := Rank(Min(p, 100), |sorted|);
      r := Some(sorted[rank - 1]);
    }
  }

  method SortSamples(s: seq<u64>) returns (r: seq<u64>)
    ensures r == Sort(s)
  {
    r := [];
    var i := |s|;
    while i > 0
      invariant 0 <= i <= |s| && r == Sort(s[i..])
    {
      i := i - 1;
      assert s[i..][1..] == s[i + 1..];
      r := Insert(s[i], r);
    }
    assert s[0..] == s;
  }

  /** Any number of values into a fresh ring. */
  method Record(capacity: nat, values: seq<u64>) returns (view: seq<u64>)
    ensures view == LastN(values, Max(capacity, 1))
  {
    var ring := new SampleRing(capacity);
    for i := 0 to |values|
      invariant fresh(ring) && ring.Valid() && ring.capacity == Max(capacity, 1)
      invariant ring.View() == LastN(values[..i], ring.capacity)
    {
      LastNNext(values, i, ring.capacity);
      ring.Push(values[i]);
    }
    assert values[..|values|] == values;
    view := ring.Collect();
  }
}
