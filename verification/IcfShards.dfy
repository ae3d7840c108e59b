/** The parallel sweep over the classes. Whatever the order in which its shards run, it leaves
    exactly what the sequential sweep leaves. */
module IcfShards {
  import opened Collections
  import opened IcfPass

  /** The same sections, with the same new numbers, at positions `lo` up to `hi`. */
  ghost predicate AgreeOn(s: State, t: State, lo: nat, hi: nat)
    requires StateOk(s, |s.next|) && StateOk(t, |t.next|)
  {
    lo <= hi <= |s.order| == |t.order| && |s.next| == |t.next| && s.order[lo..hi] == t.order[lo..hi] &&
    forall i :: lo <= i < hi ==> s.order[i] == t.order[i] && s.next[s.order[i]] == t.next[s.order[i]]
  }

  /** Work elsewhere, on other sections, disturbs no agreement. */
  lemma AgreeFrame(s: State, s': State, t: State, lo: nat, hi: nat, a: nat, b: nat)
    requires StateOk(s, |s.next|) && StateOk(s', |s'.next|) && StateOk(t, |t.next|)
    requires AgreeOn(s, t, lo, hi) && Local(s, s', a, b) && (hi <= a || b <= lo)
    requires forall i, j :: lo <= i < hi && a <= j < b ==> s.order[i] != s.order[j]
    ensures AgreeOn(s', t, lo, hi)
  {
    forall i | lo <= i < hi ensures s'.order[i] == s.order[i] && s'.next[s.order[i]] == s.next[s.order[i]] {
      NotInRange(s.order, a, b, s.order[i]);
    }
    assert s'.order[lo..hi] == s.order[lo..hi];
  }

  lemma AgreeJoin(s: State, t: State, lo: nat, mid: nat, hi: nat)
    requires StateOk(s, |s.next|) && StateOk(t, |t.next|) && lo <= mid <= hi
    requires AgreeOn(s, t, lo, mid) && AgreeOn(s, t, mid, hi)
    ensures AgreeOn(s, t, lo, hi)
  {
    assert s.order[lo..hi] == s.order[lo..mid] + s.order[mid..hi];
    assert t.order[lo..hi] == t.order[lo..mid] + t.order[mid..hi];
  }

  // ------------------------------------------------------------------ a range does not look outside itself

  /** What segregating a class does depends on the sections of the class alone. */
  lemma {:induction false} SegregateSame(key: KeyOf, s: State, t: State, begin: nat, end: nat)
    requires begin <= end <= |s.order| == |t.order| && |s.next| == |t.next|
    requires StateOk(s, |s.next|) && StateOk(t, |s.next|) && s.order[begin..end] == t.order[begin..end]
    ensures StateOk(SegregateFn(key, s, begin, end), |s.next|) && StateOk(SegregateFn(key, t, begin, end), |s.next|)
    ensures AgreeOn(SegregateFn(key, s, begin, end), SegregateFn(key, t, begin, end), begin, end)
    decreases end - begin
  {
    SegregateLocal(key, s, begin, end);
    SegregateLocal(key, t, begin, end);
    if begin < end {
      assert s.order[begin] == s.order[begin..end][0] == t.order[begin];
      var s', t', mid := SplitFn(key, s, begin, end), SplitFn(key, t, begin, end), MidFn(key, s.order, begin, end);
      SplitSame(key, s, t, begin, end);
      SegregateSame(key, s', t', mid, end);
      GroupSame(key, s, t, begin, end);
      AgreeJoin(SegregateFn(key, s, begin, end), SegregateFn(key, t, begin, end), begin, mid, end);
    }
  }

  lemma SplitSame(key: KeyOf, s: State, t: State, begin: nat, end: nat)
    requires begin < end <= |s.order| == |t.order| && |s.next| == |t.next|
    requires StateOk(s, |s.next|) && StateOk(t, |s.next|) && s.order[begin..end] == t.order[begin..end]
    ensures var s', t', mid := SplitFn(key, s, begin, end), SplitFn(key, t, begin, end),
      MidFn(key, s.order, begin, end);
      StateOk(s', |s.next|) && StateOk(t', |s.next|) && s'.order[mid..end] == t'.order[mid..end] &&
      mid == MidFn(key, t.order, begin, end)
  {
    assert s.order[begin] == s.order[begin..end][0] == t.order[begin];
    SplitLocal(key, s, begin, end);
    SplitLocal(key, t, begin, end);
    LocalOk(s, SplitFn(key, s, begin, end), begin, end);
    LocalOk(t, SplitFn(key, t, begin, end), begin, end);
    PartitionParts(key, s.order, begin, end);
    PartitionParts(key, t.order, begin, end);
  }

  lemma GroupSame(key: KeyOf, s: State, t: State, begin: nat, end: nat)
    requires begin < end <= |s.order| == |t.order| && |s.next| == |t.next|
    requires StateOk(s, |s.next|) && StateOk(t, |s.next|) && s.order[begin..end] == t.order[begin..end]
    requires MidFn(key, s.order, begin, end) == MidFn(key, t.order, begin, end)
    requires StateOk(SegregateFn(key, s, begin, end), |s.next|) && StateOk(SegregateFn(key, t, begin, end), |s.next|)
    ensures AgreeOn(SegregateFn(key, s, begin, end), SegregateFn(key, t, begin, end),
                    begin, MidFn(key, s.order, begin, end))
  {
    var r, u, mid := SegregateFn(key, s, begin, end), SegregateFn(key, t, begin, end), MidFn(key, s.order, begin, end);
    assert s.order[begin] == s.order[begin..end][0] == t.order[begin];
    FirstGroupStays(key, s, begin, end);
    FirstGroupStays(key, t, begin, end);
    forall i | begin <= i < mid ensures r.order[i] == u.order[i] {
      assert r.order[i] == r.order[begin..mid][i - begin];
      assert u.order[i] == u.order[begin..mid][i - begin];
    }
  }

  lemma BoundarySame(cls: seq<nat>, o1: seq<nat>, o2: seq<nat>, begin: nat, end1: nat, end2: nat)
    requires begin < end1 <= end2 <= |o1| == |o2| && Within(o1, |cls|) && Within(o2, |cls|)
    requires forall i :: begin <= i < end1 ==> o1[i] == o2[i]
    requires end1 < end2 ==> cls[o2[end1]] != cls[o2[begin]]
    ensures BoundaryFn(cls, o1, begin, begin + 1, end1) == BoundaryFn(cls, o2, begin, begin + 1, end2)
  {
  }

  /** Sections on two sides of a class boundary differ. */
  lemma BoundaryApart(cls: seq<nat>, s: State, s1: State, begin: nat, mid: nat, end: nat)
    requires StateOk(s, |cls|) && StateOk(s1, |cls|) && begin <= mid <= end <= |s.order|
    requires Boundary(cls, s.order, begin, mid, end) && Local(s, s1, begin, mid)
    ensures forall i, j :: begin <= i < mid <= j < end ==> s1.order[i] != s1.order[j]
  {
    forall i, j | begin <= i < mid <= j < end ensures s1.order[i] != s1.order[j] {
      var k := SameElement(s.order[begin..mid], s1.order[begin..mid], i - begin);
      assert cls[s.order[begin + k]] != cls[s.order[j]];
    }
  }

  lemma GroupedSame(cls: seq<nat>, o1: seq<nat>, o2: seq<nat>, lo: nat, hi: nat)
    requires Within(o1, |cls|) && Within(o2, |cls|) && lo <= hi <= |o1| == |o2| && GroupedIn(cls, o1, lo, hi)
    requires forall i :: lo <= i < hi ==> o1[i] == o2[i]
    ensures GroupedIn(cls, o2, lo, hi)
  {
    forall i, j | lo <= i < j < hi && cls[o2[i]] == cls[o2[j]]
      ensures o2[i] < o2[j] && forall k :: i <= k <= j ==> cls[o2[k]] == cls[o2[i]]
    {
      assert cls[o1[i]] == cls[o1[j]];
    }
  }

  /** Nor does sweeping a range of classes depend on anything outside the range. */
  lemma {:induction false} RangeSame(key: KeyOf, cls: seq<nat>, s: State, t: State, begin: nat, end: nat)
    requires begin <= end <= |s.order| == |t.order| && StateOk(s, |cls|) && StateOk(t, |cls|)
    requires GroupedIn(cls, s.order, begin, end) && s.order[begin..end] == t.order[begin..end]
    ensures StateOk(RangeFn(key, cls, s, begin, end), |cls|) && StateOk(RangeFn(key, cls, t, begin, end), |cls|)
    ensures AgreeOn(RangeFn(key, cls, s, begin, end), RangeFn(key, cls, t, begin, end), begin, end)
    ensures RangeCutFn(key, cls, s, begin, end) == RangeCutFn(key, cls, t, begin, end)
    decreases end - begin
  {
    if begin < end {
      var mid := BoundaryFn(cls, s.order, begin, begin + 1, end);
      var s1, t1 := SegregateFn(key, s, begin, mid), SegregateFn(key, t, begin, mid);
      FirstClassSame(key, cls, s, t, begin, end);
      RestGrouped(key, cls, s, begin, mid, end);
      RestGrouped(key, cls, t, begin, mid, end);
      SplitSame(key, s, t, begin, mid);
      SegregateSame(key, s, t, begin, mid);
      RangeSame(key, cls, s1, t1, mid, end);
      RangeSameStep(key, cls, s, t, s1, t1, begin, mid, end);
    }
  }

  lemma FirstClassSame(key: KeyOf, cls: seq<nat>, s: State, t: State, begin: nat, end: nat)
    requires begin < end <= |s.order| == |t.order| && StateOk(s, |cls|) && StateOk(t, |cls|)
    requires GroupedIn(cls, s.order, begin, end) && s.order[begin..end] == t.order[begin..end]
    ensures var mid := BoundaryFn(cls, s.order, begin, begin + 1, end);
      mid == BoundaryFn(cls, t.order, begin, begin + 1, end) &&
      s.order[begin..mid] == t.order[begin..mid] && s.order[mid..end] == t.order[mid..end] &&
      Boundary(cls, s.order, begin, mid, end) && Boundary(cls, t.order, begin, mid, end) &&
        GroupedIn(cls, t.order, begin, end)
  {
    var mid := BoundaryFn(cls, s.order, begin, begin + 1, end);
    forall i | begin <= i < end ensures s.order[i] == t.order[i] {
      assert s.order[i] == s.order[begin..end][i - begin] && t.order[i] == t.order[begin..end][i - begin];
    }
    BoundarySame(cls, s.order, t.order, begin, end, end);
    GroupedSame(cls, s.order, t.order, begin, end);
    BoundaryIsOne(cls, s.order, begin, end);
    BoundaryIsOne(cls, t.order, begin, end);
  }

  /** What is left after segregating a class is as grouped as before. */
  lemma RestGrouped(key: KeyOf, cls: seq<nat>, s: State, begin: nat, mid: nat, end: nat)
    requires begin < mid <= end <= |s.order| && StateOk(s, |cls|) && GroupedIn(cls, s.order, begin, end)
    ensures var s1 := SegregateFn(key, s, begin, mid);
      StateOk(s1, |cls|) && Local(s, s1, begin, mid) && GroupedIn(cls, s1.order, mid, end) &&
      s1.order[mid..end] == s.order[mid..end]
  {
    SegregateLocal(key, s, begin, mid);
    GroupedSame(cls, s.order, SegregateFn(key, s, begin, mid).order, mid, end);
  }

  lemma RangeSameStep(key: KeyOf, cls: seq<nat>, s: State, t: State, s1: State, t1: State, begin: nat, mid: nat,
                      end: nat)
    requires begin < mid <= end <= |s.order| == |t.order| && StateOk(s, |cls|) && StateOk(t, |cls|)
    requires StateOk(s1, |cls|) && StateOk(t1, |cls|) && Local(s, s1, begin, mid) && Local(t, t1, begin, mid)
    requires Boundary(cls, s.order, begin, mid, end) && Boundary(cls, t.order, begin, mid, end)
    requires GroupedIn(cls, s1.order, mid, end) && GroupedIn(cls, t1.order, mid, end)
    requires AgreeOn(s1, t1, begin, mid)
    requires var r, u := RangeFn(key, cls, s1, mid, end), RangeFn(key, cls, t1, mid, end);
      StateOk(r, |cls|) && StateOk(u, |cls|) && AgreeOn(r, u, mid, end)
    ensures AgreeOn(RangeFn(key, cls, s1, mid, end), RangeFn(key, cls, t1, mid, end), begin, end)
  {
    var r, u := RangeFn(key, cls, s1, mid, end), RangeFn(key, cls, t1, mid, end);
    assert Local(s1, r, mid, end) by { RangeRefined(key, cls, s1, mid, end); }
    assert Local(t1, u, mid, end) by { RangeRefined(key, cls, t1, mid, end); }
    BoundaryApart(cls, s, s1, begin, mid, end);
    BoundaryApart(cls, t, t1, begin, mid, end);
    AgreeFrame(s1, r, t1, begin, mid, mid, end);
    AgreeFrame(t1, u, r, begin, mid, mid, end);
    AgreeJoin(r, u, begin, mid, end);
  }

  /** A sweep may be interrupted at a class boundary. */
  lemma {:induction false} RangeSplit(key: KeyOf, cls: seq<nat>, s: State, begin: nat, m: nat, end: nat)
    requires begin <= m <= end <= |s.order| && StateOk(s, |cls|) && Boundary(cls, s.order, begin, m, end)
    ensures StateOk(RangeFn(key, cls, s, begin, m), |cls|)
    ensures RangeFn(key, cls, s, begin, end) == RangeFn(key, cls, RangeFn(key, cls, s, begin, m), m, end)
    ensures RangeCutFn(key, cls, s, begin, end) <==>
      RangeCutFn(key, cls, s, begin, m) || RangeCutFn(key, cls, RangeFn(key, cls, s, begin, m), m, end)
    decreases m - begin
  {
    if begin < m {
      var mid := BoundaryFn(cls, s.order, begin, begin + 1, m);
      var s1 := SegregateFn(key, s, begin, mid);
      assert mid == BoundaryFn(cls, s.order, begin, begin + 1, end) by {
        assert m < end ==> cls[s.order[m]] != cls[s.order[begin]];
        BoundarySame(cls, s.order, s.order, begin, m, end);
      }
      SegregateLocal(key, s, begin, mid);
      assert Boundary(cls, s1.order, mid, m, end) by {
        assert forall i :: mid <= i < end ==> s1.order[i] == s.order[i];
      }
      RangeSplit(key, cls, s1, mid, m, end);
    }
  }

  // ------------------------------------------------------------------ shards

  /** `b` cuts the positions into consecutive shards, and no class lies in two of them. */
  ghost predicate Tiling(cls: seq<nat>, order: seq<nat>, b: seq<nat>)
    requires Within(order, |cls|)
  {
    |b| > 0 && b[0] == 0 && b[|b| - 1] == |order| &&
    (forall i, j :: 0 <= i <= j < |b| ==> b[i] <= b[j] <= |order|) &&
    forall i :: 0 <= i < |b| ==> Boundary(cls, order, 0, b[i], |order|)
  }

  /** The shards in `done` have run, each leaving what it would have left on its own; the others
      have not been touched. */
  ghost predicate ShardsDone(key: KeyOf, cls: seq<nat>, s0: State, s: State, cut: bool, b: seq<nat>, done: set<nat>)
    requires StateOk(s0, |cls|)
  {
    Tiling(cls, s0.order, b) && StateOk(s, |cls|) && |s.order| == |s0.order| &&
    EachShard(key, cls, s0, s, b, done) && OthersKept(s0, s) &&
    cut == AnyCut(key, cls, s0, b, done)
  }

  ghost predicate EachShard(key: KeyOf, cls: seq<nat>, s0: State, s: State, b: seq<nat>, done: set<nat>)
    requires StateOk(s0, |cls|) && StateOk(s, |cls|) && |s.order| == |s0.order| && Tiling(cls, s0.order, b)
  {
    forall i :: 0 < i < |b| ==> ShardAt(key, cls, s0, s, b, done, i)
  }

  ghost predicate ShardAt(key: KeyOf, cls: seq<nat>, s0: State, s: State, b: seq<nat>, done: set<nat>, i: nat)
    requires StateOk(s0, |cls|) && StateOk(s, |cls|) && |s.order| == |s0.order| && Tiling(cls, s0.order, b) &&
      0 < i < |b|
  {
    ShardIs(key, cls, s0, s, b[i - 1], b[i], i in done)
  }

  ghost predicate CutAt(key: KeyOf, cls: seq<nat>, s0: State, b: seq<nat>, i: nat)
    requires StateOk(s0, |cls|) && Tiling(cls, s0.order, b) && 0 < i < |b|
  {
    RangeCutFn(key, cls, s0, b[i - 1], b[i])
  }

  /** Sections that are not in the list keep their numbers. */
  ghost predicate OthersKept(s0: State, s: State) {
    |s.next| == |s0.next| && forall x :: 0 <= x < |s0.next| && x !in multiset(s0.order) ==> s.next[x] == s0.next[x]
  }

  /** One of the shards sets the repeat flag. */
  ghost predicate AnyCut(key: KeyOf, cls: seq<nat>, s0: State, b: seq<nat>, done: set<nat>)
    requires StateOk(s0, |cls|) && Tiling(cls, s0.order, b)
  {
    exists i :: 0 < i < |b| && i in done && CutAt(key, cls, s0, b, i)
  }

  lemma AnyCutStep(key: KeyOf, cls: seq<nat>, s0: State, b: seq<nat>, done: set<nat>, i: nat)
    requires StateOk(s0, |cls|) && Tiling(cls, s0.order, b) && 0 < i < |b|
    ensures AnyCut(key, cls, s0, b, done + {i}) == (AnyCut(key, cls, s0, b, done) || CutAt(key, cls, s0, b, i))
  {
    if AnyCut(key, cls, s0, b, done) {
      var j :| 0 < j < |b| && j in done && CutAt(key, cls, s0, b, j);
      assert j in done + {i};
    }
  }

  ghost predicate ShardIs(key: KeyOf, cls: seq<nat>, s0: State, s: State, lo: nat, hi: nat, finished: bool)
    requires StateOk(s0, |cls|) && StateOk(s, |cls|) && lo <= hi <= |s.order| == |s0.order|
  {
    var r := RangeFn(key, cls, s0, lo, hi);
    multiset(s.order[lo..hi]) == multiset(s0.order[lo..hi]) &&
    if finished then StateOk(r, |cls|) && AgreeOn(s, r, lo, hi) else s.order[lo..hi] == s0.order[lo..hi]
  }

  /** Sections of different shards differ, however the shards have been permuted inside. */
  lemma ShardsApart(cls: seq<nat>, was: seq<nat>, now: seq<nat>, m: nat, lo: nat, hi: nat, a: nat, b: nat)
    requires Within(was, |cls|) && |was| == |now| && lo <= hi <= |was| && a <= b <= |was| && m <= |was|
    requires Boundary(cls, was, 0, m, |was|) && ((hi <= m && m <= a) || (b <= m && m <= lo))
    requires multiset(now[lo..hi]) == multiset(was[lo..hi]) && multiset(now[a..b]) == multiset(was[a..b])
    ensures forall i, j :: lo <= i < hi && a <= j < b ==> now[i] != now[j]
  {
    forall i, j | lo <= i < hi && a <= j < b ensures now[i] != now[j] {
      var k := SameElement(was[lo..hi], now[lo..hi], i - lo);
      var l := SameElement(was[a..b], now[a..b], j - a);
      assert cls[was[lo + k]] != cls[was[a + l]];
    }
  }

  /** Running one shard does not disturb another. */
  lemma ShardFrame(key: KeyOf, cls: seq<nat>, s0: State, s: State, s': State, m: nat, lo: nat, hi: nat, a: nat, b: nat,
                   finished: bool)
    requires StateOk(s0, |cls|) && StateOk(s, |cls|) && StateOk(s', |cls|) && |s.order| == |s0.order|
    requires lo <= hi <= |s.order| && a <= b <= |s.order| && m <= |s.order|
    requires Boundary(cls, s0.order, 0, m, |s.order|) && ((hi <= m && m <= a) || (b <= m && m <= lo))
    requires ShardIs(key, cls, s0, s, lo, hi, finished) && multiset(s.order[a..b]) == multiset(s0.order[a..b])
    requires Local(s, s', a, b)
    ensures ShardIs(key, cls, s0, s', lo, hi, finished)
  {
    assert s'.order[lo..hi] == s.order[lo..hi];
    if finished {
      ShardsApart(cls, s0.order, s.order, m, lo, hi, a, b);
      AgreeFrame(s, s', RangeFn(key, cls, s0, lo, hi), lo, hi, a, b);
    }
  }

  /** A shard leaves what it would have left at the start. */
  lemma ShardRuns(key: KeyOf, cls: seq<nat>, s0: State, s: State, lo: nat, hi: nat)
    requires StateOk(s0, |cls|) && StateOk(s, |cls|) && lo <= hi <= |s.order| == |s0.order|
    requires GroupedIn(cls, s0.order, 0, |s0.order|) && ShardIs(key, cls, s0, s, lo, hi, false)
    ensures var s' := RangeFn(key, cls, s, lo, hi);
      StateOk(s', |cls|) && Local(s, s', lo, hi) && ShardIs(key, cls, s0, s', lo, hi, true) &&
      RangeCutFn(key, cls, s, lo, hi) == RangeCutFn(key, cls, s0, lo, hi)
  {
    forall i | lo <= i < hi ensures s.order[i] == s0.order[i] {
      assert s.order[i] == s.order[lo..hi][i - lo] && s0.order[i] == s0.order[lo..hi][i - lo];
    }
    GroupedSame(cls, s0.order, s.order, lo, hi);
    RangeRefined(key, cls, s, lo, hi);
    RangeSame(key, cls, s, s0, lo, hi);
  }

  lemma EachShardStep(key: KeyOf, cls: seq<nat>, s0: State, s: State, s': State, b: seq<nat>, done: set<nat>, i: nat)
    requires StateOk(s0, |cls|) && StateOk(s, |cls|) && StateOk(s', |cls|) && |s.order| == |s0.order|
    requires Tiling(cls, s0.order, b) && EachShard(key, cls, s0, s, b, done) && 0 < i < |b|
    requires Local(s, s', b[i - 1], b[i]) && ShardIs(key, cls, s0, s', b[i - 1], b[i], true)
    ensures EachShard(key, cls, s0, s', b, done + {i})
  {
    forall j | 0 < j < |b| ensures ShardAt(key, cls, s0, s', b, done + {i}, j) {
      assert ShardAt(key, cls, s0, s, b, done, i) && ShardAt(key, cls, s0, s, b, done, j);
      if j != i {
        ShardFrame(key, cls, s0, s, s', if j < i then b[i - 1] else b[i], b[j - 1], b[j], b[i - 1], b[i], j in done);
      }
    }
  }

  lemma OthersKeptStep(s0: State, s: State, s': State, lo: nat, hi: nat)
    requires lo <= hi <= |s0.order| && OthersKept(s0, s) && Local(s, s', lo, hi)
    requires multiset(s.order[lo..hi]) == multiset(s0.order[lo..hi])
    ensures OthersKept(s0, s')
  {
    assert s0.order == s0.order[..lo] + s0.order[lo..hi] + s0.order[hi..];
    forall x | 0 <= x < |s0.next| && x !in multiset(s0.order) ensures s'.next[x] == s0.next[x] {
      assert x !in multiset(s.order[lo..hi]);
    }
  }

  /** Shards that have not run yet may run in any order: `r` is the state after shard `i`. */
  lemma ShardStep(key: KeyOf, cls: seq<nat>, s0: State, s: State, cut: bool, b: seq<nat>, done: set<nat>, i: nat,
                  r: State, c: bool)
    requires StateOk(s0, |cls|) && GroupedIn(cls, s0.order, 0, |s0.order|)
    requires ShardsDone(key, cls, s0, s, cut, b, done) && 0 < i < |b| && i !in done
    requires r == RangeFn(key, cls, s, b[i - 1], b[i]) && c == (cut || RangeCutFn(key, cls, s, b[i - 1], b[i]))
    ensures ShardsDone(key, cls, s0, r, c, b, done + {i})
  {
    var lo, hi := b[i - 1], b[i];
    assert ShardAt(key, cls, s0, s, b, done, i);
    ShardRuns(key, cls, s0, s, lo, hi);
    OthersKeptStep(s0, s, r, lo, hi);
    EachShardStep(key, cls, s0, s, r, b, done, i);
    AnyCutStep(key, cls, s0, b, done, i);
  }

  lemma SplitAtShard(key: KeyOf, cls: seq<nat>, s0: State, b: seq<nat>, k: nat)
    requires StateOk(s0, |cls|) && Tiling(cls, s0.order, b) && 0 < k < |b|
    ensures var s := RangeFn(key, cls, s0, 0, b[k - 1]);
      b[k - 1] <= b[k] <= |s0.order| && StateOk(s, |cls|) &&
      RangeFn(key, cls, s0, 0, b[k]) == RangeFn(key, cls, s, b[k - 1], b[k]) &&
      RangeCutFn(key, cls, s0, 0, b[k]) ==
        (RangeCutFn(key, cls, s0, 0, b[k - 1]) || RangeCutFn(key, cls, s, b[k - 1], b[k]))
  {
    var lo, hi := b[k - 1], b[k];
    assert lo <= hi <= |s0.order|;
    assert Boundary(cls, s0.order, 0, lo, |s0.order|);
    BoundaryNarrow(cls, s0.order, lo, hi);
    RangeSplit(key, cls, s0, 0, lo, hi);
  }

  lemma BoundaryNarrow(cls: seq<nat>, order: seq<nat>, m: nat, hi: nat)
    requires Within(order, |cls|) && m <= hi <= |order| && Boundary(cls, order, 0, m, |order|)
    ensures Boundary(cls, order, 0, m, hi)
  {
  }

  lemma NoShardsDone(key: KeyOf, cls: seq<nat>, s0: State, b: seq<nat>)
    requires StateOk(s0, |cls|) && Tiling(cls, s0.order, b)
    ensures ShardsDone(key, cls, s0, s0, false, b, {})
  {
  }

  /** The sequential sweep passes through the same shards in ascending order. */
  lemma {:induction false} SequentialShards(key: KeyOf, cls: seq<nat>, s0: State, b: seq<nat>, k: nat, m: nat)
    requires StateOk(s0, |cls|) && GroupedIn(cls, s0.order, 0, |s0.order|) && Tiling(cls, s0.order, b)
    requires k < |b| && m == b[k]
    ensures ShardsDone(key, cls, s0, RangeFn(key, cls, s0, 0, m), RangeCutFn(key, cls, s0, 0, m), b, OneTo(k))
    decreases k
  {
    if k == 0 {
      assert RangeFn(key, cls, s0, 0, m) == s0 && !RangeCutFn(key, cls, s0, 0, m) && OneTo(k) == {};
      NoShardsDone(key, cls, s0, b);
    } else {
      SequentialShards(key, cls, s0, b, k - 1, b[k - 1]);
      SequentialStep(key, cls, s0, b, k, b[k - 1], m);
    }
  }

  lemma SequentialStep(key: KeyOf, cls: seq<nat>, s0: State, b: seq<nat>, k: nat, lo: nat, hi: nat)
    requires StateOk(s0, |cls|) && GroupedIn(cls, s0.order, 0, |s0.order|) && Tiling(cls, s0.order, b)
    requires 0 < k < |b| && lo == b[k - 1] && hi == b[k]
    requires ShardsDone(key, cls, s0, RangeFn(key, cls, s0, 0, lo), RangeCutFn(key, cls, s0, 0, lo), b, OneTo(k - 1))
    ensures ShardsDone(key, cls, s0, RangeFn(key, cls, s0, 0, hi), RangeCutFn(key, cls, s0, 0, hi), b, OneTo(k))
  {
    SplitAtShard(key, cls, s0, b, k);
    assert k !in OneTo(k - 1);
    ShardStep(key, cls, s0, RangeFn(key, cls, s0, 0, lo), RangeCutFn(key, cls, s0, 0, lo), b, OneTo(k - 1), k,
              RangeFn(key, cls, s0, 0, hi), RangeCutFn(key, cls, s0, 0, hi));
  }

  /** The shard that holds a position. */
  lemma ShardOf(b: seq<nat>, n: nat, x: nat) returns (i: nat)
    requires |b| > 0 && b[0] == 0 && b[|b| - 1] == n && x < n
    ensures 0 < i < |b| && b[i - 1] <= x < b[i]
  {
    i := 1;
    while b[i] <= x
      invariant 0 < i < |b| && b[i - 1] <= x
      decreases |b| - i
    {
      i := i + 1;
    }
  }

  /** Once all shards have run nothing depends on the order any more. */
  lemma AllShardsDone(key: KeyOf, cls: seq<nat>, s0: State, s: State, t: State, cut1: bool, cut2: bool,
                      b: seq<nat>, done: set<nat>)
    requires StateOk(s0, |cls|) && ShardsDone(key, cls, s0, s, cut1, b, done) &&
      ShardsDone(key, cls, s0, t, cut2, b, done)
    requires forall i: nat :: 0 < i < |b| ==> i in done
    ensures s == t && cut1 == cut2
  {
    forall x | 0 <= x < |s0.order| ensures s.order[x] == t.order[x] && s.next[s.order[x]] == t.next[s.order[x]] {
      var i := ShardOf(b, |s0.order|, x);
      assert ShardAt(key, cls, s0, s, b, done, i) && ShardAt(key, cls, s0, t, b, done, i);
    }
    assert s.order == t.order;
    forall x | 0 <= x < |cls| ensures s.next[x] == t.next[x] {
      if x in multiset(s0.order) {
        var y: nat :| y < |s0.order| && s0.order[y] == x;
        var k := OnceThere(key, cls, s0, s, cut1, b, done, y);
        assert s.order[k] == x;
      }
    }
  }

  /** No section gets lost. */
  lemma OnceThere(key: KeyOf, cls: seq<nat>, s0: State, s: State, cut: bool, b: seq<nat>, done: set<nat>, y: nat)
    returns (k: nat)
    requires StateOk(s0, |cls|) && ShardsDone(key, cls, s0, s, cut, b, done) && y < |s0.order|
    ensures k < |s.order| && s.order[k] == s0.order[y]
  {
    var i := ShardOf(b, |s0.order|, y);
    assert ShardAt(key, cls, s0, s, b, done, i);
    k := InSlice(s0.order, s.order, b[i - 1], b[i], y);
  }

  lemma InSlice(was: seq<nat>, now: seq<nat>, lo: nat, hi: nat, y: nat) returns (k: nat)
    requires lo <= y < hi <= |was| == |now| && multiset(now[lo..hi]) == multiset(was[lo..hi])
    ensures k < |now| && now[k] == was[y]
  {
    var l := SameElement(now[lo..hi], was[lo..hi], y - lo);
    k := lo + l;
  }

  /** The sharded sweep computes exactly what the sequential one does. */
  lemma ShardedIsSequential(key: KeyOf, cls: seq<nat>, s0: State, s: State, cut: bool, b: seq<nat>, done: set<nat>)
    requires StateOk(s0, |cls|) && GroupedIn(cls, s0.order, 0, |s0.order|)
    requires ShardsDone(key, cls, s0, s, cut, b, done) && forall i: nat :: i in done <==> 0 < i < |b|
    ensures s == RangeFn(key, cls, s0, 0, |s0.order|) && cut == RangeCutFn(key, cls, s0, 0, |s0.order|)
  {
    SequentialShards(key, cls, s0, b, |b| - 1, |s0.order|);
    assert done == OneTo(|b| - 1);
    AllShardsDone(key, cls, s0, s, RangeFn(key, cls, s0, 0, |s0.order|), cut, RangeCutFn(key, cls, s0, 0, |s0.order|),
      b, done);
  }

  // ------------------------------------------------------------------ where the shards are cut

  /** Wherever the search starts, it ends between two classes. */
  lemma BoundaryIsBetween(cls: seq<nat>, order: seq<nat>, x: nat)
    requires Within(order, |cls|) && GroupedIn(cls, order, 0, |order|) && x < |order|
    ensures var e := BoundaryFn(cls, order, x, x + 1, |order|); x < e <= |order| && Boundary(cls, order, 0, e, |order|)
  {
    var e := BoundaryFn(cls, order, x, x + 1, |order|);
    assert e < |order| ==> cls[order[e]] != cls[order[x]];
  }

  lemma BoundaryMonotone(cls: seq<nat>, order: seq<nat>, x: nat, y: nat)
    requires Within(order, |cls|) && x <= y < |order|
    ensures BoundaryFn(cls, order, x, x + 1, |order|) <= BoundaryFn(cls, order, y, y + 1, |order|)
  {
  }

  /** The cuts made so far: after the first, each is the end of the class at one of the starting points `xs`. */
  ghost predicate Cuts(cls: seq<nat>, order: seq<nat>, xs: seq<nat>, b: seq<nat>)
    requires Within(order, |cls|)
  {
    0 < |b| == |xs| && b[0] == xs[0] == 0 && (forall i :: 0 < i < |b| ==> CutIs(cls, order, xs[i], b[i])) &&
    forall i, j :: 0 <= i <= j < |xs| ==> xs[i] <= xs[j]
  }

  lemma CutsStep(cls: seq<nat>, order: seq<nat>, xs: seq<nat>, b: seq<nat>, x: nat, e: nat)
    requires Within(order, |cls|) && Cuts(cls, order, xs, b) && CutIs(cls, order, x, e) && xs[|xs| - 1] <= x
    ensures Cuts(cls, order, xs + [x], b + [e])
  {
  }

  ghost predicate CutIs(cls: seq<nat>, order: seq<nat>, x: nat, e: nat)
    requires Within(order, |cls|)
  {
    x < |order| && e == BoundaryFn(cls, order, x, x + 1, |order|)
  }

  lemma ShardStart(n: nat, shards: nat, i: nat)
    requires 0 < i < shards <= n
    ensures 0 <= (i - 1) * (n / shards) < n && (i - 1) * (n / shards) <= i * (n / shards)
  {
    var step := n / shards;
    Multiples(i - 1, i, shards, step);
  }

  lemma Multiples(h: nat, i: nat, shards: nat, step: nat)
    requires i == h + 1 && i < shards && step > 0
    ensures 0 <= h * step <= i * step && h * step + step <= shards * step
  {
    assert i * step == h * step + step;
    assert shards * step == i * step + (shards - i) * step;
  }

  lemma CutsAscend(cls: seq<nat>, order: seq<nat>, x: nat, y: nat, e: nat, f: nat)
    requires Within(order, |cls|) && GroupedIn(cls, order, 0, |order|) && x <= y
    requires CutIs(cls, order, x, e) && CutIs(cls, order, y, f)
    ensures e <= f <= |order| && Boundary(cls, order, 0, f, |order|)
  {
    BoundaryIsBetween(cls, order, y);
    BoundaryMonotone(cls, order, x, y);
  }

  /** The cuts are monotone, lie between classes and tile the positions. */
  lemma CutsTile(cls: seq<nat>, order: seq<nat>, xs: seq<nat>, b: seq<nat>)
    requires Within(order, |cls|) && Cuts(cls, order, xs, b) && GroupedIn(cls, order, 0, |order|)
    ensures Tiling(cls, order, b + [|order|])
  {
    forall i, j | 0 <= i <= j < |b| ensures b[i] <= b[j] <= |order| && Boundary(cls, order, 0, b[j], |order|) {
      if 0 < j {
        CutsAscend(cls, order, xs[if 0 < i then i else j], xs[j], b[if 0 < i then i else j], b[j]);
      }
    }
  }
}
