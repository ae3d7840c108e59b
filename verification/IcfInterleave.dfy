/** The shards of a sweep run at the same time: after each class another shard may take its turn.
    Whatever the turns, the result is that of the sequential sweep. */
module IcfInterleave {
  import opened Collections
  import opened IcfPass
  import opened IcfShards

  /** A shard from `lo` to `hi` has come to position `at`, and `cut` says whether it has split
      anything: going on from here leads to what it would have led to from the start, and the classes
      that are left have nothing to do with those that are done. */
  ghost predicate Part(key: KeyOf, cls: seq<nat>, s0: State, s: State, lo: nat, hi: nat, at: nat, cut: bool)
    requires StateOk(s0, |cls|) && StateOk(s, |cls|) && lo <= hi <= |s.order| == |s0.order|
  {
    lo <= at <= hi && multiset(s.order[lo..hi]) == multiset(s0.order[lo..hi]) &&
    Boundary(cls, s.order, lo, at, hi) && GroupedIn(cls, s.order, at, hi) &&
    LeadsTo(key, cls, s0, s, lo, hi, at) &&
    RangeCutFn(key, cls, s0, lo, hi) == (cut || RangeCutFn(key, cls, s, at, hi))
  }

  /** What is left to do from position `at` completes the shard. */
  ghost predicate LeadsTo(key: KeyOf, cls: seq<nat>, s0: State, s: State, lo: nat, hi: nat, at: nat)
    requires StateOk(s0, |cls|) && StateOk(s, |cls|) && lo <= at <= hi <= |s.order| == |s0.order|
  {
    var r, r0 := RangeFn(key, cls, s, at, hi), RangeFn(key, cls, s0, lo, hi);
    StateOk(r, |cls|) && StateOk(r0, |cls|) && AgreeOn(r, r0, lo, hi)
  }

  // ------------------------------------------------------------------ one step of a shard

  /** A shard's own step brings it on to the end of the class. */
  lemma OwnStep(key: KeyOf, cls: seq<nat>, s0: State, s: State, s': State, lo: nat, hi: nat, begin: nat, mid: nat,
                cut: bool, cut': bool)
    requires StateOk(s0, |cls|) && StateOk(s, |cls|) && lo <= hi <= |s.order| == |s0.order|
    requires Part(key, cls, s0, s, lo, hi, begin, cut) && begin < hi
    requires mid == BoundaryFn(cls, s.order, begin, begin + 1, hi) && s' == SegregateFn(key, s, begin, mid)
    requires cut' == (cut || MidFn(key, s.order, begin, mid) != mid)
    ensures StateOk(s', |cls|) && Local(s, s', begin, mid) && Local(s, s', lo, hi)
    ensures Part(key, cls, s0, s', lo, hi, mid, cut')
  {
    BoundaryIsOne(cls, s.order, begin, hi);
    RestGrouped(key, cls, s, begin, mid, hi);
    LocalWiden(s, s', lo, begin, mid, hi);
    OwnBoundary(cls, s, s', lo, begin, mid, hi);
  }

  /** The classes done so far have nothing to do with those that are left. */
  lemma OwnBoundary(cls: seq<nat>, s: State, s': State, lo: nat, begin: nat, mid: nat, hi: nat)
    requires StateOk(s, |cls|) && StateOk(s', |cls|) && lo <= begin <= mid <= hi <= |s.order|
    requires Boundary(cls, s.order, lo, begin, hi) && Boundary(cls, s.order, begin, mid, hi)
    requires Local(s, s', begin, mid)
    ensures Boundary(cls, s'.order, lo, mid, hi)
  {
    forall i, j | lo <= i < mid <= j < hi ensures cls[s'.order[i]] != cls[s'.order[j]] {
      if begin <= i {
        var k := SameElement(s.order[begin..mid], s'.order[begin..mid], i - begin);
        assert cls[s.order[begin + k]] != cls[s.order[j]];
      }
    }
  }

  // ------------------------------------------------------------------ a step of another shard

  lemma AgreeTrans(s: State, t: State, u: State, lo: nat, hi: nat)
    requires StateOk(s, |s.next|) && StateOk(t, |t.next|) && StateOk(u, |u.next|)
    requires AgreeOn(s, t, lo, hi) && AgreeOn(t, u, lo, hi)
    ensures AgreeOn(s, u, lo, hi)
  {
  }

  /** What a sweep from `at` on leaves before `at`. */
  lemma DoneStays(key: KeyOf, cls: seq<nat>, s: State, lo: nat, at: nat, hi: nat)
    requires StateOk(s, |cls|) && lo <= at <= hi <= |s.order|
    requires Boundary(cls, s.order, lo, at, hi) && GroupedIn(cls, s.order, at, hi)
    ensures var r := RangeFn(key, cls, s, at, hi); StateOk(r, |cls|) && AgreeOn(r, s, lo, at)
  {
    RangeRefined(key, cls, s, at, hi);
    forall i, j | lo <= i < at && at <= j < hi ensures s.order[i] != s.order[j] {
      assert cls[s.order[i]] != cls[s.order[j]];
    }
    AgreeFrame(s, RangeFn(key, cls, s, at, hi), s, lo, at, at, hi);
  }

  /** Work on other sections elsewhere does not disturb a shard. */
  lemma OtherStep(key: KeyOf, cls: seq<nat>, s0: State, s: State, s': State, lo: nat, hi: nat, at: nat, cut: bool,
                  a: nat, b: nat)
    requires StateOk(s0, |cls|) && StateOk(s, |cls|) && StateOk(s', |cls|) && lo <= hi <= |s.order| == |s0.order|
    requires Part(key, cls, s0, s, lo, hi, at, cut) && Local(s, s', a, b) && (hi <= a || b <= lo)
    requires forall i, j :: lo <= i < hi && a <= j < b ==> s.order[i] != s.order[j]
    ensures Part(key, cls, s0, s', lo, hi, at, cut)
  {
    SameSlice(s.order, s'.order, lo, hi);
    SameSlice(s.order, s'.order, at, hi);
    GroupedSame(cls, s.order, s'.order, at, hi);
    RangeSame(key, cls, s', s, at, hi);
    AgreeFrame(s, s', s, lo, hi, a, b);
    OtherLeadsTo(key, cls, s0, s, s', lo, hi, at);
  }

  lemma SameSlice(was: seq<nat>, now: seq<nat>, lo: nat, hi: nat)
    requires lo <= hi <= |was| == |now| && forall i :: lo <= i < hi ==> now[i] == was[i]
    ensures now[lo..hi] == was[lo..hi]
  {
  }

  lemma OtherLeadsTo(key: KeyOf, cls: seq<nat>, s0: State, s: State, s': State, lo: nat, hi: nat, at: nat)
    requires StateOk(s0, |cls|) && StateOk(s, |cls|) && StateOk(s', |cls|) && lo <= at <= hi <= |s.order| == |s0.order|
    requires LeadsTo(key, cls, s0, s, lo, hi, at) && AgreeOn(s', s, lo, hi)
    requires Boundary(cls, s.order, lo, at, hi) && GroupedIn(cls, s.order, at, hi)
    requires Boundary(cls, s'.order, lo, at, hi) && GroupedIn(cls, s'.order, at, hi)
    requires var r, r' := RangeFn(key, cls, s, at, hi), RangeFn(key, cls, s', at, hi);
      StateOk(r, |cls|) && StateOk(r', |cls|) && AgreeOn(r', r, at, hi)
    ensures LeadsTo(key, cls, s0, s', lo, hi, at)
  {
    var r, r' := RangeFn(key, cls, s, at, hi), RangeFn(key, cls, s', at, hi);
    DoneStays(key, cls, s, lo, at, hi);
    DoneStays(key, cls, s', lo, at, hi);
    BeforeAgree(r', s', s, r, lo, at, hi);
    AgreeJoin(r', r, lo, at, hi);
    AgreeTrans(r', r, RangeFn(key, cls, s0, lo, hi), lo, hi);
  }

  lemma BeforeAgree(r': State, s': State, s: State, r: State, lo: nat, at: nat, hi: nat)
    requires StateOk(r', |r'.next|) && StateOk(s', |s'.next|) && StateOk(s, |s.next|) && StateOk(r, |r.next|)
    requires at <= hi && AgreeOn(r', s', lo, at) && AgreeOn(s', s, lo, hi) && AgreeOn(r, s, lo, at)
    ensures AgreeOn(r', r, lo, at)
  {
    assert forall i :: lo <= i < at ==> s'.order[i] == s.order[i];
    SameSlice(s.order, s'.order, lo, at);
  }

  // ------------------------------------------------------------------ all shards

  /** Shard `i` has come to position `at[i]`. */
  ghost predicate Running(key: KeyOf, cls: seq<nat>, s0: State, s: State, b: seq<nat>, at: seq<nat>, cuts: seq<bool>)
    requires StateOk(s0, |cls|)
  {
    Tiling(cls, s0.order, b) && StateOk(s, |cls|) && |s.order| == |s0.order| && OthersKept(s0, s) &&
    |at| == |cuts| == |b| && forall i :: 0 < i < |b| ==> PartAt(key, cls, s0, s, b, at, cuts, i)
  }

  ghost predicate PartAt(key: KeyOf, cls: seq<nat>, s0: State, s: State, b: seq<nat>, at: seq<nat>, cuts: seq<bool>,
                         i: nat)
    requires StateOk(s0, |cls|) && StateOk(s, |cls|) && |s.order| == |s0.order| && Tiling(cls, s0.order, b)
    requires |at| == |cuts| == |b| && 0 < i < |b|
  {
    Part(key, cls, s0, s, b[i - 1], b[i], at[i], cuts[i])
  }

  lemma AtInside(key: KeyOf, cls: seq<nat>, s0: State, s: State, b: seq<nat>, at: seq<nat>, cuts: seq<bool>, i: nat)
    requires StateOk(s0, |cls|) && Running(key, cls, s0, s, b, at, cuts) && 0 < i < |b|
    ensures |at| == |b| && b[i - 1] <= at[i] <= b[i]
  {
    assert PartAt(key, cls, s0, s, b, at, cuts, i);
  }

  ghost predicate AnyTrue(cuts: seq<bool>) {
    exists i :: 0 < i < |cuts| && cuts[i]
  }

  /** Every shard begins at its start. */
  lemma StartRunning(key: KeyOf, cls: seq<nat>, s: State, b: seq<nat>, at: seq<nat>, cuts: seq<bool>)
    requires StateOk(s, |cls|) && GroupedIn(cls, s.order, 0, |s.order|) && Tiling(cls, s.order, b)
    requires |at| == |cuts| == |b| && forall i :: 0 < i < |b| ==> at[i] == b[i - 1] && !cuts[i]
    ensures Running(key, cls, s, s, b, at, cuts) && !AnyTrue(cuts)
  {
    forall i | 0 < i < |b| ensures PartAt(key, cls, s, s, b, at, cuts, i) {
      RangeRefined(key, cls, s, b[i - 1], b[i]);
    }
  }

  /** A turn of shard `i`. */
  lemma Turn(key: KeyOf, cls: seq<nat>, s0: State, s: State, s': State, b: seq<nat>, at: seq<nat>, cuts: seq<bool>,
             i: nat, mid: nat, cut: bool)
    requires StateOk(s0, |cls|) && Running(key, cls, s0, s, b, at, cuts) && 0 < i < |b| && at[i] < b[i]
    requires mid == BoundaryFn(cls, s.order, at[i], at[i] + 1, b[i]) && s' == SegregateFn(key, s, at[i], mid)
    requires cut == (cuts[i] || MidFn(key, s.order, at[i], mid) != mid)
    ensures at[i] < mid <= b[i] && Running(key, cls, s0, s', b, at[i := mid], cuts[i := cut])
    ensures AnyTrue(cuts[i := cut]) == (AnyTrue(cuts) || MidFn(key, s.order, at[i], mid) != mid)
  {
    OwnTurn(key, cls, s0, s, s', b, at, cuts, i, at[i], mid, cut);
    EachTurn(key, cls, s0, s, s', b, at, cuts, i, at[i := mid], cuts[i := cut]);
    TrueStep(cuts, i, cut);
  }

  lemma OwnTurn(key: KeyOf, cls: seq<nat>, s0: State, s: State, s': State, b: seq<nat>, at: seq<nat>,
                cuts: seq<bool>, i: nat, begin: nat, mid: nat, cut: bool)
    requires StateOk(s0, |cls|) && Running(key, cls, s0, s, b, at, cuts) && 0 < i < |b| && begin == at[i] < b[i]
    requires mid == BoundaryFn(cls, s.order, begin, begin + 1, b[i]) && s' == SegregateFn(key, s, begin, mid)
    requires cut == (cuts[i] || MidFn(key, s.order, begin, mid) != mid)
    ensures begin < mid <= b[i] && StateOk(s', |cls|) && |s'.order| == |s.order| && Local(s, s', b[i - 1], b[i])
    ensures OthersKept(s0, s') && Part(key, cls, s0, s', b[i - 1], b[i], mid, cut)
  {
    var lo, hi := b[i - 1], b[i];
    assert PartAt(key, cls, s0, s, b, at, cuts, i);
    OwnStep(key, cls, s0, s, s', lo, hi, begin, mid, cuts[i], cut);
    OthersKeptStep(s0, s, s', lo, hi);
  }

  lemma EachTurn(key: KeyOf, cls: seq<nat>, s0: State, s: State, s': State, b: seq<nat>, at: seq<nat>,
                 cuts: seq<bool>, i: nat, at': seq<nat>, cuts': seq<bool>)
    requires StateOk(s0, |cls|) && Running(key, cls, s0, s, b, at, cuts) && 0 < i < |b|
    requires StateOk(s', |cls|) && |s'.order| == |s.order| && Local(s, s', b[i - 1], b[i]) && OthersKept(s0, s')
    requires |at'| == |cuts'| == |b| && forall j :: 0 <= j < |b| && j != i ==> at'[j] == at[j] && cuts'[j] == cuts[j]
    requires Part(key, cls, s0, s', b[i - 1], b[i], at'[i], cuts'[i])
    ensures Running(key, cls, s0, s', b, at', cuts')
  {
    forall j | 0 < j < |b| ensures PartAt(key, cls, s0, s', b, at', cuts', j) {
      if j != i {
        OtherTurn(key, cls, s0, s, s', b, at, cuts, i, j);
      }
    }
  }

  lemma OtherTurn(key: KeyOf, cls: seq<nat>, s0: State, s: State, s': State, b: seq<nat>, at: seq<nat>,
                  cuts: seq<bool>, i: nat, j: nat)
    requires StateOk(s0, |cls|) && Running(key, cls, s0, s, b, at, cuts) && 0 < i < |b| && 0 < j < |b| && i != j
    requires StateOk(s', |cls|) && Local(s, s', b[i - 1], b[i])
    ensures PartAt(key, cls, s0, s', b, at, cuts, j)
  {
    var lo, hi := b[i - 1], b[i];
    assert PartAt(key, cls, s0, s, b, at, cuts, i) && PartAt(key, cls, s0, s, b, at, cuts, j);
    ShardsApart(cls, s0.order, s.order, if j < i then lo else hi, b[j - 1], b[j], lo, hi);
    OtherStep(key, cls, s0, s, s', b[j - 1], b[j], at[j], cuts[j], lo, hi);
  }

  lemma TrueStep(cuts: seq<bool>, i: nat, cut: bool)
    requires 0 < i < |cuts| && (cuts[i] ==> cut)
    ensures AnyTrue(cuts[i := cut]) == (AnyTrue(cuts) || cut)
  {
    var now := cuts[i := cut];
    assert now[i] == cut;
    if AnyTrue(cuts) {
      var j :| 0 < j < |cuts| && cuts[j];
      assert now[j];
    }
  }

  /** A shard that has come to its end has done what it would have done on its own. */
  lemma PartDone(key: KeyOf, cls: seq<nat>, s0: State, s: State, b: seq<nat>, at: seq<nat>, cuts: seq<bool>, i: nat,
                 done: set<nat>)
    requires StateOk(s0, |cls|) && Running(key, cls, s0, s, b, at, cuts) && 0 < i < |b| && at[i] == b[i] && i in done
    ensures ShardAt(key, cls, s0, s, b, done, i) && cuts[i] == CutAt(key, cls, s0, b, i)
  {
    assert PartAt(key, cls, s0, s, b, at, cuts, i);
  }

  /** Once all shards have come to their ends the state is that of the sequential sweep. */
  lemma InterleavedIsSequential(key: KeyOf, cls: seq<nat>, s0: State, s: State, b: seq<nat>, at: seq<nat>,
                                cuts: seq<bool>)
    requires StateOk(s0, |cls|) && GroupedIn(cls, s0.order, 0, |s0.order|)
    requires Running(key, cls, s0, s, b, at, cuts) && forall i :: 0 < i < |b| ==> at[i] == b[i]
    ensures s == RangeFn(key, cls, s0, 0, |s0.order|) && AnyTrue(cuts) == RangeCutFn(key, cls, s0, 0, |s0.order|)
  {
    var done := OneTo(|b| - 1);
    forall i | 0 < i < |b| ensures ShardAt(key, cls, s0, s, b, done, i) && cuts[i] == CutAt(key, cls, s0, b, i) {
      PartDone(key, cls, s0, s, b, at, cuts, i, done);
    }
    assert AnyTrue(cuts) == AnyCut(key, cls, s0, b, done);
    ShardedIsSequential(key, cls, s0, s, AnyTrue(cuts), b, done);
  }
}
