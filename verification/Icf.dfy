/** Identical COMDAT folding over the section array and the double-buffered class numbers. */
module Icf {
  import opened Collections
  import opened Words
  import opened IcfSections
  import opened IcfPass
  import opened IcfShards
  import opened IcfInterleave
  import opened IcfSeeding
  import opened IcfRun

  const MIN_PARALLEL: nat := 1024
  const NUM_SHARDS: nat := 256

  /** A sweep under way: where it started, the numbers it reads, the shards that have split
      something, and whether another round was due before. */
  datatype Sweeping = Sweeping(s0: State, cls: Classes, cuts: seq<bool>, before: bool)

  /** The class numbers and the order between two passes. */
  datatype Snapshot = Snapshot(cur: Classes, nxt: Classes, order: seq<nat>) {
    ghost predicate Ok(p: Program) {
      Valid(p) && ClassesOk(p, cur) && ClassesOk(p, nxt) && Within(order, |p.secs|)
    }

    ghost function Classes(): nat
      requires Within(order, |cur|)
    {
      |Ids(cur, order)|
    }
  }

  /** What the classes are in the end: exact in the sense the number of passes warrants, contiguous,
      each in input order and numbered by its end. */
  ghost predicate Final(p: Program, two: bool, passes: nat, cls: Classes, order: seq<nat>) {
    Valid(p) && ClassesOk(p, cls) && Exact(p, SenseOf(two), cls) &&
    Lists(p, order) && GroupedIn(cls, order, 0, |order|) && IdsAreEnds(cls, order) &&
    if two then 2 <= passes <= |order| + 1 else passes == 1
  }

  /** What the loop over the variable passes maintains. */
  ghost predicate Progress(p: Program, v: nat, r: Snapshot, again: bool, two: bool) {
    r.Ok(p) && Between(p, v, r.cur, r.nxt, r.order) && (!again ==> Exact(p, SenseOf(v >= 2), r.cur)) &&
    (if v == 0 then again && two == NotBisimilar(p, r.cur) else two == (v >= 2 || again)) &&
    v + (if again then 0 else -1) <= r.Classes() <= |r.order|
  }

  lemma ProgressStart(p: Program, r: Snapshot, two: bool)
    requires r.Ok(p) && Between(p, 0, r.cur, r.nxt, r.order) && two == NotBisimilar(p, r.cur)
    ensures Progress(p, 0, r, true, two)
  {
    IdsBounded(r.cur, r.order);
  }

  lemma ProgressEnds(p: Program, v: nat, r: Snapshot, two: bool)
    requires Progress(p, v, r, false, two)
    ensures Final(p, two, v, r.cur, r.order)
  {
  }

  lemma ProgressStep(p: Program, v: nat, next: nat, r: Snapshot, r': Snapshot, again: bool, two: bool)
    requires next == v + 1 && r.Ok(p) && r'.Ok(p) && Progress(p, v, r, true, two)
    requires Between(p, next, r'.cur, r'.nxt, r'.order)
    requires v == 0 ==> again == NotBisimilar(p, r.cur)
    requires !again ==> Exact(p, SenseOf(next >= 2), r'.cur)
    requires r.Classes() <= r'.Classes() <= |r'.order| && (again ==> r.Classes() < r'.Classes())
    ensures Progress(p, next, r', again, two)
  {
  }

  /** The number of classes does not shrink, and grows when a class has come apart. */
  ghost predicate Grows(cls: seq<nat>, next: seq<nat>, was: seq<nat>, now: seq<nat>)
    requires Within(was, |cls|) && Within(now, |next|) && |cls| == |next|
  {
    |Ids(cls, was)| <= |Ids(next, now)| && (Split(cls, next, now, 0, |now|) ==> |Ids(cls, was)| < |Ids(next, now)|)
  }

  lemma GrowsBy(key: KeyOf, cls: seq<nat>, next: seq<nat>, was: seq<nat>, now: seq<nat>)
    requires |cls| == |next| && Within(was, |cls|) && Within(now, |cls|) && |was| == |now|
    requires Refined(key, cls, next, was, now, 0, |now|) && IdsAreEnds(cls, was)
    ensures Grows(cls, next, was, now)
  {
    ClassesGrow(key, cls, next, was, now);
    SubsetCard(Ids(cls, was), Ids(next, now));
  }

  lemma ListsSorted(p: Program, s: seq<nat>, t: seq<nat>)
    requires Lists(p, s) && Within(t, |p.secs|) && multiset(s) == multiset(t)
    ensures Lists(p, t)
  {
    forall x: nat ensures x in t <==> Eligible(p, x) {
      assert x in multiset(t) <==> x in multiset(s);
    }
  }

  // ------------------------------------------------------------------ the passes on the arrays

  class ICF {
    const p: Program
    const chunks: array<nat>
    const eq0: array<nat>
    const eq1: array<nat>
    var again: bool

    constructor (program: Program, list: seq<nat>)
      requires Within(list, |program.secs|)
      ensures p == program && chunks[..] == list && fresh(chunks) && fresh(eq0) && fresh(eq1)
      ensures eq0.Length == eq1.Length == |p.secs| && eq0 != eq1 && chunks != eq0 && chunks != eq1
      ensures forall k :: 0 <= k < |p.secs| ==> eq0[k] == 0 && eq1[k] == 0
    {
      p := program;
      chunks := new nat[|list|](i requires 0 <= i < |list| => list[i]);
      eq0 := new nat[|program.secs|](i => 0);
      eq1 := new nat[|program.secs|](i => 0);
      again := false;
    }

    /** The slots are two different arrays, and neither is the list. */
    ghost predicate Wellformed()
      reads this, chunks
    {
      Shape(eq0, eq1)
    }

    /** `cur` and `nxt` stand for the two class numbers of every section: a pass reads one and writes the other. */
    ghost predicate Shape(cur: array<nat>, nxt: array<nat>)
      reads this, chunks
    {
      Valid(p) && cur.Length == nxt.Length == |p.secs| && Within(chunks[..], |p.secs|) &&
      cur != nxt && chunks != cur && chunks != nxt
    }

    /** `key` stands for the comparison that the current pass makes. */
    ghost predicate KeyOk(cur: array<nat>, constant: bool, key: KeyOf)
      requires Valid(p) && cur.Length == |p.secs|
      reads cur
    {
      IsKey(p, constant, cur[..], key)
    }

    // -------------------------------------------------------------- splitting a class

    /** Separates the sections equal to the first one of the range from the others. */
    method Divide(cur: array<nat>, begin: nat, end: nat, constant: bool, ghost key: KeyOf)
      returns (group: seq<nat>, rest: seq<nat>)
      requires Valid(p) && cur.Length == |p.secs| && Within(chunks[..], |p.secs|)
      requires KeyOk(cur, constant, key) && begin < end <= chunks.Length
      ensures group == Keep(key, key(chunks[..][begin]), chunks[..][begin..end])
      ensures rest == Drop(key, key(chunks[..][begin]), chunks[..][begin..end])
    {
      var cls, leader := cur[..], chunks[begin];
      ghost var left := chunks[..][begin..end];
      group, rest := [], [];
      for i := begin to end
        invariant group == Keep(key, key(leader), left[..i - begin])
        invariant rest == Drop(key, key(leader), left[..i - begin])
      {
        assert left[..i + 1 - begin] == left[..i - begin] + [chunks[i]];
        FilterAppend(key, key(leader), left[..i - begin], chunks[i]);
        assert chunks[i] == chunks[..][i] && leader == chunks[..][begin];
        if Equals(p, constant, cls, leader, chunks[i]) {
          group := group + [chunks[i]];
        } else {
          rest := rest + [chunks[i]];
        }
      }
      assert left[..end - begin] == left;
    }

    /** Moves the sections equal to the first one of the range to its front. */
    method StablePartition(cur: array<nat>, begin: nat, end: nat, constant: bool, ghost key: KeyOf) returns (mid: nat)
      requires Valid(p) && cur.Length == |p.secs| && Within(chunks[..], |p.secs|) && chunks != cur
      requires KeyOk(cur, constant, key) && begin < end <= chunks.Length
      modifies chunks
      ensures chunks[..] == PartitionFn(key, old(chunks[..]), begin, end)
      ensures mid == MidFn(key, old(chunks[..]), begin, end)
    {
      var group, rest := Divide(cur, begin, end, constant, key);
      mid := begin + |group|;
      var all := group + rest;
      assert |all| == end - begin;
      forall i | begin <= i < end {
        chunks[i] := all[i - begin];
      }
    }

    /** Numbers a group by the index at which it ends. */
    method Number(nxt: array<nat>, begin: nat, mid: nat)
      requires Within(chunks[..], nxt.Length) && begin <= mid <= chunks.Length && chunks != nxt
      modifies nxt
      ensures nxt[..] == NumberFn(old(nxt[..]), chunks[..][begin..mid], mid)
    {
      ghost var now := chunks[..];
      for i := begin to mid
        invariant chunks[..] == now
        invariant nxt[..] == NumberFn(old(nxt[..]), now[begin..i], mid)
      {
        assert now[begin..i + 1] == now[begin..i] + [now[i]];
        nxt[chunks[i]] := mid;
      }
    }

    /** Splits the class between `begin0` and `end` into groups of equal sections. */
    method Segregate(cur: array<nat>, nxt: array<nat>, begin0: nat, end: nat, constant: bool, ghost key: KeyOf)
      requires Shape(cur, nxt) && KeyOk(cur, constant, key) && begin0 < end <= chunks.Length
      modifies chunks, nxt, this`again
      ensures Shape(cur, nxt)
      ensures State(nxt[..], chunks[..]) == SegregateFn(key, State(old(nxt[..]), old(chunks[..])), begin0, end)
      ensures again == (old(again) || MidFn(key, old(chunks[..]), begin0, end) != end)
    {
      ghost var s0, s := State(nxt[..], chunks[..]), State(nxt[..], chunks[..]);
      ghost var first := MidFn(key, s.order, begin0, end);
      var begin := begin0;
      while begin < end
        invariant nxt[..] == s.next && chunks[..] == s.order && Within(chunks[..], |p.secs|)
        invariant KeyOk(cur, constant, key) && begin0 <= begin <= end
        invariant SegregateFn(key, s, begin, end) == SegregateFn(key, s0, begin0, end)
        invariant if begin == begin0 then again == old(again) && s == s0
                  else first <= begin && again == (old(again) || first != end)
      {
        var mid := StablePartition(cur, begin, end, constant, key);
        PartitionWithin(key, s.order, begin, end, |p.secs|);
        Number(nxt, begin, mid);
        s := SplitFn(key, s, begin, end);
        if mid != end {
          again := true;
        }
        begin := mid;
      }
    }

    // -------------------------------------------------------------- class ranges

    /** The first position after `begin` that belongs to another class. */
    method FindBoundary(cur: array<nat>, begin: nat, end: nat) returns (i: nat)
      requires Within(chunks[..], cur.Length) && begin < end <= chunks.Length
      ensures i == BoundaryFn(cur[..], chunks[..], begin, begin + 1, end)
    {
      i := begin + 1;
      while i < end && cur[chunks[begin]] == cur[chunks[i]]
        invariant begin < i <= end
        invariant BoundaryFn(cur[..], chunks[..], begin, i, end) ==
          BoundaryFn(cur[..], chunks[..], begin, begin + 1, end)
      {
        i := i + 1;
      }
    }

    /** Segregates the classes between `lo` and `hi`, one after the other. */
    method ForEachClassRange(cur: array<nat>, nxt: array<nat>, lo: nat, hi: nat, constant: bool, ghost key: KeyOf)
      requires Shape(cur, nxt) && KeyOk(cur, constant, key) && lo <= hi <= chunks.Length
      modifies chunks, nxt, this`again
      ensures Shape(cur, nxt)
      ensures State(nxt[..], chunks[..]) == RangeFn(key, cur[..], State(old(nxt[..]), old(chunks[..])), lo, hi)
      ensures again == (old(again) || RangeCutFn(key, cur[..], State(old(nxt[..]), old(chunks[..])), lo, hi))
    {
      var begin := lo;
      ghost var s0, s, cls := State(nxt[..], chunks[..]), State(nxt[..], chunks[..]), cur[..];
      while begin < hi
        invariant nxt[..] == s.next && chunks[..] == s.order && StateOk(s, |cls|)
        invariant cur[..] == cls && lo <= begin <= hi
        invariant RangeFn(key, cls, s, begin, hi) == RangeFn(key, cls, s0, lo, hi)
        invariant (again || RangeCutFn(key, cls, s, begin, hi)) == (old(again) || RangeCutFn(key, cls, s0, lo, hi))
      {
        var mid := FindBoundary(cur, begin, hi);
        Segregate(cur, nxt, begin, mid, constant, key);
        s := SegregateFn(key, s, begin, mid);
        begin := mid;
      }
    }

    /** Where the shards are cut. */
    method Boundaries(cur: array<nat>) returns (b: seq<nat>)
      requires Within(chunks[..], cur.Length) && NUM_SHARDS <= chunks.Length
      requires GroupedIn(cur[..], chunks[..], 0, chunks.Length)
      ensures |b| == NUM_SHARDS + 1 && Tiling(cur[..], chunks[..], b)
    {
      var step := chunks.Length / NUM_SHARDS;
      ghost var cls, order, xs: seq<nat> := cur[..], chunks[..], [0];
      b := [0];
      for i := 1 to NUM_SHARDS
        invariant |b| == i && Cuts(cls, order, xs, b) && xs[i - 1] <= (i - 1) * step
      {
        ShardStart(chunks.Length, NUM_SHARDS, i);
        var x: nat := (i - 1) * step;
        var e := FindBoundary(cur, x, chunks.Length);
        CutsStep(cls, order, xs, b, x, e);
        b, xs := b + [e], xs + [x];
      }
      CutsTile(cls, order, xs, b);
      b := b + [chunks.Length];
    }

    /** One sweep over all classes: sequential if there are few sections, in shards otherwise. The
        shards take turns as `sched` says, which does not show in the result. */
    method ForEachClass(cur: array<nat>, nxt: array<nat>, constant: bool, sched: seq<nat>, ghost key: KeyOf)
      requires Shape(cur, nxt) && KeyOk(cur, constant, key)
      requires GroupedIn(cur[..], chunks[..], 0, chunks.Length)
      modifies chunks, nxt, this`again
      ensures Shape(cur, nxt)
      ensures State(nxt[..], chunks[..])
           == RangeFn(key, cur[..], State(old(nxt[..]), old(chunks[..])), 0, chunks.Length)
      ensures again == (old(again) || RangeCutFn(key, cur[..], State(old(nxt[..]), old(chunks[..])), 0, chunks.Length))
    {
      if chunks.Length < MIN_PARALLEL {
        ForEachClassRange(cur, nxt, 0, chunks.Length, constant, key);
      } else {
        var b := Boundaries(cur);
        ForEachShard(cur, nxt, b, constant, sched, key);
      }
    }

    /** The shards have come to the positions `at`; `again` was `before` at the start. */
    ghost predicate Interleaving(cur: array<nat>, nxt: array<nat>, constant: bool, key: KeyOf, b: seq<nat>,
                                 at: seq<nat>, w: Sweeping)
      reads this, chunks, cur, nxt
    {
      Shape(cur, nxt) && KeyOk(cur, constant, key) && cur[..] == w.cls && StateOk(w.s0, |w.cls|) &&
      Running(key, w.cls, w.s0, State(nxt[..], chunks[..]), b, at, w.cuts) && again == (w.before || AnyTrue(w.cuts))
    }

    /** The shards take turns, a class at a time, as `sched` says; then each goes on to its end. */
    method ForEachShard(cur: array<nat>, nxt: array<nat>, b: seq<nat>, constant: bool, sched: seq<nat>,
                        ghost key: KeyOf)
      requires Shape(cur, nxt) && KeyOk(cur, constant, key)
      requires GroupedIn(cur[..], chunks[..], 0, chunks.Length) && Tiling(cur[..], chunks[..], b)
      modifies chunks, nxt, this`again
      ensures Shape(cur, nxt)
      ensures State(nxt[..], chunks[..])
           == RangeFn(key, cur[..], State(old(nxt[..]), old(chunks[..])), 0, chunks.Length)
      ensures again == (old(again) || RangeCutFn(key, cur[..], State(old(nxt[..]), old(chunks[..])), 0, chunks.Length))
    {
      ghost var s0 := State(nxt[..], chunks[..]);
      ghost var w := Sweeping(s0, cur[..], seq(|b|, i => false), again);
      var at := [0] + b[..|b| - 1];
      StartRunning(key, w.cls, s0, b, at, w.cuts);
      at, w := TakeTurns(cur, nxt, b, at, constant, sched, key, w);
      at, w := Finish(cur, nxt, b, at, constant, key, w);
      InterleavedIsSequential(key, w.cls, s0, State(nxt[..], chunks[..]), b, at, w.cuts);
    }

    method TakeTurns(cur: array<nat>, nxt: array<nat>, b: seq<nat>, at0: seq<nat>, constant: bool, sched: seq<nat>,
                     ghost key: KeyOf, ghost w0: Sweeping)
      returns (at: seq<nat>, ghost w: Sweeping)
      requires Interleaving(cur, nxt, constant, key, b, at0, w0)
      modifies chunks, nxt, this`again
      ensures Interleaving(cur, nxt, constant, key, b, at, w) && w == w0.(cuts := w.cuts)
    {
      at, w := at0, w0;
      var k := 0;
      while k < |sched|
        invariant Interleaving(cur, nxt, constant, key, b, at, w) && w == w0.(cuts := w.cuts)
      {
        if 0 < sched[k] < |b| && at[sched[k]] < b[sched[k]] {
          at, w := TakeTurn(cur, nxt, b, at, sched[k], constant, key, w);
        }
        k := k + 1;
      }
    }

    method Finish(cur: array<nat>, nxt: array<nat>, b: seq<nat>, at0: seq<nat>, constant: bool,
                  ghost key: KeyOf, ghost w0: Sweeping)
      returns (at: seq<nat>, ghost w: Sweeping)
      requires Interleaving(cur, nxt, constant, key, b, at0, w0)
      modifies chunks, nxt, this`again
      ensures Interleaving(cur, nxt, constant, key, b, at, w) && w == w0.(cuts := w.cuts)
      ensures forall i :: 0 < i < |b| ==> at[i] == b[i]
    {
      at, w := at0, w0;
      var i := 1;
      while i < |b|
        invariant 0 < i <= |b| && Interleaving(cur, nxt, constant, key, b, at, w) && w == w0.(cuts := w.cuts)
        invariant forall j :: 0 < j < i ==> at[j] == b[j]
      {
        at, w := FinishShard(cur, nxt, b, at, i, constant, key, w);
        i := i + 1;
      }
    }

    /** Shard `i` goes on to its end. */
    method FinishShard(cur: array<nat>, nxt: array<nat>, b: seq<nat>, at0: seq<nat>, i: nat, constant: bool,
                       ghost key: KeyOf, ghost w0: Sweeping)
      returns (at: seq<nat>, ghost w: Sweeping)
      requires Interleaving(cur, nxt, constant, key, b, at0, w0) && 0 < i < |b|
      modifies chunks, nxt, this`again
      ensures Interleaving(cur, nxt, constant, key, b, at, w) && w == w0.(cuts := w.cuts)
      ensures |at| == |at0| == |b| && at == at0[i := b[i]]
    {
      AtInside(key, w0.cls, w0.s0, State(nxt[..], chunks[..]), b, at0, w0.cuts, i);
      at, w := at0, w0;
      var begin, end := at[i], b[i];
      while begin < end
        invariant Interleaving(cur, nxt, constant, key, b, at, w) && w == w0.(cuts := w.cuts)
        invariant |at| == |at0| && at == at0[i := begin] && begin <= end
        decreases end - begin
      {
        at, w := TakeTurn(cur, nxt, b, at, i, constant, key, w);
        begin := at[i];
      }
    }

    /** Shard `i` segregates its next class. */
    method TakeTurn(cur: array<nat>, nxt: array<nat>, b: seq<nat>, at: seq<nat>, i: nat, constant: bool,
                    ghost key: KeyOf, ghost w: Sweeping)
      returns (at': seq<nat>, ghost w': Sweeping)
      requires Interleaving(cur, nxt, constant, key, b, at, w) && 0 < i < |b| && at[i] < b[i]
      modifies chunks, nxt, this`again
      ensures Interleaving(cur, nxt, constant, key, b, at', w') && w' == w.(cuts := w'.cuts)
      ensures at[i] < at'[i] <= b[i] && at' == at[i := at'[i]]
    {
      ghost var s := State(nxt[..], chunks[..]);
      var begin := at[i];
      assert PartAt(key, w.cls, w.s0, s, b, at, w.cuts, i);
      var mid := FindBoundary(cur, begin, b[i]);
      Segregate(cur, nxt, begin, mid, constant, key);
      ghost var cut := w.cuts[i] || MidFn(key, s.order, begin, mid) != mid;
      Turn(key, w.cls, w.s0, s, State(nxt[..], chunks[..]), b, at, w.cuts, i, mid, cut);
      at', w' := at[i := mid], w.(cuts := w.cuts[i := cut]);
    }

    // -------------------------------------------------------------- seeding

    /** The ids of the sections that cannot be folded. */
    method NumberOthers()
      requires Wellformed()
      modifies eq0
      ensures forall k :: 0 <= k < |p.secs| ==>
        eq0[k] == if Eligible(p, k) then old(eq0[k]) else NextId(p, k)
    {
      var nextId := 1;
      var k := 0;
      while k < |p.secs|
        invariant 0 <= k <= |p.secs| && nextId == NextId(p, k)
        invariant forall i :: 0 <= i < |p.secs| ==> eq0[i] == NumberedId(p, k, i, old(eq0[i]))
      {
        var next := k + 1;
        if !Eligible(p, k) {
          eq0[k] := nextId;
          nextId := nextId + 1;
        }
        k := next;
      }
    }

    /** The content hashes of the others. */
    method HashContents(hash: HashOf)
      requires Wellformed() && Lists(p, chunks[..])
      modifies eq0
      ensures forall k :: 0 <= k < |p.secs| ==>
        eq0[k] == if Eligible(p, k) then hash(p.secs[k].header.contents) % TWO_32 else old(eq0[k])
    {
      ghost var order := chunks[..];
      for i := 0 to chunks.Length
        invariant chunks[..] == order
        invariant forall k :: 0 <= k < |p.secs| ==>
          eq0[k] == if k in order[..i] then hash(p.secs[k].header.contents) % TWO_32 else old(eq0[k])
      {
        assert order[..i + 1] == order[..i] + [chunks[i]];
        eq0[chunks[i]] := hash(p.secs[chunks[i]].header.contents) % TWO_32;
      }
      assert order[..chunks.Length] == order;
    }

    /** The number of a section mixed with those of the sections it refers to. */
    method Mix(cur: array<nat>, a: nat) returns (h: nat)
      requires Valid(p) && cur.Length == |p.secs| && a < |p.secs|
      ensures h == Mixed(p, cur[..], a)
    {
      assert SectionOk(p, p.secs[a]);
      var relocs := p.secs[a].relocs;
      h := cur[a] % TWO_32;
      for i := 0 to |relocs|
        invariant h < TWO_32 && TargetSum(p, cur[..], relocs[i..], h) == TargetSum(p, cur[..], relocs, cur[a] % TWO_32)
      {
        var sym := p.syms[relocs[i].sym];
        if sym.Regular? {
          h := (h + cur[sym.chunk]) % TWO_32;
        }
      }
      h := WithTopBit(h);
    }

    /** One round of mixing. */
    method Round(cur: array<nat>, nxt: array<nat>)
      requires Shape(cur, nxt) && Lists(p, chunks[..])
      modifies nxt
      ensures IsRound(p, cur[..], old(nxt[..]), nxt[..])
    {
      ghost var order, cls := chunks[..], cur[..];
      for i := 0 to chunks.Length
        invariant chunks[..] == order && cur[..] == cls
        invariant forall k :: 0 <= k < |p.secs| ==>
          nxt[k] == if k in order[..i] then Mixed(p, cls, k) else old(nxt[k])
      {
        assert order[..i + 1] == order[..i] + [chunks[i]];
        var h := Mix(cur, chunks[i]);
        nxt[chunks[i]] := h;
      }
      assert order[..chunks.Length] == order;
    }

    method Seed(hash: HashOf)
      requires Wellformed() && Lists(p, chunks[..])
      requires forall k :: 0 <= k < |p.secs| ==> eq0[k] == 0 && eq1[k] == 0
      modifies eq0, eq1
      ensures IsSeeded(p, hash, eq0[..], eq1[..])
    {
      ghost var zeros := eq1[..];
      NumberOthers();
      HashContents(hash);
      ghost var first := eq0[..];
      assert forall k :: 0 <= k < |p.secs| ==> first[k] == FirstNumber(p, hash, k) && zeros[k] == 0;
      Round(eq0, eq1);
      Round(eq1, eq0);
      assert Seeding(p, hash, first, zeros, eq0[..], eq1[..]);
    }

    /** Brings the sections of one number together. */
    method Sort()
      requires Wellformed() && Ascending(chunks[..])
      modifies chunks
      ensures chunks[..] == SortBy(eq0[..], old(chunks[..]))
    {
      ghost var cls := eq0[..];
      var sorted := SortBy(eq0[..], chunks[..]);
      assert |sorted| == chunks.Length by {
        SortGroups(eq0[..], chunks[..]);
        assert |multiset(sorted)| == |multiset(chunks[..])|;
      }
      forall i | 0 <= i < chunks.Length {
        chunks[i] := sorted[i];
      }
      assert chunks[..] == sorted && eq0[..] == cls;
    }

    // -------------------------------------------------------------- the passes

    /** One sweep of `Segregate` over all classes, in terms of the comparisons it makes. */
    method Sweep(cur: array<nat>, nxt: array<nat>, constant: bool, sched: seq<nat>)
      requires Shape(cur, nxt) && Lists(p, chunks[..])
      requires GroupedIn(cur[..], chunks[..], 0, chunks.Length)
      modifies chunks, nxt, this`again
      ensures Shape(cur, nxt)
      ensures Pass(p, constant, cur[..], old(nxt[..]), nxt[..], old(chunks[..]), chunks[..])
      ensures again == (old(again) || Split(cur[..], nxt[..], chunks[..], 0, chunks.Length))
      ensures IdsAreEnds(cur[..], old(chunks[..])) ==> Grows(cur[..], nxt[..], old(chunks[..]), chunks[..])
    {
      ghost var cls, s := cur[..], State(nxt[..], chunks[..]);
      ghost var key := KeyExists(p, constant, cls);
      ForEachClass(cur, nxt, constant, sched, key);
      SweepIsPass(p, constant, key, cls, s);
      if IdsAreEnds(cls, s.order) {
        GrowsBy(key, cls, nxt[..], s.order, chunks[..]);
      }
    }

    /** Computes the classes. The sweeps' shards take turns as `scheds` says. */
    method Run(hash: HashOf, scheds: nat -> seq<nat>) returns (passes: nat, cur: array<nat>)
      requires Wellformed() && Lists(p, chunks[..]) && Ascending(chunks[..])
      requires forall k :: 0 <= k < |p.secs| ==> eq0[k] == 0 && eq1[k] == 0
      modifies chunks, eq0, eq1, this`again
      ensures (cur == eq0 || cur == eq1) && cur.Length == |p.secs| && Within(chunks[..], |p.secs|)
      ensures Final(p, NeedsTwo(p, hash), passes, cur[..], chunks[..])
    {
      Seed(hash);
      SortGroups(eq0[..], chunks[..]);
      ListsSorted(p, chunks[..], SortBy(eq0[..], chunks[..]));
      Sort();
      ghost var cls0, cls1, order := eq0[..], eq1[..], chunks[..];
      Sweep(eq0, eq1, true, scheds(0));
      ConstantPass(p, hash, cls0, cls1, eq1[..], order, chunks[..]);
      FirstPassNeedsTwo(p, hash, cls0, cls1, eq1[..], order, chunks[..]);
      ghost var r;
      passes, cur, r := Refine(scheds, NeedsTwo(p, hash));
    }

    /** The loop over the variable passes; `cur` is the slot written last. */
    method Refine(scheds: nat -> seq<nat>, ghost two: bool)
      returns (passes: nat, cur: array<nat>, ghost r: Snapshot)
      requires Wellformed() && Between(p, 0, eq1[..], eq0[..], chunks[..])
      requires two == NotBisimilar(p, eq1[..])
      modifies chunks, eq0, eq1, this`again
      ensures (cur == eq0 || cur == eq1) && r.Ok(p) && cur[..] == r.cur && chunks[..] == r.order
      ensures Final(p, two, passes, r.cur, r.order)
    {
      passes, cur := 0, eq1;
      again := true;
      var nxt := eq0;
      r := Snapshot(cur[..], nxt[..], chunks[..]);
      ProgressStart(p, r, two);
      while again
        invariant (cur == eq0 && nxt == eq1) || (cur == eq1 && nxt == eq0)
        invariant Shape(cur, nxt) && cur[..] == r.cur && nxt[..] == r.nxt && chunks[..] == r.order
        invariant Progress(p, passes, r, again, two)
        decreases |r.order| - r.Classes(), again
      {
        var next := passes + 1;
        VariableSweep(passes, next, cur, nxt, scheds(next));
        ghost var r' := Snapshot(nxt[..], cur[..], chunks[..]);
        ProgressStep(p, passes, next, r, r', again, two);
        r := r';
        passes := next;
        cur, nxt := nxt, cur;
      }
      ProgressEnds(p, passes, r, two);
    }

    /** One pass over the relocation targets, which reads `cur` and writes `nxt`. */
    method VariableSweep(v: nat, next: nat, cur: array<nat>, nxt: array<nat>, sched: seq<nat>)
      requires next == v + 1 && Shape(cur, nxt) && Between(p, v, cur[..], nxt[..], chunks[..])
      modifies chunks, nxt, this`again
      ensures Shape(cur, nxt) && Between(p, next, nxt[..], cur[..], chunks[..])
      ensures v == 0 ==> again == NotBisimilar(p, cur[..])
      ensures !again ==> Exact(p, SenseOf(next >= 2), nxt[..])
      ensures |Ids(cur[..], old(chunks[..]))| <= |Ids(nxt[..], chunks[..])| <= chunks.Length
      ensures again ==> |Ids(cur[..], old(chunks[..]))| < |Ids(nxt[..], chunks[..])|
    {
      ghost var cls, before, order := cur[..], nxt[..], chunks[..];
      again := false;
      Sweep(cur, nxt, false, sched);
      VariablePass(p, v, next, cls, before, nxt[..], order, chunks[..]);
      if v == 0 {
        FirstPassSplits(p, cls, before, nxt[..], order, chunks[..]);
      }
      if !again {
        StablePassIsExact(p, v, next, cls, before, nxt[..], order, chunks[..]);
      }
      IdsBounded(nxt[..], chunks[..]);
    }
  }
}
