/** Splitting one class into groups of equal sections, and what a whole pass leaves behind. Two
    sections are equal when their keys are; nothing here depends on what a key stands for. */
module IcfPass {
  import opened Collections

  type KeyOf = nat -> nat

  // ------------------------------------------------------------------ stable partition

  /** The sections of `s` whose key is `k`, in order. */
  ghost function Keep(key: KeyOf, k: nat, s: seq<nat>): (r: seq<nat>)
    ensures |r| <= |s|
  {
    if s == [] then [] else (if key(s[0]) == k then [s[0]] else []) + Keep(key, k, s[1..])
  }

  /** The others, in order. */
  ghost function Drop(key: KeyOf, k: nat, s: seq<nat>): (r: seq<nat>)
    ensures |r| + |Keep(key, k, s)| == |s|
  {
    if s == [] then [] else (if key(s[0]) == k then [] else [s[0]]) + Drop(key, k, s[1..])
  }

  lemma {:induction false} FilterMembers(key: KeyOf, k: nat, s: seq<nat>)
    ensures forall x :: x in Keep(key, k, s) <==> x in s && key(x) == k
    ensures forall x :: x in Drop(key, k, s) <==> x in s && key(x) != k
  {
    if s != [] {
      FilterMembers(key, k, s[1..]);
      assert s == [s[0]] + s[1..];
    }
  }

  lemma {:induction false} FilterMultiset(key: KeyOf, k: nat, s: seq<nat>)
    ensures multiset(Keep(key, k, s)) + multiset(Drop(key, k, s)) == multiset(s)
  {
    if s != [] {
      FilterMultiset(key, k, s[1..]);
      assert s == [s[0]] + s[1..];
    }
  }

  lemma FilterAppend(key: KeyOf, k: nat, s: seq<nat>, x: nat)
    ensures Keep(key, k, s + [x]) == Keep(key, k, s) + (if key(x) == k then [x] else [])
    ensures Drop(key, k, s + [x]) == Drop(key, k, s) + (if key(x) == k then [] else [x])
  {
    KeepAppend(key, k, s, x);
    DropAppend(key, k, s, x);
  }

  lemma {:induction false} KeepAppend(key: KeyOf, k: nat, s: seq<nat>, x: nat)
    ensures Keep(key, k, s + [x]) == Keep(key, k, s) + (if key(x) == k then [x] else [])
  {
    if s == [] {
      assert s + [x] == [x];
    } else {
      var rest, head, tail := s[1..], if key(s[0]) == k then [s[0]] else [], if key(x) == k then [x] else [];
      KeepAppend(key, k, rest, x);
      assert (s + [x])[1..] == rest + [x];
      assert head + (Keep(key, k, rest) + tail) == head + Keep(key, k, rest) + tail;
    }
  }

  lemma {:induction false} DropAppend(key: KeyOf, k: nat, s: seq<nat>, x: nat)
    ensures Drop(key, k, s + [x]) == Drop(key, k, s) + (if key(x) == k then [] else [x])
  {
    if s == [] {
      assert s + [x] == [x];
    } else {
      var rest, head, tail := s[1..], if key(s[0]) == k then [] else [s[0]], if key(x) == k then [] else [x];
      DropAppend(key, k, rest, x);
      assert (s + [x])[1..] == rest + [x];
      assert head + (Drop(key, k, rest) + tail) == head + Drop(key, k, rest) + tail;
    }
  }

  lemma PrependAscends(x: nat, s: seq<nat>)
    requires Ascending(s) && forall y :: y in s ==> x < y
    ensures Ascending([x] + s)
  {
    forall k | 0 <= k < |s| ensures x < s[k] {
      assert s[k] in s;
    }
  }

  lemma {:induction false} FiltersAscend(key: KeyOf, k: nat, s: seq<nat>)
    requires Ascending(s)
    ensures Ascending(Keep(key, k, s)) && Ascending(Drop(key, k, s))
  {
    if s != [] {
      FiltersAscend(key, k, s[1..]);
      FilterMembers(key, k, s[1..]);
      forall y | y in s[1..] ensures s[0] < y {
        var i: nat :| i < |s[1..]| && s[1..][i] == y;
      }
      PrependAscends(s[0], Keep(key, k, s[1..]));
      PrependAscends(s[0], Drop(key, k, s[1..]));
    }
  }

  /** What the filters make of a list of unprocessed sections: `group` has the key of the first
      one, `rest` has not, both are in order, and together they are that list. */
  ghost predicate Partitioned(key: KeyOf, s: seq<nat>, group: seq<nat>, rest: seq<nat>) {
    s != [] && group != [] && |group| + |rest| == |s| && Ascending(group) && Ascending(rest) &&
    (forall x :: x in group ==> key(x) == key(s[0]) && x in s) &&
    (forall x :: x in rest ==> key(x) != key(s[0]) && x in s) &&
    forall x :: x in s ==> x in group || x in rest
  }

  lemma FiltersPartition(key: KeyOf, s: seq<nat>)
    requires s != [] && Ascending(s)
    ensures Partitioned(key, s, Keep(key, key(s[0]), s), Drop(key, key(s[0]), s))
  {
    FilterMembers(key, key(s[0]), s);
    FiltersAscend(key, key(s[0]), s);
    assert s[0] in s;
    assert s[0] in Keep(key, key(s[0]), s);
  }

  // ------------------------------------------------------------------ splitting one class

  /** Sections sit before the end of their group; two of them are in one group exactly when their
      keys agree, and exactly when the later one sits before the end of the earlier one's group;
      inside a group the order is ascending. */
  ghost predicate LaidOut(key: KeyOf, next: seq<nat>, now: seq<nat>, i: nat, j: nat)
    requires i <= j < |now| && Within(now, |next|)
  {
    var e := next[now[i]];
    i < e && (next[now[j]] == e <==> key(now[i]) == key(now[j])) && (next[now[j]] == e <==> j < e) &&
    (i < j < e ==> now[i] < now[j])
  }

  /** The loop of `segregate` has dealt with positions `lo` up to `begin` of a class that ends at `hi`. */
  ghost predicate Segregated(key: KeyOf, next: seq<nat>, now: seq<nat>, lo: nat, begin: nat, hi: nat)
    requires lo <= begin <= hi <= |now| && Within(now, |next|)
  {
    (forall i :: lo <= i < begin ==> next[now[i]] <= begin) &&
    (forall i, j :: lo <= i <= j < begin ==> LaidOut(key, next, now, i, j)) &&
    (forall i, j :: lo <= i < begin <= j < hi ==> key(now[i]) != key(now[j])) &&
    Ascending(now[begin..hi])
  }

  /** One turn of that loop: partition what is left, and number the group by its end. */
  lemma SegregateStep(key: KeyOf, next: seq<nat>, now: seq<nat>, next': seq<nat>, now': seq<nat>,
                      lo: nat, begin: nat, hi: nat, group: seq<nat>, rest: seq<nat>)
    requires lo <= begin < hi <= |now| == |now'| && |next| == |next'|
    requires Within(now, |next|) && Within(now', |next|)
    requires Segregated(key, next, now, lo, begin, hi) && Partitioned(key, now[begin..hi], group, rest)
    requires forall i :: 0 <= i < begin ==> now'[i] == now[i]
    requires now'[begin..begin + |group|] == group && now'[begin + |group|..hi] == rest
    requires forall x :: 0 <= x < |next| ==> next'[x] == if x in group then begin + |group| else next[x]
    ensures Segregated(key, next', now', lo, begin + |group|, hi)
  {
    var mid := begin + |group|;
    var leader := now[begin];
    assert now[begin..hi][0] == leader;
    forall i | lo <= i < begin ensures next'[now'[i]] == next[now[i]] && key(now'[i]) != key(leader) {
      assert now[i] !in group;
    }
    forall j | begin <= j < mid
      ensures now'[j] == group[j - begin] && next'[now'[j]] == mid && key(now'[j]) == key(leader) {
      assert now'[j] == now'[begin..mid][j - begin];
    }
    forall j | mid <= j < hi ensures key(now'[j]) != key(leader) && exists k :: begin <= k < hi && now[k] == now'[j] {
      RestComesFrom(key, now, now', begin, mid, hi, group, rest, j);
    }
    forall i, j | lo <= i <= j < mid ensures LaidOut(key, next', now', i, j) {
      if j < begin {
        assert LaidOut(key, next, now, i, j);
      } else if i < begin {
        assert LaidOut(key, next, now, i, i);
      }
    }
  }

  /** What is left after the group was in the class before, and differs from the leader. */
  lemma RestComesFrom(key: KeyOf, now: seq<nat>, now': seq<nat>, begin: nat, mid: nat, hi: nat,
                      group: seq<nat>, rest: seq<nat>, j: nat)
    requires begin < hi <= |now| == |now'| && begin <= mid <= j < hi && Partitioned(key, now[begin..hi], group, rest)
    requires now'[mid..hi] == rest
    ensures key(now'[j]) != key(now[begin]) && exists k :: begin <= k < hi && now[k] == now'[j]
  {
    assert now[begin..hi][0] == now[begin];
    assert now'[j] == now'[mid..hi][j - mid] == rest[j - mid];
    assert rest[j - mid] in rest;
    var k :| 0 <= k < |now[begin..hi]| && now[begin..hi][k] == now'[j];
    assert now[begin + k] == now'[j];
  }

  // ------------------------------------------------------------------ what the methods compute

  /** The section order and the class numbers being written. */
  datatype State = State(next: seq<nat>, order: seq<nat>)

  ghost predicate StateOk(s: State, n: nat) {
    |s.next| == n && Within(s.order, n)
  }

  /** `order` with the sections equal to the one at `begin` moved to the front of the range. */
  ghost function PartitionFn(key: KeyOf, order: seq<nat>, begin: nat, end: nat): (r: seq<nat>)
    requires begin < end <= |order|
    ensures |r| == |order|
  {
    order[..begin] + Keep(key, key(order[begin]), order[begin..end])
                   + Drop(key, key(order[begin]), order[begin..end]) + order[end..]
  }

  ghost function MidFn(key: KeyOf, order: seq<nat>, begin: nat, end: nat): (mid: nat)
    requires begin < end <= |order|
    ensures begin < mid <= end
  {
    FilterMembers(key, key(order[begin]), order[begin..end]);
    assert order[begin..end][0] == order[begin];
    assert order[begin] in Keep(key, key(order[begin]), order[begin..end]);
    begin + |Keep(key, key(order[begin]), order[begin..end])|
  }

  /** The numbers after every section of `group` has been given number `id`. */
  ghost function NumberFn(next: seq<nat>, group: seq<nat>, id: nat): (r: seq<nat>)
    ensures |r| == |next| && forall x :: 0 <= x < |next| ==> r[x] == if x in group then id else next[x]
  {
    seq(|next|, x requires 0 <= x < |next| => if x in group then id else next[x])
  }

  /** One turn of the loop of `segregate`. */
  ghost function SplitFn(key: KeyOf, s: State, begin: nat, end: nat): State
    requires begin < end <= |s.order|
  {
    var order, mid := PartitionFn(key, s.order, begin, end), MidFn(key, s.order, begin, end);
    State(NumberFn(s.next, order[begin..mid], mid), order)
  }

  ghost function SegregateFn(key: KeyOf, s: State, begin: nat, end: nat): (r: State)
    requires begin <= end <= |s.order|
    ensures |r.next| == |s.next| && |r.order| == |s.order|
    decreases end - begin
  {
    if begin == end then s
    else SegregateFn(key, SplitFn(key, s, begin, end), MidFn(key, s.order, begin, end), end)
  }

  /** The end of the class that starts at `begin`. */
  function BoundaryFn(cls: seq<nat>, order: seq<nat>, begin: nat, i: nat, end: nat): (b: nat)
    requires begin < i <= end <= |order| && Within(order, |cls|)
    ensures i <= b <= end && (forall k :: i <= k < b ==> cls[order[k]] == cls[order[begin]])
    ensures b < end ==> cls[order[b]] != cls[order[begin]]
    decreases end - i
  {
    if i < end && cls[order[i]] == cls[order[begin]] then BoundaryFn(cls, order, begin, i + 1, end) else i
  }

  /** Segregates the classes of a range one after the other. */
  ghost function RangeFn(key: KeyOf, cls: seq<nat>, s: State, begin: nat, end: nat): (r: State)
    requires begin <= end <= |s.order| && StateOk(s, |cls|)
    ensures |r.next| == |s.next| && |r.order| == |s.order|
    decreases end - begin
  {
    if begin == end then s
    else
      var mid := BoundaryFn(cls, s.order, begin, begin + 1, end);
      SegregateLocal(key, s, begin, mid);
      RangeFn(key, cls, SegregateFn(key, s, begin, mid), mid, end)
  }

  // ------------------------------------------------------------------ locality

  /** Only positions `lo` up to `hi` have been permuted, and only their sections renumbered. */
  ghost predicate Local(s: State, s': State, lo: nat, hi: nat) {
    lo <= hi <= |s.order| == |s'.order| && |s.next| == |s'.next| &&
    (forall i :: 0 <= i < |s.order| && !(lo <= i < hi) ==> s'.order[i] == s.order[i]) &&
    multiset(s'.order[lo..hi]) == multiset(s.order[lo..hi]) &&
    forall x :: 0 <= x < |s.next| && x !in multiset(s.order[lo..hi]) ==> s'.next[x] == s.next[x]
  }

  lemma LocalOk(s: State, s': State, lo: nat, hi: nat)
    requires Local(s, s', lo, hi) && StateOk(s, |s.next|)
    ensures StateOk(s', |s.next|)
  {
    forall i | 0 <= i < |s'.order| ensures s'.order[i] < |s.next| {
      if lo <= i < hi {
        var k := SameElement(s.order[lo..hi], s'.order[lo..hi], i - lo);
        assert s.order[lo + k] == s'.order[i];
      }
    }
  }

  /** An element of a permutation occurs in the original. */
  lemma SameElement(s: seq<nat>, t: seq<nat>, i: nat) returns (k: nat)
    requires multiset(s) == multiset(t) && i < |t|
    ensures k < |s| && s[k] == t[i]
  {
    assert t[i] in multiset(t);
    assert t[i] in multiset(s);
    k :| k < |s| && s[k] == t[i];
  }

  lemma LocalTrans(s0: State, s1: State, s2: State, lo: nat, mid: nat, hi: nat)
    requires lo <= mid && Local(s0, s1, lo, hi) && Local(s1, s2, mid, hi)
    ensures Local(s0, s2, lo, hi)
  {
    assert s2.order[lo..mid] == s1.order[lo..mid];
    assert s2.order[lo..hi] == s2.order[lo..mid] + s2.order[mid..hi];
    assert s1.order[lo..hi] == s1.order[lo..mid] + s1.order[mid..hi];
  }

  lemma LocalWiden(s: State, s': State, lo: nat, mid: nat, hi: nat, end: nat)
    requires lo <= mid <= hi <= end <= |s.order| && Local(s, s', mid, hi)
    ensures Local(s, s', lo, end)
  {
    assert s.order[lo..end] == s.order[lo..mid] + s.order[mid..hi] + s.order[hi..end];
    assert s'.order[lo..end] == s.order[lo..mid] + s'.order[mid..hi] + s.order[hi..end];
  }

  lemma FourParts(a: seq<nat>, b: seq<nat>, c: seq<nat>, d: seq<nat>)
    ensures var r := a + b + c + d;
      r[|a|..|a| + |b|] == b && r[|a| + |b|..|a| + |b| + |c|] == c && r[|a|..|a| + |b| + |c|] == b + c &&
      (forall i :: 0 <= i < |a| ==> r[i] == a[i]) &&
      forall i :: |a| + |b| + |c| <= i < |r| ==> r[i] == d[i - |a| - |b| - |c|]
  {
  }

  /** The slices of a partitioned order. */
  lemma PartitionParts(key: KeyOf, order: seq<nat>, begin: nat, end: nat)
    requires begin < end <= |order|
    ensures var r, mid, k, left := PartitionFn(key, order, begin, end), MidFn(key, order, begin, end),
                                   key(order[begin]), order[begin..end];
      r[begin..mid] == Keep(key, k, left) && r[mid..end] == Drop(key, k, left) &&
      r[begin..end] == Keep(key, k, left) + Drop(key, k, left) &&
      forall i :: 0 <= i < |order| && !(begin <= i < end) ==> r[i] == order[i]
  {
    var k, left := key(order[begin]), order[begin..end];
    FourParts(order[..begin], Keep(key, k, left), Drop(key, k, left), order[end..]);
  }

  lemma PartitionWithin(key: KeyOf, order: seq<nat>, begin: nat, end: nat, n: nat)
    requires begin < end <= |order| && Within(order, n)
    ensures Within(PartitionFn(key, order, begin, end), n)
  {
    var s := State(seq(n, i => 0), order);
    SplitLocal(key, s, begin, end);
    LocalOk(s, SplitFn(key, s, begin, end), begin, end);
  }

  lemma SplitLocal(key: KeyOf, s: State, begin: nat, end: nat)
    requires begin < end <= |s.order|
    ensures Local(s, SplitFn(key, s, begin, end), begin, end)
  {
    PartitionParts(key, s.order, begin, end);
    FilterMultiset(key, key(s.order[begin]), s.order[begin..end]);
    SplitNumbers(key, s, begin, end);
  }

  lemma SplitNumbers(key: KeyOf, s: State, begin: nat, end: nat)
    requires begin < end <= |s.order|
    ensures var s' := SplitFn(key, s, begin, end);
      forall x :: 0 <= x < |s.next| && x !in multiset(s.order[begin..end]) ==> s'.next[x] == s.next[x]
  {
    PartitionParts(key, s.order, begin, end);
    FilterMembers(key, key(s.order[begin]), s.order[begin..end]);
  }

  lemma {:induction false} SegregateLocal(key: KeyOf, s: State, begin: nat, end: nat)
    requires begin <= end <= |s.order| && StateOk(s, |s.next|)
    ensures Local(s, SegregateFn(key, s, begin, end), begin, end)
    ensures StateOk(SegregateFn(key, s, begin, end), |s.next|)
    decreases end - begin
  {
    if begin < end {
      var s', mid := SplitFn(key, s, begin, end), MidFn(key, s.order, begin, end);
      SplitLocal(key, s, begin, end);
      LocalOk(s, s', begin, end);
      SegregateLocal(key, s', mid, end);
      LocalTrans(s, s', SegregateFn(key, s', mid, end), begin, mid, end);
    }
  }

  // ------------------------------------------------------------------ a range of classes

  /** What a pass has made of positions `lo` up to `hi`: `was` is the order before, `now` after. */
  ghost predicate Refined(key: KeyOf, cls: seq<nat>, next: seq<nat>, was: seq<nat>, now: seq<nat>, lo: nat, hi: nat)
    requires |cls| == |next| && Within(was, |cls|) && Within(now, |cls|) && lo <= hi <= |was| == |now|
  {
    (forall i :: lo <= i < hi ==> cls[now[i]] == cls[was[i]] && next[now[i]] <= hi) &&
    forall i, j :: lo <= i <= j < hi ==> LaidOutIn(key, cls, next, now, i, j)
  }

  /** As `LaidOut`, but groups may also be told apart by the class they come from. */
  ghost predicate LaidOutIn(key: KeyOf, cls: seq<nat>, next: seq<nat>, now: seq<nat>, i: nat, j: nat)
    requires i <= j < |now| && Within(now, |next|) && |cls| == |next|
  {
    var e := next[now[i]];
    i < e && (next[now[j]] == e <==> cls[now[i]] == cls[now[j]] && key(now[i]) == key(now[j])) &&
    (next[now[j]] == e <==> j < e) && (i < j < e ==> now[i] < now[j])
  }

  /** A class that has been segregated to its end is refined. */
  lemma SegregatedRefined(key: KeyOf, cls: seq<nat>, next: seq<nat>, was: seq<nat>, now: seq<nat>, lo: nat, hi: nat)
    requires |cls| == |next| && Within(was, |cls|) && Within(now, |cls|) && lo <= hi <= |was| == |now|
    requires Segregated(key, next, now, lo, hi, hi) && multiset(now[lo..hi]) == multiset(was[lo..hi])
    requires forall i, j :: lo <= i < hi && lo <= j < hi ==> cls[was[i]] == cls[was[j]]
    ensures Refined(key, cls, next, was, now, lo, hi)
  {
    forall i | lo <= i < hi ensures cls[now[i]] == cls[was[lo]] {
      assert now[lo..hi][i - lo] in multiset(was[lo..hi]);
      var k: nat :| k < |was[lo..hi]| && was[lo..hi][k] == now[i];
      assert was[lo + k] == now[i];
    }
    forall i, j | lo <= i <= j < hi ensures LaidOutIn(key, cls, next, now, i, j) {
      assert LaidOut(key, next, now, i, j);
    }
  }

  /** Ranges that share no class combine. */
  lemma RefinedJoin(key: KeyOf, cls: seq<nat>, next: seq<nat>, was: seq<nat>, now: seq<nat>, lo: nat, mid: nat, hi: nat)
    requires |cls| == |next| && Within(was, |cls|) && Within(now, |cls|) && lo <= mid <= hi <= |was| == |now|
    requires Refined(key, cls, next, was, now, lo, mid) && Refined(key, cls, next, was, now, mid, hi)
    requires forall i, j :: lo <= i < mid <= j < hi ==> cls[was[i]] != cls[was[j]]
    ensures Refined(key, cls, next, was, now, lo, hi)
  {
    forall i, j | lo <= i < mid <= j < hi ensures LaidOutIn(key, cls, next, now, i, j) {
      assert LaidOutIn(key, cls, next, now, i, i) && LaidOutIn(key, cls, next, now, j, j);
    }
  }

  // ------------------------------------------------------------------ the methods refine

  lemma SplitOk(key: KeyOf, s: State, lo: nat, begin: nat, hi: nat)
    requires lo <= begin < hi <= |s.order| && StateOk(s, |s.next|)
    requires Segregated(key, s.next, s.order, lo, begin, hi)
    ensures var s' := SplitFn(key, s, begin, hi);
      StateOk(s', |s.next|) && Segregated(key, s'.next, s'.order, lo, MidFn(key, s.order, begin, hi), hi)
  {
    var s', mid, left := SplitFn(key, s, begin, hi), MidFn(key, s.order, begin, hi), s.order[begin..hi];
    var group, rest := s'.order[begin..mid], s'.order[mid..hi];
    assert StateOk(s', |s.next|) by {
      SplitLocal(key, s, begin, hi);
      LocalOk(s, s', begin, hi);
    }
    assert Partitioned(key, left, group, rest) && forall i :: 0 <= i < begin ==> s'.order[i] == s.order[i] by {
      PartitionParts(key, s.order, begin, hi);
      assert left[0] == s.order[begin];
      FiltersPartition(key, left);
    }
    SegregateStep(key, s.next, s.order, s'.next, s'.order, lo, begin, hi, group, rest);
  }

  lemma {:induction false} SegregateOk(key: KeyOf, s: State, lo: nat, begin: nat, hi: nat)
    requires lo <= begin <= hi <= |s.order| && StateOk(s, |s.next|)
    requires Segregated(key, s.next, s.order, lo, begin, hi)
    ensures var r := SegregateFn(key, s, begin, hi);
      StateOk(r, |s.next|) && Segregated(key, r.next, r.order, lo, hi, hi)
    decreases hi - begin
  {
    if begin < hi {
      SplitOk(key, s, lo, begin, hi);
      SegregateOk(key, SplitFn(key, s, begin, hi), lo, MidFn(key, s.order, begin, hi), hi);
    }
  }

  /** After one turn the group is numbered, and none of its sections is left over. */
  lemma SplitGroup(key: KeyOf, s: State, begin: nat, hi: nat, i: nat)
    requires begin < hi <= |s.order| && StateOk(s, |s.next|) && begin <= i < MidFn(key, s.order, begin, hi)
    requires StateOk(SplitFn(key, s, begin, hi), |s.next|)
    ensures var s', mid := SplitFn(key, s, begin, hi), MidFn(key, s.order, begin, hi);
      s'.next[s'.order[i]] == mid && s'.order[i] !in multiset(s'.order[mid..hi])
  {
    var s', mid, k, left := SplitFn(key, s, begin, hi), MidFn(key, s.order, begin, hi), key(s.order[begin]),
      s.order[begin..hi];
    PartitionParts(key, s.order, begin, hi);
    FilterMembers(key, k, left);
    var x := s'.order[i];
    assert x == s'.order[begin..mid][i - begin];
    assert x in Keep(key, k, left);
    assert x in left;
    assert x !in Drop(key, k, left);
  }

  /** The first group keeps its place and the number it was given. */
  lemma FirstGroupStays(key: KeyOf, s: State, begin: nat, hi: nat)
    requires begin < hi <= |s.order| && StateOk(s, |s.next|)
    ensures var r, mid := SegregateFn(key, s, begin, hi), MidFn(key, s.order, begin, hi);
      StateOk(r, |s.next|) && r.order[begin..mid] == Keep(key, key(s.order[begin]), s.order[begin..hi]) &&
      forall i :: begin <= i < mid ==> r.next[r.order[i]] == mid
  {
    var s', mid := SplitFn(key, s, begin, hi), MidFn(key, s.order, begin, hi);
    var r := SegregateFn(key, s', mid, hi);
    assert StateOk(s', |s.next|) by {
      SplitLocal(key, s, begin, hi);
      LocalOk(s, s', begin, hi);
    }
    assert s'.order[begin..mid] == Keep(key, key(s.order[begin]), s.order[begin..hi]) by {
      PartitionParts(key, s.order, begin, hi);
    }
    SegregateLocal(key, s', mid, hi);
    assert r.order[begin..mid] == s'.order[begin..mid];
    forall i | begin <= i < mid ensures r.next[r.order[i]] == mid {
      SplitGroup(key, s, begin, hi, i);
    }
  }

  /** Positions `lo` up to `hi` hold whole classes, each ascending. */
  ghost predicate GroupedIn(cls: seq<nat>, order: seq<nat>, lo: nat, hi: nat)
    requires Within(order, |cls|) && lo <= hi <= |order|
  {
    forall i, j :: lo <= i < j < hi && cls[order[i]] == cls[order[j]] ==>
      order[i] < order[j] && forall k :: i <= k <= j ==> cls[order[k]] == cls[order[i]]
  }

  /** No class has sections on both sides of position `m`, within `lo` up to `hi`. */
  ghost predicate Boundary(cls: seq<nat>, order: seq<nat>, lo: nat, m: nat, hi: nat)
    requires Within(order, |cls|) && lo <= m <= hi <= |order|
  {
    forall i, j :: lo <= i < m <= j < hi ==> cls[order[i]] != cls[order[j]]
  }

  lemma BoundaryIsOne(cls: seq<nat>, order: seq<nat>, begin: nat, end: nat)
    requires begin < end <= |order| && Within(order, |cls|) && GroupedIn(cls, order, begin, end)
    ensures var m := BoundaryFn(cls, order, begin, begin + 1, end);
      begin < m <= end && Boundary(cls, order, begin, m, end) && Ascending(order[begin..m]) &&
      forall i :: begin <= i < m ==> cls[order[i]] == cls[order[begin]]
  {
    var m := BoundaryFn(cls, order, begin, begin + 1, end);
    forall i, j | begin <= i < m <= j < end ensures cls[order[i]] != cls[order[j]] {
      assert cls[order[m]] != cls[order[begin]] && cls[order[i]] == cls[order[begin]];
    }
    forall i, j | 0 <= i < j < m - begin ensures order[begin..m][i] < order[begin..m][j] {
      assert cls[order[begin + i]] == cls[order[begin + j]];
    }
  }

  /** Segregating one class refines it, and cuts it exactly when its first group ends early. */
  lemma ClassRefined(key: KeyOf, cls: seq<nat>, s: State, begin: nat, mid: nat)
    requires begin < mid <= |s.order| && StateOk(s, |cls|) && Ascending(s.order[begin..mid])
    requires forall i :: begin <= i < mid ==> cls[s.order[i]] == cls[s.order[begin]]
    ensures var r := SegregateFn(key, s, begin, mid);
      StateOk(r, |cls|) && Local(s, r, begin, mid) &&
      Refined(key, cls, r.next, s.order, r.order, begin, mid) &&
      (Split(cls, r.next, r.order, begin, mid) <==> MidFn(key, s.order, begin, mid) != mid)
  {
    var r := SegregateFn(key, s, begin, mid);
    SegregateLocal(key, s, begin, mid);
    SegregateOk(key, s, begin, begin, mid);
    SegregatedRefined(key, cls, r.next, s.order, r.order, begin, mid);
    FirstGroupStays(key, s, begin, mid);
    SplitClass(key, cls, r.next, s.order, r.order, begin, mid);
  }

  /** Whether segregating the classes of a range sets the repeat flag. */
  ghost function RangeCutFn(key: KeyOf, cls: seq<nat>, s: State, begin: nat, end: nat): bool
    requires begin <= end <= |s.order| && StateOk(s, |cls|)
    decreases end - begin
  {
    if begin == end then false
    else
      var mid := BoundaryFn(cls, s.order, begin, begin + 1, end);
      SegregateLocal(key, s, begin, mid);
      MidFn(key, s.order, begin, mid) != mid || RangeCutFn(key, cls, SegregateFn(key, s, begin, mid), mid, end)
  }

  lemma NotInRange(order: seq<nat>, a: nat, b: nat, x: nat)
    requires a <= b <= |order| && forall k :: a <= k < b ==> order[k] != x
    ensures x !in multiset(order[a..b])
  {
    assert forall k :: 0 <= k < |order[a..b]| ==> order[a..b][k] == order[a + k];
    assert x !in order[a..b];
  }

  /** A refined range is not disturbed by work on other classes elsewhere. */
  lemma RefinedFrame(key: KeyOf, cls: seq<nat>, was: seq<nat>, s: State, s': State, lo: nat, hi: nat, a: nat, b: nat)
    requires lo <= hi <= |was| && a <= b <= |was| == |s.order| && (hi <= a || b <= lo)
    requires StateOk(s, |cls|) && StateOk(s', |cls|) && Within(was, |cls|)
    requires Refined(key, cls, s.next, was, s.order, lo, hi) && Local(s, s', a, b)
    requires forall i, j :: lo <= i < hi && a <= j < b ==> cls[was[i]] != cls[s.order[j]]
    ensures Refined(key, cls, s'.next, was, s'.order, lo, hi)
    ensures Split(cls, s'.next, s'.order, lo, hi) <==> Split(cls, s.next, s.order, lo, hi)
  {
    forall i | lo <= i < hi ensures s'.order[i] == s.order[i] && s'.next[s'.order[i]] == s.next[s.order[i]] {
      assert cls[s.order[i]] == cls[was[i]];
      NotInRange(s.order, a, b, s.order[i]);
    }
    forall i, j | lo <= i <= j < hi ensures LaidOutIn(key, cls, s'.next, s'.order, i, j) {
      assert LaidOutIn(key, cls, s.next, s.order, i, j);
    }
  }

  lemma {:induction false} RangeRefined(key: KeyOf, cls: seq<nat>, s: State, begin: nat, end: nat)
    requires begin <= end <= |s.order| && StateOk(s, |cls|) && GroupedIn(cls, s.order, begin, end)
    ensures var r := RangeFn(key, cls, s, begin, end);
      StateOk(r, |cls|) && Local(s, r, begin, end) &&
      Refined(key, cls, r.next, s.order, r.order, begin, end) &&
      (Split(cls, r.next, r.order, begin, end) <==> RangeCutFn(key, cls, s, begin, end))
    decreases end - begin
  {
    if begin < end {
      var mid := BoundaryFn(cls, s.order, begin, begin + 1, end);
      var s1 := SegregateFn(key, s, begin, mid);
      assert Boundary(cls, s.order, begin, mid, end) && Local(s, s1, begin, mid) && StateOk(s1, |cls|) &&
        Refined(key, cls, s1.next, s.order, s1.order, begin, mid) &&
        (Split(cls, s1.next, s1.order, begin, mid) <==> MidFn(key, s.order, begin, mid) != mid)
      by {
        BoundaryIsOne(cls, s.order, begin, end);
        ClassRefined(key, cls, s, begin, mid);
      }
      RangeRefined(key, cls, s1, mid, end);
      RangeStep(key, cls, s, s1, RangeFn(key, cls, s1, mid, end), begin, mid, end);
    }
  }

  lemma RangeStep(key: KeyOf, cls: seq<nat>, s: State, s1: State, r: State, begin: nat, mid: nat, end: nat)
    requires begin < mid <= end <= |s.order| && StateOk(s, |cls|) && Boundary(cls, s.order, begin, mid, end)
    requires StateOk(s1, |cls|) && Local(s, s1, begin, mid) && Refined(key, cls, s1.next, s.order, s1.order, begin, mid)
    requires StateOk(r, |cls|) && Local(s1, r, mid, end) && Refined(key, cls, r.next, s1.order, r.order, mid, end)
    ensures Local(s, r, begin, end) && Refined(key, cls, r.next, s.order, r.order, begin, end)
    ensures Split(cls, r.next, r.order, begin, end) <==>
      Split(cls, s1.next, s1.order, begin, mid) || Split(cls, r.next, r.order, mid, end)
  {
    RefinedFrame(key, cls, s.order, s1, r, begin, mid, mid, end);
    LocalWiden(s, s1, begin, begin, mid, end);
    LocalTrans(s, s1, r, begin, mid, end);
    RefinedWas(key, cls, r.next, s1.order, s.order, r.order, mid, end);
    RefinedJoin(key, cls, r.next, s.order, r.order, begin, mid, end);
    SplitJoin(cls, r.next, r.order, begin, mid, end);
  }

  lemma RefinedWas(key: KeyOf, cls: seq<nat>, next: seq<nat>, was1: seq<nat>, was2: seq<nat>, now: seq<nat>,
                   lo: nat, hi: nat)
    requires |cls| == |next| && Within(was1, |cls|) && Within(was2, |cls|) && Within(now, |cls|)
    requires lo <= hi <= |was1| == |was2| == |now| && forall i :: lo <= i < hi ==> was1[i] == was2[i]
    requires Refined(key, cls, next, was1, now, lo, hi)
    ensures Refined(key, cls, next, was2, now, lo, hi)
  {
    assert forall i, j :: lo <= i <= j < hi ==> LaidOutIn(key, cls, next, now, i, j);
  }

  // ------------------------------------------------------------------ a whole pass

  /** Every class is numbered by the index at which it ends. */
  ghost predicate IdsAreEnds(cls: seq<nat>, order: seq<nat>)
    requires Within(order, |cls|)
  {
    (forall i :: 0 <= i < |order| ==> i < cls[order[i]] <= |order|) &&
    forall i, j :: 0 <= i <= j < |order| ==> (cls[order[j]] == cls[order[i]] <==> j < cls[order[i]])
  }

  lemma RefinedLayout(key: KeyOf, cls: seq<nat>, next: seq<nat>, was: seq<nat>, now: seq<nat>)
    requires |cls| == |next| && Within(was, |cls|) && Within(now, |cls|) && |was| == |now|
    requires Refined(key, cls, next, was, now, 0, |now|)
    ensures IdsAreEnds(next, now) && GroupedIn(next, now, 0, |now|)
  {
    forall i, j | 0 <= i <= j < |now|
      ensures next[now[j]] == next[now[i]] <==> j < next[now[i]]
      ensures i < next[now[i]] && (i < j < next[now[i]] ==> now[i] < now[j])
    {
      assert LaidOutIn(key, cls, next, now, i, j);
    }
  }

  /** Some class of the range has come apart. */
  ghost predicate Split(cls: seq<nat>, next: seq<nat>, now: seq<nat>, lo: nat, hi: nat)
    requires |cls| == |next| && Within(now, |cls|) && lo <= hi <= |now|
  {
    exists i, j :: lo <= i <= j < hi && cls[now[i]] == cls[now[j]] && next[now[i]] != next[now[j]]
  }

  lemma SplitJoin(cls: seq<nat>, next: seq<nat>, now: seq<nat>, lo: nat, mid: nat, hi: nat)
    requires |cls| == |next| && Within(now, |cls|) && lo <= mid <= hi <= |now|
    requires forall i, j :: lo <= i < mid <= j < hi ==> cls[now[i]] != cls[now[j]]
    ensures Split(cls, next, now, lo, hi) <==> Split(cls, next, now, lo, mid) || Split(cls, next, now, mid, hi)
  {
  }

  /** A class has come apart exactly when its first group ends before the class does. */
  lemma SplitClass(key: KeyOf, cls: seq<nat>, next: seq<nat>, was: seq<nat>, now: seq<nat>, lo: nat, hi: nat)
    requires |cls| == |next| && Within(was, |cls|) && Within(now, |cls|) && lo < hi <= |was| == |now|
    requires Refined(key, cls, next, was, now, lo, hi)
    requires forall i, j :: lo <= i < hi && lo <= j < hi ==> cls[was[i]] == cls[was[j]]
    ensures Split(cls, next, now, lo, hi) <==> next[now[lo]] != hi
  {
    assert LaidOutIn(key, cls, next, now, lo, hi - 1) && LaidOutIn(key, cls, next, now, hi - 1, hi - 1);
    assert cls[now[lo]] == cls[was[lo]] == cls[was[hi - 1]] == cls[now[hi - 1]];
    if next[now[lo]] == hi {
      forall j | lo <= j < hi ensures next[now[j]] == hi {
        assert LaidOutIn(key, cls, next, now, lo, j);
      }
    }
  }

  // ------------------------------------------------------------------ progress

  /** The numbers in use. */
  ghost function Ids(cls: seq<nat>, order: seq<nat>): set<nat>
    requires Within(order, |cls|)
  {
    set i | 0 <= i < |order| :: cls[order[i]]
  }

  /** A class boundary stays one. */
  lemma EndStays(key: KeyOf, cls: seq<nat>, next: seq<nat>, was: seq<nat>, now: seq<nat>, i: nat)
    requires |cls| == |next| && Within(was, |cls|) && Within(now, |cls|) && |was| == |now|
    requires Refined(key, cls, next, was, now, 0, |now|) && IdsAreEnds(cls, was) && i < |was|
    ensures var e := cls[was[i]]; 0 < e <= |now| && next[now[e - 1]] == e
  {
    var e := cls[was[i]];
    assert cls[was[e - 1]] == e;
    assert LaidOutIn(key, cls, next, now, e - 1, e - 1);
    if e < |now| {
      assert LaidOutIn(key, cls, next, now, e - 1, e);
      assert cls[was[e]] != e;
    }
  }

  /** Each pass keeps all class numbers, and a pass that splits something adds one, so at most as
      many passes can split something as there are sections. */
  lemma ClassesGrow(key: KeyOf, cls: seq<nat>, next: seq<nat>, was: seq<nat>, now: seq<nat>)
    requires |cls| == |next| && Within(was, |cls|) && Within(now, |cls|) && |was| == |now|
    requires Refined(key, cls, next, was, now, 0, |now|) && IdsAreEnds(cls, was)
    ensures Ids(cls, was) <= Ids(next, now)
    ensures Split(cls, next, now, 0, |now|) ==> Ids(cls, was) < Ids(next, now)
  {
    forall e | e in Ids(cls, was) ensures e in Ids(next, now) {
      var i: nat :| i < |was| && cls[was[i]] == e;
      EndStays(key, cls, next, was, now, i);
    }
    if Split(cls, next, now, 0, |now|) {
      var i, j :| 0 <= i <= j < |now| && cls[now[i]] == cls[now[j]] && next[now[i]] != next[now[j]];
      NewEnd(key, cls, next, was, now, i, j);
    }
  }

  /** Where a class comes apart there was no boundary before. */
  lemma NewEnd(key: KeyOf, cls: seq<nat>, next: seq<nat>, was: seq<nat>, now: seq<nat>, i: nat, j: nat)
    requires |cls| == |next| && Within(was, |cls|) && Within(now, |cls|) && |was| == |now|
    requires Refined(key, cls, next, was, now, 0, |now|) && IdsAreEnds(cls, was)
    requires i <= j < |now| && cls[now[i]] == cls[now[j]] && next[now[i]] != next[now[j]]
    ensures next[now[i]] in Ids(next, now) && next[now[i]] !in Ids(cls, was)
  {
    var m, c := next[now[i]], cls[was[i]];
    assert LaidOutIn(key, cls, next, now, i, j);
    assert i < m <= j < c;
    assert cls[was[m - 1]] == c;
    forall k | 0 <= k < |was| ensures cls[was[k]] != m {
      if k < m {
        assert cls[was[m - 1]] == cls[was[k]] <==> m - 1 < cls[was[k]];
      }
    }
  }

  /** There are never more classes than sections. */
  lemma IdsBounded(cls: seq<nat>, order: seq<nat>)
    requires Within(order, |cls|) && IdsAreEnds(cls, order)
    ensures |Ids(cls, order)| <= |order|
  {
    SubsetCard(Ids(cls, order), OneTo(|order|));
  }
}
