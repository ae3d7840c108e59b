/** Folding the classes: all sections of a class are replaced by its first one. */
module IcfFold {
  import opened Collections
  import opened IcfSections
  import opened IcfPass
  import opened IcfShards
  import opened IcfSeeding
  import opened IcfRun
  import opened Icf

  /** What replacement touches: the section that stands for this one, whether it is written to the
      output, and its alignment exponent. */
  datatype Fate = Fate(repl: nat, live: bool, p2Align: nat)

  function Max(a: nat, b: nat): nat { if a < b then b else a }

  /** The greatest alignment among positions `b` up to `e`. */
  function MaxAlign(fates: seq<Fate>, order: seq<nat>, b: nat, e: nat): (m: nat)
    requires b < e <= |order| && Within(order, |fates|)
    ensures forall i :: b <= i < e ==> fates[order[i]].p2Align <= m
    ensures exists i :: b <= i < e && fates[order[i]].p2Align == m
  {
    if e == b + 1 then fates[order[b]].p2Align
    else Max(MaxAlign(fates, order, b, e - 1), fates[order[e - 1]].p2Align)
  }

  /** Positions `b` up to `e` hold one whole class. */
  ghost predicate ClassAt(cls: Classes, order: seq<nat>, b: nat, e: nat)
    requires Within(order, |cls|)
  {
    b < e <= |order| && (forall i :: b <= i < e ==> cls[order[i]] == cls[order[b]]) &&
    Boundary(cls, order, 0, b, |order|) && Boundary(cls, order, 0, e, |order|)
  }

  /** The class has been folded: its first section stands for all and has the greatest alignment. */
  ghost predicate FoldedClass(was: seq<Fate>, now: seq<Fate>, order: seq<nat>, b: nat, e: nat)
    requires b < e <= |order| && Within(order, |was|) && |was| == |now|
  {
    now[order[b]] == was[order[b]].(p2Align := MaxAlign(was, order, b, e)) &&
    forall i :: b < i < e ==> now[order[i]] == was[order[i]].(repl := was[order[b]].repl, live := false)
  }

  /** Everything at positions outside `lo` up to `hi`, and everything not listed, is as before. */
  ghost predicate SameElsewhere(was: seq<Fate>, now: seq<Fate>, order: seq<nat>, lo: nat, hi: nat)
    requires lo <= hi <= |order| && |was| == |now|
  {
    forall x :: 0 <= x < |was| && x !in order[lo..hi] ==> now[x] == was[x]
  }

  /** The classes between `lo` and `hi` have been folded, and nothing else has changed. */
  ghost predicate FoldedRange(cls: Classes, was: seq<Fate>, now: seq<Fate>, order: seq<nat>, lo: nat, hi: nat)
    requires Within(order, |cls|) && |cls| == |was| == |now| && lo <= hi <= |order|
  {
    SameElsewhere(was, now, order, lo, hi) &&
    forall b: nat, e: nat :: ClassAt(cls, order, b, e) && lo <= b && e <= hi ==> FoldedClass(was, now, order, b, e)
  }

  // ------------------------------------------------------------------ ranges

  lemma InRange(order: seq<nat>, lo: nat, hi: nat, i: nat)
    requires lo <= hi <= |order| && i < |order| && Distinct(order)
    ensures order[i] in order[lo..hi] <==> lo <= i < hi
  {
    if lo <= i < hi {
      assert order[lo..hi][i - lo] == order[i];
    }
  }

  /** A class outside the range that is folded next stays as it is. */
  lemma FoldedClassFrame(was: seq<Fate>, mid: seq<Fate>, now: seq<Fate>, order: seq<nat>, b: nat, e: nat, lo: nat,
                         hi: nat)
    requires b < e <= |order| && lo <= hi <= |order| && (e <= lo || hi <= b) && Distinct(order)
    requires Within(order, |was|) && |was| == |mid| == |now|
    requires FoldedClass(was, mid, order, b, e) && SameElsewhere(mid, now, order, lo, hi)
    ensures FoldedClass(was, now, order, b, e)
  {
    forall i | b <= i < e ensures now[order[i]] == mid[order[i]] {
      InRange(order, lo, hi, i);
    }
  }

  lemma {:induction false} MaxAlignSame(s: seq<Fate>, t: seq<Fate>, order: seq<nat>, b: nat, e: nat)
    requires b < e <= |order| && Within(order, |s|) && |s| == |t|
    requires forall i :: b <= i < e ==> s[order[i]] == t[order[i]]
    ensures MaxAlign(s, order, b, e) == MaxAlign(t, order, b, e)
  {
    if b + 1 < e {
      MaxAlignSame(s, t, order, b, e - 1);
    }
  }

  /** Folding a class after other classes comes to the same as folding it first. */
  lemma FoldedClassLate(was: seq<Fate>, mid: seq<Fate>, now: seq<Fate>, order: seq<nat>, b: nat, e: nat, lo: nat,
                        hi: nat)
    requires b < e <= |order| && lo <= hi <= |order| && (e <= lo || hi <= b) && Distinct(order)
    requires Within(order, |was|) && |was| == |mid| == |now|
    requires SameElsewhere(was, mid, order, lo, hi) && FoldedClass(mid, now, order, b, e)
    ensures FoldedClass(was, now, order, b, e)
  {
    forall i | b <= i < e ensures mid[order[i]] == was[order[i]] {
      InRange(order, lo, hi, i);
    }
    MaxAlignSame(was, mid, order, b, e);
  }

  lemma ClassesDoNotCross(cls: Classes, order: seq<nat>, b: nat, e: nat, m: nat)
    requires Within(order, |cls|) && ClassAt(cls, order, b, e) && m <= |order| && Boundary(cls, order, 0, m, |order|)
    ensures e <= m || m <= b
  {
    assert m < |order| ==> cls[order[m]] >= 0;
  }

  lemma SameElsewhereTrans(was: seq<Fate>, mid: seq<Fate>, now: seq<Fate>, order: seq<nat>, lo: nat, m: nat, hi: nat)
    requires lo <= m <= hi <= |order| && |was| == |mid| == |now|
    requires SameElsewhere(was, mid, order, lo, m) && SameElsewhere(mid, now, order, m, hi)
    ensures SameElsewhere(was, now, order, lo, hi)
  {
    assert order[lo..hi] == order[lo..m] + order[m..hi];
  }

  /** Ranges fold one after the other. */
  lemma FoldedRangeJoin(cls: Classes, was: seq<Fate>, mid: seq<Fate>, now: seq<Fate>, order: seq<nat>, lo: nat, m: nat,
                        hi: nat)
    requires Within(order, |cls|) && |cls| == |was| == |mid| == |now| && lo <= m <= hi <= |order| && Distinct(order)
    requires Boundary(cls, order, 0, m, |order|)
    requires FoldedRange(cls, was, mid, order, lo, m) && FoldedRange(cls, mid, now, order, m, hi)
    ensures FoldedRange(cls, was, now, order, lo, hi)
  {
    SameElsewhereTrans(was, mid, now, order, lo, m, hi);
    forall b: nat, e: nat | ClassAt(cls, order, b, e) && lo <= b && e <= hi ensures FoldedClass(was, now, order, b, e) {
      ClassesDoNotCross(cls, order, b, e, m);
      if e <= m {
        FoldedClassFrame(was, mid, now, order, b, e, m, hi);
      } else {
        FoldedClassLate(was, mid, now, order, b, e, lo, m);
      }
    }
  }

  // ------------------------------------------------------------------ one class

  /** The class up to position `i` has been folded. */
  ghost predicate FoldedUpTo(was: seq<Fate>, now: seq<Fate>, order: seq<nat>, b: nat, i: nat)
    requires b < i <= |order| && Within(order, |was|) && |was| == |now|
  {
    FoldedClass(was, now, order, b, i) && SameElsewhere(was, now, order, b, i)
  }

  lemma ReplaceStep(was: seq<Fate>, mid: seq<Fate>, now: seq<Fate>, order: seq<nat>, b: nat, i: nat, next: nat)
    requires b < i < |order| && next == i + 1 && Within(order, |was|) && |was| == |mid| == |now| && Distinct(order)
    requires FoldedUpTo(was, mid, order, b, i) && Replaced(mid, now, order[b], order[i])
    ensures FoldedUpTo(was, now, order, b, next)
  {
    ReplaceElsewhere(was, mid, now, order, b, i, next);
    assert mid[order[i]] == was[order[i]] by { InRange(order, b, i, i); }
    MaxAlignStep(was, order, b, i, next);
    forall k | b < k < next ensures now[order[k]] == was[order[k]].(repl := was[order[b]].repl, live := false) {
      if k == i {
      } else {
        assert order[k] != order[b] && order[k] != order[i];
      }
    }
  }

  lemma MaxAlignStep(fates: seq<Fate>, order: seq<nat>, b: nat, i: nat, next: nat)
    requires b < i < |order| && next == i + 1 && Within(order, |fates|)
    ensures MaxAlign(fates, order, b, next) == Max(MaxAlign(fates, order, b, i), fates[order[i]].p2Align)
  {
  }

  lemma ReplaceElsewhere(was: seq<Fate>, mid: seq<Fate>, now: seq<Fate>, order: seq<nat>, b: nat, i: nat, next: nat)
    requires b < i < |order| && next == i + 1 && Within(order, |was|) && |was| == |mid| == |now| && Distinct(order)
    requires SameElsewhere(was, mid, order, b, i) && Replaced(mid, now, order[b], order[i])
    ensures SameElsewhere(was, now, order, b, next)
  {
    assert order[b..next] == order[b..i] + [order[i]];
    InRange(order, b, i, b);
  }

  /** `leader` has taken the place of `other`. */
  ghost predicate Replaced(was: seq<Fate>, now: seq<Fate>, leader: nat, other: nat)
    requires |was| == |now| && leader < |was| && other < |was|
  {
    now[leader] == was[leader].(p2Align := Max(was[leader].p2Align, was[other].p2Align)) &&
    now[other] == was[other].(repl := was[leader].repl, live := false) &&
    forall x :: 0 <= x < |was| && x != leader && x != other ==> now[x] == was[x]
  }

  /** A class that has been folded, as a range. */
  lemma FoldedClassIsRange(cls: Classes, was: seq<Fate>, now: seq<Fate>, order: seq<nat>, lo: nat, hi: nat)
    requires Within(order, |cls|) && |cls| == |was| == |now| && ClassAt(cls, order, lo, hi)
    requires FoldedUpTo(was, now, order, lo, hi)
    ensures FoldedRange(cls, was, now, order, lo, hi)
  {
    forall b: nat, e: nat | ClassAt(cls, order, b, e) && lo <= b && e <= hi ensures b == lo && e == hi {
      ClassesDoNotCross(cls, order, lo, hi, b);
      ClassesDoNotCross(cls, order, lo, hi, e);
    }
  }

  // ------------------------------------------------------------------ shards

  /** Shard `i` has been folded up to position `at[i]`. */
  ghost predicate FoldedShards(cls: Classes, was: seq<Fate>, now: seq<Fate>, order: seq<nat>, b: seq<nat>,
                               at: seq<nat>)
    requires Within(order, |cls|) && |cls| == |was| == |now|
  {
    Tiling(cls, order, b) && |at| == |b| && (forall x :: 0 <= x < |was| && x !in order ==> now[x] == was[x]) &&
    forall i :: 0 < i < |b| ==> ShardFate(cls, was, now, order, b, at, i)
  }

  ghost predicate ShardFate(cls: Classes, was: seq<Fate>, now: seq<Fate>, order: seq<nat>, b: seq<nat>, at: seq<nat>,
                            i: nat)
    requires Within(order, |cls|) && |cls| == |was| == |now| && Tiling(cls, order, b) && 0 < i < |b| == |at|
  {
    FateOf(cls, was, now, order, b[i - 1], b[i], at[i])
  }

  /** The classes up to `at` have been folded, the others not touched. */
  ghost predicate FateOf(cls: Classes, was: seq<Fate>, now: seq<Fate>, order: seq<nat>, lo: nat, hi: nat, at: nat)
    requires Within(order, |cls|) && |cls| == |was| == |now| && lo <= hi <= |order|
  {
    lo <= at <= hi && Boundary(cls, order, 0, at, |order|) && FoldedIn(cls, was, now, order, lo, at) &&
    forall k :: at <= k < hi ==> now[order[k]] == was[order[k]]
  }

  ghost predicate FoldedIn(cls: Classes, was: seq<Fate>, now: seq<Fate>, order: seq<nat>, lo: nat, hi: nat)
    requires Within(order, |cls|) && |cls| == |was| == |now| && lo <= hi <= |order|
  {
    forall b: nat, e: nat :: ClassAt(cls, order, b, e) && lo <= b && e <= hi ==> FoldedClass(was, now, order, b, e)
  }

  lemma FateFrame(cls: Classes, was: seq<Fate>, mid: seq<Fate>, now: seq<Fate>, order: seq<nat>,
                  lo: nat, hi: nat, at: nat, a: nat, b: nat)
    requires Within(order, |cls|) && |cls| == |was| == |mid| == |now| && Distinct(order)
    requires lo <= hi <= |order| && a <= b <= |order| && (hi <= a || b <= lo)
    requires FateOf(cls, was, mid, order, lo, hi, at) && SameElsewhere(mid, now, order, a, b)
    ensures FateOf(cls, was, now, order, lo, hi, at)
  {
    forall k | lo <= k < hi ensures now[order[k]] == mid[order[k]] {
      InRange(order, a, b, k);
    }
    forall c: nat, e: nat | ClassAt(cls, order, c, e) && lo <= c && e <= at ensures FoldedClass(was, now, order, c, e) {
      assert FoldedClass(was, mid, order, c, e);
    }
  }

  lemma FateStep(cls: Classes, was: seq<Fate>, mid: seq<Fate>, now: seq<Fate>, order: seq<nat>, lo: nat, hi: nat,
                 at: nat, next: nat)
    requires Within(order, |cls|) && |cls| == |was| == |mid| == |now| && Distinct(order)
    requires lo <= hi <= |order| && at < next <= hi && FateOf(cls, was, mid, order, lo, hi, at)
    requires ClassAt(cls, order, at, next) && FoldedRange(cls, mid, now, order, at, next)
    ensures FateOf(cls, was, now, order, lo, hi, next)
  {
    forall c: nat, e: nat | ClassAt(cls, order, c, e) && lo <= c && e <= next
      ensures FoldedClass(was, now, order, c, e) {
      ClassesDoNotCross(cls, order, c, e, at);
      if e <= at {
        FoldedClassFrame(was, mid, now, order, c, e, at, next);
      } else {
        assert FoldedClass(mid, now, order, c, e);
        MaxAlignSame(was, mid, order, c, e);
      }
    }
    forall k | next <= k < hi ensures now[order[k]] == was[order[k]] {
      InRange(order, at, next, k);
    }
  }

  /** A turn of shard `i`. */
  lemma FoldTurn(cls: Classes, was: seq<Fate>, mid: seq<Fate>, now: seq<Fate>, order: seq<nat>, b: seq<nat>,
                 at: seq<nat>, i: nat, next: nat)
    requires Within(order, |cls|) && |cls| == |was| == |mid| == |now| && Distinct(order)
    requires FoldedShards(cls, was, mid, order, b, at) && 0 < i < |b| && at[i] < next <= b[i]
    requires ClassAt(cls, order, at[i], next) && FoldedRange(cls, mid, now, order, at[i], next)
    ensures FoldedShards(cls, was, now, order, b, at[i := next])
  {
    var at', begin := at[i := next], at[i];
    assert ShardFate(cls, was, mid, order, b, at, i);
    FateStep(cls, was, mid, now, order, b[i - 1], b[i], begin, next);
    forall j | 0 < j < |b| ensures ShardFate(cls, was, now, order, b, at', j) {
      assert ShardFate(cls, was, mid, order, b, at, j);
      if j != i {
        FateFrame(cls, was, mid, now, order, b[j - 1], b[j], at[j], begin, next);
      }
    }
  }

  /** Once all shards have come to their ends every class has been folded. */
  lemma AllShardsFolded(cls: Classes, was: seq<Fate>, now: seq<Fate>, order: seq<nat>, b: seq<nat>, at: seq<nat>)
    requires Within(order, |cls|) && |cls| == |was| == |now| && FoldedShards(cls, was, now, order, b, at)
    requires forall i :: 0 < i < |b| ==> at[i] == b[i]
    ensures FoldedRange(cls, was, now, order, 0, |order|)
  {
    assert order[0..|order|] == order;
    forall c: nat, e: nat | ClassAt(cls, order, c, e) ensures FoldedClass(was, now, order, c, e) {
      var i := ShardOf(b, |order|, c);
      assert Boundary(cls, order, 0, b[i], |order|);
      ClassesDoNotCross(cls, order, c, e, b[i]);
      assert ShardFate(cls, was, now, order, b, at, i);
    }
  }

  // ------------------------------------------------------------------ what folding has done

  /** The class of a position. */
  lemma ClassOf(cls: Classes, order: seq<nat>, i: nat) returns (b: nat, e: nat)
    requires Within(order, |cls|) && GroupedIn(cls, order, 0, |order|) && i < |order|
    ensures b <= i < e && ClassAt(cls, order, b, e)
  {
    b := 0;
    e := BoundaryFn(cls, order, 0, 1, |order|);
    NextClass(cls, order, b, e, |order|);
    while e <= i
      invariant b <= i && ClassAt(cls, order, b, e)
      decreases |order| - e
    {
      b := e;
      e := BoundaryFn(cls, order, b, b + 1, |order|);
      NextClass(cls, order, b, e, |order|);
    }
  }

  /** The section at position `k` stands for the whole class of `a`: it is the earliest member, the
      only one that stays live, stands for itself, and has the greatest alignment of the class. */
  ghost predicate Stands(cls: Classes, was: seq<Fate>, now: seq<Fate>, order: seq<nat>, k: nat, a: nat)
    requires Within(order, |cls|) && |cls| == |was| == |now| && k < |order| && a < |cls|
  {
    var l := order[k];
    cls[l] == cls[a] && now[a].repl == l && now[l].repl == l &&
    (now[a].live <==> a == l) && (a != l ==> now[a].p2Align == was[a].p2Align) &&
    (forall j :: 0 <= j < |order| && cls[order[j]] == cls[a] ==>
       l <= order[j] && was[order[j]].p2Align <= now[l].p2Align) &&
    exists j :: 0 <= j < |order| && cls[order[j]] == cls[a] && was[order[j]].p2Align == now[l].p2Align
  }

  /** Before folding every listed section is live and stands for itself. */
  ghost predicate Unfolded(was: seq<Fate>, order: seq<nat>) {
    forall j :: 0 <= j < |order| && order[j] < |was| ==> was[order[j]].live && was[order[j]].repl == order[j]
  }

  /** The members of the class between `b` and `e` sit there, the earliest one first. */
  lemma ClassMembers(cls: Classes, order: seq<nat>, b: nat, e: nat, i: nat, j: nat)
    requires Within(order, |cls|) && GroupedIn(cls, order, 0, |order|) && ClassAt(cls, order, b, e)
    requires b <= i < e && j < |order| && cls[order[j]] == cls[order[i]]
    ensures b <= j < e && order[b] <= order[j]
  {
    assert cls[order[b]] == cls[order[j]];
  }

  /** Folding is canonical. */
  lemma FoldingIsCanonical(cls: Classes, was: seq<Fate>, now: seq<Fate>, order: seq<nat>, i: nat) returns (k: nat)
    requires Within(order, |cls|) && |cls| == |was| == |now| && GroupedIn(cls, order, 0, |order|)
    requires FoldedRange(cls, was, now, order, 0, |order|) && Unfolded(was, order) && i < |order|
    ensures k < |order| && Stands(cls, was, now, order, k, order[i])
  {
    var b, e := ClassOf(cls, order, i);
    k := b;
    assert FoldedClass(was, now, order, b, e);
    GroupedDistinct(cls, order);
    ClassStands(cls, was, now, order, b, e, i);
  }

  lemma ClassStands(cls: Classes, was: seq<Fate>, now: seq<Fate>, order: seq<nat>, b: nat, e: nat, i: nat)
    requires Within(order, |cls|) && |cls| == |was| == |now| && GroupedIn(cls, order, 0, |order|) && Distinct(order)
    requires ClassAt(cls, order, b, e) && b <= i < e && FoldedClass(was, now, order, b, e) && Unfolded(was, order)
    ensures Stands(cls, was, now, order, b, order[i])
  {
    var l, a, m := order[b], order[i], MaxAlign(was, order, b, e);
    assert now[l] == was[l].(p2Align := m);
    assert i != b ==> now[a] == was[a].(repl := was[l].repl, live := false);
    forall j: nat | j < |order| && cls[order[j]] == cls[a] ensures l <= order[j] && was[order[j]].p2Align <= m {
      ClassMembers(cls, order, b, e, i, j);
    }
    var j :| b <= j < e && was[order[j]].p2Align == m;
    assert cls[order[j]] == cls[a];
  }

  /** Two sections have one stand-in exactly when they share a class. */
  lemma SameStandIn(cls: Classes, was: seq<Fate>, now: seq<Fate>, order: seq<nat>, k: nat, a: nat, l: nat, b: nat)
    requires Within(order, |cls|) && |cls| == |was| == |now| && k < |order| && l < |order| && a < |cls| && b < |cls|
    requires Stands(cls, was, now, order, k, a) && Stands(cls, was, now, order, l, b)
    ensures order[k] == order[l] <==> cls[a] == cls[b]
  {
  }

  lemma GroupedDistinct(cls: Classes, order: seq<nat>)
    requires Within(order, |cls|) && GroupedIn(cls, order, 0, |order|)
    ensures Distinct(order)
  {
  }

  /** The search for the next boundary finds one whole class. */
  lemma NextClass(cls: Classes, order: seq<nat>, begin: nat, mid: nat, hi: nat)
    requires Within(order, |cls|) && GroupedIn(cls, order, 0, |order|) && begin < hi <= |order|
    requires Boundary(cls, order, 0, begin, |order|) && Boundary(cls, order, 0, hi, |order|)
    requires mid == BoundaryFn(cls, order, begin, begin + 1, hi)
    ensures ClassAt(cls, order, begin, mid) && mid <= hi
  {
    BoundaryIsBetween(cls, order, begin);
    BoundarySame(cls, order, order, begin, hi, |order|);
    assert forall i :: begin + 1 <= i < mid ==> cls[order[i]] == cls[order[begin]];
  }

  // ------------------------------------------------------------------ the whole of folding

  /** `l` stands for `a` and for every section bisimilar to it, and for no other. */
  ghost predicate Leads(p: Program, sense: Sense, was: seq<Fate>, now: seq<Fate>, l: nat, a: nat)
    requires Valid(p) && |p.secs| == |was| == |now| && l < |now| && a < |now|
  {
    Bisimilar(p, sense, l, a) && now[a].repl == l && now[l].repl == l &&
    (now[a].live <==> a == l) && (a != l ==> now[a].p2Align == was[a].p2Align) &&
    (forall b: nat :: Eligible(p, b) ==> (now[b].repl == l <==> Bisimilar(p, sense, b, a))) &&
    (forall b: nat :: Eligible(p, b) && Bisimilar(p, sense, b, a) ==> l <= b && was[b].p2Align <= now[l].p2Align) &&
    exists b: nat :: Eligible(p, b) && Bisimilar(p, sense, b, a) && was[b].p2Align == now[l].p2Align
  }

  /** The result of folding: sections that cannot be folded are untouched, and of any others that
      are bisimilar the earliest one stands for all. */
  ghost predicate Folded(p: Program, sense: Sense, was: seq<Fate>, now: seq<Fate>)
    requires Valid(p) && |p.secs| == |was| == |now|
  {
    (forall a: nat :: a < |now| && !Eligible(p, a) ==> now[a] == was[a]) &&
    forall a: nat :: Eligible(p, a) ==> now[a].repl < |now| && Leads(p, sense, was, now, now[a].repl, a)
  }

  lemma ListedAt(p: Program, order: seq<nat>, a: nat) returns (i: nat)
    requires Lists(p, order) && Eligible(p, a)
    ensures i < |order| && order[i] == a
  {
    i :| i < |order| && order[i] == a;
  }

  lemma StandsLeads(p: Program, sense: Sense, cls: Classes, was: seq<Fate>, now: seq<Fate>, order: seq<nat>, a: nat)
    requires Valid(p) && ClassesOk(p, cls) && |p.secs| == |was| == |now| && Lists(p, order)
    requires Exact(p, sense, cls) && GroupedIn(cls, order, 0, |order|)
    requires FoldedRange(cls, was, now, order, 0, |order|) && Unfolded(was, order) && Eligible(p, a)
    ensures now[a].repl < |now| && Leads(p, sense, was, now, now[a].repl, a)
  {
    var i := ListedAt(p, order, a);
    var k := FoldingIsCanonical(cls, was, now, order, i);
    assert order[k] in order;
    forall b: nat | Eligible(p, b)
      ensures now[b].repl == order[k] <==> Bisimilar(p, sense, b, a)
      ensures Bisimilar(p, sense, b, a) ==> order[k] <= b && was[b].p2Align <= now[order[k]].p2Align
    {
      var j := ListedAt(p, order, b);
      var l := FoldingIsCanonical(cls, was, now, order, j);
      SameStandIn(cls, was, now, order, k, a, l, b);
    }
    var m: nat :| m < |order| && cls[order[m]] == cls[a] && was[order[m]].p2Align == now[order[k]].p2Align;
    assert order[m] in order;
  }

  lemma FoldedAll(p: Program, sense: Sense, cls: Classes, was: seq<Fate>, now: seq<Fate>, order: seq<nat>)
    requires Valid(p) && ClassesOk(p, cls) && |p.secs| == |was| == |now| && Lists(p, order)
    requires Exact(p, sense, cls) && GroupedIn(cls, order, 0, |order|)
    requires FoldedRange(cls, was, now, order, 0, |order|)
    requires forall a: nat :: Eligible(p, a) ==> was[a].live && was[a].repl == a
    ensures Folded(p, sense, was, now)
  {
    assert order[0..|order|] == order;
    assert Unfolded(was, order) by {
      forall j | 0 <= j < |order| ensures Eligible(p, order[j]) {
        assert order[j] in order;
      }
    }
    forall a: nat | Eligible(p, a) ensures now[a].repl < |now| && Leads(p, sense, was, now, now[a].repl, a) {
      StandsLeads(p, sense, cls, was, now, order, a);
    }
  }

  /** What is folded together is bisimilar in the full sense, thunks at the same place included,
      exactly if no offsets clash, and there were two variable passes or no thunks clash. */
  lemma FoldingIsExact(p: Program, two: bool, was: seq<Fate>, now: seq<Fate>)
    requires Valid(p) && |p.secs| == |was| == |now| && Folded(p, SenseOf(two), was, now)
    ensures Folded(p, Full, was, now) <==> PassesSuffice(p, two)
  {
    PassesSufficeIff(p, two);
    FoldedIff(p, SenseOf(two), Full, was, now);
  }

  /** A result of folding in one sense is one in another exactly if the two agree. */
  lemma FoldedIff(p: Program, s: Sense, t: Sense, was: seq<Fate>, now: seq<Fate>)
    requires Valid(p) && |p.secs| == |was| == |now| && Folded(p, s, was, now)
    ensures Folded(p, t, was, now) <==> SameSense(p, s, t)
  {
    if SameSense(p, s, t) {
      FoldedAlso(p, s, t, was, now);
    }
    if Folded(p, t, was, now) {
      forall a: nat, b: nat ensures Bisimilar(p, s, a, b) <==> Bisimilar(p, t, a, b) {
        SensesAgree(p, s, t, was, now, a, b);
      }
    }
  }

  lemma FoldedAlso(p: Program, s: Sense, t: Sense, was: seq<Fate>, now: seq<Fate>)
    requires Valid(p) && |p.secs| == |was| == |now| && Folded(p, s, was, now) && SameSense(p, s, t)
    ensures Folded(p, t, was, now)
  {
    forall a: nat | Eligible(p, a) ensures now[a].repl < |now| && Leads(p, t, was, now, now[a].repl, a) {
      assert Leads(p, s, was, now, now[a].repl, a);
      var b: nat :| Eligible(p, b) && Bisimilar(p, s, b, a) && was[b].p2Align == now[now[a].repl].p2Align;
      assert Bisimilar(p, t, b, a);
    }
  }

  lemma SensesAgree(p: Program, s: Sense, t: Sense, was: seq<Fate>, now: seq<Fate>, a: nat, b: nat)
    requires Valid(p) && |p.secs| == |was| == |now| && Folded(p, s, was, now) && Folded(p, t, was, now)
    ensures Bisimilar(p, s, a, b) <==> Bisimilar(p, t, a, b)
  {
    if Bisimilar(p, s, a, b) {
      BisimilarEligible(p, s, a, b);
    }
    if Bisimilar(p, t, a, b) {
      BisimilarEligible(p, t, a, b);
    }
    if Eligible(p, a) && Eligible(p, b) {
      assert Leads(p, s, was, now, now[b].repl, b);
      assert Leads(p, t, was, now, now[b].repl, b);
    }
  }

  /** Of two functions with entry thunks at two offsets of one section, one loses its own. */
  lemma ThunkIsLost(two: bool, was: seq<Fate>, now: seq<Fate>)
    requires Valid(TwoOffsets()) && |was| == |now| == 3 && Folded(TwoOffsets(), SenseOf(two), was, now)
    ensures now[1].repl == now[0].repl && !now[1].live && !Folded(TwoOffsets(), Full, was, now)
  {
    var p := TwoOffsets();
    TwoOffsetsDiffer();
    StrictIsWeak(p, 0, 1);
    assert OffsetsClash(p, 0, 1);
    FoldingIsExact(p, two, was, now);
    assert Leads(p, SenseOf(two), was, now, now[1].repl, 1);
  }

  // ------------------------------------------------------------------ folding

  /** Gives every class of `icf` to its first section. */
  class Folder {
    const icf: ICF
    const cur: array<nat>
    const fates: array<Fate>

    constructor (folding: ICF, classes: array<nat>, sections: array<Fate>)
      ensures icf == folding && cur == classes && fates == sections
    {
      icf, cur, fates := folding, classes, sections;
    }

    ghost predicate Wellformed()
      reads this, icf, icf.chunks, cur
    {
      fates.Length == cur.Length && Within(icf.chunks[..], cur.Length) &&
      GroupedIn(cur[..], icf.chunks[..], 0, icf.chunks.Length)
    }

    /** `other` is replaced by `leader`. */
    method Replace(leader: nat, other: nat)
      requires leader < fates.Length && other < fates.Length && leader != other
      modifies fates
      ensures Replaced(old(fates[..]), fates[..], leader, other)
    {
      fates[leader] := fates[leader].(p2Align := Max(fates[leader].p2Align, fates[other].p2Align));
      fates[other] := fates[other].(repl := fates[leader].repl, live := false);
    }

    method FoldClass(begin: nat, end: nat)
      requires Wellformed() && ClassAt(cur[..], icf.chunks[..], begin, end)
      modifies fates
      ensures FoldedRange(cur[..], old(fates[..]), fates[..], icf.chunks[..], begin, end)
    {
      ghost var was, now, order, cls := fates[..], fates[..], icf.chunks[..], cur[..];
      assert Distinct(order) by { GroupedDistinct(cls, order); }
      var i := begin + 1;
      assert order[begin..i] == [order[begin]];
      while i < end
        invariant begin < i <= end && fates[..] == now && FoldedUpTo(was, now, order, begin, i)
      {
        var next := i + 1;
        Replace(icf.chunks[begin], icf.chunks[i]);
        ReplaceStep(was, now, fates[..], order, begin, i, next);
        i, now := next, fates[..];
      }
      assert i == end;
      FoldedClassIsRange(cls, was, now, order, begin, end);
    }

    /** Folds the classes between `lo` and `hi`. */
    method FoldRange(lo: nat, hi: nat)
      requires Wellformed() && lo <= hi <= icf.chunks.Length
      requires Boundary(cur[..], icf.chunks[..], 0, lo, icf.chunks.Length)
      requires Boundary(cur[..], icf.chunks[..], 0, hi, icf.chunks.Length)
      modifies fates
      ensures FoldedRange(cur[..], old(fates[..]), fates[..], icf.chunks[..], lo, hi)
    {
      ghost var was, order, cls := fates[..], icf.chunks[..], cur[..];
      assert Distinct(order) by { GroupedDistinct(cls, order); }
      var begin := lo;
      while begin < hi
        invariant lo <= begin <= hi && Boundary(cls, order, 0, begin, |order|)
        invariant FoldedRange(cls, was, fates[..], order, lo, begin)
      {
        var mid := icf.FindBoundary(cur, begin, hi);
        NextClass(cls, order, begin, mid, hi);
        ghost var before := fates[..];
        FoldClass(begin, mid);
        FoldedRangeJoin(cls, was, before, fates[..], order, lo, begin, mid);
        begin := mid;
      }
      assert begin == hi;
    }

    /** Folds all classes, in shards if there are many sections; these take turns as `sched` says. */
    method FoldAll(sched: seq<nat>)
      requires Wellformed()
      modifies fates
      ensures FoldedRange(cur[..], old(fates[..]), fates[..], icf.chunks[..], 0, icf.chunks.Length)
    {
      if icf.chunks.Length < MIN_PARALLEL {
        FoldRange(0, icf.chunks.Length);
      } else {
        var b := icf.Boundaries(cur);
        FoldShards(b, sched);
      }
    }

    /** The shards have come to the positions `at`. */
    ghost predicate Interleaving(was: seq<Fate>, b: seq<nat>, at: seq<nat>)
      reads this, icf, icf.chunks, cur, fates
    {
      Wellformed() && |was| == fates.Length && FoldedShards(cur[..], was, fates[..], icf.chunks[..], b, at)
    }

    method FoldShards(b: seq<nat>, sched: seq<nat>)
      requires Wellformed() && Tiling(cur[..], icf.chunks[..], b)
      modifies fates
      ensures FoldedRange(cur[..], old(fates[..]), fates[..], icf.chunks[..], 0, icf.chunks.Length)
    {
      ghost var was := fates[..];
      var at := [0] + b[..|b| - 1];
      at := TakeTurns(b, at, sched, was);
      at := Finish(b, at, was);
      AllShardsFolded(cur[..], was, fates[..], icf.chunks[..], b, at);
    }

    method TakeTurns(b: seq<nat>, at0: seq<nat>, sched: seq<nat>, ghost was: seq<Fate>) returns (at: seq<nat>)
      requires Interleaving(was, b, at0)
      modifies fates
      ensures Interleaving(was, b, at)
    {
      at := at0;
      var k := 0;
      while k < |sched|
        invariant Interleaving(was, b, at)
      {
        if 0 < sched[k] < |b| && at[sched[k]] < b[sched[k]] {
          at := TakeTurn(b, at, sched[k], was);
        }
        k := k + 1;
      }
    }

    method Finish(b: seq<nat>, at0: seq<nat>, ghost was: seq<Fate>) returns (at: seq<nat>)
      requires Interleaving(was, b, at0)
      modifies fates
      ensures Interleaving(was, b, at) && forall i :: 0 < i < |b| ==> at[i] == b[i]
    {
      at := at0;
      var i := 1;
      while i < |b|
        invariant 0 < i <= |b| && Interleaving(was, b, at)
        invariant forall j :: 0 < j < i ==> at[j] == b[j]
      {
        at := FinishShard(b, at, i, was);
        i := i + 1;
      }
    }

    /** Shard `i` goes on to its end. */
    method FinishShard(b: seq<nat>, at0: seq<nat>, i: nat, ghost was: seq<Fate>) returns (at: seq<nat>)
      requires Interleaving(was, b, at0) && 0 < i < |b|
      modifies fates
      ensures Interleaving(was, b, at) && |at| == |at0| == |b| && at == at0[i := b[i]]
    {
      assert ShardFate(cur[..], was, fates[..], icf.chunks[..], b, at0, i);
      at := at0;
      var begin, end := at[i], b[i];
      while begin < end
        invariant Interleaving(was, b, at) && |at| == |at0| && at == at0[i := begin] && begin <= end
        decreases end - begin
      {
        at := TakeTurn(b, at, i, was);
        begin := at[i];
      }
    }

    /** Shard `i` folds its next class. */
    method TakeTurn(b: seq<nat>, at: seq<nat>, i: nat, ghost was: seq<Fate>) returns (at': seq<nat>)
      requires Interleaving(was, b, at) && 0 < i < |b| && at[i] < b[i]
      modifies fates
      ensures Interleaving(was, b, at') && at[i] < at'[i] <= b[i] && at' == at[i := at'[i]]
    {
      ghost var now, order, cls := fates[..], icf.chunks[..], cur[..];
      assert Distinct(order) by { GroupedDistinct(cls, order); }
      assert ShardFate(cls, was, now, order, b, at, i);
      var begin := at[i];
      var mid := icf.FindBoundary(cur, begin, b[i]);
      NextClass(cls, order, begin, mid, b[i]);
      FoldClass(begin, mid);
      FoldTurn(cls, was, now, fates[..], order, b, at, i, mid);
      at' := at[i := mid];
    }
  }

  /** The foldable sections in input order. */
  method Collect(p: Program) returns (list: seq<nat>)
    requires Valid(p)
    ensures Lists(p, list) && Ascending(list)
  {
    list := [];
    for k := 0 to |p.secs|
      invariant Ascending(list) && forall i :: 0 <= i < |list| ==> list[i] < k && Eligible(p, list[i])
      invariant forall x: nat :: x < k && Eligible(p, x) ==> x in list
    {
      if Eligible(p, k) {
        list := list + [k];
      }
    }
  }

  /** Identical COMDAT folding, from the sections to their fates. The shards of each sweep take
      turns in any way. */
  method DoICF(p: Program, fates: array<Fate>, hash: HashOf, scheds: nat -> seq<nat>, last: seq<nat>)
    requires Valid(p) && fates.Length == |p.secs|
    requires forall a: nat :: Eligible(p, a) ==> fates[a].live && fates[a].repl == a
    modifies fates
    ensures Folded(p, SenseOf(NeedsTwo(p, hash)), old(fates[..]), fates[..])
  {
    ghost var was := fates[..];
    var list := Collect(p);
    var icf := new ICF(p, list);
    var passes, cur := icf.Run(hash, scheds);
    ghost var cls, order := cur[..], icf.chunks[..];
    var folder := new Folder(icf, cur, fates);
    folder.FoldAll(last);
    FoldedAll(p, SenseOf(NeedsTwo(p, hash)), cls, was, fates[..], order);
  }
}
