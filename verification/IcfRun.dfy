/** What holds between the passes of folding, and what the classes mean at the end. */
module IcfRun {
  import opened Collections
  import opened Options
  import opened IcfSections
  import opened IcfPass
  import opened IcfSeeding

  /** The chunk list holds exactly the foldable sections. */
  ghost predicate Lists(p: Program, order: seq<nat>) {
    Within(order, |p.secs|) && forall x: nat :: x in order <==> Eligible(p, x)
  }

  /** All sections that cannot be folded share number zero. */
  ghost predicate OneNumber(p: Program, cls: Classes)
    requires ClassesOk(p, cls)
  {
    forall c: nat :: c < |p.secs| && !Eligible(p, c) ==> cls[c] == 0
  }

  /** Each of them has a number of its own, though a class may happen to use that number too. */
  ghost predicate OwnIds(p: Program, cls: Classes)
    requires ClassesOk(p, cls)
  {
    forall c: nat, d: nat ::
      c < |p.secs| && d < |p.secs| && !Eligible(p, c) && !Eligible(p, d) && cls[c] == cls[d] ==> c == d
  }

  /** What the sections of one class have in common after `v` variable passes. */
  ghost predicate AgreeAfter(p: Program, v: nat, a: nat, b: nat)
    requires Valid(p) && a < |p.secs| && b < |p.secs|
  {
    ConstantAgree(p, a, b) && (v >= 1 ==> ThunksAgree(p, Weak, a, b)) && (v >= 2 ==> ThunksAgree(p, Strict, a, b))
  }

  ghost predicate ClassesAgree(p: Program, v: nat, cls: Classes)
    requires Valid(p) && ClassesOk(p, cls)
  {
    forall a: nat, b: nat :: Eligible(p, a) && Eligible(p, b) && cls[a] == cls[b] ==> AgreeAfter(p, v, a, b)
  }

  /** Holds before pass `v + 1` over relocation targets: `cur` is read and `nxt` written. */
  ghost predicate Between(p: Program, v: nat, cur: Classes, nxt: Classes, order: seq<nat>)
    requires Valid(p) && ClassesOk(p, cur) && ClassesOk(p, nxt)
  {
    Lists(p, order) && GroupedIn(cur, order, 0, |order|) && IdsAreEnds(cur, order) &&
    KeepsTogether(p, Strict, cur) && (v <= 1 ==> KeepsTogether(p, Weak, cur)) && ClassesAgree(p, v, cur) &&
    if v % 2 == 0 then OneNumber(p, cur) && OwnIds(p, nxt) else OwnIds(p, cur) && OneNumber(p, nxt)
  }

  // ------------------------------------------------------------------ what a pass does to two sections

  /** A pass leaves two sections together exactly when they were together and compared equal. */
  lemma NextIs(key: KeyOf, cls: seq<nat>, next: seq<nat>, was: seq<nat>, now: seq<nat>, a: nat, b: nat)
    requires |cls| == |next| && Within(was, |cls|) && Within(now, |cls|) && |was| == |now|
    requires Refined(key, cls, next, was, now, 0, |now|) && a in now && b in now
    ensures next[a] == next[b] <==> cls[a] == cls[b] && key(a) == key(b)
  {
    var i: nat :| i < |now| && now[i] == a;
    var j: nat :| j < |now| && now[j] == b;
    assert LaidOutIn(key, cls, next, now, if i <= j then i else j, if i <= j then j else i);
  }

  /** A whole pass over the list, by value. */
  ghost predicate Pass(p: Program, constant: bool, cls: Classes, before: Classes, next: Classes, was: seq<nat>,
                       now: seq<nat>)
    requires Valid(p) && ClassesOk(p, cls) && ClassesOk(p, before) && ClassesOk(p, next)
  {
    Lists(p, now) && IdsAreEnds(next, now) && GroupedIn(next, now, 0, |now|) &&
    (forall x: nat :: x < |p.secs| && !Eligible(p, x) ==> next[x] == before[x]) &&
    forall a: nat, b: nat :: Eligible(p, a) && Eligible(p, b) ==>
      (next[a] == next[b] <==> cls[a] == cls[b] && Equals(p, constant, cls, a, b))
  }

  lemma SweepIsPass(p: Program, constant: bool, key: KeyOf, cls: Classes, s: State)
    requires Valid(p) && ClassesOk(p, cls) && IsKey(p, constant, cls, key)
    requires StateOk(s, |cls|) && Lists(p, s.order) && GroupedIn(cls, s.order, 0, |s.order|)
    ensures var r := RangeFn(key, cls, s, 0, |s.order|);
      ClassesOk(p, r.next) && Pass(p, constant, cls, s.next, r.next, s.order, r.order) &&
      Refined(key, cls, r.next, s.order, r.order, 0, |s.order|) && StateOk(r, |cls|) &&
      (Split(cls, r.next, r.order, 0, |s.order|) <==> RangeCutFn(key, cls, s, 0, |s.order|))
  {
    var r, n := RangeFn(key, cls, s, 0, |s.order|), |s.order|;
    RangeRefined(key, cls, s, 0, n);
    RefinedIsPass(p, constant, key, cls, s, r);
  }

  lemma RefinedIsPass(p: Program, constant: bool, key: KeyOf, cls: Classes, s: State, r: State)
    requires Valid(p) && ClassesOk(p, cls) && IsKey(p, constant, cls, key)
    requires StateOk(s, |cls|) && StateOk(r, |cls|) && Lists(p, s.order) && Local(s, r, 0, |s.order|)
    requires Refined(key, cls, r.next, s.order, r.order, 0, |s.order|)
    ensures Pass(p, constant, cls, s.next, r.next, s.order, r.order)
  {
    ListsKept(p, s, r);
    RefinedLayout(key, cls, r.next, s.order, r.order);
    forall a: nat, b: nat | Eligible(p, a) && Eligible(p, b)
      ensures r.next[a] == r.next[b] <==> cls[a] == cls[b] && Equals(p, constant, cls, a, b)
    {
      NextIs(key, cls, r.next, s.order, r.order, a, b);
      assert key(a) == key(b) <==> Equals(p, constant, cls, a, b);
    }
  }

  lemma ListsKept(p: Program, s: State, r: State)
    requires StateOk(s, |p.secs|) && StateOk(r, |p.secs|) && Lists(p, s.order) && Local(s, r, 0, |s.order|)
    ensures Lists(p, r.order) && forall x: nat :: x < |p.secs| && !Eligible(p, x) ==> r.next[x] == s.next[x]
  {
    assert s.order[0..|s.order|] == s.order && r.order[0..|s.order|] == r.order;
    forall x: nat ensures x in r.order <==> Eligible(p, x) {
      assert x in multiset(r.order) <==> x in multiset(s.order);
    }
    forall x: nat | x < |p.secs| && !Eligible(p, x) ensures r.next[x] == s.next[x] {
      assert x !in s.order;
    }
  }

  lemma PassKeepsTogether(p: Program, sense: Sense, constant: bool, cls: Classes, before: Classes, next: Classes,
                          was: seq<nat>, now: seq<nat>)
    requires Valid(p) && ClassesOk(p, cls) && ClassesOk(p, before) && ClassesOk(p, next)
    requires Pass(p, constant, cls, before, next, was, now) && KeepsTogether(p, sense, cls)
    requires sense != Weak || constant || OneNumber(p, cls)
    ensures KeepsTogether(p, sense, next)
  {
    forall a: nat, b: nat | a < |p.secs| && b < |p.secs| && Bisimilar(p, sense, a, b) ensures next[a] == next[b] {
      BisimilarEligible(p, sense, a, b);
      BisimilarEquals(p, sense, constant, cls, a, b);
    }
  }

  /** The constant pass sets up what the other passes keep. */
  lemma ConstantPass(p: Program, hash: HashOf, cls0: Classes, cls1: Classes, next: Classes, was: seq<nat>,
                     now: seq<nat>)
    requires Valid(p) && ClassesOk(p, cls0) && ClassesOk(p, cls1) && ClassesOk(p, next)
    requires IsSeeded(p, hash, cls0, cls1) && Pass(p, true, cls0, cls1, next, was, now)
    ensures Between(p, 0, next, cls0, now)
  {
    SeedingIsSafe(p, hash, cls0, cls1);
    PassKeepsTogether(p, Strict, true, cls0, cls1, next, was, now);
    PassKeepsTogether(p, Weak, true, cls0, cls1, next, was, now);
    forall a: nat, b: nat | Eligible(p, a) && Eligible(p, b) && next[a] == next[b] ensures AgreeAfter(p, 0, a, b) {
      ConstantPassAgrees(p, cls0, a, b);
    }
    forall c: nat, d: nat | c < |p.secs| && d < |p.secs| && !Eligible(p, c) && !Eligible(p, d) && cls0[c] == cls0[d]
      ensures c == d {
      assert ChunksAgree(p, c, d);
    }
  }

  /** Numbers of foldable sections are positive. */
  lemma NumbersPositive(p: Program, cls: Classes, order: seq<nat>, c: nat)
    requires Valid(p) && ClassesOk(p, cls) && Lists(p, order) && IdsAreEnds(cls, order) && Eligible(p, c)
    ensures cls[c] > 0
  {
    var i: nat :| i < |order| && order[i] == c;
  }

  /** The first variable pass tells thunks apart unless both chunks cannot be folded. */
  lemma ThunksAgreeWeakly(p: Program, cls: Classes, order: seq<nat>, a: nat, b: nat)
    requires Valid(p) && ClassesOk(p, cls) && Lists(p, order) && IdsAreEnds(cls, order) && OneNumber(p, cls)
    requires a < |p.secs| && b < |p.secs| && Equals(p, false, cls, a, b)
    ensures ThunksAgree(p, Weak, a, b)
  {
    assert SectionOk(p, p.secs[a]) && SectionOk(p, p.secs[b]);
    forall c: nat | Eligible(p, c) ensures cls[c] > 0 {
      NumbersPositive(p, cls, order, c);
    }
  }

  /** The second one tells the rest apart: numbers of classes may coincide with ids here, but the
      first pass has dealt with thunks in two different kinds of chunk. */
  lemma ThunksAgreeStrictly(p: Program, cls: Classes, a: nat, b: nat)
    requires Valid(p) && ClassesOk(p, cls) && OwnIds(p, cls)
    requires a < |p.secs| && b < |p.secs| && Equals(p, false, cls, a, b) && ThunksAgree(p, Weak, a, b)
    ensures ThunksAgree(p, Strict, a, b)
  {
    assert SectionOk(p, p.secs[a]) && SectionOk(p, p.secs[b]);
  }

  lemma PassAgrees(p: Program, v: nat, w: nat, cls: Classes, before: Classes, next: Classes, was: seq<nat>,
                   now: seq<nat>, a: nat, b: nat)
    requires Valid(p) && ClassesOk(p, cls) && ClassesOk(p, before) && ClassesOk(p, next)
    requires Between(p, v, cls, before, was) && Pass(p, false, cls, before, next, was, now)
    requires w == v + 1 && Eligible(p, a) && Eligible(p, b) && next[a] == next[b]
    ensures AgreeAfter(p, w, a, b) && cls[a] == cls[b] && Equals(p, false, cls, a, b)
  {
    assert AgreeAfter(p, v, a, b);
    if v == 0 {
      ThunksAgreeWeakly(p, cls, was, a, b);
    }
    if v == 1 {
      ThunksAgreeStrictly(p, cls, a, b);
    }
  }

  /** One pass over the relocation targets. */
  lemma VariablePass(p: Program, v: nat, w: nat, cls: Classes, before: Classes, next: Classes, was: seq<nat>,
                     now: seq<nat>)
    requires Valid(p) && ClassesOk(p, cls) && ClassesOk(p, before) && ClassesOk(p, next)
    requires w == v + 1 && Between(p, v, cls, before, was) && Pass(p, false, cls, before, next, was, now)
    ensures Between(p, w, next, cls, now)
  {
    PassKeepsTogether(p, Strict, false, cls, before, next, was, now);
    if v == 0 {
      PassKeepsTogether(p, Weak, false, cls, before, next, was, now);
    }
    forall a: nat, b: nat | Eligible(p, a) && Eligible(p, b) && next[a] == next[b] ensures AgreeAfter(p, w, a, b) {
      PassAgrees(p, v, w, cls, before, next, was, now, a, b);
    }
  }

  // ------------------------------------------------------------------ the result

  /** Two foldable sections are in one class exactly when they are bisimilar. */
  ghost predicate Exact(p: Program, sense: Sense, cls: Classes)
    requires Valid(p) && ClassesOk(p, cls)
  {
    forall a: nat, b: nat :: Eligible(p, a) && Eligible(p, b) ==> (cls[a] == cls[b] <==> Bisimilar(p, sense, a, b))
  }

  /** A pass that splits nothing has found the coarsest stable partition. */
  lemma StablePassIsExact(p: Program, v: nat, w: nat, cls: Classes, before: Classes, next: Classes, was: seq<nat>,
                          now: seq<nat>)
    requires Valid(p) && ClassesOk(p, cls) && ClassesOk(p, before) && ClassesOk(p, next)
    requires Between(p, v, cls, before, was) && Pass(p, false, cls, before, next, was, now)
    requires w == v + 1 && !Split(cls, next, now, 0, |now|)
    ensures Exact(p, SenseOf(w >= 2), next)
  {
    VariablePass(p, v, w, cls, before, next, was, now);
    forall a: nat, b: nat | Eligible(p, a) && Eligible(p, b) && cls[a] == cls[b]
      ensures ConstantAgree(p, a, b) && ThunksAgree(p, SenseOf(w >= 2), a, b) && Equals(p, false, cls, a, b)
    {
      NotSplit(p, cls, next, now, a, b);
      PassAgrees(p, v, w, cls, before, next, was, now, a, b);
    }
    forall a: nat, b: nat | Eligible(p, a) && Eligible(p, b)
      ensures next[a] == next[b] <==> Bisimilar(p, SenseOf(w >= 2), a, b) {
      if next[a] == next[b] {
        StableIsBisimilar(p, SenseOf(w >= 2), cls, a, b);
      }
    }
  }

  lemma NotSplit(p: Program, cls: Classes, next: Classes, now: seq<nat>, a: nat, b: nat)
    requires ClassesOk(p, cls) && ClassesOk(p, next) && Lists(p, now) && !Split(cls, next, now, 0, |now|)
    requires Eligible(p, a) && Eligible(p, b) && cls[a] == cls[b]
    ensures next[a] == next[b]
  {
    var i: nat :| i < |now| && now[i] == a;
    var j: nat :| j < |now| && now[j] == b;
    assert cls[now[if i <= j then i else j]] == cls[now[if i <= j then j else i]];
  }

  /** Some class holds two foldable sections that are not even weakly bisimilar. */
  ghost predicate NotBisimilar(p: Program, cls: Classes)
    requires Valid(p) && ClassesOk(p, cls)
  {
    exists a: nat, b: nat :: Eligible(p, a) && Eligible(p, b) && cls[a] == cls[b] && !Bisimilar(p, Weak, a, b)
  }

  /** The first variable pass splits something exactly when the constant pass has left two
      sections together that are not even weakly bisimilar. */
  lemma FirstPassSplits(p: Program, cls: Classes, before: Classes, next: Classes, was: seq<nat>, now: seq<nat>)
    requires Valid(p) && ClassesOk(p, cls) && ClassesOk(p, before) && ClassesOk(p, next)
    requires Between(p, 0, cls, before, was) && Pass(p, false, cls, before, next, was, now)
    ensures Split(cls, next, now, 0, |now|) <==> NotBisimilar(p, cls)
  {
    if !Split(cls, next, now, 0, |now|) {
      StablePassIsExact(p, 0, 1, cls, before, next, was, now);
      forall a: nat, b: nat | Eligible(p, a) && Eligible(p, b) && cls[a] == cls[b] ensures Bisimilar(p, Weak, a, b) {
        NotSplit(p, cls, next, now, a, b);
      }
    } else {
      var i, j :| 0 <= i <= j < |now| && cls[now[i]] == cls[now[j]] && next[now[i]] != next[now[j]];
      var a, b := now[i], now[j];
      assert a in now && b in now;
      if Bisimilar(p, Weak, a, b) {
        BisimilarEquals(p, Weak, false, cls, a, b);
      }
    }
  }

  // ------------------------------------------------------------------ what the passes miss

  /** `a` and `b` agree in everything but their own entry thunks, which are in two different
      sections that cannot be folded. */
  ghost predicate ThunksClash(p: Program, a: nat, b: nat)
    requires Valid(p)
  {
    Eligible(p, a) && Eligible(p, b) && Bisimilar(p, Weak, a, b) &&
    assert SectionOk(p, p.secs[a]) && SectionOk(p, p.secs[b]);
    var t1, t2 := p.secs[a].thunk, p.secs[b].thunk;
    t1.Some? && t2.Some? && p.syms[t1.value].Regular? && p.syms[t2.value].Regular? &&
    var c1, c2 := p.syms[t1.value].chunk, p.syms[t2.value].chunk;
    c1 != c2 && !Eligible(p, c1) && !Eligible(p, c2)
  }

  /** `a` and `b` agree in everything but their own entry thunks, which are at different offsets. */
  ghost predicate OffsetsClash(p: Program, a: nat, b: nat)
    requires Valid(p)
  {
    Eligible(p, a) && Eligible(p, b) && Bisimilar(p, Strict, a, b) &&
    assert SectionOk(p, p.secs[a]) && SectionOk(p, p.secs[b]);
    var t1, t2 := p.secs[a].thunk, p.secs[b].thunk;
    t1.Some? && t2.Some? && p.syms[t1.value].Regular? && p.syms[t2.value].Regular? &&
    p.syms[t1.value].value != p.syms[t2.value].value
  }

  ghost predicate NoThunksClash(p: Program)
    requires Valid(p)
  {
    forall a: nat, b: nat :: !ThunksClash(p, a, b)
  }

  ghost predicate NoOffsetsClash(p: Program)
    requires Valid(p)
  {
    forall a: nat, b: nat :: !OffsetsClash(p, a, b)
  }

  /** Sections whose thunks clash are not bisimilar in the strict sense. */
  lemma ClashIsStrict(p: Program, a: nat, b: nat)
    requires Valid(p) && ThunksClash(p, a, b)
    ensures !Bisimilar(p, Strict, a, b)
  {
    assert SectionOk(p, p.secs[a]) && SectionOk(p, p.secs[b]);
    forall r | Bisimulation(p, Strict, r) ensures (a, b) !in r {
    }
  }

  /** Sections whose offsets clash are not bisimilar in the full sense. */
  lemma ClashIsFull(p: Program, a: nat, b: nat)
    requires Valid(p) && OffsetsClash(p, a, b)
    ensures !Bisimilar(p, Full, a, b)
  {
    assert SectionOk(p, p.secs[a]) && SectionOk(p, p.secs[b]);
    forall r | Bisimulation(p, Full, r) ensures (a, b) !in r {
    }
  }

  /** One variable pass compares thunks as well as two do exactly if no thunks clash. */
  lemma WeakIsStrictIff(p: Program)
    requires Valid(p)
    ensures NoThunksClash(p) <==> SameSense(p, Weak, Strict)
  {
    if NoThunksClash(p) {
      forall a: nat, b: nat | Bisimilar(p, Weak, a, b) ensures Bisimilar(p, Strict, a, b) {
        var r :| Bisimulation(p, Weak, r) && (a, b) in r;
        forall c, d | (c, d) in r ensures Alike(p, r, Strict, c, d) {
          WithoutThunksClash(p, r, c, d);
        }
        assert Bisimulation(p, Strict, r);
      }
      forall a: nat, b: nat | Bisimilar(p, Strict, a, b) ensures Bisimilar(p, Weak, a, b) {
        StrictIsWeak(p, a, b);
      }
    } else {
      var a: nat, b: nat :| ThunksClash(p, a, b);
      ClashIsStrict(p, a, b);
    }
  }

  lemma WithoutThunksClash(p: Program, r: Relation, c: nat, d: nat)
    requires Valid(p) && NoThunksClash(p) && Bisimulation(p, Weak, r) && (c, d) in r
    ensures Alike(p, r, Strict, c, d)
  {
    assert Alike(p, r, Weak, c, d);
    assert Bisimilar(p, Weak, c, d);
    assert !ThunksClash(p, c, d);
  }

  /** Two passes see all there is to see in thunks exactly if no offsets clash. */
  lemma StrictIsFullIff(p: Program)
    requires Valid(p)
    ensures NoOffsetsClash(p) <==> SameSense(p, Strict, Full)
  {
    if NoOffsetsClash(p) {
      forall a: nat, b: nat | Bisimilar(p, Strict, a, b) ensures Bisimilar(p, Full, a, b) {
        var r :| Bisimulation(p, Strict, r) && (a, b) in r;
        forall c, d | (c, d) in r ensures Alike(p, r, Full, c, d) {
          WithoutOffsetsClash(p, r, c, d);
        }
        assert Bisimulation(p, Full, r);
      }
      forall a: nat, b: nat | Bisimilar(p, Full, a, b) ensures Bisimilar(p, Strict, a, b) {
        FullIsStrict(p, a, b);
      }
    } else {
      var a: nat, b: nat :| OffsetsClash(p, a, b);
      ClashIsFull(p, a, b);
    }
  }

  lemma WithoutOffsetsClash(p: Program, r: Relation, c: nat, d: nat)
    requires Valid(p) && NoOffsetsClash(p) && Bisimulation(p, Strict, r) && (c, d) in r
    ensures Alike(p, r, Full, c, d)
  {
    assert Alike(p, r, Strict, c, d);
    assert Bisimilar(p, Strict, c, d);
    assert !OffsetsClash(p, c, d);
  }

  /** The passes see all there is to see: no offsets clash, and no thunks either unless there are
      two variable passes. */
  ghost predicate PassesSuffice(p: Program, two: bool)
    requires Valid(p)
  {
    (two || NoThunksClash(p)) && NoOffsetsClash(p)
  }

  lemma PassesSufficeIff(p: Program, two: bool)
    requires Valid(p)
    ensures PassesSuffice(p, two) <==> SameSense(p, SenseOf(two), Full)
  {
    WeakIsStrictIff(p);
    StrictIsFullIff(p);
    if SameSense(p, Weak, Full) {
      forall a: nat, b: nat ensures Bisimilar(p, Strict, a, b) <==> Bisimilar(p, Full, a, b) {
        Between3(p, a, b);
      }
      forall a: nat, b: nat ensures Bisimilar(p, Weak, a, b) <==> Bisimilar(p, Strict, a, b) {
        Between3(p, a, b);
      }
    }
  }

  /** The full sense implies the strict one, and that the weak one. */
  lemma Between3(p: Program, a: nat, b: nat)
    requires Valid(p)
    ensures (Bisimilar(p, Full, a, b) ==> Bisimilar(p, Strict, a, b))
    ensures (Bisimilar(p, Strict, a, b) ==> Bisimilar(p, Weak, a, b))
  {
    if Bisimilar(p, Full, a, b) {
      FullIsStrict(p, a, b);
    }
    if Bisimilar(p, Strict, a, b) {
      StrictIsWeak(p, a, b);
    }
  }

  /** The entry thunk of every foldable section is the start of a section that can be folded. */
  ghost predicate ThunksFoldable(p: Program)
    requires Valid(p)
  {
    forall a: nat :: Eligible(p, a) ==>
      assert SectionOk(p, p.secs[a]);
      var t := p.secs[a].thunk;
      t.Some? && p.syms[t.value].Regular? ==> p.syms[t.value].value == 0 && Eligible(p, p.syms[t.value].chunk)
  }

  /** Then nothing clashes. */
  lemma FoldableThunksDoNotClash(p: Program, two: bool)
    requires Valid(p) && ThunksFoldable(p)
    ensures PassesSuffice(p, two)
  {
  }

  // ------------------------------------------------------------------ in terms of the input

  /** The constant pass leaves `a` and `b` in one class. */
  ghost predicate LeftTogether(p: Program, hash: HashOf, a: nat, b: nat)
    requires Valid(p)
  {
    Eligible(p, a) && Eligible(p, b) &&
    exists cls0: Classes, cls1: Classes :: ClassesOk(p, cls0) && ClassesOk(p, cls1) && IsSeeded(p, hash, cls0, cls1) &&
      cls0[a] == cls0[b] && Equals(p, true, cls0, a, b)
  }

  /** The constant pass leaves two sections together that are not even weakly bisimilar. */
  ghost predicate NeedsTwo(p: Program, hash: HashOf)
    requires Valid(p)
  {
    exists a: nat, b: nat :: LeftTogether(p, hash, a, b) && !Bisimilar(p, Weak, a, b)
  }

  lemma SeededUnique(p: Program, hash: HashOf, cls0: Classes, cls1: Classes, other0: Classes, other1: Classes)
    requires Valid(p) && ClassesOk(p, cls0) && ClassesOk(p, cls1) && ClassesOk(p, other0) && ClassesOk(p, other1)
    requires IsSeeded(p, hash, cls0, cls1) && IsSeeded(p, hash, other0, other1)
    ensures cls0 == other0
  {
    var first: Classes, zeros: Classes :| ClassesOk(p, first) && ClassesOk(p, zeros) &&
      Seeding(p, hash, first, zeros, cls0, cls1);
    var first': Classes, zeros': Classes :| ClassesOk(p, first') && ClassesOk(p, zeros') &&
      Seeding(p, hash, first', zeros', other0, other1);
    assert first == first' && zeros == zeros';
    assert cls1 == other1;
  }

  lemma FirstPassNeedsTwo(p: Program, hash: HashOf, cls0: Classes, cls1: Classes, next: Classes, was: seq<nat>,
                          now: seq<nat>)
    requires Valid(p) && ClassesOk(p, cls0) && ClassesOk(p, cls1) && ClassesOk(p, next)
    requires IsSeeded(p, hash, cls0, cls1) && Pass(p, true, cls0, cls1, next, was, now)
    ensures NeedsTwo(p, hash) == NotBisimilar(p, next)
  {
    forall a: nat, b: nat
      ensures LeftTogether(p, hash, a, b) <==> Eligible(p, a) && Eligible(p, b) && next[a] == next[b] {
      if LeftTogether(p, hash, a, b) {
        var other0: Classes, other1: Classes :| ClassesOk(p, other0) && ClassesOk(p, other1) &&
          IsSeeded(p, hash, other0, other1) && other0[a] == other0[b] && Equals(p, true, other0, a, b);
        SeededUnique(p, hash, cls0, cls1, other0, other1);
      }
    }
  }

  /** Folding separates exactly the sections that are not bisimilar in the full sense if and only if
      no offsets clash, and the first variable pass has something to split or no thunks clash. */
  lemma ExactIff(p: Program, two: bool, cls: Classes)
    requires Valid(p) && ClassesOk(p, cls) && Exact(p, SenseOf(two), cls)
    ensures Exact(p, Full, cls) <==> PassesSuffice(p, two)
  {
    PassesSufficeIff(p, two);
    if Exact(p, Full, cls) {
      forall a: nat, b: nat ensures Bisimilar(p, SenseOf(two), a, b) <==> Bisimilar(p, Full, a, b) {
        if Bisimilar(p, SenseOf(two), a, b) {
          BisimilarEligible(p, SenseOf(two), a, b);
        }
        if Bisimilar(p, Full, a, b) {
          BisimilarEligible(p, Full, a, b);
        }
      }
    }
  }

  /** Two functions with the same (empty) header and no relocations, whose entry thunks are two
      different sections that cannot be folded. */
  function TwoThunks(): Program {
    var h := Header(0x60000020, ".text", 1, 0, [0xC3], 0xA641);
    Program([Regular(0, 2), Regular(0, 3)],
            [Section(h, [], [], Some(0)), Section(h, [], [], Some(1)), Section(h, [], [], None),
              Section(h, [], [], None)],
            [true, true, false, false])
  }

  /** Folding takes them for equal after a single variable pass, though they are not. */
  lemma TwoThunksDiffer()
    ensures var p := TwoThunks();
      Valid(p) && Eligible(p, 0) && Eligible(p, 1) && Bisimilar(p, Weak, 0, 1) && !Bisimilar(p, Strict, 0, 1)
  {
    var p := TwoThunks();
    assert Valid(p);
    BareAlike(p, Weak, 0, 1);
    forall r | Bisimulation(p, Strict, r) ensures (0, 1) !in r {
      TwoThunksApart(p, r);
    }
  }

  lemma TwoThunksWeaklyAlike(a: nat, b: nat)
    requires a <= 1 && b <= 1
    ensures Valid(TwoThunks()) && Bisimilar(TwoThunks(), Weak, a, b)
  {
    var p := TwoThunks();
    assert Valid(p);
    BareAlike(p, Weak, a, b);
  }

  /** Two sections without relocations and children, and with thunks that are taken for equal. */
  lemma BareAlike(p: Program, sense: Sense, a: nat, b: nat)
    requires Valid(p) && Eligible(p, a) && Eligible(p, b) && p.secs[a].header == p.secs[b].header
    requires p.secs[a].relocs == [] && p.secs[b].relocs == [] && p.secs[a].children == [] && p.secs[b].children == []
    requires SectionOk(p, p.secs[a]) && SectionOk(p, p.secs[b])
    requires ThunksRelated(p, {(a, b)}, sense, p.secs[a].thunk, p.secs[b].thunk)
    ensures Bisimilar(p, sense, a, b)
  {
    var r: Relation := {(a, b)};
    assert Kids(p, a) == [] && Kids(p, b) == [];
    assert Bisimulation(p, sense, r) && (a, b) in r;
  }

  /** Where all foldable sections are weakly bisimilar, folding puts them into one class. */
  lemma WeaklyAlikeFolded(p: Program, hash: HashOf, cls: Classes, a: nat, b: nat)
    requires Valid(p) && ClassesOk(p, cls) && Exact(p, SenseOf(NeedsTwo(p, hash)), cls)
    requires forall x: nat, y: nat :: Eligible(p, x) && Eligible(p, y) ==> Bisimilar(p, Weak, x, y)
    requires Eligible(p, a) && Eligible(p, b) && !Bisimilar(p, Full, a, b)
    ensures cls[a] == cls[b] && !Exact(p, Full, cls)
  {
    assert !NeedsTwo(p, hash);
    assert Bisimilar(p, Weak, a, b);
  }

  /** Whatever the hash, the two functions end up in one class. */
  lemma TwoThunksFolded(hash: HashOf, cls: Classes)
    requires Valid(TwoThunks()) && ClassesOk(TwoThunks(), cls)
    requires Exact(TwoThunks(), SenseOf(NeedsTwo(TwoThunks(), hash)), cls)
    ensures cls[0] == cls[1] && !Exact(TwoThunks(), Full, cls)
  {
    var p := TwoThunks();
    forall x: nat, y: nat | Eligible(p, x) && Eligible(p, y) ensures Bisimilar(p, Weak, x, y) {
      TwoThunksWeaklyAlike(x, y);
    }
    TwoThunksDiffer();
    Between3(p, 0, 1);
    WeaklyAlikeFolded(p, hash, cls, 0, 1);
  }

  lemma TwoThunksApart(p: Program, r: Relation)
    requires p == TwoThunks() && Valid(p) && Bisimulation(p, Strict, r)
    ensures (0, 1) !in r
  {
    assert (0, 1) in r ==> Alike(p, r, Strict, 0, 1);
    assert (2, 3) in r ==> Alike(p, r, Strict, 2, 3);
  }

  /** Two functions whose entry thunks are at two offsets of one section that can be folded. */
  function TwoOffsets(): Program {
    var h := Header(0x60000020, ".text", 1, 0, [0xC3], 0xA641);
    var wide := Header(0x60000020, ".text", 32, 0, seq(32, i => 0xC3), 0xA641);
    Program([Regular(0, 2), Regular(16, 2)],
            [Section(h, [], [], Some(0)), Section(h, [], [], Some(1)), Section(wide, [], [], None)],
            [true, true, true])
  }

  lemma TwoOffsetsDiffer()
    ensures var p := TwoOffsets();
      Valid(p) && Eligible(p, 0) && Eligible(p, 1) && Bisimilar(p, Strict, 0, 1) && !Bisimilar(p, Full, 0, 1)
  {
    var p := TwoOffsets();
    assert Valid(p);
    BareAlike(p, Strict, 0, 1);
    assert OffsetsClash(p, 0, 1);
    ClashIsFull(p, 0, 1);
  }

  /** However many passes there are, the two end up in one class. */
  lemma TwoOffsetsFolded(two: bool, cls: Classes)
    requires Valid(TwoOffsets()) && ClassesOk(TwoOffsets(), cls) && Exact(TwoOffsets(), SenseOf(two), cls)
    ensures cls[0] == cls[1] && !Exact(TwoOffsets(), Full, cls)
  {
    TwoOffsetsDiffer();
    StrictIsWeak(TwoOffsets(), 0, 1);
  }
}
