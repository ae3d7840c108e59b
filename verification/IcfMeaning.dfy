/** What it means that two sections are bisimilar, in terms of the sections alone. */
module IcfMeaning {
  import opened Collections
  import opened Options
  import opened IcfSections

  // ------------------------------------------------------------------ the children that count

  /** Neither debug info nor CFGuard metadata. */
  predicate Counts(name: string) {
    (|name| < 6 || name[..6] != ".debug") && name != ".gfids$y" && name != ".giats$y" && name != ".gljmp$y"
  }

  ghost predicate ChildrenOk(p: Program, children: seq<nat>) {
    forall k :: 0 <= k < |children| ==> children[k] < |p.secs|
  }

  /** `xs` lists the positions of the children that count. */
  ghost predicate Positions(p: Program, children: seq<nat>, xs: seq<nat>)
    requires ChildrenOk(p, children)
  {
    Ascending(xs) && forall i: nat :: i in xs <==> i < |children| && Counts(p.secs[children[i]].header.name)
  }

  /** Positions from the second child on. */
  function Shifted(xs: seq<nat>): (r: seq<nat>)
    ensures |r| == |xs|
  {
    seq(|xs|, k requires 0 <= k < |xs| => if xs[k] == 0 then 0 else xs[k] - 1)
  }

  lemma ShiftedPositions(p: Program, children: seq<nat>, xs: seq<nat>, rest: seq<nat>)
    requires children != [] && ChildrenOk(p, children) && Positions(p, children, xs)
    requires rest == if xs != [] && xs[0] == 0 then xs[1..] else xs
    ensures (xs != [] && xs[0] == 0) <==> Counts(p.secs[children[0]].header.name)
    ensures (forall k :: 0 <= k < |rest| ==> rest[k] > 0) && Positions(p, children[1..], Shifted(rest))
  {
    assert 0 in xs ==> xs[0] == 0;
    assert forall k :: 0 <= k < |rest| ==> rest[k] > 0 && rest[k] in xs;
    var ys, tail := Shifted(rest), children[1..];
    forall i: nat ensures i in ys <==> i < |tail| && Counts(p.secs[tail[i]].header.name) {
      TailMember(p, children, tail, xs, rest, i, i + 1);
    }
    ShiftedAscends(xs, rest);
  }

  lemma ShiftedAscends(xs: seq<nat>, rest: seq<nat>)
    requires Ascending(xs) && rest == if xs != [] && xs[0] == 0 then xs[1..] else xs
    requires forall k :: 0 <= k < |rest| ==> rest[k] > 0
    ensures Ascending(Shifted(rest))
  {
    assert Ascending(rest);
  }

  lemma TailMember(p: Program, children: seq<nat>, tail: seq<nat>, xs: seq<nat>, rest: seq<nat>, i: nat, next: nat)
    requires children != [] && ChildrenOk(p, children) && Positions(p, children, xs)
    requires tail == children[1..] && next == i + 1
    requires rest == if xs != [] && xs[0] == 0 then xs[1..] else xs
    requires forall k :: 0 <= k < |rest| ==> rest[k] > 0
    ensures i in Shifted(rest) <==> i < |tail| && Counts(p.secs[tail[i]].header.name)
  {
    ShiftedMember(xs, rest, i, next);
    assert next < |children| ==> tail[i] == children[next];
  }

  lemma ShiftedMember(xs: seq<nat>, rest: seq<nat>, i: nat, next: nat)
    requires Ascending(xs) && next == i + 1 && rest == if xs != [] && xs[0] == 0 then xs[1..] else xs
    requires forall k :: 0 <= k < |rest| ==> rest[k] > 0
    ensures i in Shifted(rest) <==> next in xs
  {
    if next in xs {
      assert next in rest;
      var k :| 0 <= k < |rest| && rest[k] == next;
      assert Shifted(rest)[k] == i;
    }
    if i in Shifted(rest) {
      var k :| 0 <= k < |rest| && Shifted(rest)[k] == i;
      assert rest[k] == next;
    }
  }

  /** The children compared are those at these positions, in order. */
  lemma {:induction false} ConsideredAre(p: Program, children: seq<nat>, xs: seq<nat>)
    requires ChildrenOk(p, children) && Positions(p, children, xs)
    ensures |Considered(p, children)| == |xs|
    ensures forall k :: 0 <= k < |xs| ==> xs[k] < |children| && Considered(p, children)[k] == children[xs[k]]
  {
    forall k | 0 <= k < |xs| ensures xs[k] < |children| {
      assert xs[k] in xs;
    }
    if children != [] {
      var rest, tail := if xs != [] && xs[0] == 0 then xs[1..] else xs, children[1..];
      ShiftedPositions(p, children, xs, rest);
      ConsideredAre(p, tail, Shifted(rest));
      FrontConsidered(children, xs, rest, Considered(p, tail), Considered(p, children));
    }
  }

  lemma FrontConsidered(children: seq<nat>, xs: seq<nat>, rest: seq<nat>, later: seq<nat>, all: seq<nat>)
    requires children != [] && (forall k :: 0 <= k < |xs| ==> xs[k] < |children|)
    requires rest == if xs != [] && xs[0] == 0 then xs[1..] else xs
    requires (forall k :: 0 <= k < |rest| ==> rest[k] > 0) && |later| == |rest|
    requires forall k :: 0 <= k < |rest| ==>
      Shifted(rest)[k] < |children[1..]| && later[k] == children[1..][Shifted(rest)[k]]
    requires all == (if xs != [] && xs[0] == 0 then [children[0]] else []) + later
    ensures |all| == |xs| && forall k :: 0 <= k < |xs| ==> all[k] == children[xs[k]]
  {
    assert forall k :: 0 <= k < |rest| ==> later[k] == children[rest[k]];
  }

  // ------------------------------------------------------------------ bisimilarity spelled out

  ghost predicate SameOrBisimilar(p: Program, sense: Sense, c: nat, d: nat)
    requires Valid(p)
  {
    c == d || Bisimilar(p, sense, c, d)
  }

  /** One symbol, or two at equal offsets in sections that are the same or bisimilar. */
  ghost predicate SymbolsAgree(p: Program, sense: Sense, s: nat, t: nat)
    requires Valid(p) && s < |p.syms| && t < |p.syms|
  {
    s == t ||
    (p.syms[s].Regular? && p.syms[t].Regular? && p.syms[s].value == p.syms[t].value &&
     SameOrBisimilar(p, sense, p.syms[s].chunk, p.syms[t].chunk))
  }

  /** The same for entry thunks, of which the sense says how well they are told apart. */
  ghost predicate ThunksMatch(p: Program, sense: Sense, s: nat, t: nat)
    requires Valid(p) && s < |p.syms| && t < |p.syms|
  {
    s == t ||
    (p.syms[s].Regular? && p.syms[t].Regular? &&
     ((SameOrBisimilar(p, sense, p.syms[s].chunk, p.syms[t].chunk) &&
       (sense == Full ==> p.syms[s].value == p.syms[t].value)) ||
      (sense == Weak && !p.eligible[p.syms[s].chunk] && !p.eligible[p.syms[t].chunk])))
  }

  /** `a` and `b` look alike; `xs` and `ys` list the positions of their children that count. */
  ghost predicate LookAlike(p: Program, sense: Sense, a: nat, b: nat, xs: seq<nat>, ys: seq<nat>)
    requires Valid(p) && a < |p.secs| && b < |p.secs| && ChildrenOk(p, p.secs[a].children)
    requires ChildrenOk(p, p.secs[b].children)
    requires Positions(p, p.secs[a].children, xs) && Positions(p, p.secs[b].children, ys)
  {
    var s, t := p.secs[a], p.secs[b];
    assert SectionOk(p, s) && SectionOk(p, t);
    p.eligible[a] && p.eligible[b] &&
    s.header.characteristics == t.header.characteristics && s.header.name == t.header.name &&
    s.header.rawSize == t.header.rawSize && s.header.checksum == t.header.checksum &&
    s.header.contents == t.header.contents && s.header.machine == t.header.machine &&
    |s.relocs| == |t.relocs| &&
    (forall k :: 0 <= k < |s.relocs| ==>
       s.relocs[k].kind == t.relocs[k].kind && s.relocs[k].va == t.relocs[k].va &&
       SymbolsAgree(p, sense, s.relocs[k].sym, t.relocs[k].sym)) &&
    |xs| == |ys| &&
    (forall k :: 0 <= k < |xs| ==>
       xs[k] in xs && ys[k] in ys && SameOrBisimilar(p, sense, s.children[xs[k]], t.children[ys[k]])) &&
    (s.thunk.Some? <==> t.thunk.Some?) && (s.thunk.Some? ==> ThunksMatch(p, sense, s.thunk.value, t.thunk.value))
  }

  /** Bisimilar sections look alike, and sections that look alike are bisimilar. */
  lemma BisimilarIff(p: Program, sense: Sense, a: nat, b: nat, xs: seq<nat>, ys: seq<nat>)
    requires Valid(p) && a < |p.secs| && b < |p.secs| && ChildrenOk(p, p.secs[a].children)
    requires ChildrenOk(p, p.secs[b].children)
    requires Positions(p, p.secs[a].children, xs) && Positions(p, p.secs[b].children, ys)
    ensures Bisimilar(p, sense, a, b) <==> LookAlike(p, sense, a, b, xs, ys)
  {
    ConsideredAre(p, p.secs[a].children, xs);
    ConsideredAre(p, p.secs[b].children, ys);
    if Bisimilar(p, sense, a, b) {
      var r :| Bisimulation(p, sense, r) && (a, b) in r;
      BisimilarLook(p, sense, r, a, b, xs, ys);
    }
    if LookAlike(p, sense, a, b, xs, ys) {
      LookBisimilar(p, sense, a, b, xs, ys);
    }
  }

  lemma BisimilarLook(p: Program, sense: Sense, r: Relation, a: nat, b: nat, xs: seq<nat>, ys: seq<nat>)
    requires Valid(p) && a < |p.secs| && b < |p.secs| && Bisimulation(p, sense, r) && (a, b) in r
    requires ChildrenOk(p, p.secs[a].children) && ChildrenOk(p, p.secs[b].children)
    requires Positions(p, p.secs[a].children, xs) && Positions(p, p.secs[b].children, ys)
    ensures LookAlike(p, sense, a, b, xs, ys)
  {
    assert Alike(p, r, sense, a, b);
    var s, t := p.secs[a], p.secs[b];
    assert SectionOk(p, s) && SectionOk(p, t);
    forall k | 0 <= k < |s.relocs| ensures SymbolsAgree(p, sense, s.relocs[k].sym, t.relocs[k].sym) {
      RelatedAgree(p, sense, r, s.relocs[k].sym, t.relocs[k].sym);
    }
    ChildrenAgree(p, sense, r, s.children, t.children, xs, ys, Kids(p, a), Kids(p, b));
    if s.thunk.Some? {
      RelatedMatch(p, sense, r, s.thunk.value, t.thunk.value);
    }
  }

  lemma RelatedAgree(p: Program, sense: Sense, r: Relation, s: nat, t: nat)
    requires Valid(p) && Bisimulation(p, sense, r) && s < |p.syms| && t < |p.syms| && SymsRelated(p, r, s, t)
    ensures SymbolsAgree(p, sense, s, t)
  {
  }

  lemma RelatedMatch(p: Program, sense: Sense, r: Relation, s: nat, t: nat)
    requires Valid(p) && Bisimulation(p, sense, r) && s < |p.syms| && t < |p.syms|
    requires ThunksRelated(p, r, sense, Some(s), Some(t))
    ensures ThunksMatch(p, sense, s, t)
  {
  }

  lemma ChildrenAgree(p: Program, sense: Sense, r: Relation, children1: seq<nat>, children2: seq<nat>, xs: seq<nat>,
                      ys: seq<nat>, kids1: seq<nat>, kids2: seq<nat>)
    requires Valid(p) && Bisimulation(p, sense, r) && ChildrenOk(p, children1) && ChildrenOk(p, children2)
    requires Positions(p, children1, xs) && Positions(p, children2, ys)
    requires kids1 == Considered(p, children1) && kids2 == Considered(p, children2) && |kids1| == |kids2|
    requires forall k :: 0 <= k < |kids1| ==> ChunksRelated(r, kids1[k], kids2[k])
    ensures |xs| == |ys| && forall k :: 0 <= k < |xs| ==>
      xs[k] in xs && ys[k] in ys && SameOrBisimilar(p, sense, children1[xs[k]], children2[ys[k]])
  {
    ConsideredAre(p, children1, xs);
    ConsideredAre(p, children2, ys);
    forall k | 0 <= k < |xs| ensures SameOrBisimilar(p, sense, children1[xs[k]], children2[ys[k]]) {
      assert ChunksRelated(r, kids1[k], kids2[k]);
    }
  }

  /** All bisimilar pairs. */
  ghost function Largest(p: Program, sense: Sense): Relation
    requires Valid(p)
  {
    set c: nat, d: nat | c < |p.secs| && d < |p.secs| && Bisimilar(p, sense, c, d) :: (c, d)
  }

  lemma LookBisimilar(p: Program, sense: Sense, a: nat, b: nat, xs: seq<nat>, ys: seq<nat>)
    requires Valid(p) && a < |p.secs| && b < |p.secs|
    requires ChildrenOk(p, p.secs[a].children) && ChildrenOk(p, p.secs[b].children)
    requires Positions(p, p.secs[a].children, xs) && Positions(p, p.secs[b].children, ys)
    requires LookAlike(p, sense, a, b, xs, ys)
    ensures Bisimilar(p, sense, a, b)
  {
    var r := Largest(p, sense) + {(a, b)};
    LookRelated(p, sense, r, a, b, xs, ys);
    forall c, d | (c, d) in r ensures Alike(p, r, sense, c, d) {
      if (c, d) != (a, b) {
        var r1 :| Bisimulation(p, sense, r1) && (c, d) in r1;
        InLargest(p, sense, r1);
        MoreRelated(p, sense, r1, r, c, d);
      }
    }
    assert Bisimulation(p, sense, r) && (a, b) in r;
  }

  lemma InLargest(p: Program, sense: Sense, r1: Relation)
    requires Valid(p) && Bisimulation(p, sense, r1)
    ensures r1 <= Largest(p, sense)
  {
    forall pair | pair in r1 ensures pair in Largest(p, sense) {
      assert pair == (pair.0, pair.1);
      PairInLargest(p, sense, r1, pair.0, pair.1);
    }
  }

  lemma PairInLargest(p: Program, sense: Sense, r1: Relation, c: nat, d: nat)
    requires Valid(p) && Bisimulation(p, sense, r1) && (c, d) in r1
    ensures (c, d) in Largest(p, sense)
  {
    assert Alike(p, r1, sense, c, d);
    assert Bisimilar(p, sense, c, d);
  }

  lemma MoreRelated(p: Program, sense: Sense, r1: Relation, r: Relation, c: nat, d: nat)
    requires Valid(p) && r1 <= r && Alike(p, r1, sense, c, d)
    ensures Alike(p, r, sense, c, d)
  {
    assert SectionOk(p, p.secs[c]) && SectionOk(p, p.secs[d]);
  }

  lemma LookRelated(p: Program, sense: Sense, r: Relation, a: nat, b: nat, xs: seq<nat>, ys: seq<nat>)
    requires Valid(p) && a < |p.secs| && b < |p.secs| && Largest(p, sense) <= r
    requires ChildrenOk(p, p.secs[a].children) && ChildrenOk(p, p.secs[b].children)
    requires Positions(p, p.secs[a].children, xs) && Positions(p, p.secs[b].children, ys)
    requires LookAlike(p, sense, a, b, xs, ys)
    ensures Alike(p, r, sense, a, b)
  {
    ConsideredAre(p, p.secs[a].children, xs);
    ConsideredAre(p, p.secs[b].children, ys);
    assert SectionOk(p, p.secs[a]) && SectionOk(p, p.secs[b]);
    forall c: nat, d: nat | c < |p.secs| && d < |p.secs| && SameOrBisimilar(p, sense, c, d)
      ensures ChunksRelated(r, c, d) {
      assert c != d ==> (c, d) in Largest(p, sense);
    }
  }

  // ------------------------------------------------------------------ other children

  /** The programs differ in nothing but children that do not count. */
  ghost predicate DifferInOthers(p: Program, q: Program)
    requires Valid(p) && Valid(q)
  {
    p.syms == q.syms && p.eligible == q.eligible && |p.secs| == |q.secs| &&
    forall a :: 0 <= a < |p.secs| ==> p.secs[a] == q.secs[a].(children := p.secs[a].children) && SameCounted(p, q, a)
  }

  ghost predicate SameCounted(p: Program, q: Program, a: nat)
    requires Valid(p) && Valid(q) && a < |p.secs| == |q.secs|
  {
    assert SectionOk(p, p.secs[a]) && SectionOk(q, q.secs[a]);
    exists xs, ys :: SameAt(p, q, p.secs[a].children, q.secs[a].children, xs, ys)
  }

  /** The children that count, at positions `xs` here and `ys` there, are the same. */
  ghost predicate SameAt(p: Program, q: Program, s: seq<nat>, t: seq<nat>, xs: seq<nat>, ys: seq<nat>)
    requires ChildrenOk(p, s) && ChildrenOk(q, t)
  {
    Positions(p, s, xs) && Positions(q, t, ys) && |xs| == |ys| &&
    forall k :: 0 <= k < |xs| ==> xs[k] in xs && ys[k] in ys && s[xs[k]] == t[ys[k]]
  }

  /** They have no influence on what is bisimilar. */
  lemma OthersHaveNoInfluence(p: Program, q: Program, sense: Sense, a: nat, b: nat)
    requires Valid(p) && Valid(q) && DifferInOthers(p, q)
    ensures Bisimilar(p, sense, a, b) <==> Bisimilar(q, sense, a, b)
  {
    forall c: nat | c < |p.secs| ensures Kids(p, c) == Kids(q, c) {
      SameKids(p, q, c);
    }
    forall r: Relation ensures Bisimulation(p, sense, r) <==> Bisimulation(q, sense, r) {
      SameBisimulation(p, q, sense, r);
    }
  }

  lemma SameKids(p: Program, q: Program, c: nat)
    requires Valid(p) && Valid(q) && c < |p.secs| == |q.secs| && SameCounted(p, q, c)
    ensures Kids(p, c) == Kids(q, c)
  {
    var s, t := p.secs[c].children, q.secs[c].children;
    assert SectionOk(p, p.secs[c]) && SectionOk(q, q.secs[c]);
    var xs, ys :| SameAt(p, q, s, t, xs, ys);
    SameConsidered(p, q, s, t, xs, ys, Considered(p, s), Considered(q, t));
  }

  lemma SameConsidered(p: Program, q: Program, s: seq<nat>, t: seq<nat>, xs: seq<nat>, ys: seq<nat>, kids1: seq<nat>,
                       kids2: seq<nat>)
    requires ChildrenOk(p, s) && ChildrenOk(q, t) && SameAt(p, q, s, t, xs, ys)
    requires kids1 == Considered(p, s) && kids2 == Considered(q, t)
    ensures kids1 == kids2
  {
    ConsideredAre(p, s, xs);
    ConsideredAre(q, t, ys);
    SameElements(s, t, xs, ys, kids1, kids2);
  }

  lemma SameElements(s: seq<nat>, t: seq<nat>, xs: seq<nat>, ys: seq<nat>, kids1: seq<nat>, kids2: seq<nat>)
    requires |kids1| == |xs| == |ys| == |kids2|
    requires forall k :: 0 <= k < |xs| ==> xs[k] < |s| && kids1[k] == s[xs[k]]
    requires forall k :: 0 <= k < |ys| ==> ys[k] < |t| && kids2[k] == t[ys[k]]
    requires forall k :: 0 <= k < |xs| ==> s[xs[k]] == t[ys[k]]
    ensures kids1 == kids2
  {
  }

  lemma SameBisimulation(p: Program, q: Program, sense: Sense, r: Relation)
    requires Valid(p) && Valid(q) && DifferInOthers(p, q)
    requires forall c: nat :: c < |p.secs| ==> Kids(p, c) == Kids(q, c)
    ensures Bisimulation(p, sense, r) <==> Bisimulation(q, sense, r)
  {
    forall a, b | (a, b) in r ensures Alike(p, r, sense, a, b) <==> Alike(q, r, sense, a, b) {
      if a < |p.secs| && b < |p.secs| {
        assert p.secs[a] == q.secs[a].(children := p.secs[a].children);
        assert p.secs[b] == q.secs[b].(children := p.secs[b].children);
        SameAlike(p, q, sense, r, a, b);
      }
    }
  }

  lemma SameAlike(p: Program, q: Program, sense: Sense, r: Relation, a: nat, b: nat)
    requires Valid(p) && Valid(q) && p.syms == q.syms && p.eligible == q.eligible && |p.secs| == |q.secs|
    requires a < |p.secs| && b < |p.secs| && Kids(p, a) == Kids(q, a) && Kids(p, b) == Kids(q, b)
    requires p.secs[a] == q.secs[a].(children := p.secs[a].children)
    requires p.secs[b] == q.secs[b].(children := p.secs[b].children)
    ensures Alike(p, r, sense, a, b) <==> Alike(q, r, sense, a, b)
  {
    assert SectionOk(p, p.secs[a]) && SectionOk(p, p.secs[b]);
    var t1, t2 := p.secs[a].thunk, p.secs[b].thunk;
    assert ThunksRelated(p, r, sense, t1, t2) <==> ThunksRelated(q, r, sense, t1, t2);
    forall s: nat, t: nat | s < |p.syms| && t < |p.syms| ensures SymsRelated(p, r, s, t) <==> SymsRelated(q, r, s, t) {
    }
  }
}
