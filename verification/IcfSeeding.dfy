/** The class numbers that folding starts from: running ids for sections that cannot be folded,
    mixed content hashes for the others, and the stable sort that brings classes together. */
module IcfSeeding {
  import opened Collections
  import opened Words
  import opened IcfSections
  import opened IcfPass

  /** The low half of the content hash. */
  type HashOf = seq<nat> -> nat

  /** The id of a section that cannot be folded: one more than the number of such sections before it. */
  function NextId(p: Program, k: nat): (id: nat)
    requires |p.eligible| == |p.secs| && k <= |p.secs|
    ensures 1 <= id <= k + 1
  {
    if k == 0 then 1 else NextId(p, k - 1) + (if Eligible(p, k - 1) then 0 else 1)
  }

  /** The id of section `i` when those below `k` have been numbered. */
  function NumberedId(p: Program, k: nat, i: nat, id: nat): nat
    requires |p.eligible| == |p.secs| && i < |p.secs|
  {
    if i < k && !Eligible(p, i) then NextId(p, i) else id
  }

  function FirstNumber(p: Program, hash: HashOf, k: nat): nat
    requires |p.eligible| == |p.secs| && k < |p.secs|
  {
    if Eligible(p, k) then hash(p.secs[k].header.contents) % TWO_32 else NextId(p, k)
  }

  /** Numbers of the chunks that the relocations refer to are added to `h`, modulo 2^32. */
  function TargetSum(p: Program, cls: Classes, relocs: seq<Reloc>, h: nat): (sum: nat)
    requires Valid(p) && ClassesOk(p, cls) && h < TWO_32
    requires forall k :: 0 <= k < |relocs| ==> relocs[k].sym < |p.syms|
    ensures sum < TWO_32
    decreases |relocs|
  {
    if relocs == [] then h
    else
      var sym := p.syms[relocs[0].sym];
      TargetSum(p, cls, relocs[1..], if sym.Regular? then (h + cls[sym.chunk]) % TWO_32 else h)
  }

  function WithTopBit(h: nat): (r: nat)
    requires h < TWO_32
    ensures TWO_31 <= r < TWO_32
  {
    if h < TWO_31 then h + TWO_31 else h
  }

  function Mixed(p: Program, cls: Classes, a: nat): (r: nat)
    requires Valid(p) && ClassesOk(p, cls) && a < |p.secs|
    ensures TWO_31 <= r < TWO_32
  {
    assert SectionOk(p, p.secs[a]);
    WithTopBit(TargetSum(p, cls, p.secs[a].relocs, cls[a] % TWO_32))
  }

  /** `next` is `cls` mixed once; sections that cannot be folded keep what they had in `before`. */
  ghost predicate IsRound(p: Program, cls: Classes, before: Classes, next: Classes)
    requires Valid(p) && ClassesOk(p, cls) && ClassesOk(p, before) && ClassesOk(p, next)
  {
    forall a :: 0 <= a < |p.secs| ==> next[a] == if Eligible(p, a) then Mixed(p, cls, a) else before[a]
  }

  /** What seeding leaves in the two slots. */
  ghost predicate IsSeeded(p: Program, hash: HashOf, cls0: Classes, cls1: Classes)
    requires Valid(p) && ClassesOk(p, cls0) && ClassesOk(p, cls1)
  {
    exists first: Classes, zeros: Classes :: ClassesOk(p, first) && ClassesOk(p, zeros) &&
      Seeding(p, hash, first, zeros, cls0, cls1)
  }

  ghost predicate Seeding(p: Program, hash: HashOf, first: Classes, zeros: Classes, cls0: Classes, cls1: Classes)
    requires Valid(p) && ClassesOk(p, cls0) && ClassesOk(p, cls1) && ClassesOk(p, first) && ClassesOk(p, zeros)
  {
    (forall k :: 0 <= k < |p.secs| ==> first[k] == FirstNumber(p, hash, k) && zeros[k] == 0) &&
    IsRound(p, first, zeros, cls1) && IsRound(p, cls1, first, cls0)
  }

  // ------------------------------------------------------------------ the numbers spelled out

  /** The numbers of the sections that the first `k` relocations refer to, added up. */
  function Total(p: Program, cls: Classes, relocs: seq<Reloc>, k: nat): nat
    requires Valid(p) && ClassesOk(p, cls) && k <= |relocs|
    requires forall k :: 0 <= k < |relocs| ==> relocs[k].sym < |p.syms|
  {
    if k == 0 then 0
    else
      var sym := p.syms[relocs[k - 1].sym];
      Total(p, cls, relocs, k - 1) + if sym.Regular? then cls[sym.chunk] else 0
  }

  lemma {:induction false} TotalCons(p: Program, cls: Classes, relocs: seq<Reloc>, k: nat)
    requires Valid(p) && ClassesOk(p, cls) && 0 < k <= |relocs|
    requires forall k :: 0 <= k < |relocs| ==> relocs[k].sym < |p.syms|
    ensures var sym := p.syms[relocs[0].sym];
      Total(p, cls, relocs, k) == (if sym.Regular? then cls[sym.chunk] else 0) + Total(p, cls, relocs[1..], k - 1)
  {
    if k > 1 {
      TotalCons(p, cls, relocs, k - 1);
      assert relocs[1..][k - 2] == relocs[k - 1];
    }
  }

  lemma {:induction false} SumIsTotal(p: Program, cls: Classes, relocs: seq<Reloc>, h: nat)
    requires Valid(p) && ClassesOk(p, cls) && h < TWO_32
    requires forall k :: 0 <= k < |relocs| ==> relocs[k].sym < |p.syms|
    ensures TargetSum(p, cls, relocs, h) == (h + Total(p, cls, relocs, |relocs|)) % 0x1_0000_0000
    decreases |relocs|
  {
    if relocs != [] {
      var sym := p.syms[relocs[0].sym];
      var add := if sym.Regular? then cls[sym.chunk] else 0;
      SumIsTotal(p, cls, relocs[1..], if sym.Regular? then (h + add) % TWO_32 else h);
      TotalCons(p, cls, relocs, |relocs|);
      AddTwice(h, add, Total(p, cls, relocs[1..], |relocs| - 1));
    }
  }

  lemma AddTwice(h: nat, a: nat, b: nat)
    requires h < TWO_32
    ensures ((h + a) % TWO_32 + b) % TWO_32 == (h + (a + b)) % TWO_32
  {
  }

  /** Mixing adds the numbers of the sections that the relocations refer to, modulo 2^32, and sets
      the top bit. */
  lemma MixedIs(p: Program, cls: Classes, a: nat)
    requires Valid(p) && ClassesOk(p, cls) && a < |p.secs| && SectionOk(p, p.secs[a])
    ensures var n := (cls[a] + Total(p, cls, p.secs[a].relocs, |p.secs[a].relocs|)) % 0x1_0000_0000;
      Mixed(p, cls, a) == if n < 0x8000_0000 then n + 0x8000_0000 else n
  {
    var total := Total(p, cls, p.secs[a].relocs, |p.secs[a].relocs|);
    SumIsTotal(p, cls, p.secs[a].relocs, cls[a] % TWO_32);
    AddTwice(0, cls[a], total);
  }

  /** The sections below `k` that cannot be folded. */
  function Unfoldable(p: Program, k: nat): nat
    requires k <= |p.secs| == |p.eligible|
  {
    if k == 0 then 0 else Unfoldable(p, k - 1) + if p.eligible[k - 1] then 0 else 1
  }

  lemma {:induction false} NextIdIs(p: Program, k: nat)
    requires k <= |p.secs| == |p.eligible|
    ensures NextId(p, k) == Unfoldable(p, k) + 1
  {
    if k > 0 {
      NextIdIs(p, k - 1);
    }
  }

  /** Sections that cannot be folded are numbered from one on in the first slot and have zero in the
      second; the others have their content hash mixed once in the second and twice in the first. */
  lemma SeededIs(p: Program, hash: HashOf, cls0: Classes, cls1: Classes, a: nat) returns (first: Classes)
    requires Valid(p) && ClassesOk(p, cls0) && ClassesOk(p, cls1) && IsSeeded(p, hash, cls0, cls1) && a < |p.secs|
    ensures ClassesOk(p, first) && forall k :: 0 <= k < |p.secs| ==>
      first[k] == if p.eligible[k] then hash(p.secs[k].header.contents) % 0x1_0000_0000 else Unfoldable(p, k) + 1
    ensures if p.eligible[a] then cls1[a] == Mixed(p, first, a) && cls0[a] == Mixed(p, cls1, a)
            else cls0[a] == Unfoldable(p, a) + 1 && cls1[a] == 0
  {
    var seeds: Classes, zeros: Classes :| ClassesOk(p, seeds) && ClassesOk(p, zeros) &&
      Seeding(p, hash, seeds, zeros, cls0, cls1);
    first := seeds;
    forall k | 0 <= k < |p.secs| ensures NextId(p, k) == Unfoldable(p, k) + 1 {
      NextIdIs(p, k);
    }
  }

  // ------------------------------------------------------------------ bisimilar sections hash alike

  ghost predicate TargetsMatch(p: Program, cls: Classes, s1: nat, s2: nat)
    requires Valid(p) && ClassesOk(p, cls) && s1 < |p.syms| && s2 < |p.syms|
  {
    s1 == s2 || (p.syms[s1].Regular? && p.syms[s2].Regular? && cls[p.syms[s1].chunk] == cls[p.syms[s2].chunk])
  }

  /** Two relocation lists whose targets have equal numbers in step add up to the same. */
  lemma {:induction false} SumsEqual(p: Program, cls: Classes, ra: seq<Reloc>, rb: seq<Reloc>, h: nat)
    requires Valid(p) && ClassesOk(p, cls) && h < TWO_32 && |ra| == |rb|
    requires forall k :: 0 <= k < |ra| ==> ra[k].sym < |p.syms| && rb[k].sym < |p.syms|
    requires forall k :: 0 <= k < |ra| ==> TargetsMatch(p, cls, ra[k].sym, rb[k].sym)
    ensures TargetSum(p, cls, ra, h) == TargetSum(p, cls, rb, h)
    decreases |ra|
  {
    if ra != [] {
      var sym := p.syms[ra[0].sym];
      SumsEqual(p, cls, ra[1..], rb[1..], if sym.Regular? then (h + cls[sym.chunk]) % TWO_32 else h);
    }
  }

  lemma MixedEqual(p: Program, sense: Sense, cls: Classes, a: nat, b: nat)
    requires Valid(p) && ClassesOk(p, cls) && KeepsTogether(p, sense, cls)
    requires a < |p.secs| && b < |p.secs| && Bisimilar(p, sense, a, b)
    ensures Mixed(p, cls, a) == Mixed(p, cls, b)
  {
    var r :| Bisimulation(p, sense, r) && (a, b) in r;
    assert Alike(p, r, sense, a, b);
    assert SectionOk(p, p.secs[a]) && SectionOk(p, p.secs[b]);
    var ra, rb := p.secs[a].relocs, p.secs[b].relocs;
    forall k | 0 <= k < |ra| ensures TargetsMatch(p, cls, ra[k].sym, rb[k].sym) {
      assert SymsRelated(p, r, ra[k].sym, rb[k].sym);
      if ra[k].sym != rb[k].sym {
        var c, d := p.syms[ra[k].sym].chunk, p.syms[rb[k].sym].chunk;
        assert c != d ==> Bisimilar(p, sense, c, d);
      }
    }
    SumsEqual(p, cls, ra, rb, cls[a] % TWO_32);
  }

  lemma RoundKeepsTogether(p: Program, sense: Sense, cls: Classes, before: Classes, next: Classes)
    requires Valid(p) && ClassesOk(p, cls) && ClassesOk(p, before) && ClassesOk(p, next)
    requires KeepsTogether(p, sense, cls) && IsRound(p, cls, before, next)
    ensures KeepsTogether(p, sense, next)
  {
    forall a: nat, b: nat | a < |p.secs| && b < |p.secs| && Bisimilar(p, sense, a, b) ensures next[a] == next[b] {
      BisimilarEligible(p, sense, a, b);
      MixedEqual(p, sense, cls, a, b);
    }
  }

  lemma BisimilarEligible(p: Program, sense: Sense, a: nat, b: nat)
    requires Valid(p) && Bisimilar(p, sense, a, b)
    ensures Eligible(p, a) && Eligible(p, b) && p.secs[a].header == p.secs[b].header
  {
    var r :| Bisimulation(p, sense, r) && (a, b) in r;
    assert Alike(p, r, sense, a, b);
  }

  lemma FirstKeepsTogether(p: Program, hash: HashOf, sense: Sense, first: Classes)
    requires Valid(p) && ClassesOk(p, first) && forall k :: 0 <= k < |p.secs| ==> first[k] == FirstNumber(p, hash, k)
    ensures KeepsTogether(p, sense, first)
  {
    forall a: nat, b: nat | a < |p.secs| && b < |p.secs| && Bisimilar(p, sense, a, b) ensures first[a] == first[b] {
      BisimilarEligible(p, sense, a, b);
    }
  }

  // ------------------------------------------------------------------ ids do not collide

  lemma {:induction false} NextIdGrows(p: Program, a: nat, b: nat)
    requires |p.eligible| == |p.secs| && a <= b <= |p.secs|
    ensures NextId(p, a) <= NextId(p, b)
    ensures a < b && !Eligible(p, a) ==> NextId(p, a) < NextId(p, b)
    decreases b
  {
    if a < b {
      NextIdGrows(p, a, b - 1);
    }
  }

  /** Hashing never separates bisimilar sections, running ids keep all other sections apart from
      each other and from hashes, and the second slot of those is zero. */
  lemma SeedingIsSafe(p: Program, hash: HashOf, cls0: Classes, cls1: Classes)
    requires Valid(p) && ClassesOk(p, cls0) && ClassesOk(p, cls1) && IsSeeded(p, hash, cls0, cls1)
    ensures KeepsTogether(p, Strict, cls0) && KeepsTogether(p, Weak, cls0) && IneligibleAlone(p, cls0)
    ensures forall c: nat :: c < |p.secs| && !Eligible(p, c) ==> cls1[c] == 0
  {
    var first: Classes, zeros: Classes :| ClassesOk(p, first) && ClassesOk(p, zeros) &&
      Seeding(p, hash, first, zeros, cls0, cls1);
    forall sense: Sense ensures KeepsTogether(p, sense, cls0) {
      FirstKeepsTogether(p, hash, sense, first);
      RoundKeepsTogether(p, sense, first, zeros, cls1);
      RoundKeepsTogether(p, sense, cls1, first, cls0);
    }
    forall c: nat, d: nat | c < |p.secs| && d < |p.secs| && cls0[c] == cls0[d] ensures ChunksAgree(p, c, d) {
      if !Eligible(p, c) || !Eligible(p, d) {
        assert NextId(p, c) <= c + 1 < TWO_31 && NextId(p, d) <= d + 1 < TWO_31;
        NextIdGrows(p, if c < d then c else d, if c < d then d else c);
      }
    }
  }

  // ------------------------------------------------------------------ the sort

  /** Stands for the library's stable sort by class number. */
  function SortBy(cls: Classes, s: seq<nat>): (r: seq<nat>)
    requires Within(s, |cls|)
    ensures Within(r, |cls|)
  {
    if s == [] then [] else InsertBy(cls, s[0], SortBy(cls, s[1..]))
  }

  function InsertBy(cls: Classes, x: nat, s: seq<nat>): (r: seq<nat>)
    requires Within(s, |cls|) && x < |cls|
    ensures Within(r, |cls|)
  {
    if s == [] || cls[x] <= cls[s[0]] then [x] + s else [s[0]] + InsertBy(cls, x, s[1..])
  }

  /** Ascending by number, and by position within a number. */
  ghost predicate SortedBy(cls: Classes, s: seq<nat>)
    requires Within(s, |cls|)
  {
    forall i, j :: 0 <= i < j < |s| ==> Before(cls, s[i], s[j])
  }

  ghost predicate Before(cls: Classes, x: nat, y: nat)
    requires x < |cls| && y < |cls|
  {
    cls[x] < cls[y] || (cls[x] == cls[y] && x < y)
  }

  lemma PrependSorted(cls: Classes, x: nat, s: seq<nat>)
    requires Within(s, |cls|) && x < |cls| && SortedBy(cls, s) && forall i :: 0 <= i < |s| ==> Before(cls, x, s[i])
    ensures SortedBy(cls, [x] + s)
  {
  }

  lemma {:induction false} InsertSorts(cls: Classes, x: nat, s: seq<nat>)
    requires Within(s, |cls|) && x < |cls| && SortedBy(cls, s) && forall i :: 0 <= i < |s| ==> x < s[i]
    ensures SortedBy(cls, InsertBy(cls, x, s)) && multiset(InsertBy(cls, x, s)) == multiset{x} + multiset(s)
  {
    if s == [] || cls[x] <= cls[s[0]] {
      assert forall i :: 0 < i < |s| ==> Before(cls, s[0], s[i]);
      PrependSorted(cls, x, s);
    } else {
      InsertSorts(cls, x, s[1..]);
      var r := InsertBy(cls, x, s[1..]);
      assert s == [s[0]] + s[1..];
      forall i | 0 <= i < |r| ensures Before(cls, s[0], r[i]) {
        assert r[i] in multiset(r);
        assert r[i] == x || r[i] in s[1..];
      }
      PrependSorted(cls, s[0], r);
    }
  }

  lemma {:induction false} SortSorts(cls: Classes, s: seq<nat>)
    requires Within(s, |cls|) && Ascending(s)
    ensures SortedBy(cls, SortBy(cls, s)) && multiset(SortBy(cls, s)) == multiset(s)
  {
    if s != [] {
      SortSorts(cls, s[1..]);
      var r := SortBy(cls, s[1..]);
      assert s == [s[0]] + s[1..];
      forall i | 0 <= i < |r| ensures s[0] < r[i] {
        assert r[i] in multiset(r);
        assert r[i] in s[1..];
      }
      InsertSorts(cls, s[0], r);
    }
  }

  /** After the sort classes are contiguous, each in input order. */
  lemma SortGroups(cls: Classes, s: seq<nat>)
    requires Within(s, |cls|) && Ascending(s)
    ensures var r := SortBy(cls, s); multiset(r) == multiset(s) && GroupedIn(cls, r, 0, |r|)
  {
    SortSorts(cls, s);
    SortedGroups(cls, SortBy(cls, s));
  }

  lemma SortedGroups(cls: Classes, r: seq<nat>)
    requires Within(r, |cls|) && SortedBy(cls, r)
    ensures GroupedIn(cls, r, 0, |r|)
  {
    forall i, j, k | 0 <= i < j < |r| && cls[r[i]] == cls[r[j]] && i <= k <= j ensures cls[r[k]] == cls[r[i]] {
      assert i < k ==> Before(cls, r[i], r[k]);
      assert k < j ==> Before(cls, r[k], r[j]);
    }
    forall i, j | 0 <= i < j < |r| ensures Before(cls, r[i], r[j]) {
    }
  }
}
