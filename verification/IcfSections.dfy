/** Sections as identical COMDAT folding sees them, its comparisons, and what it is meant to compute:
    the coarsest relation under which related sections look alike. */
module IcfSections {
  import opened Words
  import opened Options

  /** A symbol: defined in a section chunk at some offset, or anything else. */
  datatype Symbol = Regular(value: nat, chunk: nat) | Other

  datatype Reloc = Reloc(kind: nat, va: nat, sym: nat)

  /** Everything `equalsConstant` compares apart from relocations and children. */
  datatype Header = Header(characteristics: nat, name: string, rawSize: nat, checksum: nat,
                           contents: seq<nat>, machine: nat)

  /** `children` are the associated sections, `thunk` is the symbol of the EC entry thunk. */
  datatype Section = Section(header: Header, relocs: seq<Reloc>, children: seq<nat>, thunk: Option<nat>)

  /** Sections are numbered in the order of the chunk list, followed by those of the merge chunks.
      Symbols are numbered too, so that equal numbers mean the same symbol object. */
  datatype Program = Program(syms: seq<Symbol>, secs: seq<Section>, eligible: seq<bool>)

  ghost predicate Valid(p: Program) {
    |p.eligible| == |p.secs| && |p.secs| + 1 < TWO_31 &&
    (forall s :: 0 <= s < |p.syms| && p.syms[s].Regular? ==> p.syms[s].chunk < |p.secs|) &&
    forall a :: 0 <= a < |p.secs| ==> SectionOk(p, p.secs[a])
  }

  ghost predicate SectionOk(p: Program, sec: Section) {
    (forall k :: 0 <= k < |sec.relocs| ==> sec.relocs[k].sym < |p.syms|) &&
    (forall k :: 0 <= k < |sec.children| ==> sec.children[k] < |p.secs|) &&
    (sec.thunk.Some? ==> sec.thunk.value < |p.syms|)
  }

  predicate Eligible(p: Program, a: nat) {
    a < |p.secs| && a < |p.eligible| && p.eligible[a]
  }

  predicate StartsWith(s: string, prefix: string) {
    prefix <= s
  }

  /** Debug info and CFGuard metadata take no part in the comparison of children. */
  predicate ConsideredForICF(name: string) {
    !(StartsWith(name, ".debug") || name == ".gfids$y" || name == ".giats$y" || name == ".gljmp$y")
  }

  function Considered(p: Program, children: seq<nat>): (r: seq<nat>)
    requires forall k :: 0 <= k < |children| ==> children[k] < |p.secs|
    ensures forall k :: 0 <= k < |r| ==> r[k] < |p.secs|
  {
    if children == [] then []
    else
      (if ConsideredForICF(p.secs[children[0]].header.name) then [children[0]] else [])
      + Considered(p, children[1..])
  }

  function Kids(p: Program, a: nat): (r: seq<nat>)
    requires Valid(p) && a < |p.secs|
    ensures forall k :: 0 <= k < |r| ==> r[k] < |p.secs|
  {
    assert SectionOk(p, p.secs[a]);
    Considered(p, p.secs[a].children)
  }

  // ------------------------------------------------------------------ comparisons

  /** A class number for every section. */
  type Classes = seq<nat>

  predicate ClassesOk(p: Program, cls: Classes) { |cls| == |p.secs| }

  /** Same symbol, or both in sections of one class; the constant pass also compares offsets. */
  predicate SymEquals(p: Program, constant: bool, cls: Classes, s1: nat, s2: nat)
    requires Valid(p) && ClassesOk(p, cls) && s1 < |p.syms| && s2 < |p.syms|
  {
    s1 == s2 ||
    (p.syms[s1].Regular? && p.syms[s2].Regular? && (constant ==> p.syms[s1].value == p.syms[s2].value) &&
     cls[p.syms[s1].chunk] == cls[p.syms[s2].chunk])
  }

  predicate AssocEquals(p: Program, cls: Classes, a: nat, b: nat)
    requires Valid(p) && ClassesOk(p, cls) && a < |p.secs| && b < |p.secs|
  {
    var ra, rb := Kids(p, a), Kids(p, b);
    |ra| == |rb| && forall k :: 0 <= k < |ra| ==> cls[ra[k]] == cls[rb[k]]
  }

  predicate RelocsEqual(p: Program, constant: bool, cls: Classes, a: nat, b: nat)
    requires Valid(p) && ClassesOk(p, cls) && a < |p.secs| && b < |p.secs|
  {
    assert SectionOk(p, p.secs[a]) && SectionOk(p, p.secs[b]);
    var ra, rb := p.secs[a].relocs, p.secs[b].relocs;
    |ra| == |rb| &&
    forall k :: 0 <= k < |ra| ==>
      (constant ==> ra[k].kind == rb[k].kind && ra[k].va == rb[k].va) &&
      SymEquals(p, constant, cls, ra[k].sym, rb[k].sym)
  }

  predicate ThunksEqual(p: Program, cls: Classes, a: nat, b: nat)
    requires Valid(p) && ClassesOk(p, cls) && a < |p.secs| && b < |p.secs|
  {
    assert SectionOk(p, p.secs[a]) && SectionOk(p, p.secs[b]);
    var t1, t2 := p.secs[a].thunk, p.secs[b].thunk;
    (t1.None? && t2.None?) || (t1.Some? && t2.Some? && SymEquals(p, false, cls, t1.value, t2.value))
  }

  /** `equalsConstant` when `constant`, otherwise `equalsVariable`. Only the former looks at the
      section headers, only the latter at entry thunks. Sections that `equalsVariable` compares
      have been through the constant pass together, so their relocation counts agree. */
  predicate Equals(p: Program, constant: bool, cls: Classes, a: nat, b: nat)
    requires Valid(p) && ClassesOk(p, cls) && a < |p.secs| && b < |p.secs|
  {
    RelocsEqual(p, constant, cls, a, b) && AssocEquals(p, cls, a, b) &&
    (if constant then p.secs[a].header == p.secs[b].header else ThunksEqual(p, cls, a, b))
  }

  /** Comparing with the first section of a class is as good as comparing all pairs. */
  lemma EqualsIsEquivalence(p: Program, constant: bool, cls: Classes, a: nat, b: nat, c: nat)
    requires Valid(p) && ClassesOk(p, cls) && a < |p.secs| && b < |p.secs| && c < |p.secs|
    ensures Equals(p, constant, cls, a, a)
    ensures Equals(p, constant, cls, a, b) ==> Equals(p, constant, cls, b, a)
    ensures Equals(p, constant, cls, a, b) && Equals(p, constant, cls, b, c) ==> Equals(p, constant, cls, a, c)
  {
  }

  /** The least section, from `y` on, that compares equal to `x`. */
  ghost function Representative(p: Program, constant: bool, cls: Classes, x: nat, y: nat): (r: nat)
    requires Valid(p) && ClassesOk(p, cls) && y <= x < |p.secs|
    ensures y <= r <= x
    decreases x - y
  {
    if y == x || Equals(p, constant, cls, y, x) then y else Representative(p, constant, cls, x, y + 1)
  }

  /** A number for each section that is the same for two sections exactly when they compare equal. */
  ghost function KeyFor(p: Program, constant: bool, cls: Classes): nat -> nat {
    (x: nat) => if Valid(p) && ClassesOk(p, cls) && x < |p.secs| then Representative(p, constant, cls, x, 0) else x
  }

  lemma {:induction false} RepresentativeIsLeast(p: Program, constant: bool, cls: Classes, x: nat, y: nat, z: nat)
    requires Valid(p) && ClassesOk(p, cls) && y <= x < |p.secs|
    ensures Equals(p, constant, cls, Representative(p, constant, cls, x, y), x)
    ensures y <= z < Representative(p, constant, cls, x, y) ==> !Equals(p, constant, cls, z, x)
    decreases x - y
  {
    EqualsIsEquivalence(p, constant, cls, x, x, x);
    if y < x && !Equals(p, constant, cls, y, x) {
      RepresentativeIsLeast(p, constant, cls, x, y + 1, z);
    }
  }

  lemma KeyIsEquality(p: Program, constant: bool, cls: Classes, a: nat, b: nat)
    requires Valid(p) && ClassesOk(p, cls) && a < |p.secs| && b < |p.secs|
    ensures KeyFor(p, constant, cls)(a) == KeyFor(p, constant, cls)(b) <==> Equals(p, constant, cls, a, b)
  {
    var u, v := Representative(p, constant, cls, a, 0), Representative(p, constant, cls, b, 0);
    RepresentativeIsLeast(p, constant, cls, a, 0, v);
    RepresentativeIsLeast(p, constant, cls, b, 0, u);
    if u == v {
      EqualsIsEquivalence(p, constant, cls, u, a, a);
      EqualsIsEquivalence(p, constant, cls, a, u, b);
    }
    if Equals(p, constant, cls, a, b) {
      EqualsIsEquivalence(p, constant, cls, u, a, b);
      EqualsIsEquivalence(p, constant, cls, a, b, a);
      EqualsIsEquivalence(p, constant, cls, v, b, a);
    }
  }

  /** `key` numbers sections alike exactly when they compare equal. */
  ghost predicate IsKey(p: Program, constant: bool, cls: Classes, key: nat -> nat)
    requires Valid(p) && ClassesOk(p, cls)
  {
    forall a: nat, b: nat {:trigger Equals(p, constant, cls, a, b)} :: a < |p.secs| && b < |p.secs| ==>
      (key(a) == key(b) <==> Equals(p, constant, cls, a, b))
  }

  lemma KeyExists(p: Program, constant: bool, cls: Classes) returns (key: nat -> nat)
    requires Valid(p) && ClassesOk(p, cls)
    ensures IsKey(p, constant, cls, key)
  {
    key := KeyFor(p, constant, cls);
    forall a: nat, b: nat | a < |p.secs| && b < |p.secs|
      ensures key(a) == key(b) <==> Equals(p, constant, cls, a, b)
    {
      KeyIsEquality(p, constant, cls, a, b);
    }
  }

  // ------------------------------------------------------------------ bisimilarity

  type Relation = set<(nat, nat)>

  /** The two chunks are one and the same, or related. */
  predicate ChunksRelated(r: Relation, c1: nat, c2: nat) {
    c1 == c2 || (c1, c2) in r
  }

  ghost predicate SymsRelated(p: Program, r: Relation, s1: nat, s2: nat)
    requires Valid(p) && s1 < |p.syms| && s2 < |p.syms|
  {
    s1 == s2 ||
    (p.syms[s1].Regular? && p.syms[s2].Regular? && p.syms[s1].value == p.syms[s2].value &&
     ChunksRelated(r, p.syms[s1].chunk, p.syms[s2].chunk))
  }

  /** How entry thunks are told apart: weakly, two thunks in sections that cannot be folded are
      taken for equal; strictly, they are compared by their chunks alone; fully, by chunk and offset. */
  datatype Sense = Weak | Strict | Full

  /** What the variable passes tell apart: one of them only weakly. */
  function SenseOf(two: bool): Sense {
    if two then Strict else Weak
  }

  ghost predicate ThunksRelated(p: Program, r: Relation, sense: Sense, t1: Option<nat>, t2: Option<nat>)
    requires Valid(p) && (t1.Some? ==> t1.value < |p.syms|) && (t2.Some? ==> t2.value < |p.syms|)
  {
    (t1.None? && t2.None?) ||
    (t1.Some? && t2.Some? &&
     (t1.value == t2.value ||
      (p.syms[t1.value].Regular? && p.syms[t2.value].Regular? &&
       var c1, c2 := p.syms[t1.value].chunk, p.syms[t2.value].chunk;
       (ChunksRelated(r, c1, c2) && (sense == Full ==> p.syms[t1.value].value == p.syms[t2.value].value)) ||
       (sense == Weak && !Eligible(p, c1) && !Eligible(p, c2)))))
  }

  /** `a` and `b` are foldable, have equal constant parts, and refer to related things in step. */
  ghost predicate Alike(p: Program, r: Relation, sense: Sense, a: nat, b: nat)
    requires Valid(p)
  {
    Eligible(p, a) && Eligible(p, b) &&
    assert SectionOk(p, p.secs[a]) && SectionOk(p, p.secs[b]);
    var sa, sb, ka, kb := p.secs[a], p.secs[b], Kids(p, a), Kids(p, b);
    sa.header == sb.header && |sa.relocs| == |sb.relocs| && |ka| == |kb| &&
    (forall k :: 0 <= k < |sa.relocs| ==>
       sa.relocs[k].kind == sb.relocs[k].kind && sa.relocs[k].va == sb.relocs[k].va &&
       SymsRelated(p, r, sa.relocs[k].sym, sb.relocs[k].sym)) &&
    (forall k :: 0 <= k < |ka| ==> ChunksRelated(r, ka[k], kb[k])) &&
    ThunksRelated(p, r, sense, sa.thunk, sb.thunk)
  }

  ghost predicate Bisimulation(p: Program, sense: Sense, r: Relation)
    requires Valid(p)
  {
    forall a, b :: (a, b) in r ==> Alike(p, r, sense, a, b)
  }

  /** Related by some bisimulation. */
  ghost predicate Bisimilar(p: Program, sense: Sense, a: nat, b: nat)
    requires Valid(p)
  {
    exists r :: Bisimulation(p, sense, r) && (a, b) in r
  }

  lemma StrictIsWeak(p: Program, a: nat, b: nat)
    requires Valid(p) && Bisimilar(p, Strict, a, b)
    ensures Bisimilar(p, Weak, a, b)
  {
    var r :| Bisimulation(p, Strict, r) && (a, b) in r;
    assert Bisimulation(p, Weak, r);
  }

  lemma FullIsStrict(p: Program, a: nat, b: nat)
    requires Valid(p) && Bisimilar(p, Full, a, b)
    ensures Bisimilar(p, Strict, a, b)
  {
    var r :| Bisimulation(p, Full, r) && (a, b) in r;
    assert Bisimulation(p, Strict, r);
  }

  /** The two senses agree on every pair. */
  ghost predicate SameSense(p: Program, s: Sense, t: Sense)
    requires Valid(p)
  {
    forall a: nat, b: nat :: Bisimilar(p, s, a, b) <==> Bisimilar(p, t, a, b)
  }

  // ------------------------------------------------------------------ refinement and bisimilarity

  /** Bisimilar sections have not been separated. */
  ghost predicate KeepsTogether(p: Program, sense: Sense, cls: Classes)
    requires Valid(p) && ClassesOk(p, cls)
  {
    forall a: nat, b: nat :: a < |p.secs| && b < |p.secs| && Bisimilar(p, sense, a, b) ==> cls[a] == cls[b]
  }

  /** No comparison can tell bisimilar sections apart while bisimilar sections share classes. In
      the weak sense this needs sections that cannot be folded to share a class as well. */
  lemma BisimilarEquals(p: Program, sense: Sense, constant: bool, cls: Classes, a: nat, b: nat)
    requires Valid(p) && ClassesOk(p, cls) && KeepsTogether(p, sense, cls)
    requires a < |p.secs| && b < |p.secs| && Bisimilar(p, sense, a, b)
    requires sense != Weak || constant || forall c: nat, d: nat ::
      c < |p.secs| && d < |p.secs| && !Eligible(p, c) && !Eligible(p, d) ==> cls[c] == cls[d]
    ensures Equals(p, constant, cls, a, b)
  {
    var r :| Bisimulation(p, sense, r) && (a, b) in r;
    assert Alike(p, r, sense, a, b);
    assert SectionOk(p, p.secs[a]) && SectionOk(p, p.secs[b]);
    forall c: nat, d: nat | c < |p.secs| && d < |p.secs| && ChunksRelated(r, c, d) ensures cls[c] == cls[d] {
      assert c != d ==> Bisimilar(p, sense, c, d);
    }
  }

  /** What two sections that the constant pass left together have in common: corresponding
      relocations and children lead to one chunk, or to two chunks that can be folded. */
  ghost predicate ConstantAgree(p: Program, a: nat, b: nat)
    requires Valid(p) && a < |p.secs| && b < |p.secs|
  {
    assert SectionOk(p, p.secs[a]) && SectionOk(p, p.secs[b]);
    var sa, sb, ka, kb := p.secs[a], p.secs[b], Kids(p, a), Kids(p, b);
    sa.header == sb.header && |sa.relocs| == |sb.relocs| && |ka| == |kb| &&
    (forall k :: 0 <= k < |sa.relocs| ==>
       sa.relocs[k].kind == sb.relocs[k].kind && sa.relocs[k].va == sb.relocs[k].va &&
       SymsAgree(p, sa.relocs[k].sym, sb.relocs[k].sym)) &&
    forall k :: 0 <= k < |ka| ==> ChunksAgree(p, ka[k], kb[k])
  }

  predicate ChunksAgree(p: Program, c1: nat, c2: nat) {
    c1 == c2 || (Eligible(p, c1) && Eligible(p, c2))
  }

  ghost predicate SymsAgree(p: Program, s1: nat, s2: nat)
    requires Valid(p) && s1 < |p.syms| && s2 < |p.syms|
  {
    s1 == s2 ||
    (p.syms[s1].Regular? && p.syms[s2].Regular? && p.syms[s1].value == p.syms[s2].value &&
     ChunksAgree(p, p.syms[s1].chunk, p.syms[s2].chunk))
  }

  /** Sections that cannot be folded have classes of their own. */
  ghost predicate IneligibleAlone(p: Program, cls: Classes)
    requires Valid(p) && ClassesOk(p, cls)
  {
    forall c: nat, d: nat :: c < |p.secs| && d < |p.secs| && cls[c] == cls[d] ==> ChunksAgree(p, c, d)
  }

  lemma ConstantPassAgrees(p: Program, cls: Classes, a: nat, b: nat)
    requires Valid(p) && ClassesOk(p, cls) && IneligibleAlone(p, cls)
    requires a < |p.secs| && b < |p.secs| && Equals(p, true, cls, a, b)
    ensures ConstantAgree(p, a, b)
  {
    assert SectionOk(p, p.secs[a]) && SectionOk(p, p.secs[b]);
  }

  /** The two thunks agree up to foldable chunks, or (weakly) both lie in chunks that cannot be folded. */
  ghost predicate ThunksAgree(p: Program, sense: Sense, a: nat, b: nat)
    requires Valid(p) && a < |p.secs| && b < |p.secs|
  {
    assert SectionOk(p, p.secs[a]) && SectionOk(p, p.secs[b]);
    var t1, t2 := p.secs[a].thunk, p.secs[b].thunk;
    (t1.None? && t2.None?) ||
    (t1.Some? && t2.Some? &&
     (t1.value == t2.value ||
      (p.syms[t1.value].Regular? && p.syms[t2.value].Regular? &&
       var c1, c2 := p.syms[t1.value].chunk, p.syms[t2.value].chunk;
       ChunksAgree(p, c1, c2) || (sense == Weak && !Eligible(p, c1) && !Eligible(p, c2)))))
  }

  /** Sharing a class is a bisimulation once a pass has split nothing. */
  lemma StableIsBisimilar(p: Program, sense: Sense, cls: Classes, a: nat, b: nat)
    requires Valid(p) && ClassesOk(p, cls) && sense != Full
    requires forall x: nat, y: nat :: Eligible(p, x) && Eligible(p, y) && cls[x] == cls[y] ==>
      ConstantAgree(p, x, y) && ThunksAgree(p, sense, x, y) && Equals(p, false, cls, x, y)
    requires Eligible(p, a) && Eligible(p, b) && cls[a] == cls[b]
    ensures Bisimilar(p, sense, a, b)
  {
    var r := set x: nat, y: nat |
      x < |p.secs| && y < |p.secs| && Eligible(p, x) && Eligible(p, y) && cls[x] == cls[y] :: (x, y);
    forall x, y | (x, y) in r ensures Alike(p, r, sense, x, y) {
      assert ConstantAgree(p, x, y) && ThunksAgree(p, sense, x, y) && Equals(p, false, cls, x, y);
      assert SectionOk(p, p.secs[x]) && SectionOk(p, p.secs[y]);
    }
    assert (a, b) in r;
  }
}
