/** What the loaders of the native and of the EC view find in one import table. */
module ImportViews {
  import opened Collections
  import opened Options
  import opened ImportFiles
  import opened ImportTable
  import opened ImportImage

  /** The position of a chunk in a table. */
  ghost function Find(table: seq<nat>, id: nat): (k: nat)
    ensures k <= |table| && (k < |table| ==> table[k] == id)
  {
    if table == [] || table[0] == id then 0 else 1 + Find(table[1..], id)
  }

  lemma {:induction false} FindAt(table: seq<nat>, k: nat)
    requires Distinct(table) && k < |table|
    ensures Find(table, table[k]) == k
  {
    if k > 0 {
      FindAt(table[1..], k - 1);
    }
  }

  /** A loader starts at the chunk the directory entry points to, moved on by `bytes`, and reads
      up to the first null. */
  ghost function View(hints: seq<Hint>, slots: seq<Slot>, table: seq<nat>, first: nat,
                      bytes: nat): seq<Option<Import>> {
    Read(hints, slots, table, Entry(table, first, bytes))
  }

  ghost function Entry(table: seq<nat>, first: nat, bytes: nat): nat {
    Find(table, first) + bytes / 8
  }

  ghost function TableOf(t: Tables, field: Field): seq<nat> {
    if field == LookupTab then t.lookups else t.addresses
  }

  ghost function FirstOf(d: Dir, field: Field): nat {
    match d
    case Dir(_, l, a) => if field == LookupTab then l else a
    case DirEnd => 0
  }

  /** The native view takes the image as it is. */
  ghost function NativeView(r: Image, d: nat, field: Field): seq<Option<Import>>
    requires d < |r.dirs|
  {
    View(r.made.hints, r.made.chunks, TableOf(r.t, field), FirstOf(r.dirs[d], field), 0)
  }

  /** The EC view applies the ARM64X relocations first. */
  ghost function EcView(r: Image, d: nat, field: Field): seq<Option<Import>>
    requires d < |r.dirs|
  {
    View(r.made.hints, r.made.ec, TableOf(r.t, field), FirstOf(r.dirs[d], field), Moved(r.relocs, d, field))
  }

  // ------------------------------------------------------------------ reading

  ghost predicate AskAt(hints: seq<Hint>, slots: seq<Slot>, table: seq<nat>, at: nat, f: ImportFile) {
    at < |table| && table[at] < |slots| && Asks(hints, slots[table[at]], f)
  }

  lemma {:induction false} ReadRun(hints: seq<Hint>, slots: seq<Slot>, table: seq<nat>, k: nat, e: nat, files: Files,
                                   s: seq<nat>)
    requires k <= e < |table| && |s| == e - k && Inside(files, s)
    requires forall i :: 0 <= i < |s| ==> AskAt(hints, slots, table, k + i, files[s[i]])
    requires table[e] < |slots| && slots[table[e]].Null?
    ensures Read(hints, slots, table, k) == Wanted(files, s)
    decreases |s|
  {
    if s != [] {
      assert AskAt(hints, slots, table, k + 0, files[s[0]]);
      var rest, next := s[1..], k + 1;
      forall i | 0 <= i < |rest| ensures AskAt(hints, slots, table, next + i, files[rest[i]]) {
        assert rest[i] == s[i + 1];
        assert AskAt(hints, slots, table, k + (i + 1), files[s[i + 1]]);
      }
      ReadRun(hints, slots, table, next, e, files, rest);
    } else {
      assert k == e;
    }
  }

  /** Slots of a complete DLL, by table. */
  lemma SlotsOfDll(v: Made, t: Tables, m: Machine, files: Files, hybrid: Partners, syms: seq<nat>, base: nat,
                   field: Field, j: nat)
    requires Inside(files, syms) && DllOk(v, t, m, files, hybrid, syms, base) && j < |syms|
    ensures |TableOf(t, field)| == |t.lookups|
    ensures SlotOk(v, files[syms[j]], TableOf(t, field)[base + j], j == Cut(m, files, hybrid, syms, |syms|))
  {
    assert ImportIs(v, t, m, files, hybrid, syms, base, |syms|, j);
  }

  /** The native view reads from any start up to the first masked slot, or to the end. */
  lemma NativeReads(v: Made, t: Tables, m: Machine, files: Files, hybrid: Partners, syms: seq<nat>, base: nat,
                    field: Field,
                    a: nat, cut: nat, k: nat, part: seq<nat>)
    requires Inside(files, syms) && DllOk(v, t, m, files, hybrid, syms, base) && k == base + a
    requires cut == Cut(m, files, hybrid, syms, |syms|) && a <= cut && part == syms[a..cut] && Inside(files, part)
    ensures Read(v.hints, v.chunks, TableOf(t, field), k) == Wanted(files, part)
  {
    var table := TableOf(t, field);
    forall i | 0 <= i < |part| ensures AskAt(v.hints, v.chunks, table, k + i, files[part[i]]) {
      SlotsOfDll(v, t, m, files, hybrid, syms, base, field, a + i);
      assert part[i] == syms[a + i];
    }
    if cut < |syms| {
      SlotsOfDll(v, t, m, files, hybrid, syms, base, field, cut);
    }
    ReadRun(v.hints, v.chunks, table, k, base + cut, files, part);
  }

  /** The EC view reads from any start to the end. */
  lemma EcReads(v: Made, t: Tables, m: Machine, files: Files, hybrid: Partners, syms: seq<nat>, base: nat,
                field: Field, a: nat,
                k: nat, part: seq<nat>)
    requires Inside(files, syms) && DllOk(v, t, m, files, hybrid, syms, base) && a <= |syms| && k == base + a
    requires part == syms[a..] && Inside(files, part)
    ensures Read(v.hints, v.ec, TableOf(t, field), k) == Wanted(files, part)
  {
    var table := TableOf(t, field);
    forall i | 0 <= i < |part| ensures AskAt(v.hints, v.ec, table, k + i, files[part[i]]) {
      SlotsOfDll(v, t, m, files, hybrid, syms, base, field, a + i);
      assert part[i] == syms[a + i];
    }
    ReadRun(v.hints, v.ec, table, k, base + |syms|, files, part);
  }

  // ------------------------------------------------------------------ native, hybrid, EC-only

  /** The files of one kind: 0 native-only, 1 merged (represented by the EC half), 2 EC-only. */
  ghost function Part(files: Files, syms: seq<nat>, kind: nat): (r: seq<nat>)
    requires Listed(files, syms)
    ensures Inside(files, r)
  {
    OfKind(files, Pairs(files, syms, |syms|), Kept(files, syms, |syms|), kind)
  }

  ghost predicate Sorted3(files: Files, hybrid: Partners, s: seq<nat>, n: nat, e: nat) {
    n <= e <= |s| && Inside(files, s) &&
    (forall j :: 0 <= j < n ==> !files[s[j]].ec) &&
    (forall j :: n <= j < e ==> files[s[j]].ec && s[j] in hybrid) &&
    forall j :: e <= j < |s| ==> EcOnly(files, hybrid, s[j])
  }

  lemma FinalSorted(m: Machine, files: Files, syms: seq<nat>, hybrid: Partners, n: nat, e: nat)
    requires Listed(files, syms) && m != Plain && AgreesOn(hybrid, FinalPairs(m, files, syms), syms)
    requires n == |Part(files, syms, 0)| && e == n + |Part(files, syms, 1)|
    ensures Sorted3(files, hybrid, FinalList(m, files, syms), n, e)
  {
    var r, pairs := FinalList(m, files, syms), Pairs(files, syms, |syms|);
    forall j | 0 <= j < |r|
      ensures r[j] in syms && (r[j] in pairs ==> files[r[j]].ec)
      ensures Kind(files, pairs, r[j]) == if j < n then 0 else if j < e then 1 else 2
    {
      FinalOwner(m, files, syms, r[j]);
    }
  }

  lemma {:induction false} CountsSorted(m: Machine, files: Files, hybrid: Partners, s: seq<nat>, n: nat, e: nat, i: nat)
    requires Sorted3(files, hybrid, s, n, e) && i <= |s|
    ensures Natives(files, s, i) == if i <= n then i else n
    ensures m == Arm64X ==> Cut(m, files, hybrid, s, i) == if i <= e then i else e
    ensures m != Arm64X ==> Cut(m, files, hybrid, s, i) == i
    decreases i
  {
    if i > 0 {
      CountsSorted(m, files, hybrid, s, n, e, i - 1);
    }
  }

  // ------------------------------------------------------------------ the theorem

  lemma BaseInside(m: Machine, files: Files, hybrid: Partners, lists: seq<seq<nat>>, r: Image, d: nat)
    requires ListsOk(m, files, hybrid, lists) && ImageOk(r, m, files, hybrid, lists, |lists|) && d < |lists|
    ensures DllAt(r, m, files, hybrid, lists[d], Base(lists, d), d)
    ensures Distinct(r.t.lookups) && Distinct(r.t.addresses)
  {
    UniqueDistinct(r.t, [], |r.made.chunks|, r.t.lookups);
    UniqueDistinct(r.t, [], |r.made.chunks|, r.t.addresses);
  }

  /** The first chunk of a DLL is where its directory entry says. */
  lemma ViewStarts(r: Image, m: Machine, files: Files, hybrid: Partners, syms: seq<nat>, base: nat, d: nat,
                   field: Field)
    requires ListOk(m, files, hybrid, syms) && DllAt(r, m, files, hybrid, syms, base, d)
    requires Distinct(r.t.lookups) && Distinct(r.t.addresses)
    ensures Find(TableOf(r.t, field), FirstOf(r.dirs[d], field)) == Start(m, base, NativePrefix(m, files, syms))
  {
    var start := Start(m, base, NativePrefix(m, files, syms));
    FindAt(TableOf(r.t, field), start);
  }

  lemma ThreeParts(a: seq<nat>, b: seq<nat>, c: seq<nat>)
    ensures var s := a + b + c;
      s[0..|a| + |b|] == a + b && s[|a|..] == b + c && s[|a|..|s|] == b + c
  {
  }

  lemma NativeViewIs(r: Image, m: Machine, files: Files, hybrid: Partners, syms: seq<nat>, base: nat, d: nat,
                     field: Field,
                     a: nat, cut: nat, part: seq<nat>)
    requires ListOk(m, files, hybrid, syms) && DllAt(r, m, files, hybrid, syms, base, d)
    requires Distinct(r.t.lookups) && Distinct(r.t.addresses)
    requires Start(m, base, NativePrefix(m, files, syms)) == base + a && cut == Cut(m, files, hybrid, syms, |syms|)
    requires a <= cut && part == syms[a..cut] && Inside(files, part)
    ensures NativeView(r, d, field) == Wanted(files, part)
  {
    ViewStarts(r, m, files, hybrid, syms, base, d, field);
    var k := Entry(TableOf(r.t, field), FirstOf(r.dirs[d], field), 0);
    NativeReads(r.made, r.t, m, files, hybrid, syms, base, field, a, cut, k, part);
  }

  lemma EcViewIs(r: Image, m: Machine, files: Files, hybrid: Partners, syms: seq<nat>, base: nat, d: nat, field: Field,
                 n: nat, part: seq<nat>)
    requires ListOk(m, files, hybrid, syms) && DllAt(r, m, files, hybrid, syms, base, d)
    requires Distinct(r.t.lookups) && Distinct(r.t.addresses)
    requires Start(m, base, NativePrefix(m, files, syms)) == base && Moved(r.relocs, d, field) == n * WORD
    requires n <= |syms| && part == syms[n..] && Inside(files, part)
    ensures EcView(r, d, field) == Wanted(files, part)
  {
    ViewStarts(r, m, files, hybrid, syms, base, d, field);
    var k := Entry(TableOf(r.t, field), FirstOf(r.dirs[d], field), Moved(r.relocs, d, field));
    EcReads(r.made, r.t, m, files, hybrid, syms, base, field, n, k, part);
  }

  /** A sorted list: how many files are native, and how far the native view gets. */
  lemma FinalShape(m: Machine, files: Files, syms: seq<nat>, hybrid: Partners, a: seq<nat>, b: seq<nat>, c: seq<nat>)
    requires Listed(files, syms) && m != Plain && AgreesOn(hybrid, FinalPairs(m, files, syms), syms)
    requires a == Part(files, syms, 0) && b == Part(files, syms, 1) && c == Part(files, syms, 2)
    ensures var r := FinalList(m, files, syms);
      Inside(files, r) && NativePrefix(m, files, r) == |a| <= |a| + |b| <= |r| &&
      Cut(m, files, hybrid, r, |r|) == (if m == Arm64X then |a| + |b| else |r|) &&
      r[0..|a| + |b|] == a + b && r[|a|..] == b + c && r[|a|..|r|] == b + c
    ensures Inside(files, a + b) && Inside(files, b + c)
  {
    var r := FinalList(m, files, syms);
    FinalSorted(m, files, syms, hybrid, |a|, |a| + |b|);
    CountsSorted(m, files, hybrid, r, |a|, |a| + |b|, |r|);
    ThreeParts(a, b, c);
  }

  /** The views of one DLL of an ARM64X image: the native loader finds the native-only and the merged
      imports, the EC loader the merged and the EC-only ones, in lookup and address table alike. */
  lemma TwoViews(files: Files, v: seq<seq<nat>>, hybrid: Partners, lists: seq<seq<nat>>, r: Image, d: nat, field: Field)
    requires Bins(Arm64X, files, v) && |lists| == |v| && d < |v| && ListsOk(Arm64X, files, hybrid, lists)
    requires lists[d] == FinalList(Arm64X, files, v[d]) && AgreesOn(hybrid, FinalPairs(Arm64X, files, v[d]), v[d])
    requires ImageOk(r, Arm64X, files, hybrid, lists, |lists|)
    ensures NativeView(r, d, field) == Wanted(files, Part(files, v[d], 0) + Part(files, v[d], 1))
    ensures EcView(r, d, field) == Wanted(files, Part(files, v[d], 1) + Part(files, v[d], 2))
  {
    var syms, base := lists[d], Base(lists, d);
    var a, b, c := Part(files, v[d], 0), Part(files, v[d], 1), Part(files, v[d], 2);
    FinalShape(Arm64X, files, v[d], hybrid, a, b, c);
    BaseInside(Arm64X, files, hybrid, lists, r, d);
    NativeViewIs(r, Arm64X, files, hybrid, syms, base, d, field, 0, |a| + |b|, a + b);
    EcViewIs(r, Arm64X, files, hybrid, syms, base, d, field, |a|, b + c);
  }

  /** On a pure EC target the loader finds the merged and the EC-only imports. */
  lemma PureEcView(files: Files, v: seq<seq<nat>>, hybrid: Partners, lists: seq<seq<nat>>, r: Image, d: nat,
                   field: Field)
    requires Bins(Arm64EC, files, v) && |lists| == |v| && d < |v| && ListsOk(Arm64EC, files, hybrid, lists)
    requires lists[d] == FinalList(Arm64EC, files, v[d]) && AgreesOn(hybrid, FinalPairs(Arm64EC, files, v[d]), v[d])
    requires ImageOk(r, Arm64EC, files, hybrid, lists, |lists|)
    ensures NativeView(r, d, field) == Wanted(files, Part(files, v[d], 1) + Part(files, v[d], 2))
  {
    var syms, base := lists[d], Base(lists, d);
    var a, b, c := Part(files, v[d], 0), Part(files, v[d], 1), Part(files, v[d], 2);
    FinalShape(Arm64EC, files, v[d], hybrid, a, b, c);
    BaseInside(Arm64EC, files, hybrid, lists, r, d);
    NativeViewIs(r, Arm64EC, files, hybrid, syms, base, d, field, |a|, |syms|, b + c);
  }

  /** Elsewhere it finds all imports. */
  lemma PlainView(files: Files, v: seq<seq<nat>>, hybrid: Partners, lists: seq<seq<nat>>, r: Image, d: nat,
                  field: Field)
    requires Bins(Plain, files, v) && |lists| == |v| && d < |v| && ListsOk(Plain, files, hybrid, lists)
    requires lists[d] == FinalList(Plain, files, v[d]) && ImageOk(r, Plain, files, hybrid, lists, |lists|)
    ensures NativeView(r, d, field) == Wanted(files, v[d])
  {
    var syms, base := lists[d], Base(lists, d);
    PlainCut(files, hybrid, syms, |syms|);
    BaseInside(Plain, files, hybrid, lists, r, d);
    assert syms[0..|syms|] == syms;
    NativeViewIs(r, Plain, files, hybrid, syms, base, d, field, 0, |syms|, syms);
  }

  /** The directory entry of a DLL names it as its first import does. */
  lemma DirNamesDll(m: Machine, files: Files, hybrid: Partners, lists: seq<seq<nat>>, r: Image, d: nat)
    requires ListsOk(m, files, hybrid, lists) && ImageOk(r, m, files, hybrid, lists, |lists|) && d < |lists|
    ensures |r.dirs| == |lists| && lists[d] != [] && lists[d][0] < |files|
    ensures r.dirs[d].Dir? && r.dirs[d].dllName == files[lists[d][0]].dllName
  {
    assert DllAt(r, m, files, hybrid, lists[d], Base(lists, d), d);
  }

  lemma {:induction false} PlainCut(files: Files, hybrid: Partners, syms: seq<nat>, i: nat)
    requires Inside(files, syms) && i <= |syms|
    ensures Cut(Plain, files, hybrid, syms, i) == i
    decreases i
  {
    if i > 0 {
      PlainCut(files, hybrid, syms, i - 1);
    }
  }

  // ------------------------------------------------------------------ a pair that does not import the same thing

  /** An EC file that imports a name with hint 5, and a native one that imports ordinal 5. */
  const CLASH: Files := [ImportFile("a.dll", "foo", 5, true), ImportFile("a.dll", "", 5, false)]

  lemma ClashJoins()
    ensures Listed(CLASH, [0, 1]) && Joins(CLASH, [0, 1], 1)
    ensures Part(CLASH, [0, 1], 0) == [] && Part(CLASH, [0, 1], 1) == [0]
  {
    var syms := [0, 1];
    assert !Joins(CLASH, syms, 0);
    assert Joins(CLASH, syms, 1);
    assert Kept(CLASH, syms, 2) == [0];
    var pairs := Pairs(CLASH, syms, 2);
    assert 0 in pairs && 1 in pairs;
    OneOfKind(CLASH, pairs, 0, 0);
    OneOfKind(CLASH, pairs, 0, 1);
  }

  lemma OneOfKind(files: Files, pairs: Partners, x: nat, kind: nat)
    requires x < |files|
    ensures Inside(files, [x]) && OfKind(files, pairs, [x], kind) == if Kind(files, pairs, x) == kind then [x] else []
  {
    assert [x][1..] == [];
  }

  /** The two are merged, and the native loader is asked for the name instead of the ordinal. */
  lemma OrdinalBecomesName(hybrid: Partners, lists: seq<seq<nat>>, r: Image, field: Field)
    requires Bins(Arm64X, CLASH, [[0, 1]]) && lists == FinalLists(Arm64X, CLASH, [[0, 1]])
    requires AgreesOn(hybrid, FinalPairs(Arm64X, CLASH, [0, 1]), [0, 1])
    requires ListsOk(Arm64X, CLASH, hybrid, lists) && ImageOk(r, Arm64X, CLASH, hybrid, lists, |lists|)
    ensures NativeView(r, 0, field) == [Some(ByName("foo"))] && ImportOf(CLASH[1]) == ByOrdinal(5)
  {
    ClashJoins();
    var part := Part(CLASH, [0, 1], 0) + Part(CLASH, [0, 1], 1);
    assert part == [0];
    TwoViews(CLASH, [[0, 1]], hybrid, lists, r, 0, field);
    var wanted := Wanted(CLASH, part);
    assert wanted == [wanted[0]];
  }

  // ------------------------------------------------------------------ every file, every symbol

  /** No import is lost: a native file that has been merged is represented by its partner, any
      other file appears itself in the part of its kind, and nowhere else. */
  lemma PartsComplete(files: Files, syms: seq<nat>, x: nat, kind: nat)
    requires Listed(files, syms) && x in syms && x < |files|
    ensures var pairs := Pairs(files, syms, |syms|);
      x in Part(files, syms, kind) <==> !(x in pairs && !files[x].ec) && kind == Kind(files, pairs, x)
    ensures var pairs := Pairs(files, syms, |syms|);
      x in pairs && !files[x].ec ==> pairs[x] in Part(files, syms, 1) && IsPair(files, pairs, x, pairs[x])
  {
    var pairs, kept := Pairs(files, syms, |syms|), Kept(files, syms, |syms|);
    KeptOrSwallowed(files, syms, x);
    KindCounts(files, pairs, kept, kind, x);
    assert x in Part(files, syms, kind) <==> multiset(OfKind(files, pairs, kept, kind))[x] > 0;
    if x in pairs && !files[x].ec {
      PartnersAgree(files, syms, |syms|, x);
      PairsOf(Arm64X, files, syms, x);
      KeptOrSwallowed(files, syms, pairs[x]);
      KindCounts(files, pairs, kept, 1, pairs[x]);
      assert pairs[x] in Part(files, syms, 1) <==> multiset(OfKind(files, pairs, kept, 1))[pairs[x]] > 0;
    }
  }

  lemma KeptOrSwallowed(files: Files, syms: seq<nat>, x: nat)
    requires Listed(files, syms) && x in syms && x < |files|
    ensures multiset(Kept(files, syms, |syms|))[x] == if x in Pairs(files, syms, |syms|) && !files[x].ec then 0 else 1
  {
    FilesConserved(files, syms, |syms|);
    assert syms[..|syms|] == syms;
    DistinctCounts(syms, x);
    KeptIsEc(files, syms, |syms|, x);
    var a: multiset<nat>, b: multiset<nat> := multiset(Kept(files, syms, |syms|)),
      multiset(Swallowed(files, syms, |syms|));
    assert (a + b)[x] == multiset(syms)[x] == 1;
    assert x in Swallowed(files, syms, |syms|) <==> b[x] > 0;
  }

  /** The import symbol of a file is located at a slot that asks for the file's import in the EC
      view, and, unless it is the one the native view finds a null at, in the native view as well;
      the symbol of a merged native file shares it; the auxiliary symbols have slots of their own. */
  lemma SymbolsFindTheirSlots(r: Image, m: Machine, files: Files, hybrid: Partners, syms: seq<nat>, base: nat, d: nat,
                              j: nat)
    requires ListOk(m, files, hybrid, syms) && DllAt(r, m, files, hybrid, syms, base, d) && j < |syms|
    ensures var s := syms[j];
      s in r.loc && r.loc[s] == r.t.addresses[base + j] && r.loc[s] < |r.made.ec| == |r.made.chunks| &&
      Asks(r.made.hints, r.made.ec[r.loc[s]], files[s]) &&
      (j != Cut(m, files, hybrid, syms, |syms|) ==> r.made.chunks[r.loc[s]] == r.made.ec[r.loc[s]]) &&
      (s in hybrid ==> hybrid[s] in r.loc && r.loc[hybrid[s]] == r.loc[s])
    ensures var s := syms[j];
      files[s].ec && m != Plain ==>
        s in r.aux && s in r.copy && AuxOk(r.made, AuxOf(s), r.aux[s]) && AuxOk(r.made, AuxOf(s), r.copy[s])
    ensures m != Plain ==>
      base + j < |r.t.aux| == |r.t.auxCopy| &&
      var slot := if files[syms[j]].ec then AuxOf(syms[j]) else Null;
      AuxOk(r.made, slot, r.t.aux[base + j]) && AuxOk(r.made, slot, r.t.auxCopy[base + j])
  {
    assert ImportIs(r.made, r.t, m, files, hybrid, syms, base, |syms|, j);
    assert PlacesOk(r, files, hybrid, syms[j], base + j);
  }

  /** Different places in the tables, different chunks: no two files share a slot. */
  lemma SlotsDiffer(m: Machine, files: Files, hybrid: Partners, lists: seq<seq<nat>>, r: Image, d: nat, j: nat, e: nat,
                    k: nat)
    requires ListsOk(m, files, hybrid, lists) && ImageOk(r, m, files, hybrid, lists, |lists|)
    requires d < |lists| && j < |lists[d]| && e < |lists| && k < |lists[e]| && (d != e || j != k)
    ensures lists[d][j] in r.loc && lists[e][k] in r.loc && r.loc[lists[d][j]] != r.loc[lists[e][k]]
  {
    BaseInside(m, files, hybrid, lists, r, d);
    BaseInside(m, files, hybrid, lists, r, e);
    SymbolsFindTheirSlots(r, m, files, hybrid, lists[d], Base(lists, d), d, j);
    SymbolsFindTheirSlots(r, m, files, hybrid, lists[e], Base(lists, e), e, k);
    if d < e {
      BaseGrows(lists, d + 1, e);
    } else if e < d {
      BaseGrows(lists, e + 1, d);
    }
    assert Base(lists, d) + j != Base(lists, e) + k;
  }

  lemma {:induction false} BaseGrows(lists: seq<seq<nat>>, d: nat, e: nat)
    requires d <= e <= |lists|
    ensures Base(lists, d) <= Base(lists, e)
    decreases e
  {
    if d < e {
      BaseGrows(lists, d, e - 1);
    }
  }
}
