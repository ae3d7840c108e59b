/** The import table of a hybrid image: one set of tables that two loaders read differently. */
module ImportTable {
  import opened Collections
  import opened Options
  import opened ImportFiles

  datatype Machine = Arm64X | Arm64EC | Plain

  /** Hint and name, which lookup and address slots refer to by number. */
  datatype Hint = Hint(name: string, hint: nat)

  /** What a chunk of the lookup, address or auxiliary tables holds. */
  datatype Slot = Named(hint: nat) | Ordinal(ordinal: nat) | Null | AuxOf(file: nat)

  datatype Field = LookupTab | AddressTab

  /** ARM64X relocations: the loader of the EC view overwrites a slot, clears it, or moves a field
      of directory entry `dir` on by some bytes. */
  datatype Fixup = Value(target: nat, slot: Slot) | ZeroFill(target: nat) | Delta(dir: nat, field: Field, bytes: nat)

  /** Directory entries refer to the first chunk of their tables. */
  datatype Dir = Dir(dllName: string, lookupTab: nat, addressTab: nat) | DirEnd

  /** Chunks that will take the place of the terminators of a DLL. */
  datatype Term = Term(lookup: nat, address: nat)

  const WORD: nat := 8

  // ------------------------------------------------------------------ the two loaders

  ghost function PatchOne(slots: seq<Slot>, r: Fixup): (p: seq<Slot>)
    ensures |p| == |slots|
  {
    match r
    case Value(target, slot) => if target < |slots| then slots[target := slot] else slots
    case ZeroFill(target) => if target < |slots| then slots[target := Null] else slots
    case Delta(_, _, _) => slots
  }

  /** The slots as the EC view sees them. */
  ghost function Patched(relocs: seq<Fixup>, slots: seq<Slot>): (p: seq<Slot>)
    ensures |p| == |slots|
  {
    if relocs == [] then slots else PatchOne(Patched(relocs[..|relocs| - 1], slots), relocs[|relocs| - 1])
  }

  ghost function MovedBy(r: Fixup, dir: nat, field: Field): nat {
    if r.Delta? && r.dir == dir && r.field == field then r.bytes else 0
  }

  /** How far the EC view moves a field of a directory entry. */
  ghost function Moved(relocs: seq<Fixup>, dir: nat, field: Field): nat {
    if relocs == [] then 0
    else Moved(relocs[..|relocs| - 1], dir, field) + MovedBy(relocs[|relocs| - 1], dir, field)
  }

  /** What the slot asks the loader for. */
  ghost function Asked(hints: seq<Hint>, s: Slot): Option<Import> {
    match s
    case Named(h) => if h < |hints| then Some(ByName(hints[h].name)) else None
    case Ordinal(o) => Some(ByOrdinal(o))
    case _ => None
  }

  /** The imports from position `k` of a table up to the first null slot. */
  ghost function Read(hints: seq<Hint>, slots: seq<Slot>, table: seq<nat>, k: nat): seq<Option<Import>>
    decreases |table| - k
  {
    if k >= |table| || table[k] >= |slots| || slots[table[k]].Null? then []
    else [Asked(hints, slots[table[k]])] + Read(hints, slots, table, k + 1)
  }

  /** What a list of files imports. */
  ghost function Wanted(files: Files, s: seq<nat>): (r: seq<Option<Import>>)
    requires Inside(files, s)
    ensures |r| == |s| && forall i :: 0 <= i < |s| ==> r[i] == Some(ImportOf(files[s[i]]))
  {
    if s == [] then [] else [Some(ImportOf(files[s[0]]))] + Wanted(files, s[1..])
  }

  // ------------------------------------------------------------------ snapshots

  /** All chunks made so far, as they are and as the EC view sees them. */
  datatype Made = Made(chunks: seq<Slot>, ec: seq<Slot>, hints: seq<Hint>)

  ghost predicate Grown(v: Made, w: Made) {
    |v.chunks| == |v.ec| && |w.chunks| == |w.ec| && v.chunks <= w.chunks && v.ec <= w.ec && v.hints <= w.hints
  }

  /** The slot asks for what the file imports, with the file's name and hint or ordinal. */
  ghost predicate Asks(hints: seq<Hint>, s: Slot, f: ImportFile) {
    match s
    case Named(h) => h < |hints| && hints[h] == Hint(f.externalName, f.ordinal) && f.externalName != ""
    case Ordinal(o) => o == f.ordinal && f.externalName == ""
    case _ => false
  }

  /** Slot `id` belongs to file `f`; if `hidden` the native view finds a null there. */
  ghost predicate SlotOk(v: Made, f: ImportFile, id: nat, hidden: bool) {
    id < |v.chunks| == |v.ec| && Asks(v.hints, v.ec[id], f) && v.chunks[id] == if hidden then Null else v.ec[id]
  }

  /** Slot `id` is null for the EC view, and for the native one as well unless it is the slot that
      file `f` has given up. */
  ghost predicate EndOk(v: Made, f: Option<ImportFile>, id: nat) {
    id < |v.chunks| == |v.ec| && v.ec[id] == Null &&
    if f.None? then v.chunks[id] == Null else Asks(v.hints, v.chunks[id], f.value)
  }

  lemma SlotOkGrows(v: Made, w: Made, f: ImportFile, id: nat, hidden: bool)
    requires SlotOk(v, f, id, hidden) && Grown(v, w)
    ensures SlotOk(w, f, id, hidden)
  {
  }

  lemma EndOkGrows(v: Made, w: Made, f: Option<ImportFile>, id: nat)
    requires EndOk(v, f, id) && Grown(v, w)
    ensures EndOk(w, f, id)
  {
  }

  // ------------------------------------------------------------------ growing

  ghost predicate Targets(relocs: seq<Fixup>, n: nat) {
    forall i :: 0 <= i < |relocs| ==> match relocs[i]
      case Value(t, _) => t < n
      case ZeroFill(t) => t < n
      case Delta(_, _, _) => true
  }

  lemma {:induction false} PatchedExtends(relocs: seq<Fixup>, slots: seq<Slot>, more: seq<Slot>)
    requires Targets(relocs, |slots|)
    ensures Patched(relocs, slots + more) == Patched(relocs, slots) + more
  {
    if relocs != [] {
      PatchedExtends(relocs[..|relocs| - 1], slots, more);
    }
  }

  lemma PatchedSnoc(relocs: seq<Fixup>, r: Fixup, slots: seq<Slot>)
    ensures Patched(relocs + [r], slots) == PatchOne(Patched(relocs, slots), r)
  {
    assert (relocs + [r])[..|relocs|] == relocs;
  }

  lemma MovedSnoc(relocs: seq<Fixup>, r: Fixup, dir: nat, field: Field)
    ensures Moved(relocs + [r], dir, field) == Moved(relocs, dir, field) + MovedBy(r, dir, field)
  {
    assert (relocs + [r])[..|relocs|] == relocs;
  }

  /** No directory entry has been moved further. */
  ghost predicate SameMoves(was: seq<Fixup>, now: seq<Fixup>) {
    forall dir: nat, field: Field :: Moved(now, dir, field) == Moved(was, dir, field)
  }

  // ------------------------------------------------------------------ no chunk is laid out twice

  /** The four tables, each a list of chunk numbers. */
  datatype Tables = Tables(lookups: seq<nat>, addresses: seq<nat>, aux: seq<nat>, auxCopy: seq<nat>)

  /** How often each chunk is laid out, counting those that wait to become terminators. */
  ghost function Used(t: Tables, wait: seq<nat>): multiset<nat> {
    multiset(t.lookups) + multiset(t.addresses) + multiset(t.aux) + multiset(t.auxCopy) + multiset(wait)
  }

  ghost predicate Unique(t: Tables, wait: seq<nat>, n: nat) {
    forall id :: Used(t, wait)[id] <= 1 && (id in Used(t, wait) ==> id < n)
  }

  ghost predicate Fresh(ids: seq<nat>, n: nat, m: nat) {
    (forall i :: 0 <= i < |ids| ==> n <= ids[i] < m) && forall i, j :: 0 <= i < j < |ids| ==> ids[i] != ids[j]
  }

  /** New chunks may be laid out anywhere. */
  lemma UniqueGrows(t: Tables, wait: seq<nat>, n: nat, t': Tables, wait': seq<nat>, m: nat, ids: seq<nat>)
    requires Unique(t, wait, n) && n <= m && Fresh(ids, n, m) && Used(t', wait') == Used(t, wait) + multiset(ids)
    ensures Unique(t', wait', m)
  {
    forall id ensures Used(t', wait')[id] <= 1 && (id in Used(t', wait') ==> id < m) {
      if id in multiset(ids) {
        assert id in ids;
        assert n <= id < m;
        assert id !in Used(t, wait);
        DistinctCounts(ids, id);
      }
    }
  }

  /** Then each table is free of repetitions, and no two tables share a chunk. */
  lemma UniqueDistinct(t: Tables, wait: seq<nat>, n: nat, s: seq<nat>)
    requires Unique(t, wait, n) && s in [t.lookups, t.addresses, t.aux, t.auxCopy]
    ensures Distinct(s)
  {
    forall i, j | 0 <= i < j < |s| ensures s[i] != s[j] {
      assert multiset(s)[s[i]] <= Used(t, wait)[s[i]] <= 1;
      assert s == s[..j] + s[j..];
      assert s[..j][i] == s[i] && s[j..][0] == s[j];
      assert multiset(s) == multiset(s[..j]) + multiset(s[j..]);
      assert s[i] in multiset(s[..j]) && s[j] in multiset(s[j..]);
    }
  }

  // ------------------------------------------------------------------ directory entries and locations

  /** The native files of a hybrid image. */
  ghost function NativePrefix(m: Machine, files: Files, syms: seq<nat>): (n: nat)
    requires Inside(files, syms)
    ensures n <= |syms|
  {
    NativesBounded(files, syms, |syms|);
    NativeCount(m, files, syms, |syms|)
  }

  ghost function DirOf(t: Tables, m: Machine, files: Files, syms: seq<nat>, base: nat): Dir
    requires Inside(files, syms) && syms != [] && Parallel(t, m) && base + |syms| < |t.lookups|
  {
    var start := Start(m, base, NativePrefix(m, files, syms));
    Dir(files[syms[0]].dllName, t.lookups[start], t.addresses[start])
  }

  /** The number of bytes by which the EC view of an ARM64X image moves the fields of the entry. */
  ghost function EcSkip(m: Machine, files: Files, syms: seq<nat>): nat
    requires Inside(files, syms)
  {
    if m == Arm64X then NativePrefix(m, files, syms) * WORD else 0
  }

  /** Where the directory entry of a DLL points. */
  function Start(m: Machine, base: nat, nativeOnly: nat): nat {
    if m == Arm64EC then base + nativeOnly else base
  }

  /** Both fields of entry `d` are moved on by `bytes`, no others. */
  ghost predicate MovesDir(was: seq<Fixup>, now: seq<Fixup>, d: nat, bytes: nat) {
    forall dir: nat, field: Field :: Moved(now, dir, field) == Moved(was, dir, field) + if dir == d then bytes else 0
  }

  /** The files of a DLL and their partners are all different, and partners know each other. */
  ghost predicate Owners(hybrid: Partners, syms: seq<nat>) {
    Distinct(syms) && forall j :: 0 <= j < |syms| && syms[j] in hybrid ==>
      var y := hybrid[syms[j]];
      y !in syms && y in hybrid && hybrid[y] == syms[j]
  }

  ghost predicate Owned(hybrid: Partners, syms: seq<nat>, x: nat) {
    x in syms || (x in hybrid && hybrid[x] in syms)
  }

  /** The first `i` files and their partners are located at their slots, all others where they were. */
  ghost predicate Located(was: map<nat, nat>, now: map<nat, nat>, hybrid: Partners, syms: seq<nat>, table: seq<nat>,
                          base: nat, i: nat)
    requires base + |syms| <= |table| && i <= |syms|
  {
    (forall x :: !Owned(hybrid, syms, x) ==> (x in now <==> x in was) && (x in was ==> now[x] == was[x])) &&
    forall j :: 0 <= j < i ==> LocatedBoth(now, hybrid, syms[j], table[base + j])
  }

  /** A file and its partner share one place. */
  ghost predicate LocatedBoth(now: map<nat, nat>, hybrid: Partners, s: nat, place: nat) {
    s in now && now[s] == place && (s in hybrid ==> hybrid[s] in now && now[hybrid[s]] == place)
  }

  lemma LocateStep(was: map<nat, nat>, mid: map<nat, nat>, now: map<nat, nat>, hybrid: Partners, syms: seq<nat>,
                   table: seq<nat>, base: nat, i: nat, next: nat)
    requires Owners(hybrid, syms) && base + |syms| <= |table| && i < |syms| && next == i + 1
    requires Located(was, mid, hybrid, syms, table, base, i)
    requires var s, place := syms[i], table[base + i];
      now == if s in hybrid then mid[s := place][hybrid[s] := place] else mid[s := place]
    ensures Located(was, now, hybrid, syms, table, base, next)
  {
    forall j | 0 <= j < next ensures LocatedBoth(now, hybrid, syms[j], table[base + j]) {
      if j < i {
        assert LocatedBoth(mid, hybrid, syms[j], table[base + j]);
      }
    }
  }

  ghost predicate AuxExtended(v: Made, was: seq<nat>, now: seq<nat>) {
    |now| == |was| + 1 && was <= now && AuxOk(v, Null, now[|was|])
  }

  lemma AuxOkGrows(v: Made, w: Made, slot: Slot, id: nat)
    requires AuxOk(v, slot, id) && Grown(v, w)
    ensures AuxOk(w, slot, id)
  {
  }

  lemma UniqueEnd(t: Tables, wait: seq<nat>, n: nat, t': Tables, l: nat, a: nat, m: nat, ids: seq<nat>)
    requires Unique(t, wait, n) && n <= m && Fresh(ids, n, m) && [l, a] == wait + ids
    requires t' == t.(lookups := t.lookups + [l], addresses := t.addresses + [a])
    ensures Unique(t', [], m)
  {
    UsedSlots(t, [], t', l, a);
    assert Used(t, wait) == Used(t, []) + multiset(wait);
    assert multiset([l, a]) == multiset(wait) + multiset(ids);
    UniqueGrows(t, wait, n, t', [], m, ids);
  }

  // ------------------------------------------------------------------ the imports of one DLL

  /** Where there are auxiliary tables they are as long as the others. */
  ghost predicate Parallel(t: Tables, m: Machine) {
    |t.lookups| == |t.addresses| && (m != Plain ==> |t.aux| == |t.auxCopy| == |t.lookups|)
  }

  ghost predicate Follows(t: Tables, u: Tables) {
    t.lookups <= u.lookups && t.addresses <= u.addresses && t.aux <= u.aux && t.auxCopy <= u.auxCopy
  }

  /** The number of native files among the first `i`. */
  ghost function Natives(files: Files, syms: seq<nat>, i: nat): nat
    requires Inside(files, syms) && i <= |syms|
  {
    if i == 0 then 0 else Natives(files, syms, i - 1) + if files[syms[i - 1]].ec then 0 else 1
  }

  /** The native files that an EC loader has to skip. */
  ghost function NativeCount(m: Machine, files: Files, syms: seq<nat>, i: nat): nat
    requires Inside(files, syms) && i <= |syms|
  {
    if m == Plain then 0 else Natives(files, syms, i)
  }

  lemma NativesStep(m: Machine, files: Files, syms: seq<nat>, i: nat, next: nat)
    requires Inside(files, syms) && i < |syms| && next == i + 1
    ensures NativeCount(m, files, syms, next) ==
      NativeCount(m, files, syms, i) + if m != Plain && !files[syms[i]].ec then 1 else 0
  {
  }

  /** The position of the first EC-only file among the first `i`, where that matters, or else `i`. */
  ghost function Cut(m: Machine, files: Files, hybrid: Partners, syms: seq<nat>, i: nat): (c: nat)
    requires Inside(files, syms) && i <= |syms|
    ensures c <= i
  {
    if i == 0 then 0
    else
      var c := Cut(m, files, hybrid, syms, i - 1);
      if c < i - 1 || (m == Arm64X && EcOnly(files, hybrid, syms[i - 1])) then c else i
  }

  lemma CutStep(m: Machine, files: Files, hybrid: Partners, syms: seq<nat>, i: nat, next: nat)
    requires Inside(files, syms) && i < |syms| && next == i + 1
    ensures var c := Cut(m, files, hybrid, syms, i);
      Cut(m, files, hybrid, syms, next) == if c < i || (m == Arm64X && EcOnly(files, hybrid, syms[i])) then c else next
  {
  }

  /** The four slots of import `j` of a DLL whose tables start at `base`. */
  ghost predicate ImportAt(v: Made, t: Tables, m: Machine, files: Files, s: nat, at: nat, masked: bool)
    requires s < |files| && at < |t.lookups| && at < |t.addresses| && (m != Plain ==> at < |t.aux| && at < |t.auxCopy|)
  {
    SlotOk(v, files[s], t.lookups[at], masked) && SlotOk(v, files[s], t.addresses[at], masked) &&
    (m != Plain ==> AuxOk(v, AuxSlot(files, s), t.aux[at]) && AuxOk(v, AuxSlot(files, s), t.auxCopy[at]))
  }

  ghost predicate ImportIs(v: Made, t: Tables, m: Machine, files: Files, hybrid: Partners, syms: seq<nat>, base: nat,
                           i: nat, j: nat)
    requires Inside(files, syms) && Parallel(t, m) && j < i <= |syms| && base + i <= |t.lookups|
  {
    ImportAt(v, t, m, files, syms[j], base + j, j == Cut(m, files, hybrid, syms, i))
  }

  /** The first `i` imports have their slots. */
  ghost predicate PartOk(v: Made, t: Tables, m: Machine, files: Files, hybrid: Partners, syms: seq<nat>, base: nat,
                         i: nat, term: Option<Term>)
    requires Inside(files, syms) && i <= |syms|
  {
    var cut := Cut(m, files, hybrid, syms, i);
    Parallel(t, m) && |t.lookups| == base + i && (term.Some? <==> cut < i) &&
    (term.Some? ==> TermOk(v, files[syms[cut]], term.value)) &&
    forall j :: 0 <= j < i ==> ImportIs(v, t, m, files, hybrid, syms, base, i, j)
  }

  /** The tables of a DLL are complete: every import has its slots, and the last slots are null in
      the EC view and, unless they come after the null that ends the native view, there too. */
  ghost predicate DllOk(v: Made, t: Tables, m: Machine, files: Files, hybrid: Partners, syms: seq<nat>, base: nat)
    requires Inside(files, syms)
  {
    var n, cut := |syms|, Cut(m, files, hybrid, syms, |syms|);
    var f := if cut < n then Some(files[syms[cut]]) else None;
    Parallel(t, m) && base + n < |t.lookups| &&
    (forall j :: 0 <= j < n ==> ImportIs(v, t, m, files, hybrid, syms, base, n, j)) &&
    EndOk(v, f, t.lookups[base + n]) && EndOk(v, f, t.addresses[base + n]) &&
    (m != Plain ==> AuxOk(v, Null, t.aux[base + n]) && AuxOk(v, Null, t.auxCopy[base + n]))
  }

  /** Later DLLs do not disturb it. */
  lemma DllGrows(v: Made, w: Made, t: Tables, u: Tables, m: Machine, files: Files, hybrid: Partners, syms: seq<nat>,
                 base: nat)
    requires Inside(files, syms) && DllOk(v, t, m, files, hybrid, syms, base)
    requires Grown(v, w) && Follows(t, u) && Parallel(u, m)
    ensures DllOk(w, u, m, files, hybrid, syms, base)
  {
    var n, cut := |syms|, Cut(m, files, hybrid, syms, |syms|);
    var f := if cut < n then Some(files[syms[cut]]) else None;
    EndOkGrows(v, w, f, t.lookups[base + n]);
    EndOkGrows(v, w, f, t.addresses[base + n]);
    forall j | 0 <= j < n ensures ImportIs(w, u, m, files, hybrid, syms, base, n, j) {
      assert ImportIs(v, t, m, files, hybrid, syms, base, n, j);
      ImportGrows(v, w, t, u, m, files, syms[j], base + j, j == cut);
    }
  }

  lemma DllDone(v: Made, w: Made, t: Tables, u: Tables, m: Machine, files: Files, hybrid: Partners, syms: seq<nat>,
                base: nat, term: Option<Term>)
    requires Inside(files, syms) && PartOk(v, t, m, files, hybrid, syms, base, |syms|, term)
    requires Grown(v, w) && Follows(t, u) && Parallel(u, m) && |u.lookups| == |t.lookups| + 1
    requires var l, a := u.lookups[|t.lookups|], u.addresses[|t.lookups|];
      if term.Some? then Term(l, a) == term.value else AuxOk(w, Null, l) && AuxOk(w, Null, a)
    requires m != Plain ==> AuxOk(w, Null, u.aux[|t.lookups|]) && AuxOk(w, Null, u.auxCopy[|t.lookups|])
    ensures DllOk(w, u, m, files, hybrid, syms, base)
  {
    var n, cut := |syms|, Cut(m, files, hybrid, syms, |syms|);
    assert base + n == |t.lookups|;
    if term.Some? {
      EndOkGrows(v, w, Some(files[syms[cut]]), term.value.lookup);
      EndOkGrows(v, w, Some(files[syms[cut]]), term.value.address);
    }
    forall j | 0 <= j < n ensures ImportIs(w, u, m, files, hybrid, syms, base, n, j) {
      assert ImportIs(v, t, m, files, hybrid, syms, base, n, j);
      ImportGrows(v, w, t, u, m, files, syms[j], base + j, j == cut);
    }
  }

  lemma {:induction false} NativesBounded(files: Files, syms: seq<nat>, i: nat)
    requires Inside(files, syms) && i <= |syms|
    ensures Natives(files, syms, i) <= i
  {
    if i > 0 {
      NativesBounded(files, syms, i - 1);
    }
  }

  lemma LocatedGrows(was: map<nat, nat>, now: map<nat, nat>, files: Files, syms: seq<nat>, table: seq<nat>,
                     table': seq<nat>, base: nat)
    requires Inside(files, syms) && LocatedAs(was, now, files, syms, table, base, |syms|) && table <= table'
    ensures LocatedAs(was, now, files, syms, table', base, |syms|)
  {
    forall j | 0 <= j < |syms| ensures LocatedAt(now, files, syms[j], table', base + j) {
      assert LocatedAt(now, files, syms[j], table, base + j);
    }
  }

  lemma ImportGrows(v: Made, w: Made, t: Tables, u: Tables, m: Machine, files: Files, s: nat, at: nat, masked: bool)
    requires s < |files| && Parallel(t, m) && Parallel(u, m) && at < |t.lookups|
    requires ImportAt(v, t, m, files, s, at, masked) && Grown(v, w) && Follows(t, u)
    ensures ImportAt(w, u, m, files, s, at, masked)
  {
    SlotOkGrows(v, w, files[s], t.lookups[at], masked);
    SlotOkGrows(v, w, files[s], t.addresses[at], masked);
  }

  lemma PartStep(v: Made, w: Made, t: Tables, u: Tables, m: Machine, files: Files, hybrid: Partners, syms: seq<nat>,
                 base: nat, i: nat, next: nat, term: Option<Term>, term': Option<Term>, e: Added)
    requires Inside(files, syms) && i < |syms| && next == i + 1 && Grown(v, w) && u == Extended(t, m, e)
    requires PartOk(v, t, m, files, hybrid, syms, base, i, term)
    requires AddedOk(w, m, files, hybrid, syms[i], term, term', e)
    ensures PartOk(w, u, m, files, hybrid, syms, base, next, term')
  {
    var cut, cut' := Cut(m, files, hybrid, syms, i), Cut(m, files, hybrid, syms, next);
    CutStep(m, files, hybrid, syms, i, next);
    if term.Some? {
      EndOkGrows(v, w, Some(files[syms[cut]]), term.value.lookup);
      EndOkGrows(v, w, Some(files[syms[cut]]), term.value.address);
    }
    forall j | 0 <= j < next ensures ImportIs(w, u, m, files, hybrid, syms, base, next, j) {
      if j < i {
        EarlierImport(v, w, t, u, m, files, hybrid, syms, base, i, next, j, term);
      }
    }
  }

  lemma EarlierImport(v: Made, w: Made, t: Tables, u: Tables, m: Machine, files: Files, hybrid: Partners,
                      syms: seq<nat>, base: nat, i: nat, next: nat, j: nat, term: Option<Term>)
    requires Inside(files, syms) && j < i < |syms| && next == i + 1 && Grown(v, w) && Follows(t, u)
    requires PartOk(v, t, m, files, hybrid, syms, base, i, term) && Parallel(u, m) && |u.lookups| == base + next
    ensures ImportIs(w, u, m, files, hybrid, syms, base, next, j)
  {
    CutStep(m, files, hybrid, syms, i, next);
    assert ImportIs(v, t, m, files, hybrid, syms, base, i, j);
    ImportGrows(v, w, t, u, m, files, syms[j], base + j, j == Cut(m, files, hybrid, syms, i));
  }

  /** What adding imports changes. */
  datatype Stage = Stage(made: Made, t: Tables, loc: map<nat, nat>, copy: map<nat, nat>)

  /** The first `i` imports have been added to `p0`. */
  ghost predicate StageOk(p0: Stage, p: Stage, m: Machine, files: Files, hybrid: Partners, syms: seq<nat>, base: nat,
                          i: nat, term: Option<Term>)
    requires Inside(files, syms) && i <= |syms|
  {
    Follows(p0.t, p.t) && Grown(p0.made, p.made) && Unique(p.t, Wait(term), |p.made.chunks|) &&
    PartOk(p.made, p.t, m, files, hybrid, syms, base, i, term) &&
    LocatedAs(p0.loc, p.loc, files, syms, p.t.aux, base, i) &&
    LocatedAs(p0.copy, p.copy, files, syms, p.t.auxCopy, base, i)
  }

  lemma StageStep(p0: Stage, p: Stage, q: Stage, m: Machine, files: Files, hybrid: Partners, syms: seq<nat>, base: nat,
                  i: nat, next: nat, term: Option<Term>, term': Option<Term>, e: Added)
    requires Inside(files, syms) && Distinct(syms) && i < |syms| && next == i + 1
    requires StageOk(p0, p, m, files, hybrid, syms, base, i, term) && Grown(p.made, q.made) &&
      q.t == Extended(p.t, m, e)
    requires AddedOk(q.made, m, files, hybrid, syms[i], term, term', e) && Unique(q.t, Wait(term'), |q.made.chunks|)
    requires m == Plain ==> !files[syms[i]].ec
    requires q.loc == if files[syms[i]].ec then p.loc[syms[i] := e.x] else p.loc
    requires q.copy == if files[syms[i]].ec then p.copy[syms[i] := e.y] else p.copy
    ensures StageOk(p0, q, m, files, hybrid, syms, base, next, term')
  {
    PartStep(p.made, q.made, p.t, q.t, m, files, hybrid, syms, base, i, next, term, term', e);
    LocatedStep(p0.loc, p.loc, q.loc, files, syms, p.t.aux, q.t.aux, base, i, next, e.x, m);
    LocatedStep(p0.copy, p.copy, q.copy, files, syms, p.t.auxCopy, q.t.auxCopy, base, i, next, e.y, m);
  }

  /** The EC files among the first `i` are located at their slots, other files where they were. */
  ghost predicate LocatedAs(was: map<nat, nat>, now: map<nat, nat>, files: Files, syms: seq<nat>, table: seq<nat>,
                            base: nat, i: nat)
    requires Inside(files, syms) && i <= |syms|
  {
    (forall x :: x !in syms[..i] ==> (x in now <==> x in was) && (x in was ==> now[x] == was[x])) &&
    forall j :: 0 <= j < i ==> LocatedAt(now, files, syms[j], table, base + j)
  }

  ghost predicate LocatedAt(now: map<nat, nat>, files: Files, s: nat, table: seq<nat>, at: nat)
    requires s < |files|
  {
    files[s].ec ==> at < |table| && s in now && now[s] == table[at]
  }

  lemma LocatedStep(was: map<nat, nat>, mid: map<nat, nat>, now: map<nat, nat>, files: Files, syms: seq<nat>,
                    table: seq<nat>, table': seq<nat>, base: nat, i: nat, next: nat, x: nat, m: Machine)
    requires Inside(files, syms) && Distinct(syms) && i < |syms| && next == i + 1 &&
      LocatedAs(was, mid, files, syms, table, base, i)
    requires m == Plain ==> !files[syms[i]].ec
    requires if m == Plain then table' == table else table' == table + [x] && |table| == base + i
    requires now == if files[syms[i]].ec then mid[syms[i] := x] else mid
    ensures LocatedAs(was, now, files, syms, table', base, next)
  {
    assert syms[..next] == syms[..i] + [syms[i]];
    forall j | 0 <= j < next ensures LocatedAt(now, files, syms[j], table', base + j) {
      if j < i {
        assert LocatedAt(mid, files, syms[j], table, base + j);
      }
    }
    forall y | y !in syms[..next] ensures (y in now <==> y in was) && (y in was ==> now[y] == was[y]) {
      assert y !in syms[..i] && y != syms[i];
    }
  }

  /** Of the EC namespace, without a native partner. */
  predicate EcOnly(files: Files, hybrid: Partners, s: nat)
    requires s < |files|
  {
    files[s].ec && s !in hybrid
  }

  /** The chunks that one import has been given: lookup, address, auxiliary and its copy. */
  datatype Added = Added(l: nat, a: nat, x: nat, y: nat)

  ghost predicate Masked(m: Machine, files: Files, hybrid: Partners, s: nat, term: Option<Term>)
    requires s < |files|
  {
    m == Arm64X && term.None? && EcOnly(files, hybrid, s)
  }

  ghost predicate TermOk(v: Made, f: ImportFile, t: Term) {
    EndOk(v, Some(f), t.lookup) && EndOk(v, Some(f), t.address)
  }

  function AuxSlot(files: Files, s: nat): Slot
    requires s < |files|
  {
    if files[s].ec then AuxOf(s) else Null
  }

  /** The two slots of an import, and what it leaves for the end of the tables. */
  ghost predicate SlotsOk(v: Made, m: Machine, files: Files, hybrid: Partners, s: nat, term: Option<Term>,
                          term': Option<Term>, l: nat, a: nat)
    requires s < |files|
  {
    var masked := Masked(m, files, hybrid, s, term);
    SlotOk(v, files[s], l, masked) && SlotOk(v, files[s], a, masked) &&
    if masked then term'.Some? && TermOk(v, files[s], term'.value) else term' == term
  }

  ghost predicate AddedOk(v: Made, m: Machine, files: Files, hybrid: Partners, s: nat, term: Option<Term>,
                          term': Option<Term>, e: Added)
    requires s < |files|
  {
    SlotsOk(v, m, files, hybrid, s, term, term', e.l, e.a) &&
    (m != Plain ==> AuxOk(v, AuxSlot(files, s), e.x) && AuxOk(v, AuxSlot(files, s), e.y))
  }

  lemma SlotsGrow(v: Made, w: Made, m: Machine, files: Files, hybrid: Partners, s: nat, term: Option<Term>,
                  term': Option<Term>, l: nat, a: nat)
    requires s < |files| && SlotsOk(v, m, files, hybrid, s, term, term', l, a) && Grown(v, w)
    ensures SlotsOk(w, m, files, hybrid, s, term, term', l, a)
  {
    var masked := Masked(m, files, hybrid, s, term);
    SlotOkGrows(v, w, files[s], l, masked);
    SlotOkGrows(v, w, files[s], a, masked);
    if masked {
      EndOkGrows(v, w, Some(files[s]), term'.value.lookup);
      EndOkGrows(v, w, Some(files[s]), term'.value.address);
    }
  }

  /** On a plain target there is no auxiliary table to keep in step. */
  ghost function Extended(t: Tables, m: Machine, e: Added): Tables {
    var u := t.(lookups := t.lookups + [e.l], addresses := t.addresses + [e.a]);
    if m == Plain then u else u.(aux := t.aux + [e.x], auxCopy := t.auxCopy + [e.y])
  }

  ghost function Wait(term: Option<Term>): seq<nat> {
    if term.None? then [] else [term.value.lookup, term.value.address]
  }

  /** Auxiliary slots look the same in both views. */
  ghost predicate AuxOk(v: Made, slot: Slot, id: nat) {
    id < |v.chunks| == |v.ec| && v.chunks[id] == v.ec[id] == slot
  }

  lemma UniqueSlots(t: Tables, term: Option<Term>, n: nat, l: nat, a: nat, term': Option<Term>, masked: bool, m: nat,
                    ids: seq<nat>, t': Tables)
    requires Unique(t, Wait(term), n) && n <= m && Fresh(ids, n, m) && (masked ==> term.None?) &&
      (!masked ==> term' == term)
    requires ids == [l, a] + if masked then Wait(term') else []
    requires t' == t.(lookups := t.lookups + [l], addresses := t.addresses + [a])
    ensures Unique(t', Wait(term'), m)
  {
    if masked {
      UsedMasked(t, t', l, a, Wait(term'), ids);
    } else {
      assert ids == [l, a];
      UsedSlots(t, Wait(term), t', l, a);
    }
    UniqueGrows(t, Wait(term), n, t', Wait(term'), m, ids);
  }

  lemma UsedSlots(t: Tables, wait: seq<nat>, t': Tables, l: nat, a: nat)
    requires t' == t.(lookups := t.lookups + [l], addresses := t.addresses + [a])
    ensures Used(t', wait) == Used(t, wait) + multiset([l, a])
  {
  }

  lemma UsedMasked(t: Tables, t': Tables, l: nat, a: nat, wait: seq<nat>, ids: seq<nat>)
    requires t' == t.(lookups := t.lookups + [l], addresses := t.addresses + [a]) && ids == [l, a] + wait
    ensures Used(t', wait) == Used(t, []) + multiset(ids)
  {
    UsedSlots(t, [], t', l, a);
    assert multiset(ids) == multiset([l, a]) + multiset(wait);
    assert Used(t', wait) == Used(t', []) + multiset(wait);
  }

  lemma UniqueAux(t: Tables, wait: seq<nat>, n: nat, x: nat, y: nat, m: nat)
    requires Unique(t, wait, n) && n <= m && Fresh([x, y], n, m)
    ensures Unique(t.(aux := t.aux + [x], auxCopy := t.auxCopy + [y]), wait, m)
  {
    UniqueGrows(t, wait, n, t.(aux := t.aux + [x], auxCopy := t.auxCopy + [y]), wait, m, [x, y]);
  }

  ghost function FourFixups(ec: seq<Slot>, slot: Slot, l: nat, a: nat, l': nat, a': nat): seq<Slot> {
    PatchOne(PatchOne(PatchOne(PatchOne(ec, Value(l', slot)), Value(a', slot)), ZeroFill(l)), ZeroFill(a))
  }

  lemma HiddenEc(ec: seq<Slot>, slot: Slot, l: nat, a: nat, l': nat, a': nat)
    requires l < a < |ec| && l' == |ec| && a' == l' + 1
    ensures FourFixups(ec + [Null, Null], slot, l, a, l', a') == ec[l := Null][a := Null] + [slot, slot]
  {
  }

  // ------------------------------------------------------------------ construction

  class IdataContents {
    var chunks: seq<Slot>
    var hints: seq<Hint>
    var lookups: seq<nat>
    var addresses: seq<nat>
    var auxIat: seq<nat>
    var auxIatCopy: seq<nat>
    var dirs: seq<Dir>
    var relocs: seq<Fixup>
    var location: map<nat, nat>
    var auxLocation: map<nat, nat>
    var auxCopyLocation: map<nat, nat>

    constructor ()
      ensures chunks == [] && hints == [] && dirs == [] && relocs == []
      ensures Laid() == Tables([], [], [], []) && location == map[] && auxLocation == map[] && auxCopyLocation == map[]
    {
      chunks, hints, lookups, addresses := [], [], [], [];
      auxIat, auxIatCopy, dirs, relocs := [], [], [], [];
      location, auxLocation, auxCopyLocation := map[], map[], map[];
    }

    ghost function Now(): Made
      reads this
    {
      Made(chunks, Patched(relocs, chunks), hints)
    }

    ghost function Laid(): Tables
      reads this
    {
      Tables(lookups, addresses, auxIat, auxIatCopy)
    }

    ghost function Current(): Stage
      reads this
    {
      Stage(Now(), Laid(), auxLocation, auxCopyLocation)
    }

    /** Makes a chunk. */
    method Make(s: Slot) returns (id: nat)
      requires Targets(relocs, |chunks|)
      modifies this`chunks
      ensures chunks == old(chunks) + [s] && id == old(|chunks|) && Targets(relocs, |chunks|)
      ensures Now().ec == old(Now().ec) + [s] && Grown(old(Now()), Now()) && AuxOk(Now(), s, id)
    {
      id := |chunks|;
      chunks := chunks + [s];
      PatchedExtends(relocs, old(chunks), [s]);
    }

    /** Makes two chunks alike. */
    method MakeTwo(s: Slot) returns (l: nat, a: nat)
      requires Targets(relocs, |chunks|)
      modifies this`chunks
      ensures chunks == old(chunks) + [s, s] && l == old(|chunks|) && a == l + 1 && Targets(relocs, |chunks|)
      ensures Now().ec == old(Now().ec) + [s, s] && Grown(old(Now()), Now())
      ensures AuxOk(Now(), s, l) && AuxOk(Now(), s, a)
    {
      l := Make(s);
      ghost var v := Now();
      a := Make(s);
      AuxOkGrows(v, Now(), s, l);
    }

    /** The chunks for one import; names go through a hint. */
    method MakeEntry(f: ImportFile) returns (slot: Slot, l: nat, a: nat)
      requires Targets(relocs, |chunks|)
      modifies this`chunks, this`hints
      ensures chunks == old(chunks) + [slot, slot] && l == old(|chunks|) && a == l + 1 && Targets(relocs, |chunks|)
      ensures old(hints) <= hints && Asks(hints, slot, f)
      ensures Now().ec == old(Now().ec) + [slot, slot]
    {
      if f.externalName == "" {
        slot := Ordinal(f.ordinal);
      } else {
        slot := Named(|hints|);
        hints := hints + [Hint(f.externalName, f.ordinal)];
      }
      l, a := MakeTwo(slot);
    }

    /** Adds a relocation that aims at chunk `target`. */
    method AddFixup(r: Fixup)
      requires Targets(relocs, |chunks|) && Targets([r], |chunks|)
      modifies this`relocs
      ensures relocs == old(relocs) + [r] && Targets(relocs, |chunks|)
      ensures Now().ec == PatchOne(old(Now().ec), r)
      ensures forall dir: nat, field: Field ::
        Moved(relocs, dir, field) == old(Moved(relocs, dir, field)) + MovedBy(r, dir, field)
    {
      forall dir: nat, field: Field {
        MovedSnoc(relocs, r, dir, field);
      }
      PatchedSnoc(relocs, r, chunks);
      relocs := relocs + [r];
      assert [r][0] == r;
    }

    /** Gives the native view a null instead of the first EC-only import, which moves to the end;
        the EC view finds it in place and a null at the end. */
    method Hide(slot: Slot, l: nat, a: nat) returns (l': nat, a': nat)
      requires Targets(relocs, |chunks|) && l < a < |chunks|
      modifies this`chunks, this`relocs
      ensures chunks == old(chunks) + [Null, Null] && l' == old(|chunks|) && a' == l' + 1 && Targets(relocs, |chunks|)
      ensures Now().ec == old(Now().ec)[l := Null][a := Null] + [slot, slot]
      ensures SameMoves(old(relocs), relocs)
    {
      ghost var ec := Now().ec;
      l', a' := MakeTwo(Null);
      assert Now().ec == ec + [Null, Null];
      AddFourFixups(slot, l, a, l', a');
      HiddenEc(ec, slot, l, a, l', a');
    }

    method AddFourFixups(slot: Slot, l: nat, a: nat, l': nat, a': nat)
      requires Targets(relocs, |chunks|) && l < |chunks| && a < |chunks| && l' < |chunks| && a' < |chunks|
      modifies this`relocs
      ensures Targets(relocs, |chunks|) && SameMoves(old(relocs), relocs)
      ensures |old(Now().ec)| == |chunks| && Now().ec == FourFixups(old(Now().ec), slot, l, a, l', a')
    {
      AddFixup(Value(l', slot));
      AddFixup(Value(a', slot));
      AddFixup(ZeroFill(l));
      AddFixup(ZeroFill(a));
    }

    /** The chunks for the two slots, and in the masked case those that will end the tables. */
    method MakeSlots(f: ImportFile, masked: bool, term: Option<Term>)
      returns (l: nat, a: nat, term': Option<Term>, ghost ids: seq<nat>)
      requires Targets(relocs, |chunks|) && (masked ==> term.None?)
      modifies this`chunks, this`hints, this`relocs
      ensures SlotOk(Now(), f, l, masked) && SlotOk(Now(), f, a, masked)
      ensures if masked then term'.Some? && EndOk(Now(), Some(f), term'.value.lookup) &&
        EndOk(Now(), Some(f), term'.value.address)
              else term' == term
      ensures Grown(old(Now()), Now()) && Targets(relocs, |chunks|)
      ensures SameMoves(old(relocs), relocs)
      ensures Fresh(ids, old(|chunks|), |chunks|) && ids == [l, a] + if masked then Wait(term') else []
    {
      var slot;
      slot, l, a := MakeEntry(f);
      term' := term;
      ids := [l, a];
      if masked {
        term' := Some(Term(l, a));
        l, a := Hide(slot, l, a);
        ids := [l, a] + ids;
      }
    }

    /** One slot in the lookup table and one in the address table. */
    method AddSlots(m: Machine, files: Files, hybrid: Partners, s: nat, term: Option<Term>)
      returns (l: nat, a: nat, term': Option<Term>)
      requires s < |files| && Targets(relocs, |chunks|) && Unique(Laid(), Wait(term), |chunks|)
      modifies this`chunks, this`hints, this`lookups, this`addresses, this`relocs
      ensures lookups == old(lookups) + [l] && addresses == old(addresses) + [a]
      ensures SlotsOk(Now(), m, files, hybrid, s, term, term', l, a)
      ensures Grown(old(Now()), Now()) && Targets(relocs, |chunks|) && Unique(Laid(), Wait(term'), |chunks|)
      ensures SameMoves(old(relocs), relocs)
    {
      ghost var laid, n := Laid(), |chunks|;
      var masked := m == Arm64X && term.None? && EcOnly(files, hybrid, s);
      ghost var ids;
      l, a, term', ids := MakeSlots(files[s], masked, term);
      lookups := lookups + [l];
      addresses := addresses + [a];
      UniqueSlots(laid, term, n, l, a, term', masked, |chunks|, ids, Laid());
    }

    /** One slot in each auxiliary table. */
    method AddAux(slot: Slot, ghost wait: seq<nat>) returns (x: nat, y: nat)
      requires Targets(relocs, |chunks|) && Unique(Laid(), wait, |chunks|)
      modifies this`chunks, this`auxIat, this`auxIatCopy
      ensures auxIat == old(auxIat) + [x] && auxIatCopy == old(auxIatCopy) + [y]
      ensures AuxOk(Now(), slot, x) && AuxOk(Now(), slot, y)
      ensures Grown(old(Now()), Now()) && Targets(relocs, |chunks|) && Unique(Laid(), wait, |chunks|)
    {
      ghost var laid, n := Laid(), |chunks|;
      x, y := MakeTwo(slot);
      auxIat := auxIat + [x];
      auxIatCopy := auxIatCopy + [y];
      UniqueAux(laid, wait, n, x, y, |chunks|);
    }

    /** The auxiliary slots of an import: its own for an EC file, fillers for a native one. */
    method AddAuxOf(m: Machine, files: Files, s: nat, ghost wait: seq<nat>) returns (x: nat, y: nat)
      requires s < |files| && (m == Plain ==> !files[s].ec)
      requires Targets(relocs, |chunks|) && Unique(Laid(), wait, |chunks|)
      modifies this`chunks, this`auxIat, this`auxIatCopy, this`auxLocation, this`auxCopyLocation
      ensures m == Plain ==> auxIat == old(auxIat) && auxIatCopy == old(auxIatCopy)
      ensures m != Plain ==> auxIat == old(auxIat) + [x] && auxIatCopy == old(auxIatCopy) + [y]
      ensures m != Plain ==> AuxOk(Now(), AuxSlot(files, s), x) && AuxOk(Now(), AuxSlot(files, s), y)
      ensures auxLocation == if files[s].ec then old(auxLocation)[s := x] else old(auxLocation)
      ensures auxCopyLocation == if files[s].ec then old(auxCopyLocation)[s := y] else old(auxCopyLocation)
      ensures Grown(old(Now()), Now()) && Targets(relocs, |chunks|) && Unique(Laid(), wait, |chunks|)
    {
      x, y := 0, 0;
      if m != Plain {
        x, y := AddAux(AuxSlot(files, s), wait);
      }
      if files[s].ec {
        auxLocation := auxLocation[s := x];
        auxCopyLocation := auxCopyLocation[s := y];
      }
    }

    /** Everything one import adds to the tables. */
    method AddImport(m: Machine, files: Files, hybrid: Partners, s: nat, term: Option<Term>)
      returns (term': Option<Term>, ghost e: Added)
      requires s < |files| && (m == Plain ==> !files[s].ec)
      requires Targets(relocs, |chunks|) && Unique(Laid(), Wait(term), |chunks|)
      modifies this`chunks, this`hints, this`lookups, this`addresses, this`relocs, this`auxIat, this`auxIatCopy,
        this`auxLocation, this`auxCopyLocation
      ensures Laid() == Extended(old(Laid()), m, e) && AddedOk(Now(), m, files, hybrid, s, term, term', e)
      ensures auxLocation == if files[s].ec then old(auxLocation)[s := e.x] else old(auxLocation)
      ensures auxCopyLocation == if files[s].ec then old(auxCopyLocation)[s := e.y] else old(auxCopyLocation)
      ensures Grown(old(Now()), Now()) && Targets(relocs, |chunks|) && Unique(Laid(), Wait(term'), |chunks|)
      ensures SameMoves(old(relocs), relocs)
    {
      var l, a;
      l, a, term' := AddSlots(m, files, hybrid, s, term);
      ghost var v := Now();
      var x, y := AddAuxOf(m, files, s, Wait(term'));
      e := Added(l, a, x, y);
      SlotsGrow(v, Now(), m, files, hybrid, s, term, term', l, a);
    }

    /** The slots of all imports of a DLL; `nativeOnly` counts the native files of a hybrid image. */
    method AddImports(m: Machine, files: Files, hybrid: Partners, syms: seq<nat>)
      returns (term: Option<Term>, nativeOnly: nat)
      requires Inside(files, syms) && Distinct(syms) &&
        (m == Plain ==> forall i :: 0 <= i < |syms| ==> !files[syms[i]].ec)
      requires Targets(relocs, |chunks|) && Unique(Laid(), [], |chunks|) && Parallel(Laid(), m)
      modifies this`chunks, this`hints, this`lookups, this`addresses, this`relocs, this`auxIat, this`auxIatCopy,
        this`auxLocation, this`auxCopyLocation
      ensures Follows(old(Laid()), Laid())
      ensures PartOk(Now(), Laid(), m, files, hybrid, syms, old(|lookups|), |syms|, term)
      ensures LocatedAs(old(auxLocation), auxLocation, files, syms, auxIat, old(|lookups|), |syms|)
      ensures LocatedAs(old(auxCopyLocation), auxCopyLocation, files, syms, auxIatCopy, old(|lookups|), |syms|)
      ensures nativeOnly == NativeCount(m, files, syms, |syms|)
      ensures Grown(old(Now()), Now()) && Targets(relocs, |chunks|) && Unique(Laid(), Wait(term), |chunks|)
      ensures SameMoves(old(relocs), relocs)
    {
      ghost var base, r0, p0 := |lookups|, relocs, Current();
      term, nativeOnly := None, 0;
      var i := 0;
      while i < |syms|
        invariant 0 <= i <= |syms| && StageOk(p0, Current(), m, files, hybrid, syms, base, i, term)
        invariant nativeOnly == NativeCount(m, files, syms, i)
        invariant Targets(relocs, |chunks|) && SameMoves(r0, relocs)
      {
        var next := i + 1;
        term := AddNext(m, files, hybrid, syms, i, next, term, p0, base);
        NativesStep(m, files, syms, i, next);
        if m != Plain && !files[syms[i]].ec {
          nativeOnly := nativeOnly + 1;
        }
        i := next;
      }
      assert i == |syms|;
    }

    /** Adds the import at position `i`. */
    method AddNext(m: Machine, files: Files, hybrid: Partners, syms: seq<nat>, i: nat, next: nat, term: Option<Term>,
                   ghost p0: Stage, ghost base: nat)
      returns (term': Option<Term>)
      requires Inside(files, syms) && Distinct(syms) && i < |syms| && next == i + 1 &&
        (m == Plain ==> !files[syms[i]].ec)
      requires StageOk(p0, Current(), m, files, hybrid, syms, base, i, term) && Targets(relocs, |chunks|)
      modifies this`chunks, this`hints, this`lookups, this`addresses, this`relocs, this`auxIat, this`auxIatCopy,
        this`auxLocation, this`auxCopyLocation
      ensures StageOk(p0, Current(), m, files, hybrid, syms, base, next, term') && Targets(relocs, |chunks|)
      ensures SameMoves(old(relocs), relocs)
    {
      ghost var p := Current();
      ghost var e;
      term', e := AddImport(m, files, hybrid, syms[i], term);
      StageStep(p0, p, Current(), m, files, hybrid, syms, base, i, next, term, term', e);
    }

    /** The last slots of a DLL: nulls, or the chunks that the masked import has left. */
    method Terminate(m: Machine, term: Option<Term>) returns (l: nat, a: nat)
      requires Targets(relocs, |chunks|) && Unique(Laid(), Wait(term), |chunks|) && Parallel(Laid(), m)
      modifies this`chunks, this`lookups, this`addresses, this`auxIat, this`auxIatCopy
      ensures lookups == old(lookups) + [l] && addresses == old(addresses) + [a]
      ensures if term.Some? then Term(l, a) == term.value else AuxOk(Now(), Null, l) && AuxOk(Now(), Null, a)
      ensures if m == Plain then auxIat == old(auxIat) && auxIatCopy == old(auxIatCopy)
              else AuxExtended(Now(), old(auxIat), auxIat) && AuxExtended(Now(), old(auxIatCopy), auxIatCopy)
      ensures Grown(old(Now()), Now()) && Targets(relocs, |chunks|) && Unique(Laid(), [], |chunks|)
    {
      ghost var laid, n := Laid(), |chunks|;
      ghost var ids;
      l, a, ids := EndChunks(term);
      lookups := lookups + [l];
      addresses := addresses + [a];
      UniqueEnd(laid, Wait(term), n, Laid(), l, a, |chunks|, ids);
      ghost var v := Now();
      EndAux(m);
      if term.None? {
        AuxOkGrows(v, Now(), Null, l);
        AuxOkGrows(v, Now(), Null, a);
      }
    }

    /** The chunks for the last slots. */
    method EndChunks(term: Option<Term>) returns (l: nat, a: nat, ghost ids: seq<nat>)
      requires Targets(relocs, |chunks|)
      modifies this`chunks
      ensures [l, a] == Wait(term) + ids && Fresh(ids, old(|chunks|), |chunks|)
      ensures if term.Some? then Term(l, a) == term.value else AuxOk(Now(), Null, l) && AuxOk(Now(), Null, a)
      ensures Grown(old(Now()), Now()) && Targets(relocs, |chunks|)
    {
      if term.Some? {
        l, a, ids := term.value.lookup, term.value.address, [];
      } else {
        l, a := MakeTwo(Null);
        ids := [l, a];
      }
    }

    /** The auxiliary tables of a hybrid image end in nulls. */
    method EndAux(m: Machine)
      requires Targets(relocs, |chunks|) && Unique(Laid(), [], |chunks|)
      modifies this`chunks, this`auxIat, this`auxIatCopy
      ensures if m == Plain then auxIat == old(auxIat) && auxIatCopy == old(auxIatCopy)
              else AuxExtended(Now(), old(auxIat), auxIat) && AuxExtended(Now(), old(auxIatCopy), auxIatCopy)
      ensures Grown(old(Now()), Now()) && Targets(relocs, |chunks|) && Unique(Laid(), [], |chunks|)
    {
      if m != Plain {
        var x, y := AddAux(Null, []);
      }
    }

    /** The import symbols of a DLL, and of the native halves of its pairs, are located in the
        address table. */
    method Locate(files: Files, hybrid: Partners, syms: seq<nat>, base: nat)
      requires Owners(hybrid, syms) && base + |syms| <= |addresses|
      modifies this`location
      ensures Located(old(location), location, hybrid, syms, addresses, base, |syms|)
    {
      ghost var was := location;
      var i := 0;
      while i < |syms|
        invariant 0 <= i <= |syms| && Located(was, location, hybrid, syms, addresses, base, i)
      {
        var next := i + 1;
        ghost var mid := location;
        location := location[syms[i] := addresses[base + i]];
        if syms[i] in hybrid {
          location := location[hybrid[syms[i]] := addresses[base + i]];
        }
        LocateStep(was, mid, location, hybrid, syms, addresses, base, i, next);
        i := next;
      }
      assert i == |syms|;
    }

    /** The directory entry of a DLL. Native-only imports come first in its tables; a pure EC image
        skips them, and in an ARM64X image the EC view does. */
    method AddDir(m: Machine, dllName: string, base: nat, nativeOnly: nat)
      requires Parallel(Laid(), m) && base + nativeOnly < |lookups| && Targets(relocs, |chunks|)
      modifies this`dirs, this`relocs
      ensures dirs == old(dirs) +
        [Dir(dllName, lookups[Start(m, base, nativeOnly)], addresses[Start(m, base, nativeOnly)])]
      ensures Targets(relocs, |chunks|) && Now() == old(Now())
      ensures MovesDir(old(relocs), relocs, old(|dirs|), if m == Arm64X then nativeOnly * WORD else 0)
    {
      ghost var d, r0 := |dirs|, relocs;
      var start := base;
      if m != Plain && nativeOnly > 0 {
        if m != Arm64X {
          start := start + nativeOnly;
        } else {
          AddFixup(Delta(|dirs|, LookupTab, nativeOnly * WORD));
          AddFixup(Delta(|dirs|, AddressTab, nativeOnly * WORD));
        }
      }
      dirs := dirs + [Dir(dllName, lookups[start], addresses[start])];
    }

    /** The slots of one DLL. */
    method CreateTables(m: Machine, files: Files, hybrid: Partners, syms: seq<nat>) returns (nativeOnly: nat)
      requires Inside(files, syms) && Distinct(syms) &&
        (m == Plain ==> forall i :: 0 <= i < |syms| ==> !files[syms[i]].ec)
      requires Targets(relocs, |chunks|) && Unique(Laid(), [], |chunks|) && Parallel(Laid(), m)
      modifies this`chunks, this`hints, this`lookups, this`addresses, this`relocs, this`auxIat, this`auxIatCopy,
        this`auxLocation, this`auxCopyLocation
      ensures Follows(old(Laid()), Laid()) && DllOk(Now(), Laid(), m, files, hybrid, syms, old(|lookups|))
      ensures |lookups| == old(|lookups|) + |syms| + 1
      ensures LocatedAs(old(auxLocation), auxLocation, files, syms, auxIat, old(|lookups|), |syms|)
      ensures LocatedAs(old(auxCopyLocation), auxCopyLocation, files, syms, auxIatCopy, old(|lookups|), |syms|)
      ensures nativeOnly == NativePrefix(m, files, syms)
      ensures Grown(old(Now()), Now()) && Targets(relocs, |chunks|) && Unique(Laid(), [], |chunks|)
      ensures SameMoves(old(relocs), relocs)
    {
      ghost var base, loc, copy := |lookups|, auxLocation, auxCopyLocation;
      var term;
      term, nativeOnly := AddImports(m, files, hybrid, syms);
      ghost var v, t := Now(), Laid();
      var l, a := Terminate(m, term);
      DllDone(v, Now(), t, Laid(), m, files, hybrid, syms, base, term);
      LocatedGrows(loc, auxLocation, files, syms, t.aux, auxIat, base);
      LocatedGrows(copy, auxCopyLocation, files, syms, t.auxCopy, auxIatCopy, base);
      NativesBounded(files, syms, |syms|);
    }

    /** The tables of one DLL and their directory entry. */
    method CreateDll(m: Machine, files: Files, hybrid: Partners, syms: seq<nat>)
      requires Inside(files, syms) && Owners(hybrid, syms) && syms != []
      requires m == Plain ==> forall i :: 0 <= i < |syms| ==> !files[syms[i]].ec
      requires Targets(relocs, |chunks|) && Unique(Laid(), [], |chunks|) && Parallel(Laid(), m)
      modifies this
      ensures Follows(old(Laid()), Laid()) && DllOk(Now(), Laid(), m, files, hybrid, syms, old(|lookups|))
      ensures |lookups| == old(|lookups|) + |syms| + 1
      ensures LocatedAs(old(auxLocation), auxLocation, files, syms, auxIat, old(|lookups|), |syms|)
      ensures LocatedAs(old(auxCopyLocation), auxCopyLocation, files, syms, auxIatCopy, old(|lookups|), |syms|)
      ensures Located(old(location), location, hybrid, syms, addresses, old(|lookups|), |syms|)
      ensures dirs == old(dirs) + [DirOf(Laid(), m, files, syms, old(|lookups|))]
      ensures MovesDir(old(relocs), relocs, old(|dirs|), EcSkip(m, files, syms))
      ensures Grown(old(Now()), Now()) && Targets(relocs, |chunks|) && Unique(Laid(), [], |chunks|)
    {
      var base := |lookups|;
      var nativeOnly := CreateTables(m, files, hybrid, syms);
      Publish(m, files, hybrid, syms, base, nativeOnly);
    }

    /** Locates the symbols of a DLL and adds its directory entry. */
    method Publish(m: Machine, files: Files, hybrid: Partners, syms: seq<nat>, base: nat, nativeOnly: nat)
      requires Inside(files, syms) && Owners(hybrid, syms) && syms != [] && nativeOnly == NativePrefix(m, files, syms)
      requires Targets(relocs, |chunks|) && Parallel(Laid(), m) && |lookups| == base + |syms| + 1
      modifies this`location, this`dirs, this`relocs
      ensures Located(old(location), location, hybrid, syms, addresses, base, |syms|)
      ensures dirs == old(dirs) + [DirOf(Laid(), m, files, syms, base)]
      ensures MovesDir(old(relocs), relocs, old(|dirs|), EcSkip(m, files, syms))
      ensures Now() == old(Now()) && Targets(relocs, |chunks|)
    {
      Locate(files, hybrid, syms, base);
      AddDir(m, files[syms[0]].dllName, base, nativeOnly);
    }
  }
}
