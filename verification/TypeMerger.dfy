/** The merge after insertion, on arrays: rank the winners, overwrite their cells with PDB
    indices, fill every source's index map, and copy the winning records with remapped indices. */
module TypeMerger {
  import opened Collections
  import opened GHashCell
  import opened GHashTable
  import opened GHashRuns
  import opened GHashInsert
  import opened TypeStreams

  // ------------------------------------------------------------------ sorting

  /** Stands for the library sort; every list the merger sorts is free of repetitions. */
  function Sort(s: seq<nat>): (r: seq<nat>)
    ensures |r| == |s| && forall x :: x in r <==> x in s
    ensures Distinct(s) ==> Ascending(r)
  {
    if s == [] then []
    else
      assert s == [s[0]] + s[1..];
      assert Distinct(s) ==> Distinct(s[1..]) && s[0] !in s[1..];
      var rest := Sort(s[1..]);
      assert Distinct(s) ==> Ascending(Insert(s[0], rest)) by {
        if Distinct(s) { InsertAscending(s[0], rest); }
      }
      Insert(s[0], rest)
  }

  function Insert(x: nat, s: seq<nat>): (r: seq<nat>)
    ensures |r| == |s| + 1 && forall y :: y in r <==> y == x || y in s
  {
    if s == [] || x <= s[0] then [x] + s
    else
      assert s == [s[0]] + s[1..];
      [s[0]] + Insert(x, s[1..])
  }

  lemma {:induction false} InsertAscending(x: nat, s: seq<nat>)
    requires Ascending(s) && x !in s
    ensures Ascending(Insert(x, s))
  {
    if s != [] && x > s[0] {
      InsertAscending(x, s[1..]);
      var rest := Insert(x, s[1..]);
      forall k | 0 <= k < |rest| ensures rest[k] > s[0] {
        assert rest[k] in rest;
      }
      assert Insert(x, s) == [s[0]] + rest;
    }
  }

  // ------------------------------------------------------------------ specification of the parts

  /** The record indices that the winners of source `s` in `es` name, in the order of `es`. */
  function UniqueOf(es: seq<Cell>, s: nat): seq<nat> {
    if es == [] then []
    else
      var last := es[|es| - 1];
      UniqueOf(es[..|es| - 1], s) + (if IdOf(last).src == s then [IdOf(last).idx] else [])
  }

  lemma UniqueStep(es: seq<Cell>, i: nat, s: nat)
    requires i < |es|
    ensures UniqueOf(es[..i + 1], s) == UniqueOf(es[..i], s) + (if IdOf(es[i]).src == s then [IdOf(es[i]).idx] else [])
  {
    assert es[..i + 1][..i] == es[..i] && es[..i + 1][i] == es[i];
  }

  lemma {:induction false} UniqueOfIs(inp: Inputs, es: seq<Cell>, s: nat)
    requires GHashCell.Valid(inp) && Increasing(es) && s < |inp|
    requires forall c: Cell :: c in es ==> IsInputCell(inp, c)
    ensures var u := UniqueOf(es, s);
      (forall i: nat :: i in u <==> i < |inp[s].ghashes| && CellOf(inp, RecordId(s, i)) in es) &&
      Distinct(u)
  {
    if es != [] {
      var front, last := es[..|es| - 1], es[|es| - 1];
      assert last in es && es == front + [last];
      UniqueOfIs(inp, front, s);
      forall i: nat | i < |inp[s].ghashes| && CellOf(inp, RecordId(s, i)) == last
        ensures IdOf(last) == RecordId(s, i) {}
      assert last !in front;
    }
  }

  /** Every cell holding a winner now holds that winner's PDB index. */
  ghost predicate Ranked(was: seq<Cell>, now: seq<Cell>, es: seq<Cell>, mid: nat) {
    RankedUpTo(was, now, es, mid, |es|)
  }

  /** The same for the first `n` winners. */
  ghost predicate RankedUpTo(was: seq<Cell>, now: seq<Cell>, es: seq<Cell>, mid: nat, n: nat)
    requires n <= |es|
  {
    |now| == |was| &&
    forall p, i :: 0 <= p < |was| && 0 <= i < n && was[p] == es[i] ==> GHashIdx(now[p]) == PdbIndex(es, mid, i)
  }

  lemma RankStep(was: seq<Cell>, now: seq<Cell>, es: seq<Cell>, mid: nat, i: nat, pos: nat, cell: Cell)
    requires i < |es| && RankedUpTo(was, now, es, mid, i) && Increasing(es)
    requires pos < |was| && was[pos] == es[i] && GHashIdx(cell) == PdbIndex(es, mid, i)
    requires forall p :: 0 <= p < |was| && was[p] == es[i] ==> p == pos
    ensures RankedUpTo(was, now[pos := cell], es, mid, i + 1)
  {
  }

  ghost function FinalMap(inp: Inputs, es: seq<Cell>, mid: nat, s: nat): seq<TypeIndex>
    requires GHashCell.Valid(inp) && IsEntries(inp, es) && s < |inp|
  {
    seq(|inp[s].ghashes|, i requires 0 <= i < |inp[s].ghashes| => FinalIndex(inp, es, mid, RecordId(s, i)))
  }

  ghost function FinalTpiMap(w: World, es: seq<Cell>, mid: nat, s: nat): seq<TypeIndex>
    requires WellFormed(w) && IsEntries(w.inp, es) && s < |w.inp|
  {
    assert KindOk(w, s);
    var own := FinalMap(w.inp, es, mid, s);
    match w.kinds[s]
    case UsingPch(p, count) => FinalMap(w.inp, es, mid, p)[..count] + own
    case PdbItems(t) => FinalMap(w.inp, es, mid, t)
    case _ => own
  }

  ghost function FinalIpiMap(w: World, es: seq<Cell>, mid: nat, s: nat): seq<TypeIndex>
    requires WellFormed(w) && IsEntries(w.inp, es) && s < |w.inp|
  {
    match w.kinds[s]
    case UsingPch(p, count) => FinalTpiMap(w, es, mid, s)
    case PdbTypes => []
    case _ => FinalMap(w.inp, es, mid, s)
  }

  /** Rewrites one reference through a source's index maps; an index past the end of its map
      becomes "not translated". */
  function RemapTypeIndex(tpiMap: seq<TypeIndex>, ipiMap: seq<TypeIndex>, ref: Ref): Ref {
    match ref.ti
    case Simple(_) => ref
    case Complex(k) =>
      var chosen := if ref.kind == IndexRef then ipiMap else tpiMap;
      ref.(ti := if k < |chosen| then chosen[k] else NOT_TRANSLATED)
  }

  /** Entry `k` of a map is the final index of the record that `k` resolves to. */
  ghost predicate MapResolves(w: World, es: seq<Cell>, mid: nat, s: nat, kind: RefKind, m: seq<TypeIndex>, k: nat)
    requires WellFormed(w) && IsEntries(w.inp, es) && s < |w.inp|
  {
    assert KindOk(w, s);
    var t := Resolve(w, s, kind, k);
    if k < |m| then t.Some? && InRange(w.inp, t.value) && m[k] == FinalIndex(w.inp, es, mid, t.value) else t.None?
  }

  lemma TpiMapResolves(w: World, es: seq<Cell>, mid: nat, s: nat, k: nat)
    requires WellFormed(w) && IsEntries(w.inp, es) && s < |w.inp|
    ensures MapResolves(w, es, mid, s, TypeRef, FinalTpiMap(w, es, mid, s), k)
  {
    assert KindOk(w, s);
  }

  lemma IpiMapResolves(w: World, es: seq<Cell>, mid: nat, s: nat, k: nat)
    requires WellFormed(w) && IsEntries(w.inp, es) && s < |w.inp|
    ensures MapResolves(w, es, mid, s, IndexRef, FinalIpiMap(w, es, mid, s), k)
  {
    assert KindOk(w, s);
  }

  lemma RemapAgrees(w: World, es: seq<Cell>, mid: nat, s: nat, ref: Ref)
    requires WellFormed(w) && IsEntries(w.inp, es) && s < |w.inp|
    ensures RemapTypeIndex(FinalTpiMap(w, es, mid, s), FinalIpiMap(w, es, mid, s), ref)
         == RemapRef(w, es, mid, s, ref)
  {
    if ref.ti.Complex? {
      TpiMapResolves(w, es, mid, s, ref.ti.arrayIndex);
      IpiMapResolves(w, es, mid, s, ref.ti.arrayIndex);
    }
  }

  /** What every winner becomes. */
  ghost function MergedMap(w: World, es: seq<Cell>, mid: nat): map<Cell, Record>
    requires WellFormed(w) && IsEntries(w.inp, es)
  {
    map c | c in es :: MergedRecord(w, es, mid, c)
  }

  ghost predicate IsImage(f: map<Cell, Record>, list: seq<Cell>, r: seq<Record>) {
    |r| == |list| && forall k :: 0 <= k < |list| ==> list[k] in f && r[k] == f[list[k]]
  }

  lemma RecordsMapped(w: World, es: seq<Cell>, mid: nat, list: seq<Cell>)
    requires WellFormed(w) && IsEntries(w.inp, es) && forall c: Cell :: c in list ==> c in es
    ensures IsImage(MergedMap(w, es, mid), list, RecordsOf(w, es, mid, list))
  {
  }

  lemma MappedAppend(f: map<Cell, Record>, a: seq<Cell>, b: seq<Cell>, r: seq<Record>, x: seq<Record>, y: seq<Record>)
    requires IsImage(f, a, x) && IsImage(f, b, y) && IsImage(f, a + b, r)
    ensures r == x + y
  {
    var all := a + b;
    forall k | 0 <= k < |r| ensures r[k] == (x + y)[k] {
      assert r[k] == f[all[k]];
      assert all[k] == if k < |a| then a[k] else b[k - |a|];
    }
  }

  lemma RecordsAppend(w: World, es: seq<Cell>, mid: nat, a: seq<Cell>, b: seq<Cell>)
    requires WellFormed(w) && IsEntries(w.inp, es)
    requires (forall c: Cell :: c in a ==> c in es) && forall c: Cell :: c in b ==> c in es
    ensures RecordsOf(w, es, mid, a + b) == RecordsOf(w, es, mid, a) + RecordsOf(w, es, mid, b)
  {
    RecordsMapped(w, es, mid, a);
    RecordsMapped(w, es, mid, b);
    RecordsMapped(w, es, mid, a + b);
    MappedAppend(MergedMap(w, es, mid), a, b,
                 RecordsOf(w, es, mid, a + b), RecordsOf(w, es, mid, a), RecordsOf(w, es, mid, b));
  }

  lemma SelectedInEntries(inp: Inputs, es: seq<Cell>, item: bool, s: nat, n: nat)
    requires GHashCell.Valid(inp) && s < |inp| && n <= |inp[s].ghashes|
    ensures forall c: Cell :: c in Selected(inp, es, item, s, n) ==> c in es
  {
    SelectedOk(inp, es, item, s, n);
    assert forall c: Cell :: c in Selected(inp, es, item, s, n) ==>
      Listed(inp, es, item, RecordId(s, 0), RecordId(s, n), c);
  }

  /** The records source `s` contributes to the type stream (or the item stream). */
  ghost function Contribution(w: World, es: seq<Cell>, mid: nat, item: bool, s: nat, n: nat): seq<Record>
    requires WellFormed(w) && IsEntries(w.inp, es) && s < |w.inp| && n <= |w.inp[s].ghashes|
  {
    SelectedInEntries(w.inp, es, item, s, n);
    RecordsOf(w, es, mid, Selected(w.inp, es, item, s, n))
  }

  lemma ConcatenatedInEntries(inp: Inputs, es: seq<Cell>, item: bool, n: nat)
    requires GHashCell.Valid(inp) && n <= |inp|
    ensures forall c: Cell :: c in Concatenated(inp, es, item, n) ==> c in es
  {
    ConcatenatedOk(inp, es, item, n);
    assert forall c: Cell :: c in Concatenated(inp, es, item, n) ==>
      Listed(inp, es, item, RecordId(0, 0), RecordId(n, 0), c);
  }

  /** The records the first `n` sources contribute together. */
  ghost function Contributions(w: World, es: seq<Cell>, mid: nat, item: bool, n: nat): seq<Record>
    requires WellFormed(w) && IsEntries(w.inp, es) && n <= |w.inp|
  {
    ConcatenatedInEntries(w.inp, es, item, n);
    RecordsOf(w, es, mid, Concatenated(w.inp, es, item, n))
  }

  /** All contributions together are the merged stream. */
  lemma ContributionsAreStream(w: World, es: seq<Cell>, mid: nat, item: bool)
    requires WellFormed(w) && IsEntries(w.inp, es) && IsMid(es, mid)
    ensures Contributions(w, es, mid, item, |w.inp|) == Stream(w, es, mid, item)
  {
    RankIsPosition(w.inp, es, mid);
  }

  lemma ContributionsStep(w: World, es: seq<Cell>, mid: nat, item: bool, n: nat)
    requires WellFormed(w) && IsEntries(w.inp, es) && n < |w.inp|
    ensures Contributions(w, es, mid, item, n + 1)
         == Contributions(w, es, mid, item, n) + Contribution(w, es, mid, item, n, |w.inp[n].ghashes|)
  {
    ConcatenatedInEntries(w.inp, es, item, n);
    SelectedInEntries(w.inp, es, item, n, |w.inp[n].ghashes|);
    RecordsAppend(w, es, mid, Concatenated(w.inp, es, item, n), Selected(w.inp, es, item, n, |w.inp[n].ghashes|));
  }

  // ------------------------------------------------------------------ the states of a source

  /** The fields of a type source that merging updates. */
  datatype TpiSource = TpiSource(
    indexMap: seq<TypeIndex>, uniqueTypes: seq<nat>, tpiMap: seq<TypeIndex>, ipiMap: seq<TypeIndex>,
    mergedTpi: seq<Record>, mergedIpi: seq<Record>)

  /** Ranked, but not remapped: `start` is the index map that insertion left behind. */
  ghost predicate Pending(es: seq<Cell>, s: nat, start: seq<TypeIndex>, src: TpiSource) {
    src.indexMap == start && src.uniqueTypes == UniqueOf(es, s) && src.mergedTpi == [] && src.mergedIpi == []
  }

  /** Has its final index maps. */
  ghost predicate Mapped(w: World, es: seq<Cell>, mid: nat, s: nat, src: TpiSource)
    requires WellFormed(w) && IsEntries(w.inp, es) && s < |w.inp|
  {
    src.tpiMap == FinalTpiMap(w, es, mid, s) && src.ipiMap == FinalIpiMap(w, es, mid, s)
  }

  /** Has contributed its first `n` records. */
  ghost predicate MergedUpTo(w: World, es: seq<Cell>, mid: nat, s: nat, n: nat, src: TpiSource)
    requires WellFormed(w) && IsEntries(w.inp, es) && s < |w.inp| && n <= |w.inp[s].ghashes|
  {
    src.mergedTpi == Contribution(w, es, mid, false, s, n) && src.mergedIpi == Contribution(w, es, mid, true, s, n)
  }

  ghost predicate Finished(w: World, es: seq<Cell>, mid: nat, s: nat, src: TpiSource)
    requires WellFormed(w) && IsEntries(w.inp, es) && s < |w.inp|
  {
    Mapped(w, es, mid, s, src) && MergedUpTo(w, es, mid, s, |w.inp[s].ghashes|, src)
  }

  lemma EmitStep(w: World, es: seq<Cell>, mid: nat, item: bool, s: nat, src: TpiSource)
    requires WellFormed(w) && IsEntries(w.inp, es) && s < |w.inp| && Finished(w, es, mid, s, src)
    ensures Contributions(w, es, mid, item, s + 1)
         == Contributions(w, es, mid, item, s) + (if item then src.mergedIpi else src.mergedTpi)
  {
    ContributionsStep(w, es, mid, item, s);
  }

  /** `order` names every source once, each one after the PCH object or type stream it builds on. */
  ghost predicate DependencyOrder(w: World, order: seq<nat>) {
    (forall j :: 0 <= j < |order| ==> order[j] < |w.inp| && order[j] < |w.kinds|) &&
    (forall s: nat :: s < |w.inp| ==> s in order) &&
    (forall i, j :: 0 <= i < j < |order| ==> order[i] != order[j]) &&
    forall j :: 0 <= j < |order| ==>
      (w.kinds[order[j]].UsingPch? ==> w.kinds[order[j]].pch in order[..j]) &&
      (w.kinds[order[j]].PdbItems? ==> w.kinds[order[j]].types in order[..j])
  }

  function SortCells(s: seq<Cell>): (r: seq<Cell>)
    ensures r == Sort(s)
  {
    assert forall i :: 0 <= i < |Sort(s)| ==> Sort(s)[i] in Sort(s);
    Sort(s)
  }

  /** Distinct positions of the finished table never hold the same cell. */
  lemma CellsDiffer(inp: Inputs, s: State)
    requires Inv(inp, s) && AllDone(inp, s)
    ensures forall p, q :: 0 <= p < q < |s.table| && s.table[p] != EMPTY ==> s.table[p] != s.table[q]
  {
    FinishedTable(inp, s);
  }

  lemma SortedWinners(inp: Inputs, s: State, found: seq<Cell>, es: seq<Cell>)
    requires Inv(inp, s) && AllDone(inp, s)
    requires forall c: Cell :: c in found <==> c != EMPTY && c in s.table
    requires Distinct(found) && es == Sort(found)
    ensures IsEntries(inp, es) && |es| == |found|
  {
    FinishedTable(inp, s);
  }

  lemma MidIsMid(inp: Inputs, es: seq<Cell>, mid: nat)
    requires GHashCell.Valid(inp) && IsEntries(inp, es) && mid <= |es|
    requires forall i :: 0 <= i < mid ==> es[i] < MakeCell(true, 0, 0)
    requires mid < |es| ==> es[mid] >= MakeCell(true, 0, 0)
    ensures IsMid(es, mid)
  {
    forall i | 0 <= i < |es| ensures IsItem(es[i]) ==> es[i] >= MakeCell(true, 0, 0) {
      assert es[i] in es && es[i] == CellOf(inp, IdOf(es[i]));
    }
  }

  /** A winner remembers the cell that holds it, and no other cell does. */
  lemma WinnerCell(inp: Inputs, s: State, c: Cell)
    requires Inv(inp, s) && AllDone(inp, s) && c != EMPTY && IsWinner(inp, c)
    ensures var ti := s.threads[IdOf(c).src].indexMap[IdOf(c).idx];
      ti.Complex? && ti.arrayIndex < |s.table| && s.table[ti.arrayIndex] == c &&
      forall p :: 0 <= p < |s.table| && s.table[p] == c ==> p == ti.arrayIndex
  {
    var r := IdOf(c);
    RecordsDone(inp, s, r);
    var p := s.threads[r.src].indexMap[r.idx].arrayIndex;
    PresentWins(inp, s, p);
    assert s.table[p] == CellOf(inp, IdOf(s.table[p]));
    forall q | 0 <= q < |s.table| && s.table[q] == c ensures p == q {
      KeysUnique(inp, s.table, p, q);
    }
  }

  /** Every record remembers the cell of its winner. */
  lemma RecordCell(inp: Inputs, s: State, es: seq<Cell>, r: RecordId)
    requires Inv(inp, s) && AllDone(inp, s) && IsEntries(inp, es) && InRange(inp, r)
    ensures var ti := s.threads[r.src].indexMap[r.idx];
      if Omitted(inp, r) then ti == NOT_TRANSLATED
      else ti.Complex? && ti.arrayIndex < |s.table| && s.table[ti.arrayIndex] == es[WinnerPos(inp, es, r)]
  {
    RecordsDone(inp, s, r);
    if !Omitted(inp, r) {
      var p := s.threads[r.src].indexMap[r.idx].arrayIndex;
      PresentWins(inp, s, p);
      assert s.table[p] in es;
      var i :| 0 <= i < |es| && es[i] == s.table[p];
      WinnerPosUnique(inp, es, r, i);
    }
  }

  /** Record `i` of source `s` is a winner. */
  ghost predicate Wins(inp: Inputs, es: seq<Cell>, s: nat, i: nat)
    requires GHashCell.Valid(inp) && s < |inp|
  {
    i < |inp[s].ghashes| && CellOf(inp, RecordId(s, i)) in es
  }

  /** `sorted` lists the winners of source `s` in increasing order. */
  ghost predicate WinnersSorted(inp: Inputs, es: seq<Cell>, s: nat, sorted: seq<nat>)
    requires GHashCell.Valid(inp) && s < |inp|
  {
    Ascending(sorted) && forall i: nat :: i in sorted <==> Wins(inp, es, s, i)
  }

  lemma SortedUnique(inp: Inputs, es: seq<Cell>, s: nat, sorted: seq<nat>)
    requires GHashCell.Valid(inp) && IsEntries(inp, es) && s < |inp| && sorted == Sort(UniqueOf(es, s))
    ensures WinnersSorted(inp, es, s, sorted)
  {
    UniqueOfIs(inp, es, s);
  }

  /** Entry `next` of the list is the first one not below record `i`. */
  ghost predicate PointerAt(sorted: seq<nat>, next: nat, i: nat) {
    next <= |sorted| && (forall k :: 0 <= k < next ==> sorted[k] < i) &&
      forall k :: next <= k < |sorted| ==> i <= sorted[k]
  }

  lemma PointerStep(inp: Inputs, es: seq<Cell>, s: nat, sorted: seq<nat>, next: nat, i: nat)
    requires GHashCell.Valid(inp) && s < |inp| && WinnersSorted(inp, es, s, sorted) && PointerAt(sorted, next, i)
    ensures var listed := next < |sorted| && sorted[next] == i;
      listed == Wins(inp, es, s, i) && PointerAt(sorted, if listed then next + 1 else next, i + 1)
  {
    assert i in sorted <==> Wins(inp, es, s, i);
  }

  lemma ContributionStep(w: World, es: seq<Cell>, mid: nat, item: bool, s: nat, i: nat)
    requires WellFormed(w) && IsEntries(w.inp, es) && s < |w.inp| && i < |w.inp[s].ghashes|
    ensures Contribution(w, es, mid, item, s, i + 1) == Contribution(w, es, mid, item, s, i) +
      (if Wins(w.inp, es, s, i) && w.recs[s][i].isItem == item
       then [RemapRecord(w, es, mid, s, w.recs[s][i])] else [])
  {
    var c := CellOf(w.inp, RecordId(s, i));
    SelectedInEntries(w.inp, es, item, s, i);
    var more := if c in es && IsItem(c) == item then [c] else [];
    assert IsItem(c) == w.recs[s][i].isItem;
    SelectedInEntries(w.inp, es, item, s, i + 1);
    RecordsAppend(w, es, mid, Selected(w.inp, es, item, s, i), more);
    assert RecordsOf(w, es, mid, more) ==
      (if c in es && IsItem(c) == item then [RemapRecord(w, es, mid, s, w.recs[s][i])] else []);
  }

  // ------------------------------------------------------------------ the merger

  class Merger {
    const w: World
    const table: array<Cell>
    const sources: array<TpiSource>
    var entries: seq<Cell>
    var numTypes: nat
    ghost const inserted: State

    ghost predicate Shape()
      reads this
    {
      WellFormed(w) && Inv(w.inp, inserted) && AllDone(w.inp, inserted) &&
      sources.Length == |w.inp| && table.Length == |inserted.table|
    }

    /** The winners are sorted and split, and their cells hold PDB indices. */
    ghost predicate RankingDone()
      reads this, table
    {
      Shape() && IsEntries(w.inp, entries) && IsMid(entries, numTypes) &&
      Ranked(inserted.table, table[..], entries, numTypes)
    }

    /** Takes over the table and the index maps that insertion left behind. */
    constructor (w: World, done: ConcurrentTable)
      requires WellFormed(w) && done.Valid() && done.sources == w.inp && AllDone(w.inp, done.Contents())
      ensures Shape() && this.w == w && inserted == done.Contents() && table == done.table && fresh(sources)
      ensures forall s :: 0 <= s < |w.inp| ==> sources[s] == TpiSource(inserted.threads[s].indexMap, [], [], [], [], [])
    {
      this.w := w;
      table := done.table;
      inserted := done.Contents();
      var n := |w.inp|;
      sources := new TpiSource[n](s requires 0 <= s < n && n == done.threads.Length reads done.threads =>
        TpiSource(done.threads[s].indexMap, [], [], [], [], []));
      entries, numTypes := [], 0;
    }

    /** The filled cells, in table order. */
    method Collect() returns (found: seq<Cell>)
      requires Shape() && table[..] == inserted.table
      ensures |found| <= table.Length
      ensures forall c: Cell :: c in found <==> c != EMPTY && c in inserted.table
      ensures Distinct(found)
    {
      CellsDiffer(w.inp, inserted);
      found := [];
      for p := 0 to table.Length
        invariant |found| <= p
        invariant forall c: Cell :: c in found <==> c != EMPTY && c in inserted.table[..p]
        invariant Distinct(found)
      {
        assert inserted.table[..p + 1] == inserted.table[..p] + [inserted.table[p]];
        if table[p] != EMPTY {
          assert table[p] !in inserted.table[..p];
          found := found + [table[p]];
        }
      }
      assert inserted.table[..table.Length] == inserted.table;
    }

    /** Sorts the filled cells, finds the first item, and assigns PDB indices. */
    method Rank()
      requires Shape() && table[..] == inserted.table
      requires forall s :: 0 <= s < |w.inp| ==>
        sources[s] == TpiSource(inserted.threads[s].indexMap, [], [], [], [], [])
      modifies this, table, sources
      ensures RankingDone()
      ensures forall s :: 0 <= s < |w.inp| ==> Pending(entries, s, inserted.threads[s].indexMap, sources[s])
    {
      var found := Collect();
      entries := SortCells(found);
      SortedWinners(w.inp, inserted, found, entries);
      var mid := 0;
      while mid < |entries| && entries[mid] < MakeCell(true, 0, 0)
        invariant 0 <= mid <= |entries|
        invariant forall i :: 0 <= i < mid ==> entries[i] < MakeCell(true, 0, 0)
      {
        mid := mid + 1;
      }
      MidIsMid(w.inp, entries, mid);
      numTypes := mid;
      AssignIndices();
    }

    /** The ranking loop: list each winner under its source and overwrite its table cell. */
    method AssignIndices()
      requires Shape() && table[..] == inserted.table
      requires forall s :: 0 <= s < |w.inp| ==> Pending([], s, inserted.threads[s].indexMap, sources[s])
      requires IsEntries(w.inp, entries) && IsMid(entries, numTypes) && |entries| <= table.Length
      modifies table, sources
      ensures RankingDone()
      ensures forall s :: 0 <= s < |w.inp| ==> Pending(entries, s, inserted.threads[s].indexMap, sources[s])
    {
      for i := 0 to |entries|
        invariant RankedUpTo(inserted.table, table[..], entries, numTypes, i)
        invariant forall s :: 0 <= s < |w.inp| ==> Pending(entries[..i], s, inserted.threads[s].indexMap, sources[s])
      {
        AssignIndex(i);
      }
      assert entries[..|entries|] == entries;
    }

    method AssignIndex(i: nat)
      requires Shape() && IsEntries(w.inp, entries) && i < |entries| <= table.Length
      requires forall s :: 0 <= s < |w.inp| ==> Pending(entries[..i], s, inserted.threads[s].indexMap, sources[s])
      requires RankedUpTo(inserted.table, table[..], entries, numTypes, i)
      modifies table, sources
      ensures RankedUpTo(inserted.table, table[..], entries, numTypes, i + 1)
      ensures forall s :: 0 <= s < |w.inp| ==> Pending(entries[..i + 1], s, inserted.threads[s].indexMap, sources[s])
    {
      var cell := entries[i];
      assert cell in entries;
      var r := IdOf(cell);
      WinnerCell(w.inp, inserted, cell);
      forall s | 0 <= s < |w.inp|
        ensures UniqueOf(entries[..i + 1], s) == UniqueOf(entries[..i], s) + (if r.src == s then [r.idx] else [])
      {
        UniqueStep(entries, i, s);
      }
      var source := sources[r.src];
      sources[r.src] := source.(uniqueTypes := source.uniqueTypes + [r.idx]);
      var pdbTypeIndex := if i < numTypes then i else i - numTypes;
      var ghashCellIndex, newCell := source.indexMap[r.idx].arrayIndex, MakeCell(IsItem(cell), r.src, pdbTypeIndex);
      RankStep(inserted.table, table[..], entries, numTypes, i, ghashCellIndex, newCell);
      ghost var now := table[..];
      table[ghashCellIndex] := newCell;
      assert table[..] == now[ghashCellIndex := newCell];
    }

    /** Replaces the remembered cell of each record of `s` by the PDB index now stored there. */
    method FillMap(s: nat) returns (m: seq<TypeIndex>)
      requires RankingDone() && s < |w.inp| && sources[s].indexMap == inserted.threads[s].indexMap
      ensures m == FinalMap(w.inp, entries, numTypes, s)
    {
      assert ThreadOk(w.inp, inserted.table, s, inserted.threads[s]);
      m := sources[s].indexMap;
      for i := 0 to |w.inp[s].ghashes|
        invariant |m| == |w.inp[s].ghashes|
        invariant forall k :: 0 <= k < i ==> m[k] == FinalIndex(w.inp, entries, numTypes, RecordId(s, k))
        invariant forall k :: i <= k < |w.inp[s].ghashes| ==> m[k] == inserted.threads[s].indexMap[k]
      {
        var ti := FinalFromCell(s, i, m[i]);
        m := m[i := ti];
      }
    }

    /** A built-in index stays; a remembered cell is exchanged for the index stored in it. */
    method FinalFromCell(s: nat, i: nat, fakeCellIndex: TypeIndex) returns (ti: TypeIndex)
      requires RankingDone() && s < |w.inp| && i < |w.inp[s].ghashes|
      requires fakeCellIndex == (assert ThreadOk(w.inp, inserted.table, s, inserted.threads[s]);
                                 inserted.threads[s].indexMap[i])
      ensures ti == FinalIndex(w.inp, entries, numTypes, RecordId(s, i))
    {
      RecordCell(w.inp, inserted, entries, RecordId(s, i));
      match fakeCellIndex
      case Simple(_) => ti := fakeCellIndex;
      case Complex(cellIdx) => ti := Complex(GHashIdx(table[cellIdx]));
    }

    /** Fills the maps of source `s` and merges its winning records. */
    method Remap(s: nat)
      requires RankingDone() && s < |w.inp| && Pending(entries, s, inserted.threads[s].indexMap, sources[s])
      requires w.kinds[s].UsingPch? ==>
        w.kinds[s].pch < |w.inp| && Mapped(w, entries, numTypes, w.kinds[s].pch, sources[w.kinds[s].pch])
      requires w.kinds[s].PdbItems? ==>
        w.kinds[s].types < |w.inp| && Mapped(w, entries, numTypes, w.kinds[s].types, sources[w.kinds[s].types])
      modifies sources
      ensures Finished(w, entries, numTypes, s, sources[s])
      ensures forall k :: 0 <= k < |w.inp| && k != s ==> sources[k] == old(sources[k])
    {
      assert KindOk(w, s);
      var own := FillMap(s);
      match w.kinds[s] {
        case Object =>
          sources[s] := sources[s].(indexMap := own, tpiMap := own, ipiMap := own);
        case UsingPch(p, count) =>
          var all := sources[p].tpiMap[..count] + own;
          sources[s] := sources[s].(indexMap := all, tpiMap := all, ipiMap := all);
        case PdbTypes =>
          sources[s] := sources[s].(indexMap := own, tpiMap := own, ipiMap := []);
        case PdbItems(t) =>
          sources[s] := sources[s].(indexMap := own, tpiMap := sources[t].tpiMap, ipiMap := own);
      }
      MergeUniqueRecords(s);
    }

    /** Walks the records of `s` beside its sorted list of winners and copies those on the list. */
    method MergeUniqueRecords(s: nat)
      requires Shape() && s < |w.inp| && IsEntries(w.inp, entries) && IsMid(entries, numTypes)
      requires Mapped(w, entries, numTypes, s, sources[s]) && sources[s].uniqueTypes == UniqueOf(entries, s)
      requires sources[s].mergedTpi == [] && sources[s].mergedIpi == []
      modifies sources
      ensures Finished(w, entries, numTypes, s, sources[s])
      ensures forall k :: 0 <= k < |w.inp| && k != s ==> sources[k] == old(sources[k])
    {
      var sorted := Sort(sources[s].uniqueTypes);
      SortedUnique(w.inp, entries, s, sorted);
      sources[s] := sources[s].(uniqueTypes := sorted);
      MergeListed(s, sorted);
    }

    /** Source `s` is mapped and has contributed its first `i` records; list entry `next` comes next. */
    ghost predicate WalkAt(s: nat, sorted: seq<nat>, next: nat, i: nat)
      reads this, sources
    {
      Shape() && s < |w.inp| && i <= |w.inp[s].ghashes| && IsEntries(w.inp, entries) &&
      WinnersSorted(w.inp, entries, s, sorted) && PointerAt(sorted, next, i) &&
      Mapped(w, entries, numTypes, s, sources[s]) && MergedUpTo(w, entries, numTypes, s, i, sources[s])
    }

    method MergeListed(s: nat, sorted: seq<nat>)
      requires WalkAt(s, sorted, 0, 0)
      modifies sources
      ensures WalkAt(s, sorted, |sorted|, |w.inp[s].ghashes|)
      ensures forall k :: 0 <= k < |w.inp| && k != s ==> sources[k] == old(sources[k])
    {
      var next := 0;
      for i := 0 to |w.recs[s]|
        invariant WalkAt(s, sorted, next, i)
        invariant forall k :: 0 <= k < |w.inp| && k != s ==> sources[k] == old(sources[k])
      {
        next := MergeIfListed(s, sorted, next, i);
      }
      WalkEnds(s, sorted, next);
    }

    /** No entry of the list lies past the last record. */
    lemma WalkEnds(s: nat, sorted: seq<nat>, next: nat)
      requires Shape() && s < |w.inp| && WalkAt(s, sorted, next, |w.inp[s].ghashes|)
      ensures next == |sorted|
    {
      forall k | 0 <= k < |sorted| ensures sorted[k] < |w.inp[s].ghashes| {
        assert sorted[k] in sorted;
        assert Wins(w.inp, entries, s, sorted[k]);
      }
      assert |sorted| == 0 || sorted[|sorted| - 1] < |w.inp[s].ghashes|;
    }

    /** Merges record `i` if it is the next one on the list. */
    method MergeIfListed(s: nat, sorted: seq<nat>, next: nat, i: nat) returns (next': nat)
      requires WalkAt(s, sorted, next, i) && i < |w.inp[s].ghashes|
      modifies sources
      ensures WalkAt(s, sorted, next', i + 1)
      ensures forall k :: 0 <= k < |w.inp| && k != s ==> sources[k] == old(sources[k])
    {
      PointerStep(w.inp, entries, s, sorted, next, i);
      ContributionStep(w, entries, numTypes, false, s, i);
      ContributionStep(w, entries, numTypes, true, s, i);
      next' := next;
      if next < |sorted| && sorted[next] == i {
        MergeTypeRecord(s, w.recs[s][i]);
        next' := next + 1;
      }
    }

    /** Appends the remapped record to the stream it belongs to. */
    method MergeTypeRecord(s: nat, rec: Record)
      requires Shape() && s < |w.inp| && IsEntries(w.inp, entries) && Mapped(w, entries, numTypes, s, sources[s])
      modifies sources
      ensures var newRec := RemapRecord(w, entries, numTypes, s, rec);
        sources[s] == if rec.isItem
                      then old(sources[s]).(mergedIpi := old(sources[s]).mergedIpi + [newRec])
                      else old(sources[s]).(mergedTpi := old(sources[s]).mergedTpi + [newRec])
      ensures forall k :: 0 <= k < |w.inp| && k != s ==> sources[k] == old(sources[k])
    {
      var newRec := RemapTypesInRecord(s, rec);
      if rec.isItem {
        sources[s] := sources[s].(mergedIpi := sources[s].mergedIpi + [newRec]);
      } else {
        sources[s] := sources[s].(mergedTpi := sources[s].mergedTpi + [newRec]);
      }
    }

    /** Copies a record and rewrites its references one after the other. */
    method RemapTypesInRecord(s: nat, rec: Record) returns (out: Record)
      requires Shape() && s < |w.inp| && IsEntries(w.inp, entries) && Mapped(w, entries, numTypes, s, sources[s])
      ensures out == RemapRecord(w, entries, numTypes, s, rec)
    {
      out := rec;
      for j := 0 to |rec.refs|
        invariant |out.refs| == |rec.refs| && out == rec.(refs := out.refs)
        invariant forall k :: 0 <= k < j ==> out.refs[k] == RemapRef(w, entries, numTypes, s, rec.refs[k])
        invariant forall k :: j <= k < |rec.refs| ==> out.refs[k] == rec.refs[k]
      {
        RemapAgrees(w, entries, numTypes, s, rec.refs[j]);
        out := out.(refs := out.refs[j := RemapTypeIndex(sources[s].tpiMap, sources[s].ipiMap, out.refs[j])]);
      }
    }

    /** Remaps and merges every source, in any order that respects dependencies. */
    method RemapAll(order: seq<nat>)
      requires RankingDone() && DependencyOrder(w, order)
      requires forall s :: 0 <= s < |w.inp| ==> Pending(entries, s, inserted.threads[s].indexMap, sources[s])
      modifies sources
      ensures forall s :: 0 <= s < |w.inp| ==> Finished(w, entries, numTypes, s, sources[s])
    {
      for k := 0 to |order|
        invariant forall s :: 0 <= s < |w.inp| ==> StateAfter(order[..k], s, sources[s])
      {
        assert order[..k + 1] == order[..k] + [order[k]];
        RemapNext(order[..k], order[k]);
      }
      assert order[..|order|] == order;
      assert forall s: nat :: s < |w.inp| ==> s in order && StateAfter(order, s, sources[s]);
    }

    /** A source listed in `done` is finished, any other one pending. */
    ghost predicate StateAfter(done: seq<nat>, s: nat, src: TpiSource)
      requires Shape() && IsEntries(w.inp, entries) && s < |w.inp|
      reads this
    {
      if s in done then Finished(w, entries, numTypes, s, src)
      else Pending(entries, s, inserted.threads[s].indexMap, src)
    }

    method RemapNext(done: seq<nat>, s: nat)
      requires RankingDone() && s < |w.inp| && s !in done
      requires forall k :: 0 <= k < |w.inp| ==> StateAfter(done, k, sources[k])
      requires w.kinds[s].UsingPch? ==> w.kinds[s].pch in done && w.kinds[s].pch < |w.inp|
      requires w.kinds[s].PdbItems? ==> w.kinds[s].types in done && w.kinds[s].types < |w.inp|
      modifies sources
      ensures forall k :: 0 <= k < |w.inp| ==> StateAfter(done + [s], k, sources[k])
    {
      assert StateAfter(done, s, sources[s]);
      Remap(s);
      forall k | 0 <= k < |w.inp| ensures StateAfter(done + [s], k, sources[k]) {
        assert k != s ==> sources[k] == old(sources[k]) && StateAfter(done, k, old(sources[k]));
      }
    }

    /** The whole merge. */
    method MergeAll(order: seq<nat>)
      requires Shape() && table[..] == inserted.table && DependencyOrder(w, order)
      requires forall s :: 0 <= s < |w.inp| ==>
        sources[s] == TpiSource(inserted.threads[s].indexMap, [], [], [], [], [])
      modifies this, table, sources
      ensures AllFinished()
    {
      Rank();
      RemapAll(order);
    }

    ghost predicate AllFinished()
      reads this, table, sources
    {
      RankingDone() && forall s :: 0 <= s < |w.inp| ==> Finished(w, entries, numTypes, s, sources[s])
    }

    /** `out` is what the first `s` sources contribute. */
    ghost predicate EmittedUpTo(item: bool, s: nat, out: seq<Record>)
      reads this, table, sources
    {
      AllFinished() && s <= |w.inp| && out == Contributions(w, entries, numTypes, item, s)
    }

    lemma EmitNext(item: bool, s: nat, out: seq<Record>)
      requires EmittedUpTo(item, s, out) && s < sources.Length
      ensures EmittedUpTo(item, s + 1, out + if item then sources[s].mergedIpi else sources[s].mergedTpi)
    {
      EmitStep(w, entries, numTypes, item, s, sources[s]);
    }

    /** Adds the merged records of one stream to the PDB, source after source. */
    method Emit(item: bool) returns (out: seq<Record>)
      requires AllFinished()
      ensures out == Stream(w, entries, numTypes, item)
    {
      out := [];
      for s := 0 to sources.Length
        invariant EmittedUpTo(item, s, out)
      {
        EmitNext(item, s, out);
        out := out + if item then sources[s].mergedIpi else sources[s].mergedTpi;
      }
      ContributionsAreStream(w, entries, numTypes, item);
    }

    /** The index maps of all sources. */
    method IndexMaps() returns (tpiMaps: seq<seq<TypeIndex>>, ipiMaps: seq<seq<TypeIndex>>)
      requires AllFinished()
      ensures |tpiMaps| == |ipiMaps| == |w.inp|
      ensures forall s :: 0 <= s < |w.inp| ==>
        tpiMaps[s] == FinalTpiMap(w, entries, numTypes, s) && ipiMaps[s] == FinalIpiMap(w, entries, numTypes, s)
    {
      tpiMaps, ipiMaps := ReadMaps();
      forall s | 0 <= s < |w.inp| ensures Mapped(w, entries, numTypes, s, sources[s]) {
        assert Finished(w, entries, numTypes, s, sources[s]);
      }
    }

    method ReadMaps() returns (tpiMaps: seq<seq<TypeIndex>>, ipiMaps: seq<seq<TypeIndex>>)
      ensures |tpiMaps| == |ipiMaps| == sources.Length
      ensures forall s :: 0 <= s < sources.Length ==> tpiMaps[s] == sources[s].tpiMap && ipiMaps[s] == sources[s].ipiMap
    {
      tpiMaps, ipiMaps := [], [];
      for s := 0 to sources.Length
        invariant |tpiMaps| == |ipiMaps| == s
        invariant forall k :: 0 <= k < s ==> tpiMaps[k] == sources[k].tpiMap && ipiMaps[k] == sources[k].ipiMap
      {
        tpiMaps, ipiMaps := tpiMaps + [sources[s].tpiMap], ipiMaps + [sources[s].ipiMap];
      }
    }
  }
}
