/** Type merging from end to end: order the sources, insert under any schedule, then merge. */
module GHashMerge {
  import opened Collections
  import opened GHashCell
  import opened GHashTable
  import opened GHashRuns
  import opened GHashInsert
  import opened TypeStreams
  import opened TypeMerger

  // ------------------------------------------------------------------ dependencies first

  /** The positions below `n` with the given flag, in order. */
  function Positions(isDependency: seq<bool>, flag: bool, n: nat): seq<nat>
    requires n <= |isDependency|
  {
    if n == 0 then [] else Positions(isDependency, flag, n - 1) + if isDependency[n - 1] == flag then [n - 1] else []
  }

  /** Old positions in their new order. */
  function DependenciesFirst(isDependency: seq<bool>): seq<nat> {
    Positions(isDependency, true, |isDependency|) + Positions(isDependency, false, |isDependency|)
  }

  lemma {:induction false} PositionsAre(isDependency: seq<bool>, flag: bool, n: nat)
    requires n <= |isDependency|
    ensures Ascending(Positions(isDependency, flag, n))
    ensures forall k: nat :: k in Positions(isDependency, flag, n) <==> k < n && isDependency[k] == flag
  {
    if n > 0 {
      PositionsAre(isDependency, flag, n - 1);
      var front := Positions(isDependency, flag, n - 1);
      assert forall i :: 0 <= i < |front| ==> front[i] in front;
    }
  }

  lemma {:induction false} PositionsCount(isDependency: seq<bool>, n: nat)
    requires n <= |isDependency|
    ensures |Positions(isDependency, true, n)| + |Positions(isDependency, false, n)| == n
  {
    if n > 0 {
      PositionsCount(isDependency, n - 1);
    }
  }

  /** Puts dependencies first and keeps the existing order otherwise. */
  method SortDependencies(isDependency: seq<bool>) returns (list: seq<nat>, numDeps: nat)
    ensures list == DependenciesFirst(isDependency) && numDeps == |Positions(isDependency, true, |isDependency|)|
  {
    var deps: seq<nat>, objs: seq<nat> := [], [];
    for s := 0 to |isDependency|
      invariant deps == Positions(isDependency, true, s) && objs == Positions(isDependency, false, s)
    {
      if isDependency[s] {
        deps := deps + [s];
      } else {
        objs := objs + [s];
      }
    }
    list, numDeps := deps + objs, |deps|;
  }

  /** The new position of the source that was at `s`. */
  function Place(list: seq<nat>, s: nat): (i: nat)
    requires s in list
    ensures i < |list| && list[i] == s
  {
    if list[0] == s then 0 else 1 + Place(list[1..], s)
  }

  /** Every source is listed once; dependencies come first, and order is kept otherwise. */
  lemma DependenciesFirstOk(isDependency: seq<bool>)
    ensures var list := DependenciesFirst(isDependency);
      |list| == |isDependency| && (forall s: nat :: s in list <==> s < |isDependency|) && Distinct(list) &&
      forall s: nat, t: nat :: s < |isDependency| && t < |isDependency| && Precedes(isDependency, s, t) ==>
        Place(list, s) < Place(list, t)
  {
    var n := |isDependency|;
    var deps, objs, list := Positions(isDependency, true, n), Positions(isDependency, false, n),
      DependenciesFirst(isDependency);
    PositionsAre(isDependency, true, n);
    PositionsAre(isDependency, false, n);
    PositionsCount(isDependency, n);
    forall i, j | 0 <= i < j < |list| ensures list[i] != list[j] {
      if i < |deps| <= j {
        assert list[i] in deps && list[j] in objs;
      }
    }
    forall s: nat, t: nat | s < n && t < n && Precedes(isDependency, s, t) ensures Place(list, s) < Place(list, t) {
      PlacesOrdered(isDependency, deps, objs, s, t, Place(list, s), Place(list, t));
    }
  }

  /** `s` comes before `t` in the new order. */
  predicate Precedes(isDependency: seq<bool>, s: nat, t: nat)
    requires s < |isDependency| && t < |isDependency|
  {
    if isDependency[s] == isDependency[t] then s < t else isDependency[s]
  }

  lemma PlacesOrdered(isDependency: seq<bool>, deps: seq<nat>, objs: seq<nat>, s: nat, t: nat, i: nat, j: nat)
    requires Ascending(deps) && Ascending(objs) && s < |isDependency| && t < |isDependency| &&
      Precedes(isDependency, s, t)
    requires forall k: nat :: k in deps <==> k < |isDependency| && isDependency[k]
    requires forall k: nat :: k in objs <==> k < |isDependency| && !isDependency[k]
    requires i < |deps + objs| && j < |deps + objs| && (deps + objs)[i] == s && (deps + objs)[j] == t
    ensures i < j
  {
    assert (i < |deps| <==> isDependency[s]) by {
      assert if i < |deps| then s in deps else s in objs;
    }
    assert (j < |deps| <==> isDependency[t]) by {
      assert if j < |deps| then t in deps else t in objs;
    }
  }

  // ------------------------------------------------------------------ the reordered sources

  /** The sources before they are ordered: PCH objects and type servers are dependencies, objects
      that use a PCH are not, and the items of a type server come after its types. */
  ghost predicate Unordered(w: World, isDependency: seq<bool>) {
    GHashCell.Valid(w.inp) && |w.recs| == |w.kinds| == |isDependency| == |w.inp| &&
    (forall s :: 0 <= s < |w.inp| ==> |w.recs[s]| == |w.inp[s].ghashes|) &&
    (forall s, i :: 0 <= s < |w.inp| && 0 <= i < |w.recs[s]| ==> w.recs[s][i].isItem == w.inp[s].isItem[i]) &&
    forall s :: 0 <= s < |w.inp| ==> UnorderedKindOk(w, isDependency, s)
  }

  ghost predicate UnorderedKindOk(w: World, isDependency: seq<bool>, s: nat)
    requires s < |w.inp| == |w.kinds| == |isDependency|
  {
    match w.kinds[s]
    case UsingPch(p, count) =>
      p < |w.inp| && isDependency[p] && !isDependency[s] &&
      w.kinds[p] == Object && count <= |w.inp[p].ghashes| && count == w.inp[p].endPrecomp
    case PdbItems(t) => t < s && isDependency[t] && isDependency[s] && w.kinds[t] == PdbTypes
    case _ => true
  }

  function Renumber(kind: SourceKind, list: seq<nat>): SourceKind {
    match kind
    case UsingPch(p, count) => if p in list then UsingPch(Place(list, p), count) else kind
    case PdbItems(t) => if t in list then PdbItems(Place(list, t)) else kind
    case _ => kind
  }

  /** The sources in the order of `list`. */
  function Reordered(w: World, list: seq<nat>): World
    requires |w.recs| == |w.kinds| == |w.inp| && forall i :: 0 <= i < |list| ==> list[i] < |w.inp|
  {
    World(seq(|list|, i requires 0 <= i < |list| => w.inp[list[i]]),
          seq(|list|, i requires 0 <= i < |list| => w.recs[list[i]]),
          seq(|list|, i requires 0 <= i < |list| => Renumber(w.kinds[list[i]], list)))
  }

  /** The sources with dependencies first. */
  ghost function Ordered(w: World, isDependency: seq<bool>): (o: World)
    requires Unordered(w, isDependency)
    ensures WellFormed(o) && |o.inp| == |w.inp|
  {
    OrderedWellFormed(w, isDependency, DependenciesFirst(isDependency));
    Reordered(w, DependenciesFirst(isDependency))
  }

  /** After ordering, whatever a source builds on comes before it. */
  lemma OrderedWellFormed(w: World, isDependency: seq<bool>, list: seq<nat>)
    requires Unordered(w, isDependency) && list == DependenciesFirst(isDependency)
    ensures |list| == |w.inp| && forall i :: 0 <= i < |list| ==> list[i] < |w.inp|
    ensures WellFormed(Reordered(w, list))
  {
    DependenciesFirstOk(isDependency);
    forall i | 0 <= i < |list| ensures list[i] < |w.inp| {
      assert list[i] in list;
    }
    var o := Reordered(w, list);
    forall i: nat | i < |list| ensures KindOk(o, i) {
      OrderedKindOk(w, isDependency, list, o, i);
    }
  }

  lemma OrderedKindOk(w: World, isDependency: seq<bool>, list: seq<nat>, o: World, i: nat)
    requires Unordered(w, isDependency) && list == DependenciesFirst(isDependency) && i < |list| == |w.inp|
    requires (forall i :: 0 <= i < |list| ==> list[i] < |w.inp|) && o == Reordered(w, list)
    ensures KindOk(o, i)
  {
    DependenciesFirstOk(isDependency);
    var s := list[i];
    assert UnorderedKindOk(w, isDependency, s);
    assert Place(list, s) == i;
  }

  // ------------------------------------------------------------------ the merge

  lemma MidUnique(es: seq<Cell>, mid1: nat, mid2: nat)
    requires IsMid(es, mid1) && IsMid(es, mid2)
    ensures mid1 == mid2
  {
    var k := if mid1 < mid2 then mid1 else mid2;
    assert k < |es| ==> (k < mid1 <==> !IsItem(es[k])) && (k < mid2 <==> !IsItem(es[k]));
  }

  /** The two streams and the index maps of all sources. */
  datatype Merged = Merged(tpi: seq<Record>, ipi: seq<Record>, tpiMaps: seq<seq<TypeIndex>>,
    ipiMaps: seq<seq<TypeIndex>>)

  /** What the winners and the number of types among them determine. */
  ghost predicate IsMerged(w: World, es: seq<Cell>, mid: nat, r: Merged)
    requires WellFormed(w) && IsEntries(w.inp, es) && IsMid(es, mid)
  {
    r.tpi == Stream(w, es, mid, false) && r.ipi == Stream(w, es, mid, true) &&
    |r.tpiMaps| == |r.ipiMaps| == |w.inp| &&
    forall s :: 0 <= s < |w.inp| ==>
      r.tpiMaps[s] == FinalTpiMap(w, es, mid, s) && r.ipiMaps[s] == FinalIpiMap(w, es, mid, s)
  }

  /** Inserts under the given schedule, then merges. */
  method InsertAndMerge(w: World, size: nat, sched: seq<Choice>, order: seq<nat>)
    returns (r: Merged)
    requires WellFormed(w) && SizeOk(w.inp, size) && ScheduleOk(w.inp, sched) && DependencyOrder(w, order)
    requires AllDone(w.inp, Outcome(w.inp, size, sched))
    ensures exists es, mid :: IsEntries(w.inp, es) && IsMid(es, mid)
    ensures forall es, mid :: IsEntries(w.inp, es) && IsMid(es, mid) ==> IsMerged(w, es, mid, r)
  {
    var table := new ConcurrentTable(w.inp, size);
    table.MoveAll(sched);
    var merger := new Merger(w, table);
    merger.MergeAll(order);
    var tpi := merger.Emit(false);
    var ipi := merger.Emit(true);
    var tpiMaps, ipiMaps := merger.IndexMaps();
    r := Merged(tpi, ipi, tpiMaps, ipiMaps);
    forall es, mid | IsEntries(w.inp, es) && IsMid(es, mid) ensures IsMerged(w, es, mid, r) {
      EntriesUnique(w.inp, es, merger.entries);
      MidUnique(es, mid, merger.numTypes);
    }
  }

  /** The merged streams and all index maps are a function of the input alone: neither the schedule
      of the insertion steps, nor the table size, nor the order in which objects are remapped can
      change them. */
  method MergeTypesWithGHash(w: World, isDependency: seq<bool>, size: nat, sched: seq<Choice>, order: seq<nat>)
    returns (r: Merged)
    requires Unordered(w, isDependency)
    requires SizeOk(Ordered(w, isDependency).inp, size) && ScheduleOk(Ordered(w, isDependency).inp, sched)
    requires DependencyOrder(Ordered(w, isDependency), order)
    requires AllDone(Ordered(w, isDependency).inp, Outcome(Ordered(w, isDependency).inp, size, sched))
    ensures var o := Ordered(w, isDependency);
      (exists es, mid :: IsEntries(o.inp, es) && IsMid(es, mid)) &&
      forall es, mid :: IsEntries(o.inp, es) && IsMid(es, mid) ==> IsMerged(o, es, mid, r)
  {
    var list, _ := SortDependencies(isDependency);
    OrderedWellFormed(w, isDependency, list);
    var o := Reordered(w, list);
    r := InsertAndMerge(o, size, sched, order);
  }
}
