/** What merging does to the sources as they are given, before dependencies are put first. */
module TypeSources {
  import opened GHashCell
  import opened GHashTable
  import opened TypeStreams
  import opened TypeMeaning
  import opened TypeMerger
  import opened GHashMerge

  // ------------------------------------------------------------------ what a given record means

  /** Record `k` of source `s` stands for `t`; sources are numbered as they are given. */
  ghost predicate Means(w: World, s: nat, k: nat, t: Tree)
    decreases t, 1
  {
    s < |w.recs| && s < |w.kinds| && k < |w.recs[s]| &&
    t.Node? && t.isItem == w.recs[s][k].isItem && t.leaf == w.recs[s][k].leaf && t.payload == w.recs[s][k].payload &&
    |t.kids| == |w.recs[s][k].refs| &&
    forall j :: 0 <= j < |t.kids| ==> RefMeans(w, s, w.recs[s][k].refs[j], t.kids[j])
  }

  /** An index below the PCH count is one of the PCH object; a type server's items refer to its types
      by type references and to each other by item references, and its types to types only. */
  ghost predicate RefMeans(w: World, s: nat, ref: Ref, t: Tree)
    requires s < |w.kinds|
    decreases t, 2
  {
    match ref.ti
    case Simple(kind) => t == Builtin(kind)
    case Complex(x) =>
      match w.kinds[s]
      case Object => Means(w, s, x, t)
      case UsingPch(p, count) => if x < count then Means(w, p, x, t) else Means(w, s, x - count, t)
      case PdbTypes => ref.kind == TypeRef && Means(w, s, x, t)
      case PdbItems(types) => if ref.kind == TypeRef then Means(w, types, x, t) else Means(w, s, x, t)
  }

  // ------------------------------------------------------------------ ordering changes no record

  /** Source `i` of the ordered world is source `list[i]` of the given one, with the sources it builds
      on renumbered. */
  lemma OrderedIs(w: World, isDependency: seq<bool>, list: seq<nat>, i: nat)
    requires Unordered(w, isDependency) && list == DependenciesFirst(isDependency) && i < |w.inp|
    ensures |list| == |w.inp| && list[i] < |w.inp|
    ensures var o := Ordered(w, isDependency);
      |o.inp| == |o.recs| == |o.kinds| == |w.inp| &&
      o.inp[i] == w.inp[list[i]] && o.recs[i] == w.recs[list[i]] && RenumberedKind(list, w.kinds[list[i]], o.kinds[i])
  {
    OrderedWellFormed(w, isDependency, list);
    DependenciesFirstOk(isDependency);
    assert UnorderedKindOk(w, isDependency, list[i]);
  }

  /** The same kind of source; the source it builds on is the same one, under its new number. */
  ghost predicate RenumberedKind(list: seq<nat>, was: SourceKind, now: SourceKind) {
    match was
    case Object => now == Object
    case PdbTypes => now == PdbTypes
    case UsingPch(p, count) => now.UsingPch? && now.count == count && now.pch < |list| && list[now.pch] == p
    case PdbItems(t) => now.PdbItems? && now.types < |list| && list[now.types] == t
  }

  /** Every given source has one place. */
  lemma PlaceIs(isDependency: seq<bool>, list: seq<nat>, s: nat)
    requires list == DependenciesFirst(isDependency) && s < |isDependency|
    ensures s in list && Place(list, s) < |list| == |isDependency| && list[Place(list, s)] == s
    ensures forall i :: 0 <= i < |list| && list[i] == s ==> i == Place(list, s)
  {
    DependenciesFirstOk(isDependency);
  }

  /** A given record stands for what it stands for at its new place. */
  lemma {:induction false} SameMeaning(w: World, isDependency: seq<bool>, list: seq<nat>, s: nat, k: nat, t: Tree)
    requires Unordered(w, isDependency) && list == DependenciesFirst(isDependency)
    requires s < |w.inp| && k < |w.recs[s]| && s in list
    ensures var o, i := Ordered(w, isDependency), Place(list, s);
      InRange(o.inp, RecordId(i, k)) && (Means(w, s, k, t) <==> Denotes(o, RecordId(i, k), t))
    decreases t, 1, 0
  {
    var o, i := Ordered(w, isDependency), Place(list, s);
    PlaceIs(isDependency, list, s);
    OrderedIs(w, isDependency, list, i);
    var rec := w.recs[s][k];
    assert RecordAt(o, RecordId(i, k)) == rec;
    if t.Node? && |t.kids| == |rec.refs| {
      forall j | 0 <= j < |t.kids|
        ensures RefMeans(w, s, rec.refs[j], t.kids[j]) <==> RefDenotes(o, i, rec.refs[j], t.kids[j])
      {
        SameReference(w, isDependency, list, s, rec.refs[j], t.kids[j]);
      }
    }
  }

  lemma {:induction false} SameReference(w: World, isDependency: seq<bool>, list: seq<nat>, s: nat, ref: Ref, t: Tree)
    requires Unordered(w, isDependency) && list == DependenciesFirst(isDependency) && s < |w.inp| && s in list
    ensures Place(list, s) < |Ordered(w, isDependency).inp|
    ensures RefMeans(w, s, ref, t) <==> RefDenotes(Ordered(w, isDependency), Place(list, s), ref, t)
    decreases t, 2, 0
  {
    var o, i := Ordered(w, isDependency), Place(list, s);
    PlaceIs(isDependency, list, s);
    OrderedIs(w, isDependency, list, i);
    if ref.ti.Complex? {
      var x := ref.ti.arrayIndex;
      assert UnorderedKindOk(w, isDependency, s) && KindOk(o, i);
      match w.kinds[s]
      case Object => SameTarget(w, isDependency, list, s, x, t);
      case PdbTypes => SameTarget(w, isDependency, list, s, x, t);
      case UsingPch(p, count) =>
        PlaceIs(isDependency, list, p);
        if x < count {
          SameTarget(w, isDependency, list, p, x, t);
        } else {
          SameTarget(w, isDependency, list, s, x - count, t);
        }
      case PdbItems(types) =>
        PlaceIs(isDependency, list, types);
        SameTarget(w, isDependency, list, if ref.kind == TypeRef then types else s, x, t);
    }
  }

  /** The same for a record that may be out of range. */
  lemma {:induction false} SameTarget(w: World, isDependency: seq<bool>, list: seq<nat>, s: nat, k: nat, t: Tree)
    requires Unordered(w, isDependency) && list == DependenciesFirst(isDependency) && s < |w.inp| && s in list
    ensures var o, r := Ordered(w, isDependency), RecordId(Place(list, s), k);
      Means(w, s, k, t) <==> InRange(o.inp, r) && Denotes(o, r, t)
    decreases t, 1, 1
  {
    var i := Place(list, s);
    PlaceIs(isDependency, list, s);
    OrderedIs(w, isDependency, list, i);
    if k < |w.recs[s]| {
      SameMeaning(w, isDependency, list, s, k, t);
    }
  }

  // ------------------------------------------------------------------ the merge of the given sources

  /** Where the index maps of a source have record `k`; the records of a PCH come first. */
  function OwnIndex(kind: SourceKind, tpiMap: seq<TypeIndex>, ipiMap: seq<TypeIndex>, k: nat): TypeIndex {
    match kind
    case UsingPch(_, count) => if count + k < |tpiMap| then tpiMap[count + k] else Simple(0)
    case PdbItems(_) => if k < |ipiMap| then ipiMap[k] else Simple(0)
    case _ => if k < |tpiMap| then tpiMap[k] else Simple(0)
  }

  lemma OwnFinal(o: World, es: seq<Cell>, mid: nat, i: nat, k: nat)
    requires WellFormed(o) && IsEntries(o.inp, es) && InRange(o.inp, RecordId(i, k))
    ensures OwnIndex(o.kinds[i], FinalTpiMap(o, es, mid, i), FinalIpiMap(o, es, mid, i), k)
         == FinalIndex(o.inp, es, mid, RecordId(i, k))
  {
    var own := FinalMap(o.inp, es, mid, i);
    assert k < |own| && own[k] == FinalIndex(o.inp, es, mid, RecordId(i, k));
    assert KindOk(o, i);
    match o.kinds[i]
    case UsingPch(p, count) => AfterPrefix(FinalMap(o.inp, es, mid, p), count, own, k);
    case _ =>
  }

  lemma AfterPrefix(pch: seq<TypeIndex>, count: nat, own: seq<TypeIndex>, k: nat)
    requires count <= |pch| && k < |own|
    ensures count + k < |pch[..count] + own| && (pch[..count] + own)[count + k] == own[k]
  {
  }

  /** The index that the maps of the merge have for a record. */
  lemma MergedOwn(o: World, es: seq<Cell>, mid: nat, r: Merged, i: nat, k: nat)
    requires WellFormed(o) && IsEntries(o.inp, es) && IsMid(es, mid) && IsMerged(o, es, mid, r)
    requires InRange(o.inp, RecordId(i, k))
    ensures i < |r.tpiMaps| == |r.ipiMaps|
    ensures OwnIndex(o.kinds[i], r.tpiMaps[i], r.ipiMaps[i], k) == FinalIndex(o.inp, es, mid, RecordId(i, k))
  {
    OwnFinal(o, es, mid, i, k);
  }

  lemma SameShape(list: seq<nat>, was: SourceKind, now: SourceKind, tpiMap: seq<TypeIndex>, ipiMap: seq<TypeIndex>,
                  k: nat)
    requires RenumberedKind(list, was, now)
    ensures OwnIndex(was, tpiMap, ipiMap, k) == OwnIndex(now, tpiMap, ipiMap, k)
  {
  }

  /** The record that the linker leaves out of the PDB has no index there; every other record has
      one. The record there, read in the merged streams, stands for the type that the given record
      stands for in the sources as they are given. */
  lemma GivenSourcesKeepMeaning(w: World, isDependency: seq<bool>, list: seq<nat>, es: seq<Cell>, mid: nat, r: Merged,
                                s: nat, i: nat, k: nat)
    returns (t: Tree)
    requires Unordered(w, isDependency) && list == DependenciesFirst(isDependency)
    requires s < |w.inp| && k < |w.recs[s]| && i < |list| && list[i] == s
    requires IsEntries(Ordered(w, isDependency).inp, es) && IsMid(es, mid) &&
      IsMerged(Ordered(w, isDependency), es, mid, r)
    requires Mergeable(Ordered(w, isDependency))
    ensures i < |r.tpiMaps| == |r.ipiMaps|
    ensures var index := OwnIndex(w.kinds[s], r.tpiMaps[i], r.ipiMaps[i], k);
      if k == w.inp[s].endPrecomp then index == Simple(7)
      else index.Complex? && Means(w, s, k, t) &&
           MergedDenotes(r.tpi, r.ipi, w.recs[s][k].isItem, index.arrayIndex, t)
  {
    var o, id := Ordered(w, isDependency), RecordId(i, k);
    OrderedIs(w, isDependency, list, i);
    PlaceIs(isDependency, list, s);
    MergedOwn(o, es, mid, r, i, k);
    SameShape(list, w.kinds[s], o.kinds[i], r.tpiMaps[i], r.ipiMaps[i], k);
    t := Builtin(0);
    if k != w.inp[s].endPrecomp {
      t := MeaningAt(o, es, mid, r, i, k);
      SameMeaning(w, isDependency, list, s, k, t);
    }
  }

  lemma MeaningAt(o: World, es: seq<Cell>, mid: nat, r: Merged, i: nat, k: nat) returns (t: Tree)
    requires Mergeable(o) && IsEntries(o.inp, es) && IsMid(es, mid) && IsMerged(o, es, mid, r)
    requires InRange(o.inp, RecordId(i, k)) && k != o.inp[i].endPrecomp
    ensures Denotes(o, RecordId(i, k), t) && FinalIndex(o.inp, es, mid, RecordId(i, k)).Complex?
    ensures MergedDenotes(r.tpi, r.ipi, RecordAt(o, RecordId(i, k)).isItem,
                          FinalIndex(o.inp, es, mid, RecordId(i, k)).arrayIndex, t)
  {
    t := TreeOf(o, RecordId(i, k));
    MergedMeansTheSame(o, es, mid, RecordId(i, k));
  }
}
