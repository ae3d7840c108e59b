/** What type merging has to produce: the sorted list of winners, the index of every source
    record in the PDB, and the two merged streams, with their properties. */
module TypeStreams {
  import opened GHashCell
  import opened GHashTable
  import opened GHashRuns
  import opened Options

  /** Whether a reference inside a record is a type index or an item index. */
  datatype RefKind = TypeRef | IndexRef

  datatype Ref = Ref(kind: RefKind, ti: TypeIndex)

  /** A CodeView record: its bytes other than the type indices, and those indices in order. */
  datatype Record = Record(isItem: bool, leaf: nat, payload: seq<nat>, refs: seq<Ref>)

  /** How the type indices of a source are numbered. */
  datatype SourceKind =
    | Object                           // one index space for types and items
    | UsingPch(pch: nat, count: nat)   // the first `count` indices are those of the PCH object
    | PdbTypes                         // type server, TPI stream
    | PdbItems(types: nat)             // type server, IPI stream; types live in source `types`

  datatype World = World(inp: Inputs, recs: seq<seq<Record>>, kinds: seq<SourceKind>)

  ghost predicate WellFormed(w: World) {
    GHashCell.Valid(w.inp) && |w.recs| == |w.inp| && |w.kinds| == |w.inp| &&
    (forall s :: 0 <= s < |w.inp| ==> |w.recs[s]| == |w.inp[s].ghashes|) &&
    (forall s, i :: 0 <= s < |w.inp| && 0 <= i < |w.recs[s]| ==> w.recs[s][i].isItem == w.inp[s].isItem[i]) &&
    forall s :: 0 <= s < |w.inp| ==> KindOk(w, s)
  }

  /** Dependencies come first; a PCH prefix stops right before the record that is left out. */
  ghost predicate KindOk(w: World, s: nat)
    requires s < |w.inp| == |w.kinds|
  {
    match w.kinds[s]
    case UsingPch(p, count) =>
      p < s && w.kinds[p] == Object && count <= |w.inp[p].ghashes| && count == w.inp[p].endPrecomp
    case PdbItems(t) => t < s && w.kinds[t] == PdbTypes
    case _ => true
  }

  /** The record that array index `k` means inside source `s`, if the index map reaches that far. */
  function Resolve(w: World, s: nat, kind: RefKind, k: nat): Option<RecordId>
    requires s < |w.inp| == |w.kinds| && KindOk(w, s)
  {
    match w.kinds[s]
    case Object => Bounded(w, RecordId(s, k))
    case UsingPch(p, count) =>
      if k < count then Some(RecordId(p, k)) else Bounded(w, RecordId(s, k - count))
    case PdbTypes => if kind == TypeRef then Bounded(w, RecordId(s, k)) else None
    case PdbItems(t) => Bounded(w, RecordId(if kind == TypeRef then t else s, k))
  }

  function Bounded(w: World, r: RecordId): Option<RecordId> {
    if InRange(w.inp, r) then Some(r) else None
  }

  function RecordAt(w: World, r: RecordId): Record
    requires InRange(w.inp, r) && |w.recs| == |w.inp| && |w.recs[r.src]| == |w.inp[r.src].ghashes|
  {
    w.recs[r.src][r.idx]
  }

  // ------------------------------------------------------------------ winners in order

  ghost predicate Increasing(es: seq<Cell>) {
    forall i, j :: 0 <= i < j < |es| ==> es[i] < es[j]
  }

  /** The winners, sorted: the list that ranks assign PDB indices by. */
  ghost predicate IsEntries(inp: Inputs, es: seq<Cell>)
    requires GHashCell.Valid(inp)
  {
    Increasing(es) && forall c: Cell :: c in es <==> c != EMPTY && IsWinner(inp, c)
  }

  lemma SameHead(a: seq<Cell>, b: seq<Cell>)
    requires Increasing(a) && Increasing(b) && (forall c: Cell :: c in a <==> c in b) && a != []
    ensures b != [] && a[0] == b[0]
  {
    assert a[0] in b;
    assert b[0] in a;
  }

  lemma {:induction false} IncreasingUnique(a: seq<Cell>, b: seq<Cell>)
    requires Increasing(a) && Increasing(b) && forall c: Cell :: c in a <==> c in b
    ensures a == b
  {
    if a == [] {
      if b != [] { SameHead(b, a); }
    } else {
      SameHead(a, b);
      assert a == [a[0]] + a[1..] && b == [a[0]] + b[1..];
      forall c: Cell ensures c in a[1..] <==> c in b[1..] {
        assert c in a <==> c == a[0] || c in a[1..];
        assert c in b <==> c == a[0] || c in b[1..];
      }
      IncreasingUnique(a[1..], b[1..]);
    }
  }

  /** The sorted list does not depend on the schedule that filled the table. */
  lemma EntriesUnique(inp: Inputs, a: seq<Cell>, b: seq<Cell>)
    requires GHashCell.Valid(inp) && IsEntries(inp, a) && IsEntries(inp, b)
    ensures a == b
  {
    IncreasingUnique(a, b);
  }

  lemma {:induction false} WinnerExists(inp: Inputs, r: RecordId)
    requires GHashCell.Valid(inp) && Inserted(inp, r)
    ensures exists c: Cell :: c != EMPTY && IsWinner(inp, c) && KeyOf(inp, c) == HashOf(inp, r) && c <= CellOf(inp, r)
    decreases CellOf(inp, r)
  {
    if r' :| Inserted(inp, r') && HashOf(inp, r') == HashOf(inp, r) && CellOf(inp, r') < CellOf(inp, r) {
      WinnerExists(inp, r');
    } else {
      assert IsWinner(inp, CellOf(inp, r));
    }
  }

  /** Position of the winner that record `r` is merged into. */
  ghost function WinnerPos(inp: Inputs, es: seq<Cell>, r: RecordId): (i: nat)
    requires GHashCell.Valid(inp) && IsEntries(inp, es) && Inserted(inp, r)
    ensures i < |es| && IsWinner(inp, es[i]) && KeyOf(inp, es[i]) == HashOf(inp, r) && es[i] <= CellOf(inp, r)
  {
    WinnerExists(inp, r);
    var c: Cell :| c != EMPTY && IsWinner(inp, c) && KeyOf(inp, c) == HashOf(inp, r) && c <= CellOf(inp, r);
    assert c in es;
    var i: nat :| i < |es| && es[i] == c;
    i
  }

  lemma WinnerPosUnique(inp: Inputs, es: seq<Cell>, r: RecordId, i: nat)
    requires GHashCell.Valid(inp) && IsEntries(inp, es) && Inserted(inp, r)
    requires i < |es| && InRange(inp, IdOf(es[i])) && KeyOf(inp, es[i]) == HashOf(inp, r)
    ensures i == WinnerPos(inp, es, r)
  {
    var j := WinnerPos(inp, es, r);
    assert es[i] in es && es[j] in es;
    assert es[i] <= CellOf(inp, IdOf(es[j])) && es[j] <= CellOf(inp, IdOf(es[i]));
  }

  /** The first `mid` entries are type records, the others item records. */
  ghost predicate IsMid(es: seq<Cell>, mid: nat) {
    mid <= |es| && (forall i :: 0 <= i < mid ==> !IsItem(es[i])) && forall i :: mid <= i < |es| ==> IsItem(es[i])
  }

  ghost function PdbIndex(es: seq<Cell>, mid: nat, i: nat): nat
    requires i < |es|
  {
    if i < mid then i else i - mid
  }

  /** Where source record `r` ends up in the PDB. */
  ghost function FinalIndex(inp: Inputs, es: seq<Cell>, mid: nat, r: RecordId): TypeIndex
    requires GHashCell.Valid(inp) && IsEntries(inp, es) && InRange(inp, r)
  {
    if Omitted(inp, r) then NOT_TRANSLATED
    else Complex(PdbIndex(es, mid, WinnerPos(inp, es, r)))
  }

  ghost function RemapRef(w: World, es: seq<Cell>, mid: nat, s: nat, ref: Ref): Ref
    requires WellFormed(w) && IsEntries(w.inp, es) && s < |w.inp|
  {
    match ref.ti
    case Simple(_) => ref
    case Complex(k) =>
      match Resolve(w, s, ref.kind, k)
      case None => ref.(ti := NOT_TRANSLATED)
      case Some(r) => ref.(ti := FinalIndex(w.inp, es, mid, r))
  }

  ghost function RemapRecord(w: World, es: seq<Cell>, mid: nat, s: nat, rec: Record): Record
    requires WellFormed(w) && IsEntries(w.inp, es) && s < |w.inp|
  {
    rec.(refs := seq(|rec.refs|, j requires 0 <= j < |rec.refs| => RemapRef(w, es, mid, s, rec.refs[j])))
  }

  /** The merged record of winner `c`: its source record with every index remapped. */
  ghost function MergedRecord(w: World, es: seq<Cell>, mid: nat, c: Cell): Record
    requires WellFormed(w) && IsEntries(w.inp, es) && c in es
  {
    RemapRecord(w, es, mid, IdOf(c).src, RecordAt(w, IdOf(c)))
  }

  ghost function Emitted(w: World, es: seq<Cell>, mid: nat, i: nat): Record
    requires WellFormed(w) && IsEntries(w.inp, es) && i < |es|
  {
    assert es[i] in es;
    MergedRecord(w, es, mid, es[i])
  }

  /** The merged records of a list of winners. */
  ghost function RecordsOf(w: World, es: seq<Cell>, mid: nat, list: seq<Cell>): (r: seq<Record>)
    requires WellFormed(w) && IsEntries(w.inp, es) && forall c: Cell :: c in list ==> c in es
    ensures |r| == |list|
    ensures forall k :: 0 <= k < |list| ==> list[k] in es && r[k] == MergedRecord(w, es, mid, list[k])
  {
    if list == [] then []
    else
      var front, last := list[..|list| - 1], list[|list| - 1];
      assert list == front + [last];
      RecordsOf(w, es, mid, front) + [MergedRecord(w, es, mid, last)]
  }

  /** The merged type stream, or the merged item stream. */
  ghost function Stream(w: World, es: seq<Cell>, mid: nat, item: bool): seq<Record>
    requires WellFormed(w) && IsEntries(w.inp, es) && IsMid(es, mid)
  {
    RecordsOf(w, es, mid, if item then es[mid..] else es[..mid])
  }

  lemma StreamAt(w: World, es: seq<Cell>, mid: nat, i: nat)
    requires WellFormed(w) && IsEntries(w.inp, es) && IsMid(es, mid) && i < |es|
    ensures var stream := Stream(w, es, mid, mid <= i);
      PdbIndex(es, mid, i) < |stream| && stream[PdbIndex(es, mid, i)] == Emitted(w, es, mid, i)
  {
  }

  // ------------------------------------------------------------------ position of an emitted record

  /** The winners of source `s` among its first `n` records, in record order. */
  ghost function Selected(inp: Inputs, es: seq<Cell>, item: bool, s: nat, n: nat): seq<Cell>
    requires GHashCell.Valid(inp) && s < |inp| && n <= |inp[s].ghashes|
  {
    if n == 0 then []
    else
      var c := CellOf(inp, RecordId(s, n - 1));
      Selected(inp, es, item, s, n - 1) + (if c in es && IsItem(c) == item then [c] else [])
  }

  /** The winners of the first `n` sources, source after source. */
  ghost function Concatenated(inp: Inputs, es: seq<Cell>, item: bool, n: nat): seq<Cell>
    requires GHashCell.Valid(inp) && n <= |inp|
  {
    if n == 0 then []
    else Concatenated(inp, es, item, n - 1) + Selected(inp, es, item, n - 1, |inp[n - 1].ghashes|)
  }

  predicate Earlier(r1: RecordId, r2: RecordId) {
    r1.src < r2.src || (r1.src == r2.src && r1.idx < r2.idx)
  }

  /** `c` is a winner of the wanted stream whose record lies from `lo` up to, but not at, `hi`. */
  ghost predicate Listed(inp: Inputs, es: seq<Cell>, item: bool, lo: RecordId, hi: RecordId, c: Cell)
    requires GHashCell.Valid(inp)
  {
    c in es && IsItem(c) == item && InRange(inp, IdOf(c)) && c == CellOf(inp, IdOf(c)) &&
    !Earlier(IdOf(c), lo) && Earlier(IdOf(c), hi)
  }

  /** `list` holds, in increasing order, exactly those winners. */
  ghost predicate Lists(inp: Inputs, es: seq<Cell>, item: bool, lo: RecordId, hi: RecordId, list: seq<Cell>)
    requires GHashCell.Valid(inp)
  {
    Increasing(list) && forall c: Cell :: c in list <==> Listed(inp, es, item, lo, hi, c)
  }

  lemma AppendLists(inp: Inputs, es: seq<Cell>, item: bool, lo: RecordId, mid: RecordId, hi: RecordId,
                    a: seq<Cell>, b: seq<Cell>)
    requires GHashCell.Valid(inp) && !Earlier(mid, lo) && !Earlier(hi, mid)
    requires Lists(inp, es, item, lo, mid, a) && Lists(inp, es, item, mid, hi, b)
    ensures Lists(inp, es, item, lo, hi, a + b)
  {
    forall i, j | 0 <= i < |a| && 0 <= j < |b| ensures a[i] < b[j] {
      assert a[i] in a && b[j] in b;
      assert Listed(inp, es, item, lo, mid, a[i]) && Listed(inp, es, item, mid, hi, b[j]);
      CellOrder(item, IdOf(a[i]), item, IdOf(b[j]));
    }
    assert forall c: Cell :: Listed(inp, es, item, lo, hi, c) <==>
      Listed(inp, es, item, lo, mid, c) || Listed(inp, es, item, mid, hi, c);
  }

  lemma {:induction false} SelectedOk(inp: Inputs, es: seq<Cell>, item: bool, s: nat, n: nat)
    requires GHashCell.Valid(inp) && s < |inp| && n <= |inp[s].ghashes|
    ensures Lists(inp, es, item, RecordId(s, 0), RecordId(s, n), Selected(inp, es, item, s, n))
  {
    if n > 0 {
      SelectedOk(inp, es, item, s, n - 1);
      var c := CellOf(inp, RecordId(s, n - 1));
      var last := if c in es && IsItem(c) == item then [c] else [];
      var mid, hi := RecordId(s, n - 1), RecordId(s, n);
      forall d: Cell | Listed(inp, es, item, mid, hi, d) ensures d == c {
        assert IdOf(d) == mid;
      }
      AppendLists(inp, es, item, RecordId(s, 0), mid, hi,
                  Selected(inp, es, item, s, n - 1), last);
    }
  }

  lemma {:induction false} ConcatenatedOk(inp: Inputs, es: seq<Cell>, item: bool, n: nat)
    requires GHashCell.Valid(inp) && n <= |inp|
    ensures Lists(inp, es, item, RecordId(0, 0), RecordId(n, 0), Concatenated(inp, es, item, n))
  {
    if n > 0 {
      ConcatenatedOk(inp, es, item, n - 1);
      var count := |inp[n - 1].ghashes|;
      SelectedOk(inp, es, item, n - 1, count);
      var lo, end, hi := RecordId(n - 1, 0), RecordId(n - 1, count), RecordId(n, 0);
      assert forall c: Cell :: Listed(inp, es, item, lo, hi, c) <==> Listed(inp, es, item, lo, end, c);
      AppendLists(inp, es, item, RecordId(0, 0), lo, hi,
                  Concatenated(inp, es, item, n - 1), Selected(inp, es, item, n - 1, count));
    }
  }

  /** Concatenating each source's winners in source order lists the types (or the items) in
      exactly the order of their ranks, although each source sorts its winners by record index. */
  lemma RankIsPosition(inp: Inputs, es: seq<Cell>, mid: nat)
    requires GHashCell.Valid(inp) && IsEntries(inp, es) && IsMid(es, mid)
    ensures Concatenated(inp, es, false, |inp|) == es[..mid]
    ensures Concatenated(inp, es, true, |inp|) == es[mid..]
  {
    ConcatenatedOk(inp, es, false, |inp|);
    ConcatenatedOk(inp, es, true, |inp|);
    assert forall i :: 0 <= i < |es| ==> es[i] in es;
    assert forall c: Cell :: c in es ==> Listed(inp, es, IsItem(c), RecordId(0, 0), RecordId(|inp|, 0), c);
    IncreasingUnique(Concatenated(inp, es, false, |inp|), es[..mid]);
    IncreasingUnique(Concatenated(inp, es, true, |inp|), es[mid..]);
  }

  // ------------------------------------------------------------------ topological order

  /** Records of a source refer only to earlier records of that source (or to another source). */
  ghost predicate RefersBackward(w: World)
    requires WellFormed(w)
  {
    forall r, j :: InRange(w.inp, r) && 0 <= j < |RecordAt(w, r).refs| ==>
      var ref := RecordAt(w, r).refs[j];
      ref.ti.Complex? && Resolve(w, r.src, ref.kind, ref.ti.arrayIndex).Some? ==>
        var t := Resolve(w, r.src, ref.kind, ref.ti.arrayIndex).value;
        t.src == r.src ==> t.idx < r.idx
  }

  /** Every reference finds an inserted record of the kind it asks for. */
  ghost predicate RefsOk(w: World)
    requires WellFormed(w)
  {
    forall r, j :: Inserted(w.inp, r) && 0 <= j < |RecordAt(w, r).refs| ==>
      RefOk(w, r.src, RecordAt(w, r).refs[j])
  }

  ghost predicate RefOk(w: World, s: nat, ref: Ref)
    requires WellFormed(w) && s < |w.inp|
  {
    ref.ti.Complex? ==>
      var t := Resolve(w, s, ref.kind, ref.ti.arrayIndex);
      t.Some? && Inserted(w.inp, t.value) && RecordAt(w, t.value).isItem == (ref.kind == IndexRef)
  }

  lemma ResolveEarlier(w: World, r: RecordId, j: nat)
    requires WellFormed(w) && RefersBackward(w) && InRange(w.inp, r) && j < |RecordAt(w, r).refs|
    requires RecordAt(w, r).refs[j].ti.Complex?
    ensures var ref := RecordAt(w, r).refs[j];
      var t := Resolve(w, r.src, ref.kind, ref.ti.arrayIndex);
      t.Some? ==>
        InRange(w.inp, t.value) && (t.value.src < r.src || (t.value.src == r.src && t.value.idx < r.idx))
  {
    var ref := RecordAt(w, r).refs[j];
    assert KindOk(w, r.src);
  }

  /** Equal ghashes never mix a type record with an item record. */
  ghost predicate HashSeparatesStreams(inp: Inputs)
    requires GHashCell.Valid(inp)
  {
    forall r1, r2 :: Inserted(inp, r1) && Inserted(inp, r2) && HashOf(inp, r1) == HashOf(inp, r2) ==>
      inp[r1.src].isItem[r1.idx] == inp[r2.src].isItem[r2.idx]
  }

  lemma WinnerStream(inp: Inputs, es: seq<Cell>, mid: nat, r: RecordId)
    requires GHashCell.Valid(inp) && HashSeparatesStreams(inp) && IsEntries(inp, es) && IsMid(es, mid)
    requires Inserted(inp, r)
    ensures inp[r.src].isItem[r.idx] <==> mid <= WinnerPos(inp, es, r)
  {
    var p := WinnerPos(inp, es, r);
    assert IsItem(es[p]) == inp[IdOf(es[p]).src].isItem[IdOf(es[p]).idx];
  }

  /** A reference into the stream a merged record lives in goes to a strictly smaller index. */
  lemma TopologicalOrder(w: World, es: seq<Cell>, mid: nat, i: nat, j: nat)
    requires WellFormed(w) && RefersBackward(w) && RefsOk(w) && HashSeparatesStreams(w.inp)
    requires IsEntries(w.inp, es) && IsMid(es, mid) && i < |es| && j < |Emitted(w, es, mid, i).refs|
    ensures var ref := Emitted(w, es, mid, i).refs[j];
      ref.ti.Complex? && (ref.kind == IndexRef) == (mid <= i) ==> ref.ti.arrayIndex < PdbIndex(es, mid, i)
  {
    assert es[i] in es;
    var r := IdOf(es[i]);
    var ref := RecordAt(w, r).refs[j];
    assert RefOk(w, r.src, ref);
    if ref.ti.Complex? && (ref.kind == IndexRef) == (mid <= i) {
      ResolveEarlier(w, r, j);
      var t := Resolve(w, r.src, ref.kind, ref.ti.arrayIndex).value;
      assert w.recs[t.src][t.idx].isItem == w.inp[t.src].isItem[t.idx];
      assert w.recs[r.src][r.idx].isItem == w.inp[r.src].isItem[r.idx];
      CellOrder(w.inp[t.src].isItem[t.idx], t, w.inp[r.src].isItem[r.idx], r);
      WinnerStream(w.inp, es, mid, t);
      assert es[WinnerPos(w.inp, es, t)] <= CellOf(w.inp, t) < es[i];
    }
  }

  // ------------------------------------------------------------------ meaning

  /** The type a record stands for, with every index followed to the end. */
  datatype Tree = Builtin(kind: nat) | Node(isItem: bool, leaf: nat, payload: seq<nat>, kids: seq<Tree>)

  ghost predicate Matches(rec: Record, t: Tree) {
    t.Node? && t.isItem == rec.isItem && t.leaf == rec.leaf && t.payload == rec.payload && |t.kids| == |rec.refs|
  }

  /** Source record `r` stands for `t`. */
  ghost predicate Denotes(w: World, r: RecordId, t: Tree)
    requires WellFormed(w) && InRange(w.inp, r)
    decreases t, 1
  {
    Matches(RecordAt(w, r), t) &&
    forall j :: 0 <= j < |t.kids| ==> RefDenotes(w, r.src, RecordAt(w, r).refs[j], t.kids[j])
  }

  ghost predicate RefDenotes(w: World, s: nat, ref: Ref, t: Tree)
    requires WellFormed(w) && s < |w.inp|
    decreases t, 2
  {
    match ref.ti
    case Simple(k) => t == Builtin(k)
    case Complex(k) =>
      var target := Resolve(w, s, ref.kind, k);
      target.Some? && InRange(w.inp, target.value) && Denotes(w, target.value, t)
  }

  /** The merged record at `i` of the type stream (or the item stream) stands for `t`. */
  ghost predicate MergedDenotes(types: seq<Record>, items: seq<Record>, item: bool, i: nat, t: Tree)
    decreases t, 1
  {
    var stream := if item then items else types;
    i < |stream| && Matches(stream[i], t) &&
    forall j :: 0 <= j < |t.kids| ==> MergedRefDenotes(types, items, stream[i].refs[j], t.kids[j])
  }

  ghost predicate MergedRefDenotes(types: seq<Record>, items: seq<Record>, ref: Ref, t: Tree)
    decreases t, 2
  {
    match ref.ti
    case Simple(k) => t == Builtin(k)
    case Complex(k) => MergedDenotes(types, items, ref.kind == IndexRef, k, t)
  }

  /** A source record stands for at most one tree. */
  lemma {:induction false} DenotesOnce(w: World, r: RecordId, t: Tree, u: Tree)
    requires WellFormed(w) && InRange(w.inp, r) && Denotes(w, r, t) && Denotes(w, r, u)
    ensures t == u
    decreases t
  {
    forall j | 0 <= j < |t.kids| ensures t.kids[j] == u.kids[j] {
      var ref := RecordAt(w, r).refs[j];
      assert RefDenotes(w, r.src, ref, t.kids[j]) && RefDenotes(w, r.src, ref, u.kids[j]);
      if ref.ti.Complex? {
        DenotesOnce(w, Resolve(w, r.src, ref.kind, ref.ti.arrayIndex).value, t.kids[j], u.kids[j]);
      }
    }
    assert t.kids == u.kids;
  }

  /** Ghashes are structural: records with equal ghashes stand for equal trees. */
  ghost predicate NoCollisions(w: World)
    requires WellFormed(w)
  {
    forall r1, r2, t1, t2 ::
      Inserted(w.inp, r1) && Inserted(w.inp, r2) && HashOf(w.inp, r1) == HashOf(w.inp, r2) ==>
      Denotes(w, r1, t1) && Denotes(w, r2, t2) ==> t1 == t2
  }

  /** Every inserted record stands for some tree. */
  ghost predicate AllDenote(w: World)
    requires WellFormed(w)
  {
    forall r :: Inserted(w.inp, r) ==> exists t :: Denotes(w, r, t)
  }

  lemma CollisionFreeStreams(w: World)
    requires WellFormed(w) && NoCollisions(w) && AllDenote(w)
    ensures HashSeparatesStreams(w.inp)
  {
    forall r1, r2 | Inserted(w.inp, r1) && Inserted(w.inp, r2) && HashOf(w.inp, r1) == HashOf(w.inp, r2)
      ensures w.inp[r1.src].isItem[r1.idx] == w.inp[r2.src].isItem[r2.idx]
    {
      var t1 :| Denotes(w, r1, t1);
      var t2 :| Denotes(w, r2, t2);
      assert w.recs[r1.src][r1.idx].isItem == w.inp[r1.src].isItem[r1.idx];
      assert w.recs[r2.src][r2.idx].isItem == w.inp[r2.src].isItem[r2.idx];
    }
  }

  /** The winner of a record stands for the same tree, and lives in the same stream. */
  lemma WinnerDenotes(w: World, es: seq<Cell>, mid: nat, r: RecordId, t: Tree)
    requires WellFormed(w) && NoCollisions(w) && AllDenote(w) && IsEntries(w.inp, es) && IsMid(es, mid)
    requires Inserted(w.inp, r) && Denotes(w, r, t)
    ensures var p := WinnerPos(w.inp, es, r);
      Inserted(w.inp, IdOf(es[p])) && Denotes(w, IdOf(es[p]), t) && (RecordAt(w, r).isItem <==> mid <= p)
  {
    CollisionFreeStreams(w);
    WinnerStream(w.inp, es, mid, r);
    var win := IdOf(es[WinnerPos(w.inp, es, r)]);
    assert w.recs[r.src][r.idx].isItem == w.inp[r.src].isItem[r.idx];
    var u :| Denotes(w, win, u);
    assert u == t;
  }

  /** Merging preserves meaning: the merged record at the mapped index stands for the same tree
      as the source record did. */
  lemma {:induction false} MergingPreservesMeaning(w: World, es: seq<Cell>, mid: nat, r: RecordId, t: Tree)
    requires WellFormed(w) && RefsOk(w) && NoCollisions(w) && AllDenote(w)
    requires IsEntries(w.inp, es) && IsMid(es, mid)
    requires Inserted(w.inp, r) && Denotes(w, r, t)
    ensures MergedDenotes(Stream(w, es, mid, false), Stream(w, es, mid, true),
                          RecordAt(w, r).isItem, FinalIndex(w.inp, es, mid, r).arrayIndex, t)
    decreases t, 1
  {
    WinnerDenotes(w, es, mid, r, t);
    var p := WinnerPos(w.inp, es, r);
    StreamAt(w, es, mid, p);
    EmittedDenotes(w, es, mid, p, t);
  }

  /** The references of an emitted record stand for the children of its tree. */
  lemma {:induction false} EmittedDenotes(w: World, es: seq<Cell>, mid: nat, p: nat, t: Tree)
    requires WellFormed(w) && RefsOk(w) && NoCollisions(w) && AllDenote(w)
    requires IsEntries(w.inp, es) && IsMid(es, mid) && p < |es|
    requires Inserted(w.inp, IdOf(es[p])) && Denotes(w, IdOf(es[p]), t)
    ensures Matches(Emitted(w, es, mid, p), t)
    ensures forall j :: 0 <= j < |t.kids| ==>
      MergedRefDenotes(Stream(w, es, mid, false), Stream(w, es, mid, true), Emitted(w, es, mid, p).refs[j], t.kids[j])
    decreases t, 0
  {
    var win := IdOf(es[p]);
    forall j | 0 <= j < |t.kids|
      ensures MergedRefDenotes(Stream(w, es, mid, false), Stream(w, es, mid, true),
                               Emitted(w, es, mid, p).refs[j], t.kids[j])
    {
      assert RefOk(w, win.src, RecordAt(w, win).refs[j]);
      RemappedRefDenotes(w, es, mid, win.src, RecordAt(w, win).refs[j], t.kids[j]);
    }
  }

  lemma {:induction false} RemappedRefDenotes(w: World, es: seq<Cell>, mid: nat, s: nat, ref: Ref, t: Tree)
    requires WellFormed(w) && RefsOk(w) && NoCollisions(w) && AllDenote(w)
    requires IsEntries(w.inp, es) && IsMid(es, mid) && s < |w.inp|
    requires RefOk(w, s, ref) && RefDenotes(w, s, ref, t)
    ensures MergedRefDenotes(Stream(w, es, mid, false), Stream(w, es, mid, true), RemapRef(w, es, mid, s, ref), t)
    decreases t, 2
  {
    if ref.ti.Complex? {
      MergingPreservesMeaning(w, es, mid, Resolve(w, s, ref.kind, ref.ti.arrayIndex).value, t);
    }
  }
}
