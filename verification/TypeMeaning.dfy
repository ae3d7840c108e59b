/** Why merging by ghash preserves meaning: the hash of a record is computed from its own bytes and
    the hashes of the records it refers to. */
module TypeMeaning {
  import opened GHashCell
  import opened TypeStreams

  // ------------------------------------------------------------------ every record has a meaning

  /** The type that a record stands for. */
  ghost function TreeOf(w: World, r: RecordId): (t: Tree)
    requires WellFormed(w) && RefersBackward(w) && RefsOk(w) && Inserted(w.inp, r)
    ensures Denotes(w, r, t)
    decreases r.src, r.idx, 1, 0
  {
    var rec := RecordAt(w, r);
    Node(rec.isItem, rec.leaf, rec.payload, Kids(w, r, |rec.refs|))
  }

  /** What its first `n` references stand for. */
  ghost function Kids(w: World, r: RecordId, n: nat): (kids: seq<Tree>)
    requires WellFormed(w) && RefersBackward(w) && RefsOk(w) && Inserted(w.inp, r) && n <= |RecordAt(w, r).refs|
    ensures |kids| == n && forall j :: 0 <= j < n ==> RefDenotes(w, r.src, RecordAt(w, r).refs[j], kids[j])
    decreases r.src, r.idx, 0, n
  {
    if n == 0 then []
    else
      var ref := RecordAt(w, r).refs[n - 1];
      assert RefOk(w, r.src, ref);
      if ref.ti.Simple? then Kids(w, r, n - 1) + [Builtin(ref.ti.kind)]
      else
        ResolveEarlier(w, r, n - 1);
        Kids(w, r, n - 1) + [TreeOf(w, Resolve(w, r.src, ref.kind, ref.ti.arrayIndex).value)]
  }

  lemma EveryRecordDenotes(w: World)
    requires WellFormed(w) && RefersBackward(w) && RefsOk(w)
    ensures AllDenote(w)
  {
    forall r | Inserted(w.inp, r) ensures exists t :: Denotes(w, r, t) {
      assert Denotes(w, r, TreeOf(w, r));
    }
  }

  // ------------------------------------------------------------------ the hash of a record

  /** What a reference contributes to the hash: a built-in index, or the hash it refers to. */
  datatype RefDigest = OfBuiltin(kind: nat) | OfHash(hash: GHash)

  /** What is hashed: the record with every reference replaced. */
  datatype Digest = Digest(isItem: bool, leaf: nat, payload: seq<nat>, refs: seq<RefDigest>)

  ghost function RefDigestOf(w: World, s: nat, ref: Ref): RefDigest
    requires WellFormed(w) && s < |w.inp| && RefOk(w, s, ref)
  {
    match ref.ti
    case Simple(k) => OfBuiltin(k)
    case Complex(k) => OfHash(HashOf(w.inp, Resolve(w, s, ref.kind, k).value))
  }

  ghost function DigestOf(w: World, r: RecordId): Digest
    requires WellFormed(w) && RefsOk(w) && Inserted(w.inp, r)
  {
    var rec := RecordAt(w, r);
    assert forall j :: 0 <= j < |rec.refs| ==> RefOk(w, r.src, rec.refs[j]);
    Digest(rec.isItem, rec.leaf, rec.payload,
           seq(|rec.refs|, j requires 0 <= j < |rec.refs| => RefDigestOf(w, r.src, rec.refs[j])))
  }

  /** Hashing is a function of what is hashed, without collisions among the records at hand. */
  ghost predicate HashesDigests(w: World)
    requires WellFormed(w) && RefsOk(w)
  {
    forall r1, r2 :: Inserted(w.inp, r1) && Inserted(w.inp, r2) ==>
      (HashOf(w.inp, r1) == HashOf(w.inp, r2) <==> DigestOf(w, r1) == DigestOf(w, r2))
  }

  /** Corresponding references of records with equal digests. */
  lemma SameRefs(w: World, r1: RecordId, r2: RecordId, j: nat)
    requires WellFormed(w) && RefsOk(w) && Inserted(w.inp, r1) && Inserted(w.inp, r2) &&
      DigestOf(w, r1) == DigestOf(w, r2)
    requires j < |RecordAt(w, r1).refs|
    ensures j < |RecordAt(w, r2).refs|
    ensures RefOk(w, r1.src, RecordAt(w, r1).refs[j]) && RefOk(w, r2.src, RecordAt(w, r2).refs[j])
    ensures RefDigestOf(w, r1.src, RecordAt(w, r1).refs[j]) == RefDigestOf(w, r2.src, RecordAt(w, r2).refs[j])
  {
    var d1, d2 := DigestOf(w, r1), DigestOf(w, r2);
    assert |d1.refs| == |d2.refs| && d1.refs[j] == d2.refs[j];
  }

  /** Records with equal hashes stand for equal types, however deep the types are. */
  lemma {:induction false} SameHashSameTree(w: World, r1: RecordId, r2: RecordId, t1: Tree, t2: Tree)
    requires WellFormed(w) && RefsOk(w) && HashesDigests(w) && Inserted(w.inp, r1) && Inserted(w.inp, r2)
    requires HashOf(w.inp, r1) == HashOf(w.inp, r2) && Denotes(w, r1, t1) && Denotes(w, r2, t2)
    ensures t1 == t2
    decreases t1
  {
    var a, b := DigestOf(w, r1), DigestOf(w, r2);
    assert a == b && |a.refs| == |b.refs|;
    forall j | 0 <= j < |t1.kids| ensures t1.kids[j] == t2.kids[j] {
      SameRefs(w, r1, r2, j);
      var ref1, ref2 := RecordAt(w, r1).refs[j], RecordAt(w, r2).refs[j];
      assert RefDenotes(w, r1.src, ref1, t1.kids[j]) && RefDenotes(w, r2.src, ref2, t2.kids[j]);
      if ref1.ti.Complex? {
        SameHashSameTree(w, Resolve(w, r1.src, ref1.kind, ref1.ti.arrayIndex).value,
                         Resolve(w, r2.src, ref2.kind, ref2.ti.arrayIndex).value, t1.kids[j], t2.kids[j]);
      }
    }
    assert t1.kids == t2.kids;
  }

  /** A built-in type is no record. */
  lemma SameKindOfRef(w: World, s1: nat, ref1: Ref, s2: nat, ref2: Ref, t: Tree)
    requires WellFormed(w) && s1 < |w.inp| && s2 < |w.inp| && RefDenotes(w, s1, ref1, t) && RefDenotes(w, s2, ref2, t)
    ensures ref1.ti.Simple? <==> ref2.ti.Simple?
    ensures ref1.ti.Simple? ==> ref1.ti == ref2.ti
  {
  }

  /** Records that stand for the same type have equal hashes. */
  lemma {:induction false} SameTreeSameHash(w: World, r1: RecordId, r2: RecordId, t: Tree)
    requires WellFormed(w) && RefsOk(w) && HashesDigests(w) && Inserted(w.inp, r1) && Inserted(w.inp, r2)
    requires Denotes(w, r1, t) && Denotes(w, r2, t)
    ensures HashOf(w.inp, r1) == HashOf(w.inp, r2)
    decreases t
  {
    var a, b := DigestOf(w, r1), DigestOf(w, r2);
    assert |a.refs| == |b.refs| == |t.kids|;
    forall j | 0 <= j < |t.kids| ensures a.refs[j] == b.refs[j] {
      var ref1, ref2 := RecordAt(w, r1).refs[j], RecordAt(w, r2).refs[j];
      assert RefOk(w, r1.src, ref1) && RefOk(w, r2.src, ref2);
      assert RefDenotes(w, r1.src, ref1, t.kids[j]) && RefDenotes(w, r2.src, ref2, t.kids[j]);
      SameKindOfRef(w, r1.src, ref1, r2.src, ref2, t.kids[j]);
      if ref1.ti.Complex? {
        SameTreeSameHash(w, Resolve(w, r1.src, ref1.kind, ref1.ti.arrayIndex).value,
                         Resolve(w, r2.src, ref2.kind, ref2.ti.arrayIndex).value, t.kids[j]);
      }
      assert a.refs[j] == RefDigestOf(w, r1.src, ref1) && b.refs[j] == RefDigestOf(w, r2.src, ref2);
    }
    assert a.refs == b.refs;
  }

  lemma NoCollisionsFollows(w: World)
    requires WellFormed(w) && RefsOk(w) && HashesDigests(w)
    ensures NoCollisions(w)
  {
    forall r1, r2, t1, t2 |
      Inserted(w.inp, r1) && Inserted(w.inp, r2) && HashOf(w.inp, r1) == HashOf(w.inp, r2) &&
      Denotes(w, r1, t1) && Denotes(w, r2, t2)
      ensures t1 == t2
    {
      SameHashSameTree(w, r1, r2, t1, t2);
    }
  }

  // ------------------------------------------------------------------ the merged streams

  /** Sources whose references are in range and go backward, hashed record by record. */
  ghost predicate Mergeable(w: World) {
    WellFormed(w) && RefsOk(w) && RefersBackward(w) && HashesDigests(w)
  }

  /** Every record stands for some type, and the record it is merged into, read in the merged
      streams, stands for the same type. */
  lemma MergedMeansTheSame(w: World, es: seq<Cell>, mid: nat, r: RecordId)
    requires Mergeable(w) && IsEntries(w.inp, es) && IsMid(es, mid) && Inserted(w.inp, r)
    ensures Denotes(w, r, TreeOf(w, r))
    ensures MergedDenotes(Stream(w, es, mid, false), Stream(w, es, mid, true),
                          RecordAt(w, r).isItem, FinalIndex(w.inp, es, mid, r).arrayIndex, TreeOf(w, r))
  {
    EveryRecordDenotes(w);
    NoCollisionsFollows(w);
    MergingPreservesMeaning(w, es, mid, r, TreeOf(w, r));
  }

  /** Two records get one place exactly if they stand for one type. */
  lemma MergedIffSameMeaning(w: World, es: seq<Cell>, mid: nat, r1: RecordId, r2: RecordId)
    requires Mergeable(w) && IsEntries(w.inp, es) && IsMid(es, mid) && Inserted(w.inp, r1) && Inserted(w.inp, r2)
    ensures WinnerPos(w.inp, es, r1) == WinnerPos(w.inp, es, r2) <==> TreeOf(w, r1) == TreeOf(w, r2)
  {
    var t1, t2 := TreeOf(w, r1), TreeOf(w, r2);
    var p1, p2 := WinnerPos(w.inp, es, r1), WinnerPos(w.inp, es, r2);
    if p1 == p2 {
      SameHashSameTree(w, r1, r2, t1, t2);
    }
    if t1 == t2 {
      SameTreeSameHash(w, r1, r2, t1);
      WinnerPosUnique(w.inp, es, r1, p2);
    }
  }

  /** A reference of a merged record into its own stream goes to a strictly smaller index. */
  lemma MergedRefersBackward(w: World, es: seq<Cell>, mid: nat, i: nat, j: nat)
    requires Mergeable(w) && IsEntries(w.inp, es) && IsMid(es, mid) && i < |es| && j < |Emitted(w, es, mid, i).refs|
    ensures var ref := Emitted(w, es, mid, i).refs[j];
      ref.ti.Complex? && (ref.kind == IndexRef) == (mid <= i) ==> ref.ti.arrayIndex < PdbIndex(es, mid, i)
  {
    EveryRecordDenotes(w);
    NoCollisionsFollows(w);
    CollisionFreeStreams(w);
    TopologicalOrder(w, es, mid, i, j);
  }

  /** Deduplication is complete: no two merged records stand for the same source type. */
  lemma NoDuplicates(w: World, es: seq<Cell>, i: nat, j: nat, t: Tree)
    requires WellFormed(w) && RefsOk(w) && HashesDigests(w) && IsEntries(w.inp, es) && i < |es| && j < |es|
    requires es[i] in es && es[j] in es && Denotes(w, IdOf(es[i]), t) && Denotes(w, IdOf(es[j]), t)
    ensures i == j
  {
    SameTreeSameHash(w, IdOf(es[i]), IdOf(es[j]), t);
    WinnerPosUnique(w.inp, es, IdOf(es[i]), j);
    WinnerPosUnique(w.inp, es, IdOf(es[i]), i);
  }
}
