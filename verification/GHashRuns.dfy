/** Whole runs of concurrent insertion: every schedule gives the same table contents, no
    insertion finds the table full, and no thread can be starved. */
module GHashRuns {
  import opened Collections
  import opened Words
  import opened GHashCell
  import opened GHashTable

  ghost predicate ScheduleOk(inp: Inputs, sched: seq<Choice>) {
    forall k :: 0 <= k < |sched| ==> sched[k].thread < |inp|
  }

  ghost predicate SizeOk(inp: Inputs, size: nat) {
    size < TWO_32 && (size > 0 || forall s :: 0 <= s < |inp| ==> |inp[s].ghashes| == 0)
  }

  lemma InitInv(inp: Inputs, size: nat)
    requires Valid(inp) && SizeOk(inp, size)
    ensures Inv(inp, Init(inp, size))
  {
  }

  ghost function Run(inp: Inputs, s: State, sched: seq<Choice>): (s': State)
    requires Inv(inp, s) && ScheduleOk(inp, sched)
    ensures Inv(inp, s')
    decreases |sched|
  {
    if sched == [] then s
    else
      StepPreservesInv(inp, s, sched[0]);
      Run(inp, Step(inp, s, sched[0]), sched[1..])
  }

  /** Where a schedule leads from the empty table. */
  ghost function Outcome(inp: Inputs, size: nat, sched: seq<Choice>): (s: State)
    requires Valid(inp) && SizeOk(inp, size) && ScheduleOk(inp, sched)
    ensures Inv(inp, s)
  {
    InitInv(inp, size);
    Run(inp, Init(inp, size), sched)
  }

  // ------------------------------------------------------------------ final contents

  /** `c` is the smallest cell among all inserted records that share its ghash. */
  ghost predicate IsWinner(inp: Inputs, c: Cell)
    requires Valid(inp)
  {
    IsInputCell(inp, c) &&
    forall r :: Inserted(inp, r) && HashOf(inp, r) == KeyOf(inp, c) ==> c <= CellOf(inp, r)
  }

  /** A key never occupies two cells, because both would lie on the same probe path. */
  lemma KeysUnique(inp: Inputs, table: seq<Cell>, p: nat, q: nat)
    requires Valid(inp) && TableOk(inp, table) && p < |table| && q < |table|
    requires table[p] != EMPTY && table[q] != EMPTY && KeyOf(inp, table[p]) == KeyOf(inp, table[q])
    ensures p == q
  {
    var start := StartIdx(KeyOf(inp, table[p]), |table|);
    assert PathTaken(inp, table, KeyOf(inp, table[p]), p) && PathTaken(inp, table, KeyOf(inp, table[q]), q);
    assert !(Dist(start, p, |table|) < Dist(start, q, |table|)) && !(Dist(start, q, |table|) < Dist(start, p, |table|));
  }

  lemma RecordsDone(inp: Inputs, s: State, r: RecordId)
    requires Inv(inp, s) && AllDone(inp, s) && InRange(inp, r)
    ensures RecordOk(inp, s.table, r, s.threads[r.src].indexMap[r.idx])
  {
    assert Done(inp, s, r.src) && ThreadOk(inp, s.table, r.src, s.threads[r.src]);
    assert r == RecordId(r.src, r.idx);
  }

  lemma WinnerPresent(inp: Inputs, s: State, c: Cell)
    requires Inv(inp, s) && AllDone(inp, s) && IsWinner(inp, c)
    ensures c in s.table
  {
    var r := IdOf(c);
    RecordsDone(inp, s, r);
    var p := s.threads[r.src].indexMap[r.idx].arrayIndex;
    assert s.table[p] == CellOf(inp, IdOf(s.table[p]));
  }

  lemma PresentWins(inp: Inputs, s: State, p: nat)
    requires Inv(inp, s) && AllDone(inp, s) && p < |s.table| && s.table[p] != EMPTY
    ensures IsWinner(inp, s.table[p])
  {
    forall r | Inserted(inp, r) && HashOf(inp, r) == KeyOf(inp, s.table[p])
      ensures s.table[p] <= CellOf(inp, r)
    {
      RecordsDone(inp, s, r);
      KeysUnique(inp, s.table, p, s.threads[r.src].indexMap[r.idx].arrayIndex);
    }
  }

  /** The finished table holds exactly the winners, one cell per distinct ghash, and every
      record remembers the cell of its own winner. */
  lemma FinishedTable(inp: Inputs, s: State)
    requires Inv(inp, s) && AllDone(inp, s)
    ensures forall c: Cell :: c != EMPTY ==> (c in s.table <==> IsWinner(inp, c))
    ensures forall p, q :: 0 <= p < q < |s.table| && s.table[p] != EMPTY && s.table[q] != EMPTY ==>
      KeyOf(inp, s.table[p]) != KeyOf(inp, s.table[q])
    ensures forall r :: InRange(inp, r) ==> RecordOk(inp, s.table, r, s.threads[r.src].indexMap[r.idx])
  {
    forall r | InRange(inp, r) ensures RecordOk(inp, s.table, r, s.threads[r.src].indexMap[r.idx]) {
      RecordsDone(inp, s, r);
    }
    forall p, q | 0 <= p < q < |s.table| && s.table[p] != EMPTY && s.table[q] != EMPTY
      ensures KeyOf(inp, s.table[p]) != KeyOf(inp, s.table[q])
    {
      if KeyOf(inp, s.table[p]) == KeyOf(inp, s.table[q]) { KeysUnique(inp, s.table, p, q); }
    }
    forall c: Cell | c != EMPTY ensures c in s.table <==> IsWinner(inp, c) {
      if IsWinner(inp, c) {
        WinnerPresent(inp, s, c);
      } else if c in s.table {
        var p :| 0 <= p < |s.table| && s.table[p] == c;
        PresentWins(inp, s, p);
      }
    }
  }

  /** Schedule independence: any two complete runs, even with different table sizes, end with
      the same set of cells, and each record reads the same cell through its index map. */
  lemma ScheduleIndependence(inp: Inputs, size1: nat, sched1: seq<Choice>, size2: nat, sched2: seq<Choice>)
    requires Valid(inp) && SizeOk(inp, size1) && SizeOk(inp, size2)
    requires ScheduleOk(inp, sched1) && ScheduleOk(inp, sched2)
    requires AllDone(inp, Outcome(inp, size1, sched1)) && AllDone(inp, Outcome(inp, size2, sched2))
    ensures var s1, s2 := Outcome(inp, size1, sched1), Outcome(inp, size2, sched2);
      (forall c: Cell :: c != EMPTY ==> (c in s1.table <==> c in s2.table)) &&
      forall r :: Inserted(inp, r) ==>
        var t1, t2 := s1.threads[r.src].indexMap[r.idx], s2.threads[r.src].indexMap[r.idx];
        t1.Complex? && t2.Complex? && t1.arrayIndex < |s1.table| && t2.arrayIndex < |s2.table| &&
        s1.table[t1.arrayIndex] == s2.table[t2.arrayIndex]
  {
    var s1, s2 := Outcome(inp, size1, sched1), Outcome(inp, size2, sched2);
    FinishedTable(inp, s1);
    FinishedTable(inp, s2);
    forall r | Inserted(inp, r)
      ensures var t1, t2 := s1.threads[r.src].indexMap[r.idx], s2.threads[r.src].indexMap[r.idx];
        t1.Complex? && t2.Complex? && t1.arrayIndex < |s1.table| && t2.arrayIndex < |s2.table| &&
        s1.table[t1.arrayIndex] == s2.table[t2.arrayIndex]
    {
      assert RecordOk(inp, s1.table, r, s1.threads[r.src].indexMap[r.idx]);
      assert RecordOk(inp, s2.table, r, s2.threads[r.src].indexMap[r.idx]);
      var c1 := s1.table[s1.threads[r.src].indexMap[r.idx].arrayIndex];
      var c2 := s2.table[s2.threads[r.src].indexMap[r.idx].arrayIndex];
      assert c1 in s1.table && c2 in s2.table;
      assert IsWinner(inp, c1) && IsWinner(inp, c2);
      assert c1 == CellOf(inp, IdOf(c1)) && c2 == CellOf(inp, IdOf(c2));
      assert c1 <= c2 && c2 <= c1;
    }
  }

  // ------------------------------------------------------------------ capacity

  /** The distinct ghashes that insertion has to place. */
  ghost function Keys(inp: Inputs): set<GHash> {
    set s: nat, i: nat | s < |inp| && i < |inp[s].ghashes| && i != inp[s].endPrecomp :: inp[s].ghashes[i]
  }

  ghost function ElementsOf(ks: seq<GHash>): set<GHash> {
    set k | k in ks
  }

  lemma {:induction false} DistinctCount(ks: seq<GHash>)
    requires forall p, q :: 0 <= p < q < |ks| ==> ks[p] != ks[q]
    ensures |ElementsOf(ks)| == |ks|
  {
    if ks != [] {
      var front, last := ks[..|ks| - 1], ks[|ks| - 1];
      DistinctCount(front);
      assert ElementsOf(ks) == ElementsOf(front) + {last};
    }
  }

  ghost function TableKeys(inp: Inputs, table: seq<Cell>): (ks: seq<GHash>)
    requires Valid(inp) && CellsOk(inp, table) && forall q :: 0 <= q < |table| ==> table[q] != EMPTY
    ensures |ks| == |table| && forall q :: 0 <= q < |table| ==> ks[q] == KeyOf(inp, table[q])
  {
    if table == [] then []
    else TableKeys(inp, table[..|table| - 1]) + [KeyOf(inp, table[|table| - 1])]
  }

  lemma KeyListed(inp: Inputs, r: RecordId)
    requires Inserted(inp, r)
    ensures HashOf(inp, r) in Keys(inp)
  {
    assert inp[r.src].ghashes[r.idx] == HashOf(inp, r);
  }

  lemma FullTableDistinct(inp: Inputs, table: seq<Cell>)
    requires Valid(inp) && TableOk(inp, table) && forall q :: 0 <= q < |table| ==> table[q] != EMPTY
    ensures |ElementsOf(TableKeys(inp, table))| == |table|
  {
    var ks := TableKeys(inp, table);
    forall p, q | 0 <= p < q < |ks| ensures ks[p] != ks[q] {
      if ks[p] == ks[q] { KeysUnique(inp, table, p, q); }
    }
    DistinctCount(ks);
  }

  /** Pigeonhole: a full table without the wanted key would need more keys than there are. */
  lemma NeverFull(inp: Inputs, s: State, t: nat)
    requires Inv(inp, s) && t < |inp| && |Keys(inp)| <= |s.table|
    ensures s.threads[t].pc != Full
  {
    assert ThreadOk(inp, s.table, t, s.threads[t]);
    if s.threads[t].pc == Full {
      var r := RecordId(t, s.threads[t].next);
      FullTableDistinct(inp, s.table);
      KeyListed(inp, r);
      var ks := TableKeys(inp, s.table);
      forall q | 0 <= q < |ks| ensures ks[q] in Keys(inp) && ks[q] != HashOf(inp, r) {
        KeyListed(inp, IdOf(s.table[q]));
      }
      SubsetCard(ElementsOf(ks), Keys(inp) - {HashOf(inp, r)});
    }
  }

  ghost function CellIndex(inp: Inputs, s: State, r: RecordId): (p: nat)
    requires Inv(inp, s) && AllDone(inp, s) && Inserted(inp, r)
    ensures Holds(inp, s.table, r, p)
  {
    assert ThreadOk(inp, s.table, r.src, s.threads[r.src]) && Done(inp, s, r.src);
    assert RecordOk(inp, s.table, RecordId(r.src, r.idx), s.threads[r.src].indexMap[r.idx]);
    s.threads[r.src].indexMap[r.idx].arrayIndex
  }

  lemma InjectionCard(keys: set<GHash>, at: map<GHash, nat>, n: nat)
    requires keys <= at.Keys
    requires forall g :: g in keys ==> at[g] < n
    requires forall g, h :: g in keys && h in keys && at[g] == at[h] ==> g == h
    ensures |keys| <= n
    decreases keys
  {
    if keys != {} {
      var g :| g in keys;
      var used := set h | h in keys :: at[h];
      ImageCard(keys, at);
      assert used <= Below(n);
      SubsetCard(used, Below(n));
    }
  }

  lemma ImageCard(keys: set<GHash>, at: map<GHash, nat>)
    requires keys <= at.Keys
    requires forall g, h :: g in keys && h in keys && at[g] == at[h] ==> g == h
    ensures |set h | h in keys :: at[h]| == |keys|
    decreases keys
  {
    if keys != {} {
      var g :| g in keys;
      ImageCard(keys - {g}, at);
      assert (set h | h in keys :: at[h]) == (set h | h in keys - {g} :: at[h]) + {at[g]};
    }
  }

  ghost function SomeRecord(inp: Inputs, g: GHash): (r: RecordId)
    requires g in Keys(inp)
    ensures Inserted(inp, r) && HashOf(inp, r) == g
  {
    var s: nat, i: nat :| s < |inp| && i < |inp[s].ghashes| && i != inp[s].endPrecomp && inp[s].ghashes[i] == g;
    RecordId(s, i)
  }

  /** The table size is enough exactly when it is at least the number of distinct ghashes:
      below that, no run can finish, and from there on no insertion ever reports a full table. */
  lemma CapacityNeeded(inp: Inputs, s: State)
    requires Inv(inp, s) && AllDone(inp, s)
    ensures |Keys(inp)| <= |s.table|
  {
    var at := map g | g in Keys(inp) :: CellIndex(inp, s, SomeRecord(inp, g));
    forall g, h | g in Keys(inp) && h in Keys(inp) && at[g] == at[h] ensures g == h {
      assert Holds(inp, s.table, SomeRecord(inp, g), at[g]) && Holds(inp, s.table, SomeRecord(inp, h), at[h]);
    }
    InjectionCard(Keys(inp), at, |s.table|);
  }

  ghost function TotalRecords(inp: Inputs): nat {
    if inp == [] then 0 else |inp[0].ghashes| + TotalRecords(inp[1..])
  }

  ghost function SourceKeys(s: Source, n: nat): (k: set<GHash>)
    requires n <= |s.ghashes|
    ensures |k| <= n && forall i :: 0 <= i < n ==> s.ghashes[i] in k
  {
    if n == 0 then {} else SourceKeys(s, n - 1) + {s.ghashes[n - 1]}
  }

  lemma UnionCard<T>(a: set<T>, b: set<T>)
    ensures |a + b| <= |a| + |b|
  {
    assert a + b == a + (b - a);
    SubsetCard(b - a, b);
  }

  /** The uncapped sum of the input counts, which the linker uses, is always enough. */
  lemma {:induction false} SumIsEnough(inp: Inputs)
    ensures |Keys(inp)| <= TotalRecords(inp)
  {
    if inp != [] {
      SumIsEnough(inp[1..]);
      var first := SourceKeys(inp[0], |inp[0].ghashes|);
      forall g | g in Keys(inp) ensures g in first + Keys(inp[1..]) {
        var s: nat, i: nat :| s < |inp| && i < |inp[s].ghashes| && i != inp[s].endPrecomp && inp[s].ghashes[i] == g;
        if s > 0 {
          assert inp[1..][s - 1].ghashes[i] == g;
        }
      }
      SubsetCard(Keys(inp), first + Keys(inp[1..]));
      UnionCard(first, Keys(inp[1..]));
    }
  }

  lemma {:induction false} RunKeepsSize(inp: Inputs, s: State, sched: seq<Choice>)
    requires Inv(inp, s) && ScheduleOk(inp, sched)
    ensures |Run(inp, s, sched).table| == |s.table|
    decreases |sched|
  {
    if sched != [] {
      StepPreservesInv(inp, s, sched[0]);
      RunKeepsSize(inp, Step(inp, s, sched[0]), sched[1..]);
    }
  }

  /** With a table of that size, no schedule makes an insertion report a full table. */
  lemma InsertionSucceeds(inp: Inputs, size: nat, sched: seq<Choice>, t: nat)
    requires Valid(inp) && SizeOk(inp, size) && ScheduleOk(inp, sched) && t < |inp| && TotalRecords(inp) <= size
    ensures Outcome(inp, size, sched).threads[t].pc != Full
  {
    InitInv(inp, size);
    RunKeepsSize(inp, Init(inp, size), sched);
    SumIsEnough(inp);
    NeverFull(inp, Outcome(inp, size, sched), t);
  }

  // ------------------------------------------------------------------ progress

  /** The inserted records with a given ghash whose cells are smaller than `bound`. */
  ghost function Rivals(inp: Inputs, key: GHash, bound: nat): set<RecordId>
    requires Valid(inp)
  {
    set s: nat, i: nat | s < |inp| && i < |inp[s].ghashes| && IsRival(inp, key, bound, RecordId(s, i)) :: RecordId(s, i)
  }

  ghost predicate IsRival(inp: Inputs, key: GHash, bound: nat, r: RecordId)
    requires Valid(inp)
  {
    Inserted(inp, r) && HashOf(inp, r) == key && CellOf(inp, r) < bound
  }

  /** How many inserted records have this ghash. */
  ghost function Sharing(inp: Inputs, key: GHash): nat
    requires Valid(inp)
  {
    |Rivals(inp, key, TWO_64)|
  }

  /** A smaller cell with the key leaves fewer records that could still replace it. */
  lemma FewerRivals(inp: Inputs, key: GHash, c: Cell, bound: nat)
    requires Valid(inp) && IsInputCell(inp, c) && KeyOf(inp, c) == key && c < bound
    ensures |Rivals(inp, key, c)| < |Rivals(inp, key, bound)|
  {
    var small, large := Rivals(inp, key, c), Rivals(inp, key, bound);
    forall r | r in small ensures r in large {
      assert IsRival(inp, key, bound, RecordId(r.src, r.idx));
    }
    assert IsRival(inp, key, bound, RecordId(IdOf(c).src, IdOf(c).idx));
    assert IdOf(c) in large && IdOf(c) !in small;
    SubsetCard(small, large);
  }

  /** A bound on the steps a thread spends on record `i`: three for every cell of the table, and
      one for every record with the same ghash. */
  ghost function Budget(inp: Inputs, size: nat, t: nat, i: nat): nat
    requires Valid(inp) && t < |inp| && i < |inp[t].ghashes|
  {
    3 * size + Sharing(inp, inp[t].ghashes[i]) + 1
  }

  /** The same for all records from `i` on. */
  ghost function Budgets(inp: Inputs, size: nat, t: nat, i: nat): nat
    requires Valid(inp) && t < |inp| && i <= |inp[t].ghashes|
    decreases |inp[t].ghashes| - i
  {
    if i == |inp[t].ghashes| then 0 else Budget(inp, size, t, i) + Budgets(inp, size, t, i + 1)
  }

  /** Work a thread still has to do; it depends on nothing but the thread itself. */
  ghost function Work(inp: Inputs, size: nat, t: nat, th: Thread): nat
    requires Valid(inp) && t < |inp| && SeenOk(inp, th)
  {
    if th.next >= |inp[t].ghashes| then 0
    else RecordWork(inp, size, t, th) + Budgets(inp, size, t, th.next + 1)
  }

  ghost predicate SeenOk(inp: Inputs, th: Thread)
    requires Valid(inp)
  {
    th.pc.Check? && th.pc.oldCell != EMPTY ==> IsInputCell(inp, th.pc.oldCell)
  }

  /** The same for the record the thread is working on. */
  ghost function RecordWork(inp: Inputs, size: nat, t: nat, th: Thread): nat
    requires Valid(inp) && t < |inp| && th.next < |inp[t].ghashes| && SeenOk(inp, th)
  {
    var key := inp[t].ghashes[th.next];
    match th.pc
    case NextRecord => Budget(inp, size, t, th.next)
    case Full => 0
    case Load(idx) => 3 * ProbesLeft(inp, size, t, th, idx) + Sharing(inp, key)
    case Check(idx, seen) => CheckWork(inp, key, ProbesLeft(inp, size, t, th, idx), seen)
  }

  /** With the value `seen` in hand and `left` cells to look at, this one included. */
  ghost function CheckWork(inp: Inputs, key: GHash, left: nat, seen: Cell): nat
    requires Valid(inp) && left >= 1 && (seen != EMPTY ==> IsInputCell(inp, seen))
  {
    if seen == EMPTY then 3 * left + Sharing(inp, key) - 1
    else if KeyOf(inp, seen) == key then 1 + |Rivals(inp, key, seen)|
    else 3 * left + Sharing(inp, key) - 2
  }

  ghost function ProbesLeft(inp: Inputs, size: nat, t: nat, th: Thread, idx: nat): (n: nat)
    requires t < |inp| && th.next < |inp[t].ghashes|
    ensures n >= 1
  {
    if size == 0 || idx >= size then 1
    else size - Dist(StartIdx(HashOf(inp, RecordId(t, th.next)), size), idx, size)
  }

  lemma AdvanceDist(start: nat, idx: nat, size: nat)
    requires start < size && idx < size && Advance(idx, size) != start
    ensures Dist(start, Advance(idx, size), size) == Dist(start, idx, size) + 1 < size
  {
  }

  /** What is loaded costs less than loading it. */
  lemma LoadWork(inp: Inputs, key: GHash, left: nat, seen: Cell)
    requires Valid(inp) && left >= 1 && (seen != EMPTY ==> IsInputCell(inp, seen))
    ensures CheckWork(inp, key, left, seen) < 3 * left + Sharing(inp, key)
    ensures seen != EMPTY ==> CheckWork(inp, key, left, seen) < CheckWork(inp, key, left, EMPTY)
  {
    if seen != EMPTY && KeyOf(inp, seen) == key {
      FewerRivals(inp, key, seen, TWO_64);
    }
  }

  /** A failed compare finds less work than before, unless it failed for no reason. */
  lemma RetryWork(inp: Inputs, key: GHash, left: nat, seen: Cell, now: Cell)
    requires Valid(inp) && left >= 1 && (seen != EMPTY ==> IsInputCell(inp, seen))
    requires now != EMPTY ==> IsInputCell(inp, now)
    requires seen == EMPTY || (now != EMPTY && now <= seen && KeyOf(inp, now) == KeyOf(inp, seen) == key)
    ensures CheckWork(inp, key, left, now) <= CheckWork(inp, key, left, seen)
    ensures now != seen ==> CheckWork(inp, key, left, now) < CheckWork(inp, key, left, seen)
  {
    if seen == EMPTY {
      LoadWork(inp, key, left, now);
    } else if now < seen {
      FewerRivals(inp, key, now, seen);
    }
  }

  /** The step lowers the work on the record, or finishes the record. */
  ghost predicate Progress(inp: Inputs, size: nat, t: nat, th: Thread, th': Thread, certain: bool)
    requires Valid(inp) && t < |inp| && SeenOk(inp, th) && SeenOk(inp, th') && th.next < |inp[t].ghashes|
  {
    if th'.next == th.next
    then RecordWork(inp, size, t, th') <= RecordWork(inp, size, t, th) &&
         (certain ==> RecordWork(inp, size, t, th') < RecordWork(inp, size, t, th))
    else th'.next == th.next + 1 && th'.pc == NextRecord && RecordWork(inp, size, t, th) > 0
  }

  /** A mismatch costs one cell; a failed compare leads to a smaller value. */
  lemma CheckStepWork(inp: Inputs, table: seq<Cell>, t: nat, th: Thread, spurious: bool, th': Thread)
    requires Valid(inp) && TableOk(inp, table) && t < |inp|
    requires ThreadOk(inp, table, t, th) && th.next < |th.indexMap| && th.pc.Check?
    requires th' == ThreadStep(inp, table, t, th, spurious).0
    ensures SeenOk(inp, th) && SeenOk(inp, th') && Progress(inp, |table|, t, th, th', !spurious)
  {
    var size, key := |table|, HashOf(inp, RecordId(t, th.next));
    var idx, seen := th.pc.idx, th.pc.oldCell;
    var left := ProbesLeft(inp, size, t, th, idx);
    if th'.pc.Load? {
      AdvanceDist(StartIdx(key, size), idx, size);
      assert ProbesLeft(inp, size, t, th', th'.pc.idx) == left - 1;
    } else if th'.pc.Check? {
      assert th'.pc == Check(idx, table[idx]);
      RetryWork(inp, key, left, seen, table[idx]);
    }
  }

  lemma LoadStepWork(inp: Inputs, table: seq<Cell>, t: nat, th: Thread, spurious: bool, th': Thread)
    requires Valid(inp) && TableOk(inp, table) && t < |inp|
    requires ThreadOk(inp, table, t, th) && th.next < |th.indexMap| && th.pc.Load?
    requires th' == ThreadStep(inp, table, t, th, spurious).0
    ensures SeenOk(inp, th) && SeenOk(inp, th') && Progress(inp, |table|, t, th, th', true)
  {
    var key := HashOf(inp, RecordId(t, th.next));
    LoadWork(inp, key, ProbesLeft(inp, |table|, t, th, th.pc.idx), table[th.pc.idx]);
  }

  lemma RecordStepWork(inp: Inputs, table: seq<Cell>, t: nat, th: Thread, spurious: bool, th': Thread)
    requires Valid(inp) && TableOk(inp, table) && t < |inp|
    requires ThreadOk(inp, table, t, th) && th.next < |th.indexMap|
    requires th' == ThreadStep(inp, table, t, th, spurious).0
    ensures SeenOk(inp, th) && SeenOk(inp, th') && Progress(inp, |table|, t, th, th', !spurious && th.pc != Full)
  {
    match th.pc
    case NextRecord =>
    case Full =>
    case Load(_) => LoadStepWork(inp, table, t, th, spurious, th');
    case Check(_, _) => CheckStepWork(inp, table, t, th, spurious, th');
  }

  /** Each own step of an unfinished thread lowers its work, whatever the other threads did in
      between; only a spurious CAS failure may leave it where it was. */
  lemma StepWork(inp: Inputs, s: State, c: Choice)
    requires Inv(inp, s) && c.thread < |inp|
    ensures SeenOk(inp, s.threads[c.thread]) && SeenOk(inp, Step(inp, s, c).threads[c.thread])
    ensures Work(inp, |s.table|, c.thread, Step(inp, s, c).threads[c.thread])
            <= Work(inp, |s.table|, c.thread, s.threads[c.thread])
    ensures !c.spurious && !Done(inp, s, c.thread) && s.threads[c.thread].pc != Full ==>
      Work(inp, |s.table|, c.thread, Step(inp, s, c).threads[c.thread])
      < Work(inp, |s.table|, c.thread, s.threads[c.thread])
  {
    var th := s.threads[c.thread];
    var size := |s.table|;
    assert ThreadOk(inp, s.table, c.thread, th);
    if th.next < |inp[c.thread].ghashes| {
      RecordStepWork(inp, s.table, c.thread, th, c.spurious, ThreadStep(inp, s.table, c.thread, th, c.spurious).0);
    }
  }

  /** Steps of thread `t` in the schedule that found it unfinished and did not fail spuriously. */
  ghost function OwnSteps(inp: Inputs, s: State, sched: seq<Choice>, t: nat): nat
    requires Inv(inp, s) && ScheduleOk(inp, sched) && t < |inp|
    decreases |sched|
  {
    if sched == [] then 0
    else
      StepPreservesInv(inp, s, sched[0]);
      (if sched[0].thread == t && !sched[0].spurious && !Done(inp, s, t) && s.threads[t].pc != Full then 1 else 0)
      + OwnSteps(inp, Step(inp, s, sched[0]), sched[1..], t)
  }

  /** No starvation: apart from spurious failures, a thread's own steps are bounded by a number
      fixed at the start, for every schedule of the others. */
  lemma {:induction false} RetriesBounded(inp: Inputs, s: State, sched: seq<Choice>, t: nat)
    requires Inv(inp, s) && ScheduleOk(inp, sched) && t < |inp|
    ensures SeenOk(inp, s.threads[t]) && OwnSteps(inp, s, sched, t) <= Work(inp, |s.table|, t, s.threads[t])
    decreases |sched|
  {
    assert ThreadOk(inp, s.table, t, s.threads[t]);
    if sched != [] {
      StepPreservesInv(inp, s, sched[0]);
      StepWork(inp, s, sched[0]);
      RetriesBounded(inp, Step(inp, s, sched[0]), sched[1..], t);
    }
  }

  /** From the empty table on, a thread needs no more than three steps per cell of the table and
      one per record with the same ghash, for each of its records. */
  lemma InsertionBounded(inp: Inputs, size: nat, sched: seq<Choice>, t: nat)
    requires Valid(inp) && SizeOk(inp, size) && ScheduleOk(inp, sched) && t < |inp|
    ensures Inv(inp, Init(inp, size)) && OwnSteps(inp, Init(inp, size), sched, t) <= Budgets(inp, size, t, 0)
  {
    InitInv(inp, size);
    RetriesBounded(inp, Init(inp, size), sched, t);
  }

  // ------------------------------------------------------------------ completion

  /** The turns of thread `t` in which its CAS does not fail for no reason. */
  function Turns(sched: seq<Choice>, t: nat): nat {
    if sched == [] then 0
    else (if sched[0].thread == t && !sched[0].spurious then 1 else 0) + Turns(sched[1..], t)
  }

  /** A finished thread stays finished. */
  lemma {:induction false} DoneStays(inp: Inputs, s: State, sched: seq<Choice>, t: nat)
    requires Inv(inp, s) && ScheduleOk(inp, sched) && t < |inp| && Done(inp, s, t)
    ensures Done(inp, Run(inp, s, sched), t)
    decreases |sched|
  {
    if sched != [] {
      StepPreservesInv(inp, s, sched[0]);
      DoneStays(inp, Step(inp, s, sched[0]), sched[1..], t);
    }
  }

  /** A thread that is not finished in the end has used all of its turns. */
  lemma {:induction false} UnfinishedWorks(inp: Inputs, s: State, sched: seq<Choice>, t: nat)
    requires Inv(inp, s) && ScheduleOk(inp, sched) && t < |inp| && |Keys(inp)| <= |s.table|
    requires !Done(inp, Run(inp, s, sched), t)
    ensures OwnSteps(inp, s, sched, t) == Turns(sched, t)
    decreases |sched|
  {
    if sched != [] {
      StepPreservesInv(inp, s, sched[0]);
      if Done(inp, s, t) {
        DoneStays(inp, s, sched, t);
      }
      NeverFull(inp, s, t);
      UnfinishedWorks(inp, Step(inp, s, sched[0]), sched[1..], t);
    }
  }

  /** Every schedule that gives each thread more turns than it may need is complete. */
  lemma FairScheduleCompletes(inp: Inputs, size: nat, sched: seq<Choice>)
    requires Valid(inp) && SizeOk(inp, size) && ScheduleOk(inp, sched) && TotalRecords(inp) <= size
    requires forall t :: 0 <= t < |inp| ==> Turns(sched, t) > Budgets(inp, size, t, 0)
    ensures AllDone(inp, Outcome(inp, size, sched))
  {
    InitInv(inp, size);
    SumIsEnough(inp);
    forall t | 0 <= t < |inp| ensures Done(inp, Outcome(inp, size, sched), t) {
      if !Done(inp, Outcome(inp, size, sched), t) {
        UnfinishedWorks(inp, Init(inp, size), sched, t);
        InsertionBounded(inp, size, sched, t);
      }
    }
  }

  /** `n` turns of one thread. */
  function Repeat(t: nat, n: nat): (sched: seq<Choice>)
    ensures |sched| == n && forall k :: 0 <= k < n ==> sched[k] == Choice(t, false)
  {
    seq(n, k => Choice(t, false))
  }

  lemma {:induction false} TurnsAppend(a: seq<Choice>, b: seq<Choice>, t: nat)
    ensures Turns(a + b, t) == Turns(a, t) + Turns(b, t)
  {
    if a == [] {
      assert a + b == b;
    } else {
      assert (a + b)[1..] == a[1..] + b;
      TurnsAppend(a[1..], b, t);
    }
  }

  lemma {:induction false} TurnsRepeat(u: nat, n: nat, t: nat)
    ensures Turns(Repeat(u, n), t) == if t == u then n else 0
  {
    if n > 0 {
      assert Repeat(u, n)[1..] == Repeat(u, n - 1);
      TurnsRepeat(u, n - 1, t);
    }
  }

  /** There is such a schedule. */
  lemma {:induction false} FairScheduleExists(inp: Inputs, size: nat, n: nat) returns (sched: seq<Choice>)
    requires Valid(inp) && n <= |inp|
    ensures ScheduleOk(inp, sched) && forall t :: 0 <= t < n ==> Turns(sched, t) > Budgets(inp, size, t, 0)
  {
    if n == 0 {
      sched := [];
    } else {
      var u: nat := n - 1;
      var before := FairScheduleExists(inp, size, u);
      var more := Repeat(u, Budgets(inp, size, u, 0) + 1);
      sched := before + more;
      forall t | 0 <= t < n ensures Turns(sched, t) > Budgets(inp, size, t, 0) {
        TurnsAppend(before, more, t);
        TurnsRepeat(u, |more|, t);
      }
    }
  }
}
