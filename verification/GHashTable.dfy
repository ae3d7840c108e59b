/** Concurrent insertion into the ghash table, as interleaved atomic steps.
    One thread handles one type source. An atomic step is a load of the current cell, one
    turn of the compare-and-swap loop, or the bookkeeping between two records. */
module GHashTable {
  import opened Words
  import opened GHashCell

  /** A CodeView type index: below 0x1000 it names a built-in type, above it is an array index. */
  datatype TypeIndex = Simple(kind: nat) | Complex(arrayIndex: nat)

  const NOT_TRANSLATED := Simple(7)

  datatype Pc =
    | NextRecord                        // between two records
    | Load(idx: nat)                    // about to load table[idx]
    | Check(idx: nat, oldCell: Cell)    // holds the value last seen in table[idx]
    | Full                              // "ghash table is full"

  datatype Thread = Thread(next: nat, pc: Pc, indexMap: seq<TypeIndex>)

  datatype State = State(table: seq<Cell>, threads: seq<Thread>)

  /** A scheduling choice: which thread moves, and whether its weak CAS fails for no reason. */
  datatype Choice = Choice(thread: nat, spurious: bool)

  ghost predicate Shape(inp: Inputs, s: State) {
    Valid(inp) && |s.threads| == |inp| && |s.table| < TWO_32
  }

  ghost predicate Done(inp: Inputs, s: State, t: nat)
    requires Shape(inp, s) && t < |inp|
  {
    s.threads[t].next >= |inp[t].ghashes| && s.threads[t].pc == NextRecord
  }

  ghost predicate AllDone(inp: Inputs, s: State)
    requires Shape(inp, s)
  {
    forall t :: 0 <= t < |inp| ==> Done(inp, s, t)
  }

  ghost function Init(inp: Inputs, size: nat): State {
    State(seq(size, i => EMPTY),
          seq(|inp|, t requires 0 <= t < |inp| =>
            Thread(0, NextRecord, seq(|inp[t].ghashes|, i => NOT_TRANSLATED))))
  }

  // ------------------------------------------------------------------ one step

  /** Records that the current record lives in cell `idx` and moves on to the next record. */
  function Finish(th: Thread, idx: nat): Thread
    requires th.next < |th.indexMap|
  {
    Thread(th.next + 1, NextRecord, th.indexMap[th.next := Complex(idx)])
  }

  /** Advances the linear probe, wrapping at the end of the table. */
  function Advance(idx: nat, size: nat): nat {
    if idx + 1 == size then 0 else idx + 1
  }

  /** What one step of a thread does to its own state and to the cell it looks at. */
  function ThreadStep(inp: Inputs, table: seq<Cell>, t: nat, th: Thread, spurious: bool): (Thread, seq<Cell>)
    requires Valid(inp) && t < |inp| && |th.indexMap| == |inp[t].ghashes|
    requires forall p :: 0 <= p < |table| ==> table[p] != EMPTY ==> IsInputCell(inp, table[p])
    requires th.next < |inp[t].ghashes| && |table| > 0
    requires th.pc.Load? ==> th.pc.idx < |table|
    requires th.pc.Check? ==> th.pc.idx < |table| && (th.pc.oldCell != EMPTY ==> IsInputCell(inp, th.pc.oldCell))
  {
    var r := RecordId(t, th.next);
    var ghash := HashOf(inp, r);
    match th.pc
    case NextRecord =>
      if Omitted(inp, r)
      then (Thread(th.next + 1, NextRecord, th.indexMap[th.next := NOT_TRANSLATED]), table)
      else (th.(pc := Load(StartIdx(ghash, |table|))), table)
    case Load(idx) =>
      (th.(pc := Check(idx, table[idx])), table)
    case Check(idx, oldCell) =>
      var newCell := CellOf(inp, r);
      if oldCell == EMPTY || KeyOf(inp, oldCell) == ghash then
        if oldCell != EMPTY && oldCell < newCell then (Finish(th, idx), table)
        else if table[idx] == oldCell && !spurious then (Finish(th, idx), table[idx := newCell])
        else (th.(pc := Check(idx, table[idx])), table)
      else
        var idx' := Advance(idx, |table|);
        if idx' == StartIdx(ghash, |table|) then (th.(pc := Full), table)
        else (th.(pc := Load(idx')), table)
    case Full => (th, table)
  }

  /** The transition: the chosen thread makes one step; a finished thread stutters. */
  ghost function Step(inp: Inputs, s: State, c: Choice): (s': State)
    requires Inv(inp, s) && c.thread < |inp|
  {
    var th := s.threads[c.thread];
    if th.next >= |inp[c.thread].ghashes| then s
    else
      var (th', table') := ThreadStep(inp, s.table, c.thread, th, c.spurious);
      State(table', s.threads[c.thread := th'])
  }

  // ------------------------------------------------------------------ invariant

  /** Number of probe steps from `a` forward to `b` around the table. */
  function Dist(a: nat, b: nat, size: nat): int {
    if b >= a then b - a else b + size - a
  }

  /** Every cell on the probe path from the start of `key` up to, but not including, `p`
      is filled with some other key. */
  ghost predicate PathTaken(inp: Inputs, table: seq<Cell>, key: GHash, p: nat)
    requires Valid(inp) && CellsOk(inp, table) && p < |table|
  {
    var start := StartIdx(key, |table|);
    forall q :: 0 <= q < |table| && Dist(start, q, |table|) < Dist(start, p, |table|) ==>
      table[q] != EMPTY && KeyOf(inp, table[q]) != key
  }

  ghost predicate CellsOk(inp: Inputs, table: seq<Cell>)
    requires Valid(inp)
  {
    forall p :: 0 <= p < |table| ==> table[p] != EMPTY ==> IsInputCell(inp, table[p])
  }

  ghost predicate TableOk(inp: Inputs, table: seq<Cell>)
    requires Valid(inp)
  {
    CellsOk(inp, table) &&
    forall p :: 0 <= p < |table| && table[p] != EMPTY ==> PathTaken(inp, table, KeyOf(inp, table[p]), p)
  }

  /** Cell `p` holds the key of record `r`, with a cell at least as good as the one of `r`. */
  ghost predicate Holds(inp: Inputs, table: seq<Cell>, r: RecordId, p: nat)
    requires Valid(inp) && CellsOk(inp, table) && Inserted(inp, r)
  {
    p < |table| && table[p] != EMPTY && KeyOf(inp, table[p]) == HashOf(inp, r) && table[p] <= CellOf(inp, r)
  }

  ghost predicate RecordOk(inp: Inputs, table: seq<Cell>, r: RecordId, ti: TypeIndex)
    requires Valid(inp) && CellsOk(inp, table) && InRange(inp, r)
  {
    if Omitted(inp, r) then ti == NOT_TRANSLATED
    else ti.Complex? && Holds(inp, table, r, ti.arrayIndex)
  }

  ghost predicate PcOk(inp: Inputs, table: seq<Cell>, r: RecordId, pc: Pc)
    requires Valid(inp) && CellsOk(inp, table) && InRange(inp, r)
  {
    var key := HashOf(inp, r);
    match pc
    case NextRecord => true
    case Load(idx) => !Omitted(inp, r) && idx < |table| && PathTaken(inp, table, key, idx)
    case Check(idx, seen) =>
      !Omitted(inp, r) && idx < |table| && PathTaken(inp, table, key, idx) &&
      (seen != EMPTY ==>
         IsInputCell(inp, seen) && table[idx] != EMPTY && table[idx] <= seen &&
         KeyOf(inp, table[idx]) == KeyOf(inp, seen))
    case Full =>
      !Omitted(inp, r) &&
      forall q :: 0 <= q < |table| ==> table[q] != EMPTY && KeyOf(inp, table[q]) != key
  }

  ghost predicate ThreadOk(inp: Inputs, table: seq<Cell>, t: nat, th: Thread)
    requires Valid(inp) && CellsOk(inp, table) && t < |inp|
  {
    |th.indexMap| == |inp[t].ghashes| && th.next <= |th.indexMap| &&
    (forall i :: 0 <= i < th.next ==> RecordOk(inp, table, RecordId(t, i), th.indexMap[i])) &&
    (if th.next == |th.indexMap| then th.pc == NextRecord
     else |table| > 0 && PcOk(inp, table, RecordId(t, th.next), th.pc))
  }

  ghost predicate Inv(inp: Inputs, s: State) {
    Shape(inp, s) && TableOk(inp, s.table) &&
    forall t :: 0 <= t < |inp| ==> ThreadOk(inp, s.table, t, s.threads[t])
  }

  // ------------------------------------------------------------------ preservation

  /** How a table may evolve: a filled cell keeps its key and only moves to smaller cells. */
  ghost predicate Grows(inp: Inputs, table: seq<Cell>, table': seq<Cell>)
    requires Valid(inp) && CellsOk(inp, table) && CellsOk(inp, table')
  {
    |table'| == |table| &&
    forall p :: 0 <= p < |table| && table[p] != EMPTY ==>
      table'[p] != EMPTY && table'[p] <= table[p] && KeyOf(inp, table'[p]) == KeyOf(inp, table[p])
  }

  lemma PathStable(inp: Inputs, table: seq<Cell>, table': seq<Cell>, key: GHash, p: nat)
    requires Valid(inp) && CellsOk(inp, table) && CellsOk(inp, table') && Grows(inp, table, table')
    requires p < |table| && PathTaken(inp, table, key, p)
    ensures PathTaken(inp, table', key, p)
  {
  }

  lemma ThreadStable(inp: Inputs, table: seq<Cell>, table': seq<Cell>, t: nat, th: Thread)
    requires Valid(inp) && CellsOk(inp, table) && CellsOk(inp, table') && Grows(inp, table, table')
    requires t < |inp| && ThreadOk(inp, table, t, th)
    ensures ThreadOk(inp, table', t, th)
  {
    if th.next < |th.indexMap| && (th.pc.Load? || th.pc.Check?) {
      PathStable(inp, table, table', HashOf(inp, RecordId(t, th.next)), th.pc.idx);
    }
  }

  /** Writing the cell of `r` at the end of its probe path, over nothing or over a larger cell
      with the same key, is a legal evolution of the table. */
  lemma WriteGrows(inp: Inputs, table: seq<Cell>, r: RecordId, idx: nat)
    requires Valid(inp) && TableOk(inp, table) && Inserted(inp, r) && idx < |table|
    requires PathTaken(inp, table, HashOf(inp, r), idx)
    requires table[idx] != EMPTY ==> KeyOf(inp, table[idx]) == HashOf(inp, r) && CellOf(inp, r) <= table[idx]
    ensures var table' := table[idx := CellOf(inp, r)];
      TableOk(inp, table') && Grows(inp, table, table') && Holds(inp, table', r, idx)
  {
    var table' := table[idx := CellOf(inp, r)];
    assert CellsOk(inp, table');
    forall p | 0 <= p < |table'| && table'[p] != EMPTY
      ensures PathTaken(inp, table', KeyOf(inp, table'[p]), p)
    {
      PathStable(inp, table, table', KeyOf(inp, table'[p]), p);
    }
  }

  /** The step after a mismatch extends the probe path by one cell, or covers the whole table. */
  lemma AdvancePath(inp: Inputs, table: seq<Cell>, key: GHash, idx: nat)
    requires Valid(inp) && CellsOk(inp, table) && idx < |table| && PathTaken(inp, table, key, idx)
    requires table[idx] != EMPTY && KeyOf(inp, table[idx]) != key
    ensures var next := Advance(idx, |table|);
      if next == StartIdx(key, |table|)
      then forall q :: 0 <= q < |table| ==> table[q] != EMPTY && KeyOf(inp, table[q]) != key
      else PathTaken(inp, table, key, next)
  {
  }

  lemma ThreadStepOk(inp: Inputs, table: seq<Cell>, t: nat, th: Thread, spurious: bool)
    requires Valid(inp) && TableOk(inp, table) && t < |inp|
    requires ThreadOk(inp, table, t, th) && th.next < |th.indexMap|
    ensures var (th', table') := ThreadStep(inp, table, t, th, spurious);
      TableOk(inp, table') && Grows(inp, table, table') && ThreadOk(inp, table', t, th')
  {
    var r := RecordId(t, th.next);
    var key := HashOf(inp, r);
    var (th', table') := ThreadStep(inp, table, t, th, spurious);
    match th.pc
    case NextRecord =>
    case Load(idx) =>
    case Full =>
    case Check(idx, seen) =>
      if seen == EMPTY || KeyOf(inp, seen) == key {
        if seen != EMPTY && seen < CellOf(inp, r) {
          assert Holds(inp, table, r, idx);
        } else if table[idx] == seen && !spurious {
          WriteGrows(inp, table, r, idx);
          ThreadStable(inp, table, table', t, th);
        } else {
        }
      } else {
        AdvancePath(inp, table, key, idx);
      }
  }

  lemma StepPreservesInv(inp: Inputs, s: State, c: Choice)
    requires Inv(inp, s) && c.thread < |inp|
    ensures Inv(inp, Step(inp, s, c))
    ensures Grows(inp, s.table, Step(inp, s, c).table)
  {
    var th := s.threads[c.thread];
    if th.next < |inp[c.thread].ghashes| {
      ThreadStepOk(inp, s.table, c.thread, th, c.spurious);
      var s' := Step(inp, s, c);
      forall t | 0 <= t < |inp| ensures ThreadOk(inp, s'.table, t, s'.threads[t]) {
        if t != c.thread {
          ThreadStable(inp, s.table, s'.table, t, s.threads[t]);
        }
      }
    }
  }
}
