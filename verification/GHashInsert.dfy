/** The shared table and the per-thread states as arrays that the insertion steps update in place. */
module GHashInsert {
  import opened GHashCell
  import opened GHashTable
  import opened GHashRuns

  class ConcurrentTable {
    const sources: Inputs
    const table: array<Cell>
    const threads: array<Thread>

    ghost predicate Valid()
      reads this, table, threads
    {
      Inv(sources, Contents())
    }

    ghost function Contents(): State
      reads this, table, threads
    {
      State(table[..], threads[..])
    }

    /** An empty table, with one thread per source standing before its first record. */
    constructor (sources: Inputs, size: nat)
      requires GHashCell.Valid(sources) && SizeOk(sources, size)
      ensures Valid() && fresh(table) && fresh(threads) && this.sources == sources
      ensures Contents() == Init(sources, size)
    {
      this.sources := sources;
      table := new Cell[size](i => EMPTY);
      threads := new Thread[|sources|](t requires 0 <= t < |sources| =>
        Thread(0, NextRecord, seq(|sources[t].ghashes|, i => NOT_TRANSLATED)));
      new;
      assert Contents() == Init(sources, size);
      InitInv(sources, size);
    }

    /** One atomic step of one thread: a load, a turn of the CAS loop, or moving to the next record. */
    method Move(c: Choice)
      requires Valid() && c.thread < |sources|
      modifies table, threads
      ensures Valid() && Contents() == Step(sources, old(Contents()), c)
    {
      ghost var before := Contents();
      StepPreservesInv(sources, before, c);
      assert ThreadOk(sources, before.table, c.thread, before.threads[c.thread]);
      var th := threads[c.thread];
      if th.next < |sources[c.thread].ghashes| {
        var r := RecordId(c.thread, th.next);
        match th.pc
        case NextRecord =>
          if Omitted(sources, r) {
            threads[c.thread] := Thread(th.next + 1, NextRecord, th.indexMap[th.next := NOT_TRANSLATED]);
          } else {
            threads[c.thread] := th.(pc := Load(StartIdx(HashOf(sources, r), table.Length)));
          }
        case Load(idx) =>
          threads[c.thread] := th.(pc := Check(idx, table[idx]));
        case Check(idx, seen) =>
          var newCell := CellOf(sources, r);
          if seen == EMPTY || KeyOf(sources, seen) == HashOf(sources, r) {
            if seen != EMPTY && seen < newCell {
              threads[c.thread] := Finish(th, idx);
            } else if table[idx] == seen && !c.spurious {
              table[idx] := newCell;
              threads[c.thread] := Finish(th, idx);
            } else {
              threads[c.thread] := th.(pc := Check(idx, table[idx]));
            }
          } else {
            var next := Advance(idx, table.Length);
            threads[c.thread] :=
              if next == StartIdx(HashOf(sources, r), table.Length) then th.(pc := Full) else th.(pc := Load(next));
          }
        case Full =>
      }
      assert Contents() == Step(sources, before, c);
    }

    /** Runs a whole schedule. */
    method MoveAll(sched: seq<Choice>)
      requires Valid() && ScheduleOk(sources, sched)
      modifies table, threads
      ensures Valid() && Contents() == Run(sources, old(Contents()), sched)
      ensures |Keys(sources)| <= table.Length ==> forall t :: 0 <= t < threads.Length ==> threads[t].pc != Full
    {
      var i := 0;
      while i < |sched|
        invariant 0 <= i <= |sched| && Valid()
        invariant Run(sources, Contents(), sched[i..]) == Run(sources, old(Contents()), sched)
      {
        assert sched[i..][1..] == sched[i + 1..] && sched[i..][0] == sched[i];
        Move(sched[i]);
        i := i + 1;
      }
      if |Keys(sources)| <= table.Length {
        forall t | 0 <= t < threads.Length ensures threads[t].pc != Full {
          NeverFull(sources, Contents(), t);
        }
      }
    }
  }
}
