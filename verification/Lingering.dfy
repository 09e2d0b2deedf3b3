/** When a queue is sent (`src/service.rs`, `RowBatcher::push`): the three
    triggers, and the clock among them. */
module Lingering {
  import opened Sequences
  import opened Contract
  import opened Batching
  import opened Walking
  import opened StreamTheorems

  lemma RowStays(rows: seq<Row>, row: Row)
    ensures Enqueue(rows, row) != []
  {
  }

  lemma FlushEmpties(cfg: Config, b: Batcher)
    requires ValidTable(b.table)
    ensures Flush(cfg, b).0.rows == []
    ensures b.table.Some? && b.rows != [] ==> Flush(cfg, b).0.table.value.pending == []
  {
  }

  /** A push sends the queue, its row with it, exactly when the queue then has
      as many rows as the cap, or is estimated at 8 MiB, or the linger has passed
      while it is shorter than 32 rows or its length is a multiple of 32; and
      otherwise it sends nothing. */
  lemma {:induction false} PushEmptiesExactly(cfg: Config, b: Batcher, row: Row)
    requires ValidTable(b.table)
    ensures var rows := Enqueue(b.rows, row);
            var sends := || |rows| >= cfg.cap
                         || ApproxBytes(rows) >= 8 * 1024 * 1024
                         || (cfg.expired(b.pushes) && (|rows| < 32 || |rows| % 32 == 0));
            && Push(cfg, b, row).0.rows == (if sends then [] else rows)
            && (!sends ==> Push(cfg, b, row).1 == [])
  {
    hide Enqueue, ApproxBytes, Flush;
    RowStays(b.rows, row);
    FlushEmpties(cfg, b.(rows := Enqueue(b.rows, row), pushes := b.pushes + 1));
  }

  // ---- a linger of nothing ----

  /** Every push finds the linger passed. */
  ghost predicate AlwaysExpires(cfg: Config) {
    forall k: nat :: cfg.expired(k)
  }

  lemma PushSendsAll(cfg: Config, b: Batcher, row: Row)
    requires ValidTable(b.table) && AlwaysExpires(cfg) && b.rows == []
    ensures Push(cfg, b, row).0.rows == []
  {
    assert Enqueue([], row) == [row];
    hide Push, Enqueue, ApproxBytes;
    PushEmptiesExactly(cfg, b, row);
  }

  lemma TakeSendsAll(cfg: Config, w: Walk, cell: Cell)
    requires ValidTable(w.batcher.table) && AlwaysExpires(cfg) && w.batcher.rows == []
    ensures Take(cfg, w, cell).batcher.rows == []
  {
    hide Push, Placed, AlwaysExpires, Enqueue, LateRow, Accepts;
    PushSendsAll(cfg, w.batcher, LateRow(cell));
    PushSendsAll(cfg, w.batcher, Row(w.currentRow, w.values));
  }

  /** With a linger that has always passed no row waits for another: while a
      stream goes on, all that it has not sent is the row under construction. */
  lemma {:induction false} NothingLingers(s: Setup, arrivals: seq<Arrival>)
    requires AlwaysExpires(s.cfg)
    ensures Walked(s, arrivals).batcher.rows == []
  {
    if arrivals == [] {
    } else {
      var before, a := arrivals[..|arrivals| - 1], arrivals[|arrivals| - 1];
      assert before + [a] == arrivals;
      WalkedStep(s, before, a);
      hide Take, Convert, Kept, AlwaysExpires;
      NothingLingers(s, before);
      TakeSendsAll(s.cfg, Ready(s, before, a), NextCell(s, before, a));
    }
  }
}
