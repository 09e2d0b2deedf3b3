/** When a sheet goes back to a row in the one way a stream cannot repair into
    a single row (`src/service.rs`, `RowBatcher::push`), told from the order of
    its rows alone. */
module Revisiting {
  import opened Sequences
  import opened Walking

  predicate HasRow(cells: seq<Cell>, row: nat) {
    exists i :: 0 <= i < |cells| && cells[i].row == row
  }

  /** The furthest row so far, and the row before it that was left or gone back
      to last. */
  datatype Trail = Trail(current: nat, last: Option<nat>, revisited: bool)

  /** Going back to a row met before, past the row left or gone back to last:
      whatever the stream's settings, that row is then queued a second time. */
  predicate RevisitStep(before: seq<Cell>, t: Trail, row: nat) {
    before != [] && row < t.current && HasRow(before, row) && t.last.Some? && row > t.last.value
  }

  /** The path the cells' rows take. A row past the furthest leaves that one
      behind. A row short of it is gone back to when it is new, or revisited. */
  function Followed(cells: seq<Cell>): Trail {
    if cells == [] then Trail(0, None, false)
    else
      var before, row := cells[..|cells| - 1], cells[|cells| - 1].row;
      var t := Followed(before);
      if before == [] then Trail(row, None, false)
      else if row > t.current then t.(current := row, last := Some(t.current))
      else if row < t.current && !HasRow(before, row) then t.(last := Some(row))
      else if RevisitStep(before, t, row) then t.(last := Some(row), revisited := true)
      else t
  }

  predicate Revisits(cells: seq<Cell>) {
    Followed(cells).revisited
  }

  lemma FollowedStep(before: seq<Cell>, cell: Cell)
    ensures var t, row := Followed(before), cell.row;
            Followed(before + [cell]) ==
            if before == [] then Trail(row, None, false)
            else if row > t.current then t.(current := row, last := Some(t.current))
            else if row < t.current && !HasRow(before, row) then t.(last := Some(row))
            else if RevisitStep(before, t, row) then t.(last := Some(row), revisited := true)
            else t
  {
    assert (before + [cell])[..|before|] == before;
  }

  lemma HasRowMore(cells: seq<Cell>, cell: Cell, row: nat)
    ensures HasRow(cells + [cell], row) <==> HasRow(cells, row) || cell.row == row
  {
    var all := cells + [cell];
    assert all[|cells|] == cell;
    if i :| 0 <= i < |cells| && cells[i].row == row {
      assert all[i].row == row;
    }
  }

  // ---- what the trail depends on ----

  ghost predicate SameRowsArrive(a: seq<Cell>, b: seq<Cell>) {
    |a| == |b| && forall i :: 0 <= i < |a| ==> a[i].row == b[i].row
  }

  /** Only the rows matter, and not what the cells hold. */
  lemma {:induction false} RowsDecide(a: seq<Cell>, b: seq<Cell>)
    requires SameRowsArrive(a, b)
    ensures Followed(a) == Followed(b)
  {
    if a == [] {
    } else {
      var n := |a| - 1;
      RowsDecide(a[..n], b[..n]);
      SameRowsMet(a[..n], b[..n], a[n].row);
    }
  }

  lemma SameRowsMet(a: seq<Cell>, b: seq<Cell>, row: nat)
    requires SameRowsArrive(a, b)
    ensures HasRow(a, row) <==> HasRow(b, row)
  {
  }

  // ---- inputs that never revisit ----

  /** The cells of each row arrive together; the rows come in any order. */
  ghost predicate RowGrouped(cells: seq<Cell>) {
    forall i, j, k :: 0 <= i < j < k < |cells| && cells[i].row == cells[k].row ==> cells[j].row == cells[i].row
  }

  lemma GroupedPrefix(cells: seq<Cell>)
    requires RowGrouped(cells) && cells != []
    ensures var n := |cells| - 1;
            && RowGrouped(cells[..n])
            && (HasRow(cells[..n], cells[n].row) ==> cells[n - 1].row == cells[n].row)
  {
    var n := |cells| - 1;
    var before := cells[..n];
    forall i, j, k | 0 <= i < j < k < |before| && before[i].row == before[k].row
      ensures before[j].row == before[i].row
    {
      assert cells[i].row == cells[k].row;
      assert cells[j].row == cells[i].row;
    }
    if i :| 0 <= i < n && before[i].row == cells[n].row {
      assert cells[i].row == cells[n].row;
    }
  }

  /** Row-grouped input goes back to no row twice, so it never revisits. */
  lemma {:induction false} GroupedNeverRevisits(cells: seq<Cell>)
    requires RowGrouped(cells)
    ensures !Revisits(cells)
    ensures var t := Followed(cells);
            cells != [] && cells[|cells| - 1].row < t.current ==> t.last.Some? && t.last.value >= cells[|cells| - 1].row
  {
    if cells == [] {
    } else {
      GroupedPrefix(cells);
      GroupedNeverRevisits(cells[..|cells| - 1]);
    }
  }
}
