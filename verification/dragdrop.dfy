/**
 * Drag and drop of cards between columns: `dragstart` records the dragged
 * card's id in `dragId`, `dragend` clears it, and a `drop` on a column moves
 * that task there unless the move would change nothing.
 */
module DragDrop {
  import opened Wrappers
  import opened Board

  /** `onDragStart`: the dragged card's id goes into the drag slot (a later drag overwrites an earlier one). */
  function DragStart(s: State, id: int): (r: State)
    ensures r.dragId == Some(id)
    ensures r.tasks == s.tasks && r.nextId == s.nextId
  {
    s.(dragId := Some(id))
  }

  /** `onDragEnd`: the drag slot is emptied however the drag ended. */
  function DragEnd(s: State): (r: State)
    ensures r.dragId == None
    ensures r.tasks == s.tasks && r.nextId == s.nextId
  {
    s.(dragId := None)
  }

  /**
   * The column `drop` handler for destination `dest`. With no drag in progress,
   * a dragged id that names no task, or a task already in `dest`, nothing happens.
   * Otherwise only the first task with the dragged id changes, and only its column.
   * The drag slot itself is left for `dragend` to clear.
   */
  function Drop(s: State, dest: Col): (r: Outcome)
    ensures s.dragId.None? ==> r == NoOp(s)
    ensures s.dragId.Some? && (forall i :: 0 <= i < |s.tasks| ==> s.tasks[i].id != s.dragId.value) ==> r == NoOp(s)
    ensures forall k: nat :: s.dragId.Some? && IsFirst(s.tasks, s.dragId.value, k) ==>
      && (s.tasks[k].col == Name(dest) ==> r == NoOp(s))
      && (s.tasks[k].col != Name(dest) ==>
            && r.saved && r.toast == Some(MovedMessage(dest))
            && |r.state.tasks| == |s.tasks|
            && r.state.tasks[k] == s.tasks[k].(col := Name(dest))
            && (forall j :: 0 <= j < |s.tasks| && j != k ==> r.state.tasks[j] == s.tasks[j])
            && r.state.nextId == s.nextId && r.state.dragId == s.dragId)
  {
    match s.dragId
    case None => NoOp(s)
    case Some(id) =>
      match FirstIndex(s.tasks, id)
      case None => NoOp(s)
      case Some(k) =>
        if s.tasks[k].col == Name(dest) then NoOp(s)
        else Outcome(SetCol(s, k, dest), true, Some(MovedMessage(dest)))
  }

  /** A drop keeps the id invariant. */
  lemma DropKeepsValid(s: State, dest: Col)
    requires Valid(s)
    ensures Valid(Drop(s, dest).state)
  {
    if s.dragId.Some? {
      match FirstIndex(s.tasks, s.dragId.value)
      case None =>
      case Some(k) => SetColKeepsValid(s, k, dest);
    }
  }

  /** A drop writes a real column name, so every task stays in a real column. */
  lemma DropKeepsCols(s: State, dest: Col)
    requires ColsValid(s.tasks)
    ensures ColsValid(Drop(s, dest).state.tasks)
  {
    if s.dragId.Some? {
      match FirstIndex(s.tasks, s.dragId.value)
      case None =>
      case Some(k) => SetColKeepsCols(s, k, dest);
    }
  }

  /** Dropping the same card on the same column again is a no-op: no change, no save, no toast. */
  lemma DropTwice(s: State, dest: Col)
    ensures Drop(Drop(s, dest).state, dest) == NoOp(Drop(s, dest).state)
  {
    var r := Drop(s, dest).state;
    if s.dragId.Some? {
      match FirstIndex(s.tasks, s.dragId.value)
      case None =>
      case Some(k) =>
        assert IsFirst(r.tasks, s.dragId.value, k);
    }
  }

  /**
   * Dragging a card and dropping it on another column moves the first task with
   * that id there; dropping it on its own column changes nothing.
   */
  lemma DragThenDrop(s: State, k: nat, dest: Col)
    requires k < |s.tasks| && IsFirst(s.tasks, s.tasks[k].id, k)
    ensures var d := DragStart(s, s.tasks[k].id);
      && (s.tasks[k].col == Name(dest) ==> Drop(d, dest) == NoOp(d))
      && (s.tasks[k].col != Name(dest) ==> Drop(d, dest).state == SetCol(d, k, dest))
  {
  }

  /** However a drag ends, the session is idle afterwards and a drop then does nothing. */
  lemma EndThenDrop(s: State, dest: Col)
    ensures Drop(DragEnd(s), dest) == NoOp(DragEnd(s))
  {
  }
}
