/**
 * The board's constants and state: the three columns, the task record,
 * the in-memory state (`tasks`, `nextId`, `dragId`) and the outcome every
 * transition reports (new state, whether it was written to storage, the toast shown).
 */
module Board {
  import opened Wrappers

  /** The columns, in their left-to-right order `COLS`. */
  datatype Col = Todo | Progress | Done

  const COLS: seq<Col> := [Todo, Progress, Done]

  /** The column's key as stored in a task's `col` field. */
  function Name(c: Col): string
  {
    match c
    case Todo => "todo"
    case Progress => "progress"
    case Done => "done"
  }

  /** The column's display label (`LABELS`). */
  function Label(c: Col): string
  {
    match c
    case Todo => "To Do"
    case Progress => "In Progress"
    case Done => "Done"
  }

  predicate IsColName(name: string)
  {
    name == Name(Todo) || name == Name(Progress) || name == Name(Done)
  }

  /** `COLS.indexOf(name)`: the column's position, or -1 for a name that is not a column. */
  function IndexOf(name: string): (r: int)
    ensures -1 <= r <= 2
    ensures r == -1 <==> !IsColName(name)
    ensures r >= 0 ==> Name(COLS[r]) == name
  {
    if name == "todo" then 0
    else if name == "progress" then 1
    else if name == "done" then 2
    else -1
  }

  /**
   * A task as stored. `col` is kept as the stored string: snapshots read back
   * from storage are not validated, so it may name no column at all.
   */
  datatype Task = Task(id: int, title: string, desc: string, col: string, date: string)

  /** The page's state; `dragId` is `None` when no card is being dragged. */
  datatype State = State(tasks: seq<Task>, nextId: int, dragId: Option<int>)

  /** The result of a user action: the new state, whether `saveToStorage` ran, and the toast shown, if any. */
  datatype Outcome = Outcome(state: State, saved: bool, toast: Option<string>)

  /** An action that returns early: nothing changes, nothing is saved, nothing is shown. */
  function NoOp(s: State): Outcome
  {
    Outcome(s, false, None)
  }

  /** The toast after a task lands in column `c`. */
  function MovedMessage(c: Col): string
  {
    "→ Moved to " + Label(c)
  }

  /** `k` is the index `tasks.find(t => t.id === id)` returns. */
  predicate IsFirst(ts: seq<Task>, id: int, k: nat)
  {
    k < |ts| && ts[k].id == id && forall i :: 0 <= i < k ==> ts[i].id != id
  }

  /** The position of the first task with this id, as `tasks.find` locates it. */
  function FirstIndex(ts: seq<Task>, id: int): (r: Option<nat>)
    ensures r.None? <==> forall i :: 0 <= i < |ts| ==> ts[i].id != id
    ensures r.Some? ==> IsFirst(ts, id, r.value)
    ensures forall k: nat :: IsFirst(ts, id, k) ==> r == Some(k)
    decreases |ts|
  {
    if |ts| == 0 then None
    else if ts[0].id == id then Some(0)
    else
      match FirstIndex(ts[1..], id)
      case None => None
      case Some(k) => Some(k + 1)
  }

  /** Assigning `task.col` on the task at index `k`; every other task, `nextId` and `dragId` stay as they were. */
  function SetCol(s: State, k: nat, c: Col): (r: State)
    requires k < |s.tasks|
    ensures |r.tasks| == |s.tasks|
    ensures r.tasks[k] == s.tasks[k].(col := Name(c))
    ensures forall j :: 0 <= j < |s.tasks| && j != k ==> r.tasks[j] == s.tasks[j]
    ensures r.nextId == s.nextId && r.dragId == s.dragId
  {
    s.(tasks := s.tasks[k := s.tasks[k].(col := Name(c))])
  }

  /** No two tasks share an id. */
  predicate UniqueIds(ts: seq<Task>)
  {
    forall i, j :: 0 <= i < j < |ts| ==> ts[i].id != ts[j].id
  }

  /** Every task names one of the three columns. */
  predicate ColsValid(ts: seq<Task>)
  {
    forall i :: 0 <= i < |ts| ==> IsColName(ts[i].col)
  }

  /**
   * The id invariant: ids are positive and distinct, and the counter is above
   * every id on the board, so the next task added gets a fresh id.
   */
  predicate Valid(s: State)
    ensures Valid(s) ==> forall i :: 0 <= i < |s.tasks| ==> s.tasks[i].id != s.nextId
  {
    && s.nextId >= 1
    && UniqueIds(s.tasks)
    && (forall i :: 0 <= i < |s.tasks| ==> 1 <= s.tasks[i].id < s.nextId)
  }

  /** Changing one task's column keeps the id invariant. */
  lemma SetColKeepsValid(s: State, k: nat, c: Col)
    requires k < |s.tasks| && Valid(s)
    ensures Valid(SetCol(s, k, c))
  {
    var r := SetCol(s, k, c);
    assert forall i :: 0 <= i < |r.tasks| ==> r.tasks[i].id == s.tasks[i].id;
  }

  /** Changing one task's column to a real column keeps every task in a real column. */
  lemma SetColKeepsCols(s: State, k: nat, c: Col)
    requires k < |s.tasks| && ColsValid(s.tasks)
    ensures ColsValid(SetCol(s, k, c).tasks)
  {
  }
}
