/**
 * The task operations behind the card buttons and the add form:
 * `addTask`, `moveTask`, `deleteTask` and `clearAll`. Each is a pure
 * transition from the current state and the user's input to an `Outcome`.
 */
module Operations {
  import opened Wrappers
  import opened Board
  import Text
  import Seqs

  const EMPTY_TITLE_MSG: string := "Please enter a task title"
  const POSTED_MSG: string := "Task posted to To Do ✓"
  const DELETED_MSG: string := "Task deleted"
  const CLEARED_MSG: string := "Board cleared"

  /**
   * `addTask` with the form's raw title and description and today's date label.
   * A title that is only whitespace is refused with a complaint and no change;
   * otherwise exactly one task is appended with the counter's id, the `todo`
   * column and the trimmed texts, and the counter moves up by one.
   */
  function AddTask(s: State, title: string, desc: string, today: string): (r: Outcome)
    ensures Text.AllSpace(title) ==> r == Outcome(s, false, Some(EMPTY_TITLE_MSG))
    ensures !Text.AllSpace(title) ==>
      && r.saved && r.toast == Some(POSTED_MSG)
      && |r.state.tasks| == |s.tasks| + 1
      && r.state.tasks[..|s.tasks|] == s.tasks
      && r.state.tasks[|s.tasks|] == Task(s.nextId, Text.Trim(title), Text.Trim(desc), Name(Todo), today)
      && r.state.nextId == s.nextId + 1
      && r.state.dragId == s.dragId
  {
    var t := Text.Trim(title);
    if t == [] then Outcome(s, false, Some(EMPTY_TITLE_MSG))
    else
      var task := Task(s.nextId, t, Text.Trim(desc), Name(Todo), today);
      Outcome(s.(tasks := s.tasks + [task], nextId := s.nextId + 1), true, Some(POSTED_MSG))
  }

  /**
   * `moveTask(id, direction)`. An unknown id, or a target position
   * `indexOf(col) + direction` outside 0..2, changes nothing. Otherwise only the
   * first task with that id changes, and only its column, to `COLS[target]`.
   */
  function MoveTask(s: State, id: int, direction: int): (r: Outcome)
    ensures (forall i :: 0 <= i < |s.tasks| ==> s.tasks[i].id != id) ==> r == NoOp(s)
    ensures forall k: nat :: IsFirst(s.tasks, id, k) ==>
      var target := IndexOf(s.tasks[k].col) + direction;
      && (target < 0 || target > 2 ==> r == NoOp(s))
      && (0 <= target <= 2 ==>
            && r.saved && r.toast == Some(MovedMessage(COLS[target]))
            && |r.state.tasks| == |s.tasks|
            && r.state.tasks[k] == s.tasks[k].(col := Name(COLS[target]))
            && (forall j :: 0 <= j < |s.tasks| && j != k ==> r.state.tasks[j] == s.tasks[j])
            && r.state.nextId == s.nextId && r.state.dragId == s.dragId)
  {
    match FirstIndex(s.tasks, id)
    case None => NoOp(s)
    case Some(k) =>
      var target := IndexOf(s.tasks[k].col) + direction;
      if target < 0 || target > 2 then NoOp(s)
      else
        var c := COLS[target];
        Outcome(SetCol(s, k, c), true, Some(MovedMessage(c)))
  }

  /** The tasks left after removing every task with this id (`tasks.filter(t => t.id !== id)`). */
  function RemoveId(ts: seq<Task>, id: int): seq<Task>
  {
    Seqs.Filter((t: Task) => t.id != id, ts)
  }

  /**
   * `deleteTask(id)`: every task with that id is gone and every other task remains.
   * The counter is not touched. The source saves and toasts even when no task had the id.
   */
  function DeleteTask(s: State, id: int): (r: Outcome)
    ensures r.saved && r.toast == Some(DELETED_MSG)
    ensures forall t :: t in r.state.tasks <==> t in s.tasks && t.id != id
    ensures |r.state.tasks| <= |s.tasks|
    ensures r.state.nextId == s.nextId && r.state.dragId == s.dragId
  {
    Outcome(s.(tasks := RemoveId(s.tasks, id)), true, Some(DELETED_MSG))
  }

  /**
   * `clearAll`, given the answer to the confirmation dialog (which is asked only
   * when the board is not empty). An empty board or a declined dialog changes
   * nothing; otherwise the board is emptied and the counter restarts at 1.
   */
  function ClearAll(s: State, confirmed: bool): (r: Outcome)
    ensures |s.tasks| == 0 || !confirmed ==> r == NoOp(s)
    ensures |s.tasks| > 0 && confirmed ==>
      r.state.tasks == [] && r.state.nextId == 1 && r.state.dragId == s.dragId
      && r.saved && r.toast == Some(CLEARED_MSG)
  {
    if |s.tasks| == 0 then NoOp(s)
    else if !confirmed then NoOp(s)
    else Outcome(s.(tasks := [], nextId := 1), true, Some(CLEARED_MSG))
  }

  // ---------------------------------------------------------------------------
  // Properties of the operations

  /** Adding a task keeps ids distinct and below the counter: the new id is the old counter. */
  lemma AddKeepsValid(s: State, title: string, desc: string, today: string)
    requires Valid(s)
    ensures Valid(AddTask(s, title, desc, today).state)
  {
    var r := AddTask(s, title, desc, today).state;
    if !Text.AllSpace(title) {
      assert forall i :: 0 <= i < |s.tasks| ==> r.tasks[i] == s.tasks[i];
    }
  }

  /** One submission of the add form: raw title, raw description and the date label of that moment. */
  datatype Submission = Submission(title: string, desc: string, date: string)

  /** The task a submission becomes when it receives id `id`. */
  function Posted(id: int, e: Submission): Task
  {
    Task(id, Text.Trim(e.title), Text.Trim(e.desc), Name(Todo), e.date)
  }

  /** A run of form submissions, in order, each posted with its own date label. */
  function AddAll(s: State, entries: seq<Submission>): State
    decreases |entries|
  {
    if |entries| == 0 then s
    else
      var last := entries[|entries| - 1];
      AddTask(AddAll(s, entries[..|entries| - 1]), last.title, last.desc, last.date).state
  }

  /**
   * Successive adds with non-blank titles append one task each, in submission order, with ids taken
   * from the counter in order: consecutive, hence distinct and strictly increasing.
   */
  lemma {:induction false} AddAllIds(s: State, entries: seq<Submission>)
    requires forall i :: 0 <= i < |entries| ==> !Text.AllSpace(entries[i].title)
    ensures var r := AddAll(s, entries);
      && |r.tasks| == |s.tasks| + |entries|
      && r.tasks[..|s.tasks|] == s.tasks
      && r.nextId == s.nextId + |entries|
      && var added := r.tasks[|s.tasks|..];
         && (forall i :: 0 <= i < |added| ==> added[i] == Posted(s.nextId + i, entries[i]))
         && (forall i, j :: 0 <= i < j < |added| ==> added[i].id < added[j].id)
    decreases |entries|
  {
    if |entries| > 0 {
      var init, last := entries[..|entries| - 1], entries[|entries| - 1];
      AddAllIds(s, init);
      var p := AddAll(s, init);
      assert AddAll(s, entries) == AddTask(p, last.title, last.desc, last.date).state;
      AddAppendsOne(p, last);
      AddAllStep(s, entries, p, AddAll(s, entries));
    }
  }

  /** The inductive step of `AddAllIds`: one more submission extends the run by its posted task. */
  lemma AddAllStep(s: State, entries: seq<Submission>, p: State, r: State)
    requires |entries| > 0
    requires var init := entries[..|entries| - 1];
      && |p.tasks| == |s.tasks| + |init|
      && p.tasks[..|s.tasks|] == s.tasks
      && p.nextId == s.nextId + |init|
      && var added := p.tasks[|s.tasks|..];
         && (forall i :: 0 <= i < |added| ==> added[i] == Posted(s.nextId + i, init[i]))
         && (forall i, j :: 0 <= i < j < |added| ==> added[i].id < added[j].id)
    requires |r.tasks| == |p.tasks| + 1 && r.tasks[..|p.tasks|] == p.tasks
    requires r.tasks[|p.tasks|] == Posted(p.nextId, entries[|entries| - 1]) && r.nextId == p.nextId + 1
    ensures && |r.tasks| == |s.tasks| + |entries|
            && r.tasks[..|s.tasks|] == s.tasks
            && r.nextId == s.nextId + |entries|
            && var added := r.tasks[|s.tasks|..];
               && (forall i :: 0 <= i < |added| ==> added[i] == Posted(s.nextId + i, entries[i]))
               && (forall i, j :: 0 <= i < j < |added| ==> added[i].id < added[j].id)
  {
    AddedTasks(s.tasks, p.tasks, r.tasks, s.nextId, entries);
    var added := r.tasks[|s.tasks|..];
    assert forall i :: 0 <= i < |added| ==> added[i] == Posted(s.nextId + i, entries[i]);
  }

  /** One successful add: the posted task is appended after the untouched board and the counter moves on. */
  lemma AddAppendsOne(p: State, e: Submission)
    requires !Text.AllSpace(e.title)
    ensures var r := AddTask(p, e.title, e.desc, e.date).state;
      && |r.tasks| == |p.tasks| + 1 && r.tasks[..|p.tasks|] == p.tasks
      && r.tasks[|p.tasks|] == Posted(p.nextId, e)
      && r.nextId == p.nextId + 1
  {
  }

  /**
   * The bookkeeping step of `AddAllIds` on plain sequences: `p` is `base` followed by the
   * tasks posted for all but the last submission of `es`, and `r` appends the last one.
   */
  lemma AddedTasks(base: seq<Task>, p: seq<Task>, r: seq<Task>, start: int, es: seq<Submission>)
    requires |base| <= |p| && p[..|base|] == base && |es| == |p| - |base| + 1
    requires var prev, init := p[|base|..], es[..|es| - 1];
      forall i :: 0 <= i < |prev| ==> prev[i] == Posted(start + i, init[i])
    requires |r| == |p| + 1 && r[..|p|] == p && r[|p|] == Posted(start + |p| - |base|, es[|es| - 1])
    ensures r[..|base|] == base
    ensures var added := r[|base|..];
      && (forall i :: 0 <= i < |added| ==> added[i] == Posted(start + i, es[i]))
      && (forall i, j :: 0 <= i < j < |added| ==> added[i].id < added[j].id)
  {
    var prev, added := p[|base|..], r[|base|..];
    assert r[|base|..|p|] == r[..|p|][|base|..] == prev;
    assert r[|p|..] == [r[|p|]];
    assert added == r[|base|..|p|] + r[|p|..];
    PostedExtend(prev, r[|p|], start, es);
    IdsIncrease(added, start, es);
  }

  /** Appending the task posted for the last submission extends the run of posted tasks by one. */
  lemma PostedExtend(prev: seq<Task>, last: Task, start: int, es: seq<Submission>)
    requires |es| == |prev| + 1
    requires var init := es[..|es| - 1];
      forall i :: 0 <= i < |prev| ==> prev[i] == Posted(start + i, init[i])
    requires last == Posted(start + |prev|, es[|es| - 1])
    ensures var added := prev + [last];
      forall i :: 0 <= i < |added| ==> added[i] == Posted(start + i, es[i])
  {
    var init, added := es[..|es| - 1], prev + [last];
    forall i | 0 <= i < |added| ensures added[i] == Posted(start + i, es[i]) {
      if i < |prev| {
        assert added[i] == prev[i] && init[i] == es[i];
      } else {
        assert added[i] == last && i == |es| - 1;
      }
    }
  }

  /** Tasks posted with consecutive ids have strictly increasing ids. */
  lemma IdsIncrease(added: seq<Task>, start: int, es: seq<Submission>)
    requires |added| <= |es|
    requires forall i :: 0 <= i < |added| ==> added[i] == Posted(start + i, es[i])
    ensures forall i, j :: 0 <= i < j < |added| ==> added[i].id < added[j].id
  {
    forall i, j | 0 <= i < j < |added| ensures added[i].id < added[j].id {
      assert added[i].id == start + i && added[j].id == start + j;
    }
  }

  /** Moving a task keeps the id invariant. */
  lemma MoveKeepsValid(s: State, id: int, direction: int)
    requires Valid(s)
    ensures Valid(MoveTask(s, id, direction).state)
  {
    match FirstIndex(s.tasks, id)
    case None =>
    case Some(k) =>
      var target := IndexOf(s.tasks[k].col) + direction;
      if 0 <= target <= 2 {
        SetColKeepsValid(s, k, COLS[target]);
      }
  }

  /** The left button on a To Do card and the right button on a Done card change nothing. */
  lemma MoveAtEdges(s: State, id: int, k: nat)
    requires IsFirst(s.tasks, id, k)
    ensures s.tasks[k].col == Name(Todo) ==> MoveTask(s, id, -1) == NoOp(s)
    ensures s.tasks[k].col == Name(Done) ==> MoveTask(s, id, 1) == NoOp(s)
  {
  }

  /**
   * A task whose stored column is not a column name has position -1, so moving it
   * right puts it in To Do, while moving it left changes nothing.
   */
  lemma MoveFromUnknownColumn(s: State, id: int, k: nat)
    requires IsFirst(s.tasks, id, k) && !IsColName(s.tasks[k].col)
    ensures MoveTask(s, id, 1).state.tasks[k].col == Name(Todo)
    ensures MoveTask(s, id, -1) == NoOp(s)
  {
  }

  /** A move that goes ahead is `SetCol` on the first task with that id. */
  lemma MoveIsSetCol(s: State, id: int, k: nat, direction: int)
    requires IsFirst(s.tasks, id, k) && 0 <= IndexOf(s.tasks[k].col) + direction <= 2
    ensures MoveTask(s, id, direction).state == SetCol(s, k, COLS[IndexOf(s.tasks[k].col) + direction])
  {
    assert FirstIndex(s.tasks, id) == Some(k);
  }

  /**
   * Every operation keeps each task's `col` one of the three column names:
   * add writes `todo`, a move writes `COLS[target]`, and delete and clear only remove tasks.
   */
  lemma AddKeepsCols(s: State, title: string, desc: string, today: string)
    requires ColsValid(s.tasks)
    ensures ColsValid(AddTask(s, title, desc, today).state.tasks)
  {
    var r := AddTask(s, title, desc, today).state;
    if !Text.AllSpace(title) {
      assert forall i :: 0 <= i < |s.tasks| ==> r.tasks[i] == r.tasks[..|s.tasks|][i];
    }
  }

  lemma MoveKeepsCols(s: State, id: int, direction: int)
    requires ColsValid(s.tasks)
    ensures ColsValid(MoveTask(s, id, direction).state.tasks)
  {
    match FirstIndex(s.tasks, id)
    case None =>
    case Some(k) =>
      var target := IndexOf(s.tasks[k].col) + direction;
      if 0 <= target <= 2 {
        MoveIsSetCol(s, id, k, direction);
        SetColKeepsCols(s, k, COLS[target]);
      }
  }

  lemma DeleteKeepsCols(s: State, id: int)
    requires ColsValid(s.tasks)
    ensures ColsValid(DeleteTask(s, id).state.tasks)
  {
    var r := DeleteTask(s, id).state.tasks;
    forall i | 0 <= i < |r| ensures IsColName(r[i].col) {
      assert r[i] in s.tasks;
    }
  }

  lemma ClearKeepsCols(s: State, confirmed: bool)
    requires ColsValid(s.tasks)
    ensures ColsValid(ClearAll(s, confirmed).state.tasks)
  {
  }

  /** Moving a task right and then left restores the board, when it was in a column other than Done. */
  lemma MoveRightThenLeft(s: State, id: int, k: nat)
    requires IsFirst(s.tasks, id, k) && IsColName(s.tasks[k].col) && s.tasks[k].col != Name(Done)
    ensures MoveTask(MoveTask(s, id, 1).state, id, -1).state == s
  {
    var i := IndexOf(s.tasks[k].col);
    MoveIsSetCol(s, id, k, 1);
    var m := SetCol(s, k, COLS[i + 1]);
    assert IsFirst(m.tasks, id, k);
    assert IndexOf(m.tasks[k].col) == i + 1;
    MoveIsSetCol(m, id, k, -1);
    var b := SetCol(m, k, COLS[i]);
    assert b.tasks[k] == s.tasks[k];
    assert b.tasks == s.tasks;
  }

  /** Removing tasks keeps ids distinct: the ids left are a subset of the ids there were. */
  lemma {:induction false} RemoveIdUnique(ts: seq<Task>, id: int)
    requires UniqueIds(ts)
    ensures UniqueIds(RemoveId(ts, id))
    decreases |ts|
  {
    if |ts| > 0 {
      var rest := RemoveId(ts[1..], id);
      RemoveIdUnique(ts[1..], id);
      assert forall j :: 0 <= j < |rest| ==> rest[j] in ts[1..];
      assert forall j :: 0 <= j < |rest| ==> rest[j].id != ts[0].id;
    }
  }

  /** Deleting a task keeps the id invariant. */
  lemma DeleteKeepsValid(s: State, id: int)
    requires Valid(s)
    ensures Valid(DeleteTask(s, id).state)
  {
    RemoveIdUnique(s.tasks, id);
    var r := DeleteTask(s, id).state;
    forall i | 0 <= i < |r.tasks| ensures 1 <= r.tasks[i].id < r.nextId {
      assert r.tasks[i] in s.tasks;
    }
  }

  /** Deleting the same id twice gives the same state as deleting it once. */
  lemma DeleteIdempotent(s: State, id: int)
    ensures DeleteTask(DeleteTask(s, id).state, id).state == DeleteTask(s, id).state
  {
    Seqs.FilterIdempotent((t: Task) => t.id != id, s.tasks);
  }

  /** Deleting an id no task has leaves the tasks as they were (but still saves and toasts). */
  lemma DeleteAbsent(s: State, id: int)
    requires forall i :: 0 <= i < |s.tasks| ==> s.tasks[i].id != id
    ensures DeleteTask(s, id).state == s
  {
    Seqs.FilterKeepsAll((t: Task) => t.id != id, s.tasks);
  }

  lemma RemoveIdOne(ts: seq<Task>, k: nat)
    requires k < |ts| && UniqueIds(ts)
    ensures RemoveId(ts, ts[k].id) == ts[..k] + ts[k + 1..]
  {
    var id := ts[k].id;
    var p := (t: Task) => t.id != id;
    var a, b := ts[..k], ts[k + 1..];
    assert ts == a + ([ts[k]] + b);
    assert forall i :: 0 <= i < |a| ==> p(a[i]) by {
      forall i | 0 <= i < |a| ensures p(a[i]) { assert a[i] == ts[i]; }
    }
    assert forall i :: 0 <= i < |b| ==> p(b[i]) by {
      forall i | 0 <= i < |b| ensures p(b[i]) { assert b[i] == ts[k + 1 + i]; }
    }
    Seqs.FilterAppend(p, a, [ts[k]] + b);
    Seqs.FilterAppend(p, [ts[k]], b);
    Seqs.FilterKeepsAll(p, a);
    Seqs.FilterKeepsAll(p, b);
    assert Seqs.Filter(p, [ts[k]]) == [];
  }

  /** With distinct ids, deleting a present id removes exactly that one task and keeps the rest in order. */
  lemma DeleteOne(s: State, k: nat)
    requires k < |s.tasks| && UniqueIds(s.tasks)
    ensures DeleteTask(s, s.tasks[k].id).state.tasks == s.tasks[..k] + s.tasks[k + 1..]
  {
    RemoveIdOne(s.tasks, k);
  }

  /** Clearing the board keeps the id invariant. */
  lemma ClearKeepsValid(s: State, confirmed: bool)
    requires Valid(s)
    ensures Valid(ClearAll(s, confirmed).state)
  {
  }

  /** After the board is cleared, the next task added gets id 1. */
  lemma ClearThenAdd(s: State, title: string, desc: string, today: string)
    requires |s.tasks| > 0 && !Text.AllSpace(title)
    ensures AddTask(ClearAll(s, true).state, title, desc, today).state.tasks
            == [Task(1, Text.Trim(title), Text.Trim(desc), Name(Todo), today)]
    ensures AddTask(ClearAll(s, true).state, title, desc, today).state.nextId == 2
  {
  }
}
