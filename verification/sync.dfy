/**
 * How the pieces fit together: what each operation does to the rendered
 * columns, the id collision the loader's counter fallback allows, and the
 * seed-to-empty walk through the operations in one session.
 */
module Sync {
  import opened Wrappers
  import opened Board
  import Text
  import Seqs
  import Operations
  import DragDrop
  import Persistence
  import Render

  /** A new task shows up as the last card of To Do; the other two columns are unchanged. */
  lemma AddShowsInTodo(s: State, title: string, desc: string, today: string)
    requires !Text.AllSpace(title)
    ensures var r := Operations.AddTask(s, title, desc, today).state;
      && Render.Column(r.tasks, Todo) == Render.Column(s.tasks, Todo) + [r.tasks[|s.tasks|]]
      && Render.Column(r.tasks, Progress) == Render.Column(s.tasks, Progress)
      && Render.Column(r.tasks, Done) == Render.Column(s.tasks, Done)
  {
    var r := Operations.AddTask(s, title, desc, today).state;
    var t := r.tasks[|s.tasks|];
    assert r.tasks == s.tasks + [t];
    forall c: Col ensures Render.Column(r.tasks, c) == Render.Column(s.tasks, c) + Render.Column([t], c) {
      Render.ColumnAppend(s.tasks, [t], c);
    }
    assert [t][1..] == [];
  }

  /**
   * Changing one task's column (what a successful move or drop does) takes one
   * card off the old column's count and adds one to the new column's count.
   */
  lemma SetColCounts(s: State, k: nat, c: Col, d: Col)
    requires k < |s.tasks|
    ensures Render.Count(SetCol(s, k, c).tasks, d) + (if s.tasks[k].col == Name(d) then 1 else 0)
            == Render.Count(s.tasks, d) + (if c == d then 1 else 0)
  {
    var p := (t: Task) => t.col == Name(d);
    Seqs.FilterUpdateLength(p, s.tasks, k, s.tasks[k].(col := Name(c)));
    assert Name(c) == Name(d) <==> c == d;
  }

  /**
   * The counter fallback of the loader can hand out an id already on the board:
   * when a stored board without a numeric counter holds a task whose id is one
   * more than the number of tasks (a board holding only task 2, say), that id
   * becomes the counter and the next task added duplicates it.
   */
  lemma FallbackCounterCollides(ts: seq<Task>, n: int, k: nat, title: string, desc: string, today: string)
    requires k < |ts| && ts[k].id == |ts| + 1 && !Text.AllSpace(title)
    ensures var s := Persistence.Load(Persistence.Parsed(true, ts, false, n)).state;
      && s.nextId == ts[k].id
      && !UniqueIds(Operations.AddTask(s, title, desc, today).state.tasks)
  {
    var s := Persistence.Load(Persistence.Parsed(true, ts, false, n)).state;
    var r := Operations.AddTask(s, title, desc, today).state;
    assert r.tasks[k] == ts[k] && r.tasks[|ts|].id == ts[k].id;
  }

  /** The seed board with one added card (id 10, titled `title`) in column `col`, counter 11. */
  function SessionBoard(title: string, col: Col, today: string): State
  {
    State(Persistence.SeedTasks() + [Task(10, title, "", Name(col), today)], 11, None)
  }

  /**
   * A session from the seed, for any title already trimmed and not blank (such as
   * "Write tests"): adding it gives id 10 in To Do; moving it right puts it in
   * In Progress; dragging it onto In Progress again changes nothing; deleting it
   * gives back the five seed tasks; clearing then leaves no tasks and counter 1.
   */
  lemma SeedSession(title: string, today: string)
    requires !Text.AllSpace(title) && Text.Trim(title) == title
    ensures Operations.AddTask(Persistence.Load(Persistence.Absent).state, title, "", today).state
            == SessionBoard(title, Todo, today)
    ensures Operations.MoveTask(SessionBoard(title, Todo, today), 10, 1).state == SessionBoard(title, Progress, today)
    ensures DragDrop.Drop(DragDrop.DragStart(SessionBoard(title, Progress, today), 10), Progress)
            == NoOp(DragDrop.DragStart(SessionBoard(title, Progress, today), 10))
    ensures Operations.DeleteTask(SessionBoard(title, Progress, today), 10).state.tasks == Persistence.SeedTasks()
    ensures Operations.ClearAll(Operations.DeleteTask(SessionBoard(title, Progress, today), 10).state, true).state
            == State([], 1, None)
  {
    SessionAdd(title, today);
    SessionMove(title, today);
    SessionDrop(title, today);
    SessionDelete(title, today);
  }

  lemma SessionAdd(title: string, today: string)
    requires !Text.AllSpace(title) && Text.Trim(title) == title
    ensures Operations.AddTask(Persistence.Load(Persistence.Absent).state, title, "", today).state
            == SessionBoard(title, Todo, today)
  {
    Operations.AddAppendsOne(Persistence.Load(Persistence.Absent).state, Operations.Submission(title, "", today));
  }

  lemma SessionMove(title: string, today: string)
    ensures Operations.MoveTask(SessionBoard(title, Todo, today), 10, 1).state == SessionBoard(title, Progress, today)
  {
    var t1, t2 := SessionBoard(title, Todo, today), SessionBoard(title, Progress, today);
    assert IsFirst(t1.tasks, 10, 5);
    assert IndexOf(t1.tasks[5].col) == 0;
    Operations.MoveIsSetCol(t1, 10, 5, 1);
    assert SetCol(t1, 5, Progress) == t2;
  }

  lemma SessionDrop(title: string, today: string)
    ensures DragDrop.Drop(DragDrop.DragStart(SessionBoard(title, Progress, today), 10), Progress)
            == NoOp(DragDrop.DragStart(SessionBoard(title, Progress, today), 10))
  {
    var d := DragDrop.DragStart(SessionBoard(title, Progress, today), 10);
    assert IsFirst(d.tasks, 10, 5);
  }

  lemma SessionDelete(title: string, today: string)
    ensures Operations.DeleteTask(SessionBoard(title, Progress, today), 10).state.tasks == Persistence.SeedTasks()
  {
    var b := SessionBoard(title, Progress, today);
    Persistence.SeedFacts();
    assert UniqueIds(b.tasks);
    Operations.DeleteOne(b, 5);
    assert b.tasks[..5] == Persistence.SeedTasks();
  }
}
