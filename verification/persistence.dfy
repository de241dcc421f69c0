/**
 * `loadFromStorage` and the snapshot `saveToStorage` writes. The storage read
 * and `JSON.parse` are replaced by `StorageRead`, the shape of what they produce.
 */
module Persistence {
  import opened Wrappers
  import opened Board

  /**
   * What reading the stored snapshot yields: nothing stored (or an empty string),
   * a read or parse that throws, or a parsed value. For a parsed value, `tasksIsArray`
   * says whether its `tasks` field is an array and `nextIdIsNumber` whether its
   * `nextId` field is a number; `tasks` and `nextId` are those fields when they are.
   */
  datatype StorageRead =
    | Absent
    | Unparseable
    | Parsed(tasksIsArray: bool, tasks: seq<Task>, nextIdIsNumber: bool, nextId: int)

  const SEED_NEXT_ID: int := 10

  /** The five example tasks a fresh board starts with. */
  function SeedTasks(): seq<Task>
  {
    [ Task(1, "Build Api", "Setup Node.js and Express for the backend", "todo", "Feb 20"),
      Task(2, "Register Page", "Create register page with React", "todo", "Feb 21"),
      Task(3, "Integrate Login", "Connect Login APIs to the frontend", "todo", "Feb 22"),
      Task(4, "Login Page", "Create Login page with React", "progress", "Feb 23"),
      Task(5, "Initiate Project", "Setup the environment for the MERN project", "done", "Feb 18") ]
  }

  /** The seed: ids 1 to 5 in order, every task in a real column, and a counter above them all. */
  lemma SeedFacts()
    ensures |SeedTasks()| == 5
    ensures forall i :: 0 <= i < 5 ==> SeedTasks()[i].id == i + 1
    ensures ColsValid(SeedTasks())
    ensures Valid(State(SeedTasks(), SEED_NEXT_ID, None))
  {
  }

  /**
   * `loadFromStorage` at page start (the drag slot starts empty). Nothing stored,
   * or a failed read, gives the seed with counter 10 and writes it back. A parsed
   * value gives its `tasks` if that is an array and `[]` otherwise, and its `nextId`
   * if that is a number and otherwise one more than the number of tasks; it is not written back.
   */
  function Load(read: StorageRead): (r: Outcome)
    ensures r.state.dragId == None && r.toast == None
    ensures !read.Parsed? ==> r.saved && r.state.tasks == SeedTasks() && r.state.nextId == SEED_NEXT_ID
    ensures read.Parsed? ==> !r.saved
    ensures read.Parsed? && read.tasksIsArray ==> r.state.tasks == read.tasks
    ensures read.Parsed? && !read.tasksIsArray ==> r.state.tasks == []
    ensures read.Parsed? && read.nextIdIsNumber ==> r.state.nextId == read.nextId
    ensures read.Parsed? && !read.nextIdIsNumber ==> r.state.nextId == |r.state.tasks| + 1
  {
    match read
    case Parsed(isArray, ts, isNumber, n) =>
      var tasks := if isArray then ts else [];
      var nextId := if isNumber then n else |tasks| + 1;
      Outcome(State(tasks, nextId, None), false, None)
    case _ =>
      Outcome(State(SeedTasks(), SEED_NEXT_ID, None), true, None)
  }

  /** What `saveToStorage` leaves in storage: `{ tasks, nextId }`, read back as a parsed value. */
  function Save(s: State): (r: StorageRead)
    ensures r.Parsed? && r.tasksIsArray && r.nextIdIsNumber
  {
    Parsed(true, s.tasks, true, s.nextId)
  }

  /** Loading what was saved gives back the saved tasks and counter, and writes nothing. */
  lemma LoadSave(s: State)
    ensures Load(Save(s)).state == s.(dragId := None)
    ensures !Load(Save(s)).saved
  {
  }

  /** Saving the loaded state and loading again reproduces it. */
  lemma SaveAfterLoad(read: StorageRead)
    ensures Load(Save(Load(read).state)).state == Load(read).state
  {
    LoadSave(Load(read).state);
  }

  /**
   * The loader establishes the id invariant only from the seed. From a parsed
   * snapshot it passes the invariant through when the snapshot had it, and a
   * missing counter is safe when the stored ids lie in 1..|tasks|.
   */
  lemma LoadValid(read: StorageRead)
    ensures !read.Parsed? ==> Valid(Load(read).state)
    ensures read.Parsed? && read.tasksIsArray && read.nextIdIsNumber && Valid(State(read.tasks, read.nextId, None))
            ==> Valid(Load(read).state)
    ensures read.Parsed? && !read.tasksIsArray && (read.nextIdIsNumber ==> read.nextId >= 1) ==> Valid(Load(read).state)
    ensures read.Parsed? && read.tasksIsArray && !read.nextIdIsNumber && UniqueIds(read.tasks)
            && (forall i :: 0 <= i < |read.tasks| ==> 1 <= read.tasks[i].id <= |read.tasks|)
            ==> Valid(Load(read).state)
  {
    SeedFacts();
  }
}
