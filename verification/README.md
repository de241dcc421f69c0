# Kanban task store — a Dafny model

This project models the state machine inside `app.js` of a single-board Kanban
page with three columns: To Do (`todo`), In Progress (`progress`) and Done
(`done`). The page keeps a list of tasks, a `nextId` counter for new ids and a
`dragId` slot for the card being dragged. It changes that state through
`addTask`, `moveTask`, the column `drop` handler, `deleteTask` and `clearAll`.
It restores the state with `loadFromStorage`, which falls back to five seed
tasks. `render` derives each column's cards and counts from the state, and
`sanitize` escapes user text before it goes into card markup.

Every transition is a pure function from the current `State` and the user's
input to an `Outcome`. An `Outcome` holds the new state, whether
`saveToStorage` ran, and the toast shown. An early `return` in `moveTask`, the
drop handler and `clearAll` is `NoOp`: same state, nothing saved, no toast.
`addTask`'s blank-title return keeps the state but shows the complaint. Inputs the page reads from the
host become parameters:

- the form fields for `AddTask`,
- today's date label (`todayDate()`),
- the answer to the `confirm()` dialog for `ClearAll`,
- the destination column of a drop,
- the result of reading and parsing storage, as a `StorageRead` value.

Modules, leaf first:

| file | module | models |
|---|---|---|
| wrappers.dfy | `Wrappers` | `Option` (the nullable `dragId`, the result of `tasks.find`) |
| seqs.dfy | `Seqs` | `Array.prototype.filter`: order-preserving filtering |
| text.dfy | `Text` | `trim`, `String(n)` for integers, `padStart`, `padNum` |
| html.dfy | `Html` | `sanitize`, with a per-character escaping and a decoder as its partners |
| board.dfy | `Board` | `COLS`, `LABELS`, the task record, the state, `COLS.indexOf`, `tasks.find`, the id invariant |
| operations.dfy | `Operations` | `addTask`, `moveTask`, `deleteTask`, `clearAll` |
| dragdrop.dfy | `DragDrop` | `onDragStart`, `onDragEnd`, the column `drop` handler |
| persistence.dfy | `Persistence` | `loadFromStorage`, the seed, the snapshot `saveToStorage` writes |
| render.dfy | `Render` | the per-column filter, the count badges and the "N tasks" stat of `render` |
| sync.dfy | `Sync` | how operations change the rendered columns; the loader's id collision; a whole session from the seed |

The id invariant `Board.Valid` says three things: ids are positive, no two
tasks share an id, and `nextId` is above every id on the board. Every
operation preserves it. The loader establishes it from the seed. From a stored
snapshot, the loader only passes it on when the snapshot already had it.
A second invariant, `Board.ColsValid`, says every task's `col` names one of the
three columns. The seed has it and every operation keeps it, so the three
column counts of `render` add up to the number of tasks after any sequence of
operations from the seed.

Behaviour of the code worth knowing:

- A parsed snapshot whose `tasks` is not an array loads as an empty board, not as the seed (app.js:34).
- A parsed snapshot whose `nextId` is not a number gets `tasks.length + 1` as its counter (app.js:35). This can repeat an id already on the board, and `Sync.FallbackCounterCollides` shows such a case.
- `deleteTask` of an id that is not on the board still saves and shows "Task deleted" (app.js:213-217). It is not a silent no-op.
- `clearAll` resets `nextId` to 1 (app.js:224). Ids of deleted tasks can therefore be handed out again.

## Model

| member | source | states |
|---|---|---|
| Seqs.Filter | app.js:87 | filtering keeps exactly the elements that satisfy the predicate, and its result is never longer than its input |
| Text.Trim | app.js:250 | the trimmed text is the input with a run of leading and a run of trailing whitespace cut off, and the middle kept unchanged as one contiguous piece; it is empty exactly when the input is all whitespace, and otherwise starts and ends with a non-space character |
| Text.TrimIdempotent | app.js:260 | text with no surrounding whitespace is unchanged by trim, so trimming twice equals trimming once |
| Text.NatToString | app.js:70 | `String(n)` is a non-empty string of digits with no leading zero, one digit exactly when n < 10, and it reads back as n |
| Text.IntToString | app.js:70 | `String(n)` of an integer starts with `-` exactly when n is negative; the rest is a non-empty run of digits that reads back as the magnitude of n and starts with `0` only when it is the single digit of n = 0 |
| Text.PadStart | app.js:70 | `padStart(width, fill)`: the result is as long as the wider of the text and `width`, ends with the text, and is `fill` before it |
| Text.PadNum | app.js:70 | the result has at least two characters; a number from 0 to 9 gets one leading `0`; any other number is its plain decimal form; for n >= 0 the digits read back as n |
| Html.EscapeAll | app.js:64-68 | escaping each character gives markup-safe text, never shorter than the input, and leaves text without `&<>"` unchanged |
| Html.ReplaceAll | app.js:65-68 | `replace(/ch/g, rep)` turns a lone `ch` into `rep` and leaves text without `ch` unchanged (with `ReplaceAllAppend` this fixes the result on every text); no `ch` is left when `rep` has none, and a non-empty `rep` never shortens the text |
| Html.ReplaceAllAppend | app.js:65-68 | a global replace works character by character: replacing in joined text is joining the replaced parts |
| Html.ReplaceAllKeeps | app.js:65-68 | any character other than `ch` that `rep` does not contain occurs in the replaced text exactly when it occurs in the input |
| Html.Sanitize | app.js:64-68 | the four chained replacements leave no `<`, `>` or `"`, never shorten the text, and leave text without `&<>"` unchanged |
| Html.SanitizeIsEscapeAll | app.js:64-68 | the four chained replacements (`&` first) give the same text as escaping each character once, so no entity is escaped twice |
| Html.SanitizeSafe | app.js:64-68 | the output has no `<`, `>` or `"`; every `&` in it begins `&amp;`, `&lt;`, `&gt;` or `&quot;`; text without `&<>"` is returned unchanged |
| Html.SanitizeRoundTrip | app.js:64-68 | decoding the four entities in the output gives back exactly the input text |
| Html.UnescapeEscape | app.js:64-68 | decoding the escape of one character followed by more text gives that character followed by the decoding of the rest |
| Board.IndexOf | app.js:204 | `COLS.indexOf(col)` is -1 exactly for a string that names no column; otherwise it is the position of that column in `COLS` |
| Board.FirstIndex | app.js:201 | `tasks.find` locates nothing exactly when no task has the id; otherwise it gives the first task with that id |
| Board.SetCol | app.js:192 | assigning `task.col` on one task changes that task's column and nothing else: the other tasks, `nextId` and `dragId` are kept |
| Board.Valid | app.js:262 | under the id invariant, the id `nextId++` hands out next is held by no task on the board |
| Board.SetColKeepsCols | app.js:192 | setting one task's column to a real column keeps every task in a real column |
| Operations.AddTask | app.js:248-268 | a blank title changes nothing and shows the complaint. Otherwise one task is appended with id = old `nextId`, the trimmed title and description, column `todo` and today's date; earlier tasks are untouched; `nextId` goes up by one; the state is saved |
| Operations.AddKeepsValid | app.js:262-263 | adding a task keeps ids distinct, positive and below the counter |
| Operations.AddAllIds | app.js:248-268 | a run of form submissions with non-blank titles appends one task per submission, in order, each with its own trimmed title and description, column `todo` and its own date label; their ids are consecutive from the old counter, hence distinct and strictly increasing; earlier tasks are untouched and the counter grows by the number of submissions |
| Operations.MoveTask | app.js:200-211 | an unknown id, or a target position outside 0..2, changes nothing and saves nothing. Otherwise only the first task with that id changes, and only its column, to `COLS[indexOf(col) + direction]`; `nextId` and every other task stay the same |
| Operations.MoveKeepsValid | app.js:207 | moving a task keeps the id invariant |
| Operations.MoveAtEdges | app.js:204-205 | moving a To Do task left, or a Done task right, is a no-op |
| Operations.MoveFromUnknownColumn | app.js:204-205 | a task whose stored column names no column has position -1, so moving it right puts it in To Do and moving it left does nothing |
| Operations.MoveRightThenLeft | app.js:200-207 | moving a task right and then left restores the exact previous state when it started in To Do or In Progress |
| Operations.DeleteTask | app.js:213-218 | exactly the tasks without that id remain; the counter and drag slot are unchanged; the state is saved and "Task deleted" is shown even when nothing was removed |
| Operations.RemoveIdUnique | app.js:214 | filtering out an id keeps the remaining ids distinct |
| Operations.DeleteKeepsValid | app.js:214 | deleting keeps the id invariant |
| Operations.DeleteIdempotent | app.js:213-214 | deleting an id twice gives the same state as deleting it once |
| Operations.DeleteAbsent | app.js:213-214 | deleting an id that no task has leaves the state as it was |
| Operations.DeleteOne | app.js:214 | with distinct ids, deleting a present id removes exactly that one task and keeps the others in order |
| Operations.ClearAll | app.js:220-228 | an empty board, or a declined confirmation, changes nothing. Otherwise the board is emptied, `nextId` becomes 1 and the state is saved |
| Operations.ClearKeepsValid | app.js:223-224 | clearing keeps the id invariant |
| Operations.ClearThenAdd | app.js:223-224 | after a confirmed clear of a non-empty board, the next successful add yields the single task with id 1, and the counter is 2 |
| Operations.AddKeepsCols | app.js:262-268 | an add puts its task in `todo`, so every task stays in a real column |
| Operations.MoveKeepsCols | app.js:204-207 | a move writes `COLS[target]`, so every task stays in a real column |
| Operations.DeleteKeepsCols | app.js:214 | a delete only removes tasks, so every remaining task is in a real column |
| Operations.ClearKeepsCols | app.js:223 | a clear leaves no task, or the board unchanged, so every task stays in a real column |
| DragDrop.DragStart | app.js:152-153 | starting a drag records the card's id in the drag slot and changes nothing else |
| DragDrop.DragEnd | app.js:159-163 | ending a drag empties the drag slot and changes nothing else |
| DragDrop.Drop | app.js:180-196 | with no drag, an id on no task, or a task already in the destination, nothing changes. Otherwise only the dragged task's column becomes the destination; the drag slot is kept; the state is saved and the move toast is shown |
| DragDrop.DropKeepsValid | app.js:192 | a drop keeps the id invariant |
| DragDrop.DropKeepsCols | app.js:192 | a drop writes the destination column's name, so every task stays in a real column |
| DragDrop.DropTwice | app.js:190 | dropping the same card on the same column a second time is a no-op |
| DragDrop.DragThenDrop | app.js:184-192 | a drag then a drop on another column moves the first task with that id; a drop on its own column does nothing |
| DragDrop.EndThenDrop | app.js:184 | after the drag ends, a drop does nothing |
| Persistence.SeedFacts | app.js:43-50 | the seed has five tasks with ids 1 to 5, all in real columns, and counter 10, which is above every seed id |
| Persistence.Load | app.js:29-52 | no stored value or a failed read gives the seed with counter 10 and writes it back. A parsed value gives its `tasks` if that is an array, else `[]`. It gives its `nextId` if that is a number, else the task count + 1. A parsed value is not written back; the drag slot starts empty |
| Persistence.Save | app.js:21-23 | the stored snapshot is an array of tasks with a numeric counter |
| Persistence.LoadSave | app.js:23-35 | loading a saved state gives back its tasks and counter and does not write |
| Persistence.SaveAfterLoad | app.js:23-35 | saving the loaded state and loading again reproduces the loaded state |
| Persistence.LoadValid | app.js:34-50 | the seed satisfies the id invariant. A parsed snapshot that already satisfied it keeps it. A missing counter is safe when the stored ids lie in 1..length |
| Render.Column | app.js:87 | a column shows exactly the tasks whose `col` is that column |
| Render.ColumnAppend | app.js:87 | a column lists its tasks in board order: the column of a joined list is the join of the columns |
| Render.CountsSum | app.js:87-91 | when every task is in a real column, the three column counts add up to the number of tasks |
| Render.Badge | app.js:91 | the count badge, `padNum(colTasks.length)`, has at least two characters, all digits, and reads back as the column's count |
| Render.StatLabel | app.js:109 | the header stat is the task count's digits, which read back as the count, then " task", then exactly one `s` when the count is not one and nothing when it is one |
| Render.StatLabelInjective | app.js:109 | different task counts give different "N task(s)" labels |
| Sync.AddShowsInTodo | app.js:262-271 | after an add, the new task is the last card of To Do and the other two columns are unchanged |
| Sync.SetColCounts | app.js:207 | a move or drop takes one from the old column's count and adds one to the new column's count; the third count is unchanged |
| Sync.FallbackCounterCollides | app.js:35 | when a stored board has no numeric counter and holds a task whose id is the task count + 1 (only task 2, say), that id becomes the counter and the next add duplicates it |
| Sync.SeedSession | app.js:43-50 | from the seed, adding a title gives id 10 in To Do, moving it right puts it in In Progress, dropping it on In Progress again is a no-op, deleting it restores the five seed tasks, and clearing leaves no tasks and counter 1 |

## Left out

- DOM construction and card markup (`buildCard` and the markup parts of `render`): only the per-column filter, the counts and the stat text are modelled.
- The toast element and its timer, the drag-ghost `setTimeout`, and CSS class toggling. The toast text is part of `Outcome`; its timing is not modelled.
- `localStorage`, `JSON.stringify` and `JSON.parse` are foreign I/O. `StorageRead` stands for their result. `Absent` also covers a stored empty string. `Unparseable` also covers a thrown read and a parsed `null`. `Save` assumes JSON preserves integer ids and strings exactly.
- A failing `saveToStorage` only logs a warning and does not touch the state, so it is not modelled.
- The `confirm()` dialog is the `confirmed` parameter of `ClearAll`.
- `todayDate`, `updateHeaderDate` and locale date formatting call host date APIs. Today's label is a parameter of `AddTask`.
- The keyboard dispatcher, opening and closing the form, `formOpen`, and clearing the form fields are UI plumbing.
- `animationDelay` is floating-point styling.
- Text.Trim: treats a declared set of whitespace characters as space (space, tab, line feed, vertical tab, form feed, carriage return, no-break space), not every character JavaScript's `trim` removes.
- Stored values are typed in the model: ids and `nextId` are integers, and titles, descriptions, columns and dates are strings. The model leaves out non-integer numbers, `NaN`, and non-string fields, together with the `String(...)` coercion and the `task.date || ''` default they would bring.
- Operations.AddTask: ids and `nextId` are unbounded integers. JavaScript numbers are doubles, so the model assumes the counter stays a safe integer below 2^53; above that `nextId++` no longer changes the value and two adds would share an id.
- Operations.AddKeepsValid: holds for the unbounded counter; with JavaScript doubles it needs `nextId` below 2^53.
- Operations.AddAllIds: the consecutive, distinct ids need the counter to stay below 2^53 in JavaScript.
- Text.IntToString: gives the plain decimal form for every integer; JavaScript's `String(n)` switches to exponent form from 1e21 on, which the model leaves out.
- Text.PadNum: relies on `Text.IntToString` and so also assumes counts below 1e21.
- DragDrop.Drop: the destination is typed `Col`. The source reads the column element's `data-col` string (app.js:189), which the page markup sets to one of the three column names; a `data-col` outside them is not modelled.
- `parseInt(this.dataset.id, 10)` on a card is taken to give back that card's integer id.
- Board.Valid: bounds only the ids currently on the board. The code keeps no record of ids it handed out earlier, and `clearAll` resets the counter to 1.
