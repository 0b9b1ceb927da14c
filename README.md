# Falling blocks, a to-do list and a household budget, in Dafny

This project models the logic of three small browser applications and
proves properties about it.

- **The falling-block game** (`app/tetris/page.tsx`). A 10×20 board holds
  `null` or a colour in each cell. There are seven piece templates, each a
  square 0/1 matrix with a colour. The pure parts are the collision test,
  the clockwise rotation, merging a landed piece into a new board, and
  clearing full rows. The game component is a state machine over six
  fields: board, current piece, next piece, score, game over and paused.
  Its handlers are spawn, move left/right/down, rotate, hard drop, reset,
  the pause toggle, the spawn effect, the timer tick, the key handler and
  the board rendering.
  - Modules `TetrisPieces`, `TetrisRules` and `TetrisGame`. `TetrisGame`
    holds the class `Game`.
  - Module `TetrisStaleBoard` exhibits the finding below.
- **The to-do list** (`app/page.tsx`). Tasks with nested subtasks are kept
  in one list, which every handler replaces with a `filter` or a `map`.
  Form fields are set and cleared by the handlers, and titles whose
  trimmed form is empty are refused.
  - Module `Todo`: pure list functions plus the class `TodoPage`.
- **The household budget** (`app/types.ts`, `app/components/*.tsx`).
  - Module `Budget`: the transaction type and its add, update and delete
    operations, the month filter and the sums.
  - Module `Overview`: the monthly statistics, plus the class
    `TransactionForm` holding the entry form.
  - Module `Breakdown`: the per-category aggregation, with the `forEach`
    loop that fills the category map.
  - Module `History`: the month's list, newest first, plus the class
    `HistoryEditor` holding the edit form.

Shared modules:
- `Wrappers`: `Option`, for `null` and optional fields.
- `Lists`: `filter`, the "map only the matching entries" pattern, a sum,
  and a sort by a comparator.
- `JsText`: the JavaScript built-ins the applications rely on: `trim`,
  `substring`, `split`, `parseInt`, and integer-to-string rendering.

The modelling follows these rules:
- Loops in the source are methods with loops, each proved equal to a
  specification function:
  - the collision test;
  - the merge;
  - the row-clearing `while`/`unshift`;
  - the hard-drop probe;
  - the category-map `forEach`.
- Components whose handlers update state are classes whose methods
  reassign the fields.
- List rebuilds (`[...xs, x]`, `map`, `filter`) are functions over
  sequences.

## Model

| member | source | states |
|---|---|---|
| TetrisPieces.EmptyBoard | app/tetris/page.tsx:83-85 | `createEmptyBoard` is a 20×10 board whose every cell is empty |
| TetrisPieces.Spawned | app/tetris/page.tsx:87-99 | a drawn template takes its template's shape and colour, is placed at row 0 and column ⌊10/2⌋ − ⌊width/2⌋, and is well formed (square, at least one occupied cell) |
| TetrisPieces.SpawnColumns | app/tetris/page.tsx:96 | the 4-wide bar spawns at column 3 and every other template at column 4; the template sizes are 4, 2 and 3 |
| TetrisPieces.RotateShapeCells | app/tetris/page.tsx:101-106 | rotation turns an m×n matrix into an n×m one with `new[i][j] == old[m-1-j][i]` (clockwise) |
| TetrisPieces.RotatePreservesWellFormed | app/tetris/page.tsx:101-106 | `rotatePiece` keeps the piece well formed and of the same size, and keeps its colour and position |
| TetrisPieces.RotateTwice | app/tetris/page.tsx:101-106 | two rotations turn any non-empty matrix by 180 degrees |
| TetrisPieces.HalfTurnsCancel | app/tetris/page.tsx:101-106 | two 180-degree turns give back the original matrix |
| TetrisPieces.RotateFourTimes | app/tetris/page.tsx:101-106 | four clockwise rotations give back the identical matrix, for every non-empty matrix |
| TetrisPieces.TemplateRotationCycle | app/tetris/page.tsx:6-63 | every one of the seven templates returns to itself after four rotations of the piece |
| TetrisRules.Shifted | app/tetris/page.tsx:191-197 | the piece moved by an offset keeps its shape and colour; its position is moved by exactly the offset |
| TetrisRules.ShiftedCollides | app/tetris/page.tsx:108-127 | testing a piece at an offset is the same as testing the moved piece at offset 0 |
| TetrisRules.CheckCollision | app/tetris/page.tsx:108-127 | the nested loops return true exactly when some occupied cell, moved by the offset, lands left of column 0, right of column 9, below row 19, or on a filled cell at row ≥ 0. A cell above the board is never by itself a collision, and only in-range cells are read |
| TetrisRules.MergedCells | app/tetris/page.tsx:129-143 | the merged board is 20×10; each cell holds the piece colour where an occupied piece cell lies over it and the old cell everywhere else; piece cells outside the board are dropped |
| TetrisRules.MergePieceToBoard | app/tetris/page.tsx:129-143 | the nested loops that write into a copy produce exactly the merged board; the input board is a value and is not modified |
| TetrisRules.Survivors | app/tetris/page.tsx:146 | the `filter` keeps exactly the rows with an empty cell |
| TetrisRules.SurvivorsCount | app/tetris/page.tsx:146-147 | the surviving rows plus the full rows make up the whole board |
| TetrisRules.SurvivorsConcat | app/tetris/page.tsx:146 | filtering rows and counting full rows both distribute over stacking two boards |
| TetrisRules.ClearLines | app/tetris/page.tsx:145-154 | `linesCleared` is the number of full rows, and the board is the cleared board built by the `while`/`unshift` loop |
| TetrisRules.ClearedShape | app/tetris/page.tsx:145-154 | the cleared board always has 20 rows of 10 cells and no full row. The surviving rows sit at the bottom in their old order, under `linesCleared` empty rows |
| TetrisRules.NoFullRows | app/tetris/page.tsx:146 | a board without full rows survives whole and counts 0 full rows |
| TetrisRules.ClearIdempotent | app/tetris/page.tsx:145-154 | a second clear finds no full row and changes nothing |
| TetrisRules.SpawnFitsEmptyBoard | app/tetris/page.tsx:176-182 | every template fits on the empty board at its spawn place, so the unchecked first spawn never overlaps anything |
| TetrisGame.Landed | app/tetris/page.tsx:199-201 | the board after a landing is 20×10 and has no full row |
| TetrisGame.LandOnBoard | app/tetris/page.tsx:199-200 | merging and then clearing produce the landed board, and a `linesCleared` equal to the full rows of the merged board |
| TetrisGame.DropFrom | app/tetris/page.tsx:246-249 | the drop distance D is the first k ≥ 0 where the piece collides at k + 1; every offset from 1 to D is free |
| TetrisGame.DropStep | app/tetris/page.tsx:246-249 | a piece that can move down one more row has not reached the floor. This is the variant that makes the probe loop terminate |
| TetrisGame.ProbeDropDistance | app/tetris/page.tsx:246-249 | the probe loop terminates. It returns D, with no collision at offsets 1..D and a collision at D + 1 |
| TetrisGame.DroppedPieceFits | app/tetris/page.tsx:251-257 | a piece that fits where it is still fits after it is moved down by D |
| TetrisGame.Game.constructor | app/tetris/page.tsx:157-162 | the initial state: empty board, no pieces, score 0, not over, not paused |
| TetrisGame.Game.SpawnNewPiece | app/tetris/page.tsx:165-183 | the first spawn fills both pieces and does no collision test. A later spawn promotes the next piece, refills it, leaves the board alone, and sets game over exactly when the promoted piece collides with the board. The state invariant is kept |
| TetrisGame.Game.Land | app/tetris/page.tsx:199-203 | landing stores the landed board, adds exactly `100 × linesCleared + bonus` to the score, and spawns. The game-over test uses the board after the landing |
| TetrisGame.Game.MoveDown | app/tetris/page.tsx:185-205 | without a piece, when over or when paused, nothing changes. Otherwise the piece moves down one row if that fits, and lands if not, scoring `100 × linesCleared` and promoting the next piece. The score never decreases, and a piece in play never overlaps anything |
| TetrisGame.Game.Translate | app/tetris/page.tsx:207-233 | a sideways move is committed only when the moved piece fits, and is otherwise (or when inactive) a no-op; no other field changes |
| TetrisGame.Game.MoveLeft | app/tetris/page.tsx:207-219 | a move by −1 is committed only if the moved piece fits |
| TetrisGame.Game.MoveRight | app/tetris/page.tsx:221-233 | a move by +1 is committed only if the moved piece fits |
| TetrisGame.Game.Rotate | app/tetris/page.tsx:235-241 | the rotated piece is committed only if it fits (no wall kick) |
| TetrisGame.Game.HardDrop | app/tetris/page.tsx:243-264 | the piece lands D rows down, and the score rises by exactly `100 × linesCleared + 2 × D`. When inactive, nothing changes |
| TetrisGame.Game.ResetGame | app/tetris/page.tsx:266-273 | empty board, no pieces, score 0, not over, not paused |
| TetrisGame.Game.TogglePause | app/tetris/page.tsx:320-324 | the pause flag flips and nothing else changes |
| TetrisGame.Game.SpawnWhenIdle | app/tetris/page.tsx:275-279 | with no piece and the game not over, the first draw becomes the current piece and the second the next piece, at their spawn places, the board is untouched and the game stays on; otherwise nothing changes |
| TetrisGame.Game.TimerTick | app/tetris/page.tsx:281-293 | while over or paused, the tick changes nothing; in every case the new state is the one `moveDown` produces (the same two-state predicate `MovedDown`) |
| TetrisGame.Game.HandleKey | app/tetris/page.tsx:295-330 | once the game is over, every key is ignored, the pause toggle included. Otherwise the left and right arrows leave exactly the state of `moveLeft`/`moveRight`, the down arrow that of `moveDown`, the up arrow that of `rotate`, space that of `hardDrop`, and `p`/`P` only flips the pause; any other key changes nothing |
| TetrisGame.Game.RenderBoard | app/tetris/page.tsx:332-350 | the display is the stored board with the current piece merged into a copy; the stored state is not touched |
| TetrisStaleBoard.TowerStopsSquare | app/tetris/page.tsx:185-190 | on the board left by nine squares dropped at the spawn column, the spawned square fits but cannot move down |
| TetrisStaleBoard.TowerLandingClearsNothing | app/tetris/page.tsx:199-200 | landing the square on that tower completes no row |
| TetrisStaleBoard.SquareMeetsItself | app/tetris/page.tsx:129-143 | the merged square occupies the spawn cells of the next square |
| TetrisStaleBoard.StaleBoardMissesGameOver | app/tetris/page.tsx:171 | the game-over test as written, against the board from before the landing, reports no collision; the intended test, against the landed board, does |
| Todo.RemoveTask | app/page.tsx:43-45 | exactly the tasks with another id remain |
| Todo.RemoveTaskKeepsOrder | app/page.tsx:43-45 | the remaining tasks keep their relative order |
| Todo.RemoveAbsentTask | app/page.tsx:43-45 | deleting an id no task has leaves the list unchanged |
| Todo.RemoveTaskIdempotent | app/page.tsx:43-45 | deleting twice is deleting once |
| Todo.RemoveUndoesAppend | app/page.tsx:29-45 | deleting a task just added under an unused id restores the list |
| Todo.RenameTask | app/page.tsx:56-60 | same length; only the title of the matching tasks changes, to the new title |
| Todo.RenameAbsentTask | app/page.tsx:56-60 | renaming an id no task has changes nothing |
| Todo.RenameTwice | app/page.tsx:56-60 | of two renames, the last one wins |
| Todo.SetTaskStatus | app/page.tsx:73-77 | same length and order; only the status of the matching tasks changes; titles and subtasks are untouched |
| Todo.SetTaskStatusUnchanged | app/page.tsx:73-77 | setting the status a task already has changes nothing |
| Todo.AppendSubTask | app/page.tsx:87-91 | the subtask is appended to the matching tasks only; nothing else changes |
| Todo.RemoveSubTask | app/page.tsx:98-104 | in the matching tasks, exactly the subtasks with the id are gone and the others stay in their order and number (the task's list filtered); every other task and field is unchanged |
| Todo.RemoveSubTaskKeepsOrder | app/page.tsx:98-104 | deleting subtasks filters each part of a task's list on its own, so the survivors keep their relative order and multiplicity |
| Todo.RemoveSubTaskUndoesAppend | app/page.tsx:80-104 | deleting a subtask just added under an unused subtask id restores the list |
| Todo.SetSubTaskStatus | app/page.tsx:107-118 | only the named subtasks of the named tasks take the status; all other tasks and subtasks are identical |
| Todo.RenameKeepsTitlesFilled | app/page.tsx:54-64 | renaming to a non-blank title keeps every stored title non-blank |
| Todo.SetTaskStatusKeepsTitlesFilled | app/page.tsx:73-77 | a status change keeps every title non-blank |
| Todo.AppendSubTaskKeepsTitlesFilled | app/page.tsx:80-95 | appending a non-blank subtask keeps every title non-blank |
| Todo.SubTaskAddedFilled | app/page.tsx:89 | a task with filled titles plus a non-blank subtask still has filled titles |
| Todo.RemoveSubTaskKeepsTitlesFilled | app/page.tsx:98-104 | deleting subtasks keeps every title non-blank |
| Todo.SetSubTaskStatusKeepsTitlesFilled | app/page.tsx:107-118 | a subtask status change keeps every title non-blank |
| Todo.TodoPage.constructor | app/page.tsx:21-26 | the initial state: no tasks, empty inputs, nothing being edited |
| Todo.TodoPage.AddTask | app/page.tsx:29-40 | a title whose trim is not empty is appended, untrimmed, as a pending task without subtasks, and the input is cleared. A blank title changes nothing |
| Todo.TodoPage.DeleteTask | app/page.tsx:43-45 | the list becomes `RemoveTask` of the old list |
| Todo.TodoPage.StartEditingTask | app/page.tsx:48-51 | the edit id and title are those of the task |
| Todo.TodoPage.SaveTaskEdit | app/page.tsx:54-64 | a non-blank title renames the task being edited (a `null` id matches none) and clears the edit state. A blank title changes nothing |
| Todo.TodoPage.CancelTaskEdit | app/page.tsx:67-70 | clears the edit id and title; tasks are untouched |
| Todo.TodoPage.UpdateTaskStatus | app/page.tsx:73-77 | the list becomes `SetTaskStatus` of the old list |
| Todo.TodoPage.OpenSubtaskForm | app/page.tsx:261 | the subtask form targets the task |
| Todo.TodoPage.CloseSubtaskForm | app/page.tsx:250-253 | closes the subtask form and clears its input |
| Todo.TodoPage.AddSubtask | app/page.tsx:80-95 | a non-blank title is appended, untrimmed, as a pending subtask of the matching tasks, and the form is closed and cleared. A blank title changes nothing |
| Todo.TodoPage.DeleteSubtask | app/page.tsx:98-104 | the list becomes `RemoveSubTask` of the old list |
| Todo.TodoPage.UpdateSubtaskStatus | app/page.tsx:107-118 | the list becomes `SetSubTaskStatus` of the old list |
| Budget.ApplyPatchLaws | app/components/BudgetApp.tsx:49 | `{...t, ...updates}`: an empty update is the identity, applying an update twice is applying it once, and an update without an id keeps the id |
| Budget.AddTransaction | app/components/BudgetApp.tsx:29-45 | the list grows by exactly one. The new last entry carries the given fields, and the earlier entries are unchanged |
| Budget.UpdateTransaction | app/components/BudgetApp.tsx:47-51 | same length and order. Matching entries take the fields present in the update and keep the others; the other entries are unchanged |
| Budget.UpdateAbsentTransaction | app/components/BudgetApp.tsx:47-51 | updating an id that no entry has leaves the list equal to before |
| Budget.UpdateKeepsIds | app/components/BudgetApp.tsx:47-51 | an update without an id keeps every entry's id |
| Budget.UpdateIdempotent | app/components/BudgetApp.tsx:47-51 | the same update applied twice is the same update applied once, for every patch, one that changes the id included |
| Budget.DeleteTransaction | app/components/BudgetApp.tsx:53-55 | exactly the entries with another id remain |
| Budget.DeleteKeepsOrder | app/components/BudgetApp.tsx:53-55 | the remaining entries keep their relative order |
| Budget.DeleteIdempotent | app/components/BudgetApp.tsx:53-55 | deleting twice is deleting once |
| Budget.DeleteUndoesAdd | app/components/BudgetApp.tsx:29-55 | deleting an entry just added under an unused id restores the list |
| Budget.MonthTransactions | app/components/OverviewTab.tsx:46-48 | an entry is counted exactly when the first 7 characters of its date equal the month |
| Budget.OfType | app/components/OverviewTab.tsx:50-56 | exactly the entries of the given type |
| Budget.TypesPartition | app/types.ts:1 | income and expense split every list: the counts add up to its length and the sums to its total |
| Budget.MonthAfterAdd | app/components/BudgetApp.tsx:29-45 | adding an entry extends the month's list by that entry when it is dated in the month, and otherwise leaves it unchanged |
| Budget.FormatMonthOfIso | app/components/OverviewTab.tsx:80-83 | `formatMonth("YYYY-MM")` is the year, 年, the month number without a leading zero, then 月 |
| Budget.SplitIso | app/components/OverviewTab.tsx:81 | a year and a month, joined by `-`, split back into exactly those two parts |
| Budget.FormatMonthOfParts | app/components/OverviewTab.tsx:80-83 | a month that splits into two parts, the second read as `n`, is formatted with the numeral of `n` |
| Overview.StatsOf | app/components/OverviewTab.tsx:50-65 | balance = income − expense; the two counts add up to the number of entries; income + expense is the total |
| Overview.GetMonthlyStats | app/components/OverviewTab.tsx:45-66 | the same facts, for the month's entries |
| Overview.StatsOfAppend | app/components/OverviewTab.tsx:50-65 | one more entry raises the matching sum and count by its amount and by one, and moves the balance accordingly |
| Overview.StatsAfterAdd | app/components/OverviewTab.tsx:45-66 | adding an entry in the month updates the statistics as one more entry does; an entry in another month changes nothing |
| Overview.TransactionForm.constructor | app/components/OverviewTab.tsx:36-42 | the initial form: expense, amount 0, today's date, その他, empty description |
| Overview.TransactionForm.HandleSubmit | app/components/OverviewTab.tsx:70-78 | a positive amount adds a transaction with the form's fields, then resets the amount to 0 and the description to empty, keeping type, date and category. Any other amount changes nothing. A list of positive amounts stays one |
| Breakdown.LookupSpec | app/components/BreakdownTab.tsx:32 | `get` finds nothing exactly when no entry has the key, and otherwise finds the amount of an entry with the key |
| Breakdown.LookupDistinct | app/components/BreakdownTab.tsx:32 | in a map without repeated keys, `get` returns the amount of the key's entry |
| Breakdown.Put | app/components/BreakdownTab.tsx:33 | `set` keeps the size for an existing key and grows it by one for a new key |
| Breakdown.PutLookup | app/components/BreakdownTab.tsx:33 | after `set(c, v)`, `get(c)` is `v`, and every other key keeps its amount |
| Breakdown.PutSum | app/components/BreakdownTab.tsx:33 | `set` changes the sum of the amounts by the new amount minus the old one |
| Breakdown.PutDistinct | app/components/BreakdownTab.tsx:33 | `set` never repeats a key |
| Breakdown.AbsentCategoryTotal | app/components/BreakdownTab.tsx:32 | a category with no entry sums to 0, the value the fallback to 0 gives a missing key |
| Breakdown.CategoryTotalAppend | app/components/BreakdownTab.tsx:31-34 | one more entry grows its category's sum by its amount; the other categories are unchanged |
| Breakdown.TallyDistinct | app/components/BreakdownTab.tsx:30-34 | the filled map has no repeated category |
| Breakdown.TallyLookup | app/components/BreakdownTab.tsx:30-34 | the filled map holds an entry for exactly the categories present, and its amount is the category's sum |
| Breakdown.TallyLookupStep | app/components/BreakdownTab.tsx:31-34 | the previous property is kept by one more entry |
| Breakdown.TallyLookupSame | app/components/BreakdownTab.tsx:32-33 | the entry's own category is present, with its sum grown by the entry's amount |
| Breakdown.TallyLookupOther | app/components/BreakdownTab.tsx:32-33 | any other category keeps its presence, its sum and its stored amount |
| Breakdown.TallySum | app/components/BreakdownTab.tsx:28-34 | the amounts in the map add up to the filtered total |
| Breakdown.RowsSum | app/components/BreakdownTab.tsx:36-41 | the rows' amounts add up to the map's amounts |
| Breakdown.AmountOrder | app/components/BreakdownTab.tsx:42 | the comparator `b.amount - a.amount` is a total preorder |
| Breakdown.Filtered | app/components/BreakdownTab.tsx:15-17 | exactly the entries of the month and of the type are aggregated (line 27 filters the type) |
| Breakdown.SortedRows | app/components/BreakdownTab.tsx:42 | the sorted rows are in non-increasing order of amount |
| Breakdown.Breakdown | app/components/BreakdownTab.tsx:24-45 | the breakdown is in non-increasing order of amount |
| Breakdown.FillCategoryMap | app/components/BreakdownTab.tsx:30-34 | the `forEach` loop leaves the map built by the tally |
| Breakdown.CalculateBreakdown | app/components/BreakdownTab.tsx:24-45 | the method computes the breakdown |
| Breakdown.BreakdownEntries | app/components/BreakdownTab.tsx:30-42 | each category present appears exactly once, with the sum of that category's amounts, and no other category appears |
| Breakdown.BreakdownSum | app/components/BreakdownTab.tsx:28-42 | the row amounts add up to the filtered total |
| Breakdown.BreakdownTotalsMatchOverview | app/components/BreakdownTab.tsx:50-51 | `totalIncome` and `totalExpense` equal the month's income and expense |
| Breakdown.BreakdownDegenerate | app/components/BreakdownTab.tsx:36-40 | when the total is not positive, every percentage is 0; when no entry is aggregated, there are no rows |
| History.LexTotal | app/components/HistoryTab.tsx:37 | any two dates are comparable |
| History.LexTransitive | app/components/HistoryTab.tsx:37 | the order on dates is transitive |
| History.NewestFirstOrder | app/components/HistoryTab.tsx:37 | the newest-first comparator is a total preorder |
| History.HistoryList | app/components/HistoryTab.tsx:35-37 | the list holds exactly the month's entries, each as often as before, newest date first |
| History.FormPatch | app/components/HistoryTab.tsx:61-67 | the update carries type, amount, date, category and description, never the id |
| History.SavedEdit | app/components/HistoryTab.tsx:59-71 | saving turns each entry with the edited id into the form's contents under that id; all ids and the other entries stay |
| History.HistoryEditor.constructor | app/components/HistoryTab.tsx:32-33 | no edit in progress |
| History.HistoryEditor.StartEdit | app/components/HistoryTab.tsx:49-52 | `editingId` is the entry's id, and `editForm` is a copy of the entry |
| History.HistoryEditor.ChangeForm | app/components/HistoryTab.tsx:104-191 | the form inputs change every field of the form except its id |
| History.HistoryEditor.CancelEdit | app/components/HistoryTab.tsx:54-57 | clears `editingId` and `editForm` and issues no update |
| History.HistoryEditor.SaveEdit | app/components/HistoryTab.tsx:59-71 | without a form or a truthy id, nothing happens. Otherwise the list is updated with the form's fields for `editingId` and both fields are cleared. Either way no id changes |
| JsText.TrimStart | app/page.tsx:30 | drops exactly the leading whitespace |
| JsText.TrimEnd | app/page.tsx:30 | drops exactly the trailing whitespace |
| JsText.BlankIffAllWhitespace | app/page.tsx:30 | `title.trim()` is empty exactly when every character is whitespace |
| JsText.IndexOf | app/components/OverviewTab.tsx:81 | the first position of the separator, or −1 when it is absent |
| JsText.Split | app/components/OverviewTab.tsx:81 | the parts contain no separator |
| JsText.SplitJoin | app/components/OverviewTab.tsx:81 | joining the parts of `split` with the separator gives back the string |
| JsText.SplitTwo | app/components/OverviewTab.tsx:81 | two parts without the separator, joined by one, split back into those two parts |
| JsText.NatToString | app/components/OverviewTab.tsx:82 | the rendering of `n` is a non-empty string of decimal digits, without a leading zero when `n > 0` |
| JsText.NatToStringValue | app/components/OverviewTab.tsx:82 | the digits of the rendering of `n` have the value `n` |
| JsText.DigitPrefix | app/components/OverviewTab.tsx:82 | `parseInt` reads the longest run of digits of the radix at the start |
| JsText.DigitPrefixOfDigits | app/components/OverviewTab.tsx:82 | a string of digits is its own digit prefix |
| JsText.ParseIntOfDecimal | app/components/OverviewTab.tsx:82 | `parseInt` of a non-empty digit string is its decimal value |
| JsText.ParseIntOfNatToString | app/components/OverviewTab.tsx:82 | `parseInt` reads back the numeral of `n` as `n` |
| JsText.ParseIntTwoDigits | app/components/OverviewTab.tsx:82 | `parseInt("MM")` is `10 × M1 + M2`, so `"03"` reads as 3 |
| Lists.KeepConcat | app/page.tsx:44 | `filter` distributes over concatenation |
| Lists.KeepIdempotent | app/page.tsx:44 | filtering twice is filtering once |
| Lists.SortDesc | app/components/BreakdownTab.tsx:42 | the sort is a permutation and ordered by the comparator |
| Lists.SortDescSum | app/components/BreakdownTab.tsx:42 | sorting keeps the sum |
| Lists.SortDescDistinct | app/components/BreakdownTab.tsx:42 | sorting keeps keys distinct |

## Left out

- Randomness: `Math.random` in `getRandomTetromino` is replaced by the template drawn, a parameter of each handler that spawns.
- Ids: `Date.now()` ids are parameters. They are not assumed unique; lemmas that need an unused id say so in their requires.
- Timers and keyboard wiring: `setInterval`/`clearInterval` and listener registration are not modelled. The interval callback is `TetrisGame.Game.TimerTick`, and the key handler is `TetrisGame.Game.HandleKey`. React's deferred state updates are not modelled; each handler updates the fields directly.
- Browser storage: loading and saving the list in `localStorage` through JSON is I/O.
- Amounts are whole integers (yen). `parseFloat`, `NaN` and fractional amounts are not modelled. The percentage is a `real` and nothing is proved about its value beyond the degenerate case.
- Dates are ISO `YYYY-MM-DD` strings compared lexicographically. The source's `new Date(...)` comparison agrees with that order only for well-formed ISO dates. The source's sort is modelled as an insertion sort.
- `formatDate`, colour tables, tab switching, the pie chart's trigonometry and SVG strings, and all JSX are presentation and are left out.
- `handleDelete` in the history tab: the `confirm` dialog is left out. When it is accepted, the effect is `Budget.DeleteTransaction`.
- `Budget.FormatMonthOfIso`: proved only for months of the form `YYYY-MM` with a year containing no `-`. `Budget.FormatMonth` itself follows the source for every string; when there is no second part, `parseInt(undefined)` gives `NaN`.
- JsText.ParseInt: reads the decimal prefix as an unbounded integer. The loss of precision beyond 2^53 is not modelled.
- Breakdown.Lookup: the JavaScript `Map` is an association list in insertion order; `set` overwrites in place or appends, as `Map` does.
- The form inputs of the overview tab (`setType`, `setDate`, ...) are plain field assignments and have no members of their own.
- The text inputs of the to-do list (`setNewTaskTitle`, `setEditingTaskTitle` and `setNewSubtaskTitle` in the `onChange` handlers of app/page.tsx:144, 173 and 237) are plain assignments of the typed text to one field and have no members of their own; `TodoPage`'s methods read those fields as they are.
- Lists.SortDesc: promises a permutation ordered by the comparator, not that elements comparing equal keep their input order, which `Array.prototype.sort` guarantees. Rows with equal amounts (breakdown) or equal dates (history) may therefore be listed in an order the model does not pin down.

## Findings

| source | as written | input that shows it | evidently intended | confidence | as-written member | corrected member |
|---|---|---|---|---|---|---|
| app/tetris/page.tsx:165-183 | after a landing in `moveDown` (lines 199-203) or `hardDrop` (lines 259-263), `spawnNewPiece` tests the promoted piece against the `board` of its closure, which is the board from before the landing, because `setBoard` has not taken effect yet | the board left by nine `O` pieces each dropped straight down from their spawn place (columns 4 and 5 filled in rows 2-19, all else empty); a tenth `O` spawns at (4, 0), cannot move down and lands in rows 0-1; the next piece is another `O`, which overlaps the landed one, yet the test as written finds no collision and the game goes on | test the promoted piece against the board after the landing and clearing, and end the game when it collides | not executed | TetrisStaleBoard.StaleBoardMissesGameOver | TetrisGame.Game.Land |
