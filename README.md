# A verified model of the task manager's core

This project models the logic of a browser to-do application:

- the in-memory task store (`TaskManager`): adding, updating, deleting with dense renumbering, toggling completion, bulk position updates, and its read-only queries;
- the filter chain of the filter panel (`FilterManager.applyFilters`): status, then category, then due-date range;
- the drag-and-drop reorder (`DragDropManager`): the card move, the dense `{id, position}` pairs and the guard of the drop handler;
- the pure helpers of the user interface: HTML escaping, first-letter capitalisation, the colour switches, the overdue suffix, the reminder messages and the checks of the form submit;
- the dark/light theme preference (`ThemeManager`).

The model is written in Dafny, one module per source concern:

- `Common`: the optional value, order-preserving filtering, subsequences and de-duplication.
- `Text`: the string methods, in an ASCII form.
- `TaskStore`: the `TaskManager` class over a `seq<Task>`. Persistence is a ghost field `saved`, the last snapshot written.
- `Filtering`: the filter chain.
- `DragDrop`: the `DragDropManager` class and the reorder functions.
- `Ui`: the helpers and a `UiManager` class for the form submit.
- `Theme`: the `ThemeManager` class and the transition functions that specify it.

The conventions that run through the model:

- Ids, timestamps and the system colour-scheme signal are parameters.
- Dates are integer milliseconds.
- The cards rendered on the page are the sequence of their task ids, in display order. A card is named by its index in that sequence.
- Store lookups return the first task with an id, as `find` and `findIndex` do; ids are not required to be unique.
- That ids stay unique is proved as a property that every mutator preserves: adding, updating, deleting, toggling, bulk position updates and the drag-and-drop reorder.

## Model

| member | source | states |
|---|---|---|
| TaskStore.TaskManager.constructor | js/taskManager.js:5-23 | Saved tasks give that list. A missing or unreadable entry gives the empty list. |
| TaskStore.FindIndex | js/taskManager.js:80 | Returns -1 exactly when no task has the id. Otherwise it returns an index holding the id with no earlier task holding it. |
| TaskStore.TaskManager.GetTaskById | js/taskManager.js:45-47 | Returns None exactly when no task has the id. Otherwise it returns a task of the list with that id, the first such one. |
| TaskStore.TaskManager.AddTask | js/taskManager.js:54-71 | Appends exactly one task, leaving the earlier tasks as they were. The id is the fresh one. Empty category and priority become "other" and "medium". The task is not completed and `createdAt == updatedAt == now`. Its position is the old length and it is now found by id. Unique ids stay unique. The store is saved. |
| TaskStore.Merge | js/taskManager.js:86-90 | The merged record keeps id and createdAt and takes `updatedAt = now`. An empty patch changes nothing else. |
| TaskStore.TaskManager.UpdateTask | js/taskManager.js:79-95 | For an unknown id: None, and tasks and snapshot unchanged. Otherwise only the first index with that id is replaced by the merged record, which is returned, and the store is saved. Unique ids stay unique. |
| TaskStore.Without | js/taskManager.js:104 | An order-preserving subsequence holding exactly the tasks with another id, each as often as in the input. It is shorter exactly when some task had the id, and identical otherwise. |
| TaskStore.WithoutKeepsUniqueIds | js/taskManager.js:104 | Removing tasks keeps ids unique. |
| TaskStore.TaskManager.DeleteTask | js/taskManager.js:102-117 | Returns true exactly when some task had the id. On success the survivors, in order, hold positions 0..n-1 and the store is saved. On failure nothing changes. Unique ids stay unique. |
| TaskStore.Renumber | js/taskManager.js:108-110 | The loop gives every task its index as position and changes nothing else. |
| TaskStore.ToggledIn | js/taskManager.js:124-136 | Keeps the length and the id of every index. |
| TaskStore.TaskManager.ToggleTaskCompletion | js/taskManager.js:124-136 | For an unknown id: None, and the snapshot is unchanged. Otherwise the first task with the id has `completed` flipped and `updatedAt = now`; it is returned and saved. Unique ids stay unique. |
| TaskStore.ToggleTwice | js/taskManager.js:124-136 | Two toggles restore the task list, except the refreshed `updatedAt` of the toggled task. |
| TaskStore.FindIndexSameIds | js/taskManager.js:45-47 | Lookups depend only on the ids, so edits that keep the ids keep every lookup. |
| TaskStore.FindIndexAppendFresh | js/taskManager.js:66 | After appending a task with a fresh id, that task is found at the end and every other lookup is unchanged. |
| TaskStore.FindIndexOfUnique | js/taskManager.js:45-47 | With unique ids, looking up a task's own id finds that task. |
| TaskStore.SetPosition | js/taskManager.js:214-217 | Only positions change. The first task with the pair's id takes the pair's position, and every other task keeps its own. |
| TaskStore.ApplyPositions | js/taskManager.js:213-218 | Applying the pairs in order keeps the length and changes only positions. |
| TaskStore.ApplyPositionsEffect | js/taskManager.js:212-221 | Only positions change. The first task holding an id named in the pairs takes the position of the last pair naming it. All other tasks keep their position: unknown ids are ignored and later duplicates are untouched. |
| TaskStore.TaskManager.UpdateTaskPositions | js/taskManager.js:212-221 | The loop leaves the tasks equal to the pairs applied in order, and saves them. Unique ids stay unique. |
| TaskStore.InsertByPosition | js/taskManager.js:228 | Inserting into a list sorted by position keeps it sorted and adds exactly that task. |
| TaskStore.SortByPosition | js/taskManager.js:228 | The result is sorted by non-decreasing position and is a permutation of the input. |
| TaskStore.InsertByPositionStable | js/taskManager.js:228 | An inserted task comes before every task of its own position already in the list, and the others keep their order. |
| TaskStore.SortByPositionStable | js/taskManager.js:228 | The sort is stable: the tasks that share a position come out in their input order, as the stable `sort` of ECMAScript 2019 and later orders them. |
| TaskStore.TaskManager.GetTasksSortedByPosition | js/taskManager.js:227-229 | A permutation of the tasks, in non-decreasing position. |
| TaskStore.TaskManager.GetAllTasks | js/taskManager.js:36-38 | The tasks of the store, in their order. |
| TaskStore.TaskManager.GetTasksByCategory | js/taskManager.js:143-148 | "all" gives the whole list. Any other category gives the order-preserving subsequence of exactly that category's tasks. Each kept task occurs as often as in the store. |
| TaskStore.TaskManager.GetTasksByCompletionStatus | js/taskManager.js:155-157 | The order-preserving subsequence of exactly the tasks with that completion flag. Each kept task occurs as often as in the store. |
| TaskStore.TaskManager.GetTasksByPriority | js/taskManager.js:164-166 | The order-preserving subsequence of exactly the tasks with that priority. Each kept task occurs as often as in the store. |
| TaskStore.TaskManager.GetTasksByDateRange | js/taskManager.js:174-181 | The order-preserving subsequence of exactly the dated tasks within both bounds, which are inclusive. Each kept task occurs as often as in the store. |
| TaskStore.TaskManager.SearchTasks | js/taskManager.js:188-197 | The empty query gives all tasks. Otherwise the order-preserving subsequence of exactly the tasks whose lower-cased title or description contains the lower-cased query. Each kept task occurs as often as in the store. |
| TaskStore.SearchFindsVerbatim | js/taskManager.js:188-197 | A task whose title or description contains the query verbatim is found, whatever the case of either. |
| TaskStore.SearchCaseInsensitive | js/taskManager.js:188-197 | Two queries that agree once lower-cased give the same result. |
| TaskStore.TaskManager.GetAllCategories | js/taskManager.js:203-206 | No duplicates. Exactly the categories some task has, in order of first occurrence. |
| TaskStore.TaskManager.GetTasksDueSoon | js/taskManager.js:236-248 | A subsequence of undone, dated tasks with `now < due <= now + hours`. It includes every such task. Each kept task occurs as often as in the store. |
| TaskStore.TaskManager.GetOverdueTasks | js/taskManager.js:254-263 | A subsequence of undone, dated tasks with `due < now`. It includes every such task. Each kept task occurs as often as in the store. |
| TaskStore.DueSoonOverdueDisjoint | js/taskManager.js:236-263 | No task is both due soon and overdue. |
| TaskStore.DueSoonExample | js/taskManager.js:236-248 | A single undone task due in one hour is due soon in a 24-hour window. Completed, it is neither due soon nor overdue. |
| TaskStore.OverdueAndCategoriesExample | js/taskManager.js:203-263 | An undated "shopping" task and an overdue "other" task: only the second is overdue, and the categories are ["shopping", "other"]. |
| Common.Filter | js/taskManager.js:104 | An order-preserving subsequence holding exactly the elements that satisfy the test. It equals the input when all do. |
| Common.FilterMultiset | js/taskManager.js:104 | Every occurrence of an element that passes is kept, and no occurrence of one that fails. |
| Common.Dedup | js/taskManager.js:205 | No duplicates and the same members as the input. |
| Common.DedupFirstOccurrenceOrder | js/taskManager.js:205 | The de-duplicated elements appear in the order of their first occurrence. |
| Common.SubseqTrans | js/filterManager.js:129-176 | A subsequence of a subsequence is a subsequence. This is what chains the filter stages. |
| Text.Lower | js/taskManager.js:191 | Keeps the length. No capital letter is left: each becomes its small letter, and every other character is kept. |
| Text.LowerIdempotent | js/taskManager.js:191-195 | Lower-casing twice is lower-casing once. |
| Text.ContainsLower | js/taskManager.js:191-195 | A verbatim occurrence is still an occurrence once text and query are lower-cased. |
| Text.Trim | js/uiManager.js:284-285 | The result is the slice of the input left once white space is cut from both ends. It is empty exactly when the text is all white space, and otherwise starts and ends with a character that is not white space. |
| Text.CapitalizeFirstLetter | js/uiManager.js:465-467 | "" gives "". Otherwise the first character is upper-cased, the rest is unchanged and the length is kept. |
| Text.CapitalizeIdempotent | js/filterManager.js:219-221 | Capitalising twice is the same as capitalising once. |
| Text.NatToString | js/uiManager.js:426 | Decimal digits that denote the number, with no leading zero. |
| Filtering.StatusFilter | js/filterManager.js:131-145 | A subsequence keeping exactly the tasks the status selection admits. Each kept task occurs as often as in the input. |
| Filtering.CategoryFilter | js/filterManager.js:147-152 | A subsequence keeping exactly the tasks the category selection admits. Each kept task occurs as often as in the input. |
| Filtering.DateFilter | js/filterManager.js:154-176 | A subsequence keeping exactly the tasks between the set bounds, in each of its three branches. Each kept task occurs as often as in the input. |
| Filtering.ApplyFilters | js/filterManager.js:129-176 | An order-preserving subsequence of the snapshot holding exactly the tasks all three stages admit. Each kept task occurs as often as in the input. |
| Filtering.NoStatusSelectedIsEmpty | js/filterManager.js:142-144 | With no status ticked, the result is empty. |
| Filtering.ActiveAndCompletedIsEmpty | js/filterManager.js:133-139 | With "active" and "completed" but not "all", the result is empty. |
| Filtering.AllSelectedKeepsEverything | js/filterManager.js:129-176 | "all" for status and category, and no dates, give the whole snapshot in order. |
| Filtering.CategorySelectionIsExact | js/filterManager.js:148-152 | Without "all", exactly the tasks of the selected categories are kept, and an empty selection keeps none. |
| Filtering.BoundExcludesUndated | js/filterManager.js:155-176 | With any date bound set, undated tasks are excluded. |
| Filtering.BoundsAreInclusive | js/filterManager.js:155-175 | A task due exactly on a bound is kept. One due one millisecond outside is not. |
| DragDrop.MoveCard | js/dragDropManager.js:143-163 | The dragged card ends at the drop index, moving down or up. The new order is a permutation of the old, and removing the moved card from each leaves the same sequence. Cards outside the moved span stay put, and those inside shift by one. |
| DragDrop.NewPositions | js/dragDropManager.js:166-171 | The pairs are `{id: order[i], position: i}` for every index. |
| DragDrop.LastPositionOfNewPositions | js/dragDropManager.js:166-171 | The last pair naming an id carries that id's last index. An id that is not rendered is named by no pair. |
| DragDrop.ReorderTouchesOnlyVisible | js/dragDropManager.js:166-173 | With unique ids and distinct cards, every rendered task gets its index. Every task not rendered is unchanged. |
| DragDrop.MoveCardExample | js/dragDropManager.js:152-163 | Dragging the third of three cards onto the first gives the order c, a, b. |
| DragDrop.ReorderExample | js/dragDropManager.js:166-173 | The order c, a, b gives c position 0, a position 1 and b position 2. |
| DragDrop.DragDropManager.constructor | js/dragDropManager.js:5-13 | Starts with no dragged card. |
| DragDrop.DragDropManager.HandleDragStart | js/dragDropManager.js:42-56 | Remembers the card, unless the event target is not a task card. |
| DragDrop.DragDropManager.HandleDrop | js/dragDropManager.js:98-118 | It reorders exactly when there is a target and a dragged card and the two differ. Then the new order is the moved one and the store gets its dense positions. Otherwise the cards and the store are unchanged. Unique ids stay unique. |
| DragDrop.DragDropManager.HandleDragEnd | js/dragDropManager.js:124-136 | Forgets the dragged card. |
| DragDrop.DragDropManager.ReorderTasks | js/dragDropManager.js:143-174 | The new card order is the moved one, and the store becomes the old tasks with the dense pairs for that order applied. Unique ids stay unique. |
| Ui.ReplaceAll | js/uiManager.js:453 | Leaves text without the character unchanged. |
| Ui.ReplaceAllAppend | js/uiManager.js:453-457 | A global replacement distributes over concatenation. |
| Ui.EscapeHtmlIsPerChar | js/uiManager.js:451-458 | The five chained replacements escape each character on its own, ampersand first. |
| Ui.EscapeHtmlAppend | js/uiManager.js:451-458 | Escaping distributes over concatenation. |
| Ui.EscapeHtml | js/uiManager.js:451-458 | Text without any of the five special characters is unchanged. |
| Ui.EscapeHtmlIsSafe | js/uiManager.js:451-458 | The output has no raw `<`, `>`, `"` or `'`, and every `&` in it starts one of the five entities. |
| Ui.EscapeChar | js/uiManager.js:453-457 | An ordinary character stands for itself. |
| Ui.EscapeCharShape | js/uiManager.js:453-457 | The escape of one character has no raw special character other than a leading `&`, and a string with that `&` is one of the five entities. |
| Ui.CategoryColor | js/uiManager.js:102-119 | It gives '96, 125, 139' exactly for categories outside the four known ones. |
| Ui.CategoryColorsDistinct | js/uiManager.js:103-116 | The four known categories have four different colours. |
| Ui.PriorityColor | js/uiManager.js:121-135 | It gives the medium colour exactly for priorities other than low and high. |
| Ui.DueDateSuffix | js/uiManager.js:142-157 | The suffix " (Overdue)" appears exactly for the tasks the store reports as overdue, and is "" otherwise. |
| Ui.Plural | js/uiManager.js:426-427 | It is "s" exactly when the count exceeds 1, and "" otherwise. |
| Ui.OverdueMessage | js/uiManager.js:426-428 | The message starts with "You have " and the count, and ends in 's' exactly when the count exceeds 1. |
| Ui.DueSoonMessage | js/uiManager.js:438-440 | "You have ", the count and " task", then 's' exactly when the count exceeds 1, then " due within 24 hours". |
| Ui.EditFromForm | js/uiManager.js:284-314 | An edit stores the trimmed title and description and the chosen category, priority and due date, a cleared date included. It refreshes `updatedAt` and keeps every other field, completion and position included. |
| Ui.AddAndEditAgree | js/uiManager.js:304-324 | The same form data goes to `addTask` and `updateTask`: an edited task and the input of an add agree on title, description, due date, category and priority. |
| Ui.SubmitNotice | js/uiManager.js:294-330 | A toast is shown except after an update of an id that no longer exists. |
| Ui.UiManager.HandleTaskFormSubmit | js/uiManager.js:280-330 | A title that is empty after trimming is rejected and the store is not touched. Otherwise a form with a task id updates that task with the trimmed title and description and the chosen fields, keeping completion and position. A form without one adds a task with the trimmed fields. |
| Ui.UiManager.CheckTaskReminders | js/uiManager.js:420-444 | Each reminder is present exactly when some task is overdue, or due within 24 hours, and it carries the count of those tasks. |
| Theme.EnableDark | js/themeManager.js:64-69 | Dark on, with "true" stored. |
| Theme.EnableLight | js/themeManager.js:74-79 | Dark off, with "false" stored. |
| Theme.Init | js/themeManager.js:25-32 | Dark exactly when "true" was saved, or when nothing was saved and the system prefers dark. The stored value then agrees with the theme. |
| Theme.Toggle | js/themeManager.js:53-59 | Flips the dark flag, and the stored value agrees with it. |
| Theme.ToggleTwice | js/themeManager.js:53-79 | Two toggles restore a consistent state. |
| Theme.SystemChange | js/themeManager.js:38-47 | A system change takes effect only while nothing is stored. |
| Theme.RunConsistent | js/themeManager.js:35-79 | From a consistent state, any clicks and system changes keep it consistent, and the theme flips once per click. |
| Theme.SystemChangeAfterInitIgnored | js/themeManager.js:25-47 | After `init`, whatever happens next, a system change has no effect. |
| Theme.ThemeManager.constructor | js/themeManager.js:5-32 | The state is the one `init` computes. |
| Theme.ThemeManager.EnableDarkTheme | js/themeManager.js:64-69 | The state becomes dark with "true" stored. |
| Theme.ThemeManager.EnableLightTheme | js/themeManager.js:74-79 | The state becomes light with "false" stored. |
| Theme.ThemeManager.ToggleTheme | js/themeManager.js:53-59 | The new state is the toggle of the old one. |
| Theme.ThemeManager.OnSystemChange | js/themeManager.js:38-47 | The new state is the system change applied to the old one. |

## Left out

- Storage: `localStorage` reads and writes and JSON encoding are left out (js/taskManager.js:13-30). They are calls into storage. A ghost field `saved` records the snapshot each mutator writes. The constructor receives the stored list already parsed, with a corrupt entry as a case of its own.
- Ids and clocks: `crypto.randomUUID` and `new Date()` become parameters. `AddTask` requires the id to be fresh, which a random UUID is assumed to be.
- Timestamps: ISO date strings and `Date` objects become integer milliseconds.
- Text.Lower: uses an ASCII case map, not Unicode `toLowerCase`. `Text.CapitalizeFirstLetter` likewise uses ASCII `toUpperCase`.
- The DOM: element construction, `innerHTML` templates, `classList` changes, icons, event-listener wiring and `renderTasks` are left out, because they are DOM work.
- `findTaskCard`: its DOM walk is left out. Cards are indices into the rendered id order, and the drop handler receives the target card or None.
- Timers, toasts and modals: `setTimeout`, `setInterval`, the toast display and `openTaskModal`/`closeTaskModal` are left out. The files js/notificationManager.js and js/app.js are not part of this model; they hold wiring and display only.
- Dates on cards: locale formatting with `toLocaleDateString` is left out. Only the overdue suffix is modelled, in `Ui.DueDateSuffix`.
- Filter bounds: the end-of-day adjustment `setHours(23, 59, 59, 999)` of the upper bound depends on the time zone. The upper bound is taken as already adjusted.
- Filter inputs: the checkbox and date-picker reads in `applyFilters`, `resetFilters` and `updateCategoryFilters` are left out, because they are DOM work. The filters receive the selections as parameters.
- `confirm()` and the interface wrappers: the dialog before deleting, and the interface wrappers of delete and toggle, which only re-style a card and show a toast, are left out. The store-level operations are modelled.
- `handleSearch`: only trims the query and passes it to `searchTasks`, and both of those are modelled.
- Patches: a record `Patch` has no `id` or `createdAt` field. The interface never sends them, so overwriting a task's id through `updateTask` is not modelled.
- Aliasing: tasks are values. In the source, `getTaskById`, `getAllTasks` and the queries return the stored objects themselves, so a caller could mutate the store through them. The model does not capture that sharing.
- Time order: `updatedAt >= createdAt` is not stated, because it needs a clock that never goes back and the clock is a parameter.
- TaskStore.TaskManager.UpdateTaskPositions: accepts any pairs, as the source does. The dense positions come from `DragDrop.NewPositions`. When only some tasks are rendered, the hidden tasks keep their old positions and may then tie with rendered ones; `DragDrop.ReorderTouchesOnlyVisible` states exactly what happens.
- Reminder strings: the messages are modelled character for character. The toast type and icon are left out.
