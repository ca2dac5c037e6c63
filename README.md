# Todo app core in Dafny

This project models the parts of a small React to-do application that hold
logic of their own, and proves what that logic guarantees. The rest of the
app is rendering and calls to a hosted table.

- **The visible list** (`filteredTodos` in `src/App.jsx`). It is derived by
  two chained `filter` passes. The status pass keeps open items for
  `'active'`, done items for `'completed'` and every item for any other
  value. The text pass keeps items whose lower-cased title includes the
  lower-cased search string.
- **Toggling** (`toggleTodo`). It finds the first item with the id. If there
  is none it does nothing. Otherwise it issues an update that sets
  `completed` to the negation of that item's flag.
- **Adding** (`addTodo`). It builds the new record (`completed = false`, the
  placeholder owner `'demo-user'`, the creation time, the optional
  reminder). After a successful insert it considers a reminder timer.
- **Reminder scheduling** (`scheduleNotification`). A timer is set only when
  `reminderAt - now` is positive, and that difference is its delay.
- **The input form for new todos** (`src/components/TodoInput.jsx`). It has three
  state cells (`title`, `reminderDate`, `showReminder`), two edit events and
  the bell button. Submit refuses a title that is blank after `trim()`.
  Otherwise it calls `onAdd` with the untrimmed title and the reminder, and
  resets all three cells.

Modules, one per concern:

| file | module | models |
|---|---|---|
| `wrappers.dfy` | `Wrappers` | `Option`, for JavaScript `undefined` and nullable columns |
| `js_strings.dfy` | `JsStrings` | `toLowerCase` (ASCII letters), `includes`, `trim` (the exact ECMAScript whitespace set) |
| `js_arrays.dfy` | `JsArrays` | `Array.prototype.filter`, with the subsequence, membership and fusion lemmas |
| `app.dfy` | `App` | the visible list, toggle, new record, insert and reminder decision |
| `task_input.dfy` | `TaskInput` | the form's pure transitions (`Draft`) and the component as a class (`TodoInputForm`) |

The hosted table is an in-memory `seq<Todo>`. A backend call is a value
applied to that sequence: an `Update` for toggling, a `NewTodo` plus the
store-assigned key for inserting. The clock is a parameter (integer
milliseconds). An insert's outcome is also a parameter: the assigned key, or
`None` when the insert reported an error. Calls to the form's `onAdd` prop
are recorded in the field `added` of `TodoInputForm`.

Two behaviours of the code are worth stating explicitly:

- `src/components/SearchFilter.jsx:26` only offers `'all'`, `'active'` and
  `'completed'`. The status pass keeps every item for any value other than
  `'active'` and `'completed'` (`App.OtherFilterKeepsAll`).
- `addTodo` does not check the title. Only the form's guard does
  (`TaskInput.Submit`).

## Model

| member | source | states |
|---|---|---|
| `JsStrings.Lower` | src/App.jsx:125 | `toLowerCase` keeps the length and lower-cases every character: ASCII capitals become their small letters and all other characters are kept |
| `JsStrings.LowerIdempotent` | src/App.jsx:125 | lower-casing an already lower-cased string changes nothing |
| `JsStrings.Includes` | src/App.jsx:125 | `includes` is false when the needle is longer than the haystack, and true when the needle ends the haystack (the empty needle included) |
| `JsStrings.OccursPastFirst` | src/App.jsx:125 | when the needle is not a prefix, it occurs in the haystack iff it occurs after the first character; this is the step of the scan |
| `JsStrings.IncludesIffOccurs` | src/App.jsx:125 | the position-by-position `includes` is true exactly when the needle occurs as a contiguous slice at some index (both directions) |
| `JsStrings.IncludesEmpty` | src/App.jsx:125 | every string includes the empty string |
| `JsStrings.NotIncludedWithoutFirstChar` | src/App.jsx:125 | a non-empty needle whose first character does not occur in the haystack is not included |
| `JsStrings.IsWhitespace` | src/components/TodoInput.jsx:11 | the characters `trim` removes: ECMAScript WhiteSpace (TAB, VT, FF, SPACE, NBSP, ZWNBSP, the Zs space separators) and LineTerminator (LF, CR, LS, PS); its contract states that among ASCII characters these are exactly space and U+0009 to U+000D |
| `JsStrings.SkipBlanks` | src/components/TodoInput.jsx:11 | the leading scan of `trim`: the result is the first non-whitespace index, and only whitespace lies before it |
| `JsStrings.SkipBlanksBack` | src/components/TodoInput.jsx:11 | the trailing scan of `trim`: only whitespace lies after the result, and the character before it is not whitespace |
| `JsStrings.Trim` | src/components/TodoInput.jsx:11 | `trim()` returns a contiguous slice of its input, with only whitespace before and after it and no whitespace at either of its ends |
| `JsStrings.TrimEmptyIffAllWhitespace` | src/components/TodoInput.jsx:11 | `trim()` is empty exactly when every character is whitespace |
| `JsArrays.Filter` | src/App.jsx:118-126 | `filter` returns at most as many elements, each present in the input and satisfying the callback |
| `JsArrays.FilterIsSubsequence` | src/App.jsx:118-126 | a filter result is the input with elements deleted and relative order kept |
| `JsArrays.FilterMembership` | src/App.jsx:118-126 | an element is in the result iff it is in the input and satisfies the callback |
| `JsArrays.FilterCount` | src/App.jsx:118-126 | each surviving value keeps its multiplicity; rejected values occur zero times |
| `JsArrays.FilterKeepsAll` | src/App.jsx:122 | a callback true on every element returns the input unchanged |
| `JsArrays.FilterAgree` | src/App.jsx:118-126 | callbacks that agree on the input's elements give the same result |
| `JsArrays.FilterAppend` | src/App.jsx:118-126 | filtering a concatenation is the concatenation of the filtered parts |
| `JsArrays.FilterFuse` | src/App.jsx:118-126 | two chained filters equal one filter by the conjunction of their callbacks |
| `JsArrays.FilterCommute` | src/App.jsx:118-126 | the order of two chained filters does not change the result |
| `App.StatusKeeps` | src/App.jsx:119-123 | the first callback: under `'active'` an item is kept only if not completed, under `'completed'` only if completed, and under any other value always |
| `App.TitleMatches` | src/App.jsx:124-125 | the second callback: a search longer than the title never matches, and the empty search always matches |
| `App.VisibleTodos` | src/App.jsx:118-126 | the visible list is never longer than `todos` |
| `App.VisibleIsOneFilter` | src/App.jsx:118-126 | the two passes equal one filter by "status keeps it and the title matches", with the same order and multiplicities |
| `App.VisibleIsSubsequence` | src/App.jsx:118-126 | the visible list is a subsequence of `todos` with relative order preserved |
| `App.VisibleMembership` | src/App.jsx:118-126 | an item is visible iff it is in `todos`, the status pass keeps it and its title matches; a visible item appears as often as in `todos` |
| `App.ActiveMembership` | src/App.jsx:119-125 | with filter `'active'` an item is visible iff it is in `todos`, not completed and its title matches |
| `App.CompletedMembership` | src/App.jsx:119-125 | with filter `'completed'` an item is visible iff it is in `todos`, completed and its title matches |
| `App.OtherFilterKeepsAll` | src/App.jsx:119-123 | any filter value other than `'active'` and `'completed'` makes the status pass return `todos` |
| `App.EmptySearchMatches` | src/App.jsx:124-125 | the empty search string matches every title |
| `App.ShowAllIsIdentity` | src/App.jsx:118-126 | filter `'all'` (or any non-status value) with search `''` shows exactly `todos` |
| `App.MatchIsCaseInsensitive` | src/App.jsx:124-125 | a title matches iff its lower-cased form contains the lower-cased search as a substring; lower-casing the search or the title first gives the same answer |
| `App.SearchIgnoresCase` | src/App.jsx:124-125 | searching for the lower-cased search text shows the same list as the original text, for every list and filter |
| `App.PassOrderIrrelevant` | src/App.jsx:118-126 | running the text pass before the status pass gives the same list |
| `App.ExampleActive` | src/App.jsx:118-126 | `[Buy milk (open), Pay rent (done)]` with `'active'` and `''` shows `[Buy milk]` |
| `App.ExampleSearch` | src/App.jsx:118-126 | the same list with `'all'` and `'pay'` shows `[Pay rent]` |
| `App.ExampleTitles` | src/App.jsx:125 | `'pay'` matches `'Pay rent'` case-insensitively and does not match `'Buy milk'` |
| `App.FindFirst` | src/App.jsx:66 | `find` by id is absent iff no item has the id; otherwise it gives an index holding the id with no earlier index holding it |
| `App.ToggleRequest` | src/App.jsx:64-72 | no update iff no item has the id; otherwise an update for that id whose `completed` is the negation of the first match's flag |
| `App.ApplyUpdate` | src/App.jsx:69-72 | an update by id sets `completed` on the rows with that id and leaves every other row as it was |
| `App.Toggled` | src/App.jsx:64-76 | the table after a toggle: unchanged for an absent id; otherwise the same length, and every row keeps all fields but `completed`, which stays the same on rows with another id |
| `App.ToggleAbsentIsNoop` | src/App.jsx:66-67 | toggling an id not present issues no update and leaves `todos` unchanged |
| `App.ToggleRequestsFirstMatch` | src/App.jsx:66-71 | if index `k` is the first with the id, the update sets `completed := !todos[k].completed` |
| `App.TogglePresentFlips` | src/App.jsx:64-72 | with distinct ids, toggling flips the flag of the one item with that id and changes no other item |
| `App.ToggleTwiceRestores` | src/App.jsx:64-72 | with distinct ids, toggling the same id twice restores the table |
| `App.NewRecord` | src/App.jsx:41-47 | the new record keeps the title and creation time, has `completed = false` and owner `'demo-user'`, and its reminder is absent iff none was given (otherwise it is that reminder) |
| `App.Stored` | src/App.jsx:49 | the stored row carries the store-assigned key, and dropping the key gives back exactly the inserted record |
| `App.InsertRow` | src/App.jsx:49 | an insert adds one row first, under the new key and holding exactly the record, and keeps every old row in order after it |
| `App.InsertKeepsUniqueIds` | src/App.jsx:49 | inserting under a fresh key keeps the keys distinct |
| `App.InsertThenFind` | src/App.jsx:41-49 | after an insert under a fresh key, finding that key gives the new row, which has the submitted title, `completed = false`, the creation time, the reminder and the owner |
| `App.NewItemIsActive` | src/App.jsx:41-47 | a new item whose title matches the search shows under `'active'` and not under `'completed'` |
| `App.ScheduleDelay` | src/App.jsx:102-106 | a timer is scheduled iff `reminderAt - now > 0`; its delay is positive and makes it fire exactly at `reminderAt` |
| `App.AddTodo` | src/App.jsx:39-62 | a failed insert changes nothing and schedules nothing; a successful one prepends the new row under the assigned key; a timer exists iff the insert succeeded and a future reminder was given, and it fires at the reminder |
| `TaskInput.IsBlank` | src/components/TodoInput.jsx:11 | the guard `!title.trim()` holds iff the leading whitespace scan reaches the end of the title |
| `TaskInput.BlankIffAllWhitespace` | src/components/TodoInput.jsx:11 | the guard `!title.trim()` holds iff the title is empty or all whitespace |
| `TaskInput.EmittedReminder` | src/components/TodoInput.jsx:13 | the emitted reminder is absent iff `reminderDate` is `''`, and otherwise carries that value |
| `TaskInput.EditTitle` | src/components/TodoInput.jsx:25 | a title edit sets the title to the new value and leaves the other two cells alone |
| `TaskInput.EditReminderDate` | src/components/TodoInput.jsx:49 | a reminder edit sets `reminderDate` to the new value and leaves the other two cells alone |
| `TaskInput.PressBell` | src/components/TodoInput.jsx:31 | the bell flips `showReminder` and leaves the other two cells alone |
| `TaskInput.Submit` | src/components/TodoInput.jsx:9-17 | no event iff the title is blank, and then nothing changes; otherwise one event carrying the untrimmed title and the reminder (absent iff `reminderDate` is `''`, else that value), and all cells reset |
| `TaskInput.SubmitRefusesWhitespace` | src/components/TodoInput.jsx:11 | an empty or whitespace-only title emits nothing and leaves all three cells unchanged |
| `TaskInput.SubmitAcceptsText` | src/components/TodoInput.jsx:11-16 | a title with any non-whitespace character emits exactly the event `(title as typed, reminder)` and resets the form |
| `TaskInput.ResubmitEmitsNothing` | src/components/TodoInput.jsx:14-16 | right after an accepted submit, a second submit emits nothing |
| `TaskInput.HiddenReminderIsEmitted` | src/components/TodoInput.jsx:13-31 | a reminder typed and then hidden with the bell is still emitted, with a non-blank title: hiding the picker does not clear `reminderDate` |
| `TaskInput.BellTwiceRestores` | src/components/TodoInput.jsx:31 | pressing the bell twice restores every cell |
| `TaskInput.EditsAreIndependent` | src/components/TodoInput.jsx:25-49 | the last title edit wins, and title and reminder edits commute |
| `TaskInput.TodoInputForm.constructor` | src/components/TodoInput.jsx:5-7 | a new form has `title == ''`, `reminderDate == ''`, `showReminder == false` and has made no `onAdd` call |
| `TaskInput.TodoInputForm.SetTitle` | src/components/TodoInput.jsx:25 | the cells become `EditTitle` of the old cells; no `onAdd` call |
| `TaskInput.TodoInputForm.SetReminderDate` | src/components/TodoInput.jsx:49 | the cells become `EditReminderDate` of the old cells; no `onAdd` call |
| `TaskInput.TodoInputForm.ToggleReminder` | src/components/TodoInput.jsx:31 | the cells become `PressBell` of the old cells; no `onAdd` call |
| `TaskInput.TodoInputForm.HandleSubmit` | src/components/TodoInput.jsx:9-17 | accepts iff the old title is not all whitespace; the cells become `Submit`'s next state; exactly `Submit`'s event is appended to the `onAdd` calls on acceptance, and none on refusal |

## Left out

- Backend I/O is left out: the `select`/`insert`/`update`/`delete` calls, `fetchTodos` with its refetch after every change, its `created_at` descending order, and the `loading` flag. The table is an in-memory sequence, and the key of a new row is supplied by the caller.
- `deleteTodo` is left out. It is a single backend call with no logic of its own.
- Races between overlapping asynchronous handlers are left out, because the model has no concurrency.
- `App.Toggled`: describes a successful update applied to a table equal to the cached list. A failed update changes nothing and only shows a notice, which is not modelled.
- `App.AddTodo`: the refetch between the insert and the timer is left out. `fetchTodos` catches its own errors, so the timer decision does not depend on it.
- `setTimeout`, the `Notification` permission and display, and `setupNotifications` are left out; only the integer delay decision is kept. Browsers convert a delay to a signed 32-bit integer, so a delay over 2147483647 ms fires early; this is not modelled.
- Date handling is left out: `new Date(reminderDate)`, `toISOString()` and `getTime()`. Timestamps are integers, and the form emits the picker's raw string. An unparsable date string would make `toISOString()` throw inside `addTodo`; this is not modelled.
- `JsStrings.Lower`: lower-cases ASCII letters only. JavaScript's `toLowerCase` also maps non-ASCII letters, and can change a string's length.
- `TaskInput.TodoInputForm.SetReminderDate`: accepts a reminder edit in any state. The page renders the date picker only while `showReminder` is true, so the model allows more edit sequences than the page does. Every property proved holds for those extra sequences too.
- `e.preventDefault()`, toasts and `console` calls are left out, because they are presentational.
- `src/components/TodoList.jsx` and `src/components/SearchFilter.jsx` are left out. They only render their props and pass events up.
