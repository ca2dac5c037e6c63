/**
 * The application shell's logic: the list of visible todos, the toggle
 * request, the record built for an insert and the reminder-timer decision.
 * The hosted table is an in-memory sequence of rows; a backend call is a
 * request value applied to that sequence.
 */
module App {
  import opened Wrappers
  import opened JsStrings
  import opened JsArrays

  /** Store-assigned primary key of a row. */
  type Id = int

  /** Milliseconds since the epoch (`Date.prototype.getTime`). */
  type Timestamp = int

  /** A row of the `todos` table. */
  datatype Todo = Todo(
    id: Id,
    title: string,
    completed: bool,
    createdAt: Timestamp,
    reminderAt: Option<Timestamp>,
    userId: string)

  // ===========================================================================
  // The visible list
  // ===========================================================================

  /** The status pass: `'active'` keeps open items, `'completed'` done ones, any other value all. */
  predicate StatusKeeps(filter: string, todo: Todo)
    ensures StatusKeeps(filter, todo)
            <==> (filter == "active" ==> !todo.completed) && (filter == "completed" ==> todo.completed)
  {
    if filter == "active" then !todo.completed
    else if filter == "completed" then todo.completed
    else true
  }

  /** The text pass: the lower-cased title includes the lower-cased search string. */
  predicate TitleMatches(todo: Todo, search: string)
    ensures |search| > |todo.title| ==> !TitleMatches(todo, search)
    ensures search == "" ==> TitleMatches(todo, search)
  {
    Includes(Lower(todo.title), Lower(search))
  }

  /** The callback of the first `filter` call. */
  function StatusCallback(filter: string): Todo -> bool {
    t => StatusKeeps(filter, t)
  }

  /** The callback of the second `filter` call. */
  function TextCallback(search: string): Todo -> bool {
    t => TitleMatches(t, search)
  }

  function StatusPass(todos: seq<Todo>, filter: string): seq<Todo> {
    Filter(todos, StatusCallback(filter))
  }

  function TextPass(todos: seq<Todo>, search: string): seq<Todo> {
    Filter(todos, TextCallback(search))
  }

  /** `filteredTodos`: the status pass followed by the text pass. */
  function VisibleTodos(todos: seq<Todo>, filter: string, search: string): (r: seq<Todo>)
    ensures |r| <= |todos|
  {
    TextPass(StatusPass(todos, filter), search)
  }

  /** The one predicate the two passes amount to. */
  predicate Visible(todo: Todo, filter: string, search: string) {
    StatusKeeps(filter, todo) && TitleMatches(todo, search)
  }

  function VisibleCallback(filter: string, search: string): Todo -> bool {
    t => Visible(t, filter, search)
  }

  /** The two passes equal a single filter by the conjunction: same items, order and multiplicity. */
  lemma VisibleIsOneFilter(todos: seq<Todo>, filter: string, search: string)
    ensures VisibleTodos(todos, filter, search) == Filter(todos, VisibleCallback(filter, search))
  {
    FilterFuse(todos, StatusCallback(filter), TextCallback(search), VisibleCallback(filter, search));
  }

  /** The visible list is `todos` with items deleted and the relative order kept. */
  lemma VisibleIsSubsequence(todos: seq<Todo>, filter: string, search: string)
    ensures IsSubsequence(VisibleTodos(todos, filter, search), todos)
  {
    VisibleIsOneFilter(todos, filter, search);
    FilterIsSubsequence(todos, VisibleCallback(filter, search));
  }

  /** Exact membership, and each visible item appears as often as in `todos`. */
  lemma VisibleMembership(todos: seq<Todo>, filter: string, search: string, todo: Todo)
    ensures todo in VisibleTodos(todos, filter, search) <==> todo in todos && Visible(todo, filter, search)
    ensures multiset(VisibleTodos(todos, filter, search))[todo]
            == if Visible(todo, filter, search) then multiset(todos)[todo] else 0
  {
    VisibleIsOneFilter(todos, filter, search);
    FilterMembership(todos, VisibleCallback(filter, search), todo);
    FilterCount(todos, VisibleCallback(filter, search), todo);
  }

  /** Filter `'active'`: visible iff present, not completed, and the title matches. */
  lemma ActiveMembership(todos: seq<Todo>, search: string, todo: Todo)
    ensures todo in VisibleTodos(todos, "active", search)
            <==> todo in todos && !todo.completed && TitleMatches(todo, search)
  {
    VisibleMembership(todos, "active", search, todo);
  }

  /** Filter `'completed'`: visible iff present, completed, and the title matches. */
  lemma CompletedMembership(todos: seq<Todo>, search: string, todo: Todo)
    ensures todo in VisibleTodos(todos, "completed", search)
            <==> todo in todos && todo.completed && TitleMatches(todo, search)
  {
    VisibleMembership(todos, "completed", search, todo);
  }

  /** Any filter value other than `'active'` and `'completed'` lets the status pass keep everything. */
  lemma OtherFilterKeepsAll(todos: seq<Todo>, filter: string)
    requires filter != "active" && filter != "completed"
    ensures StatusPass(todos, filter) == todos
  {
    FilterKeepsAll(todos, StatusCallback(filter));
  }

  /** The empty search string matches every title. */
  lemma EmptySearchMatches(todo: Todo)
    ensures TitleMatches(todo, "")
  {
    IncludesEmpty(Lower(todo.title));
  }

  /** With filter `'all'` (or any non-status value) and search `''` the visible list is `todos`. */
  lemma ShowAllIsIdentity(todos: seq<Todo>, filter: string)
    requires filter != "active" && filter != "completed"
    ensures VisibleTodos(todos, filter, "") == todos
  {
    OtherFilterKeepsAll(todos, filter);
    forall i | 0 <= i < |todos| ensures TitleMatches(todos[i], "") {
      EmptySearchMatches(todos[i]);
    }
    FilterKeepsAll(todos, TextCallback(""));
  }

  /** Case-insensitive substring matching, stated against the reference meaning of `includes`. */
  lemma MatchIsCaseInsensitive(todo: Todo, search: string)
    ensures TitleMatches(todo, search) <==> Occurs(Lower(todo.title), Lower(search))
    ensures TitleMatches(todo, search) == TitleMatches(todo, Lower(search))
    ensures TitleMatches(todo, search) == TitleMatches(todo.(title := Lower(todo.title)), search)
  {
    IncludesIffOccurs(Lower(todo.title), Lower(search));
    LowerIdempotent(search);
    LowerIdempotent(todo.title);
  }

  /** The search box ignores case: searching for the lower-cased text shows the same list. */
  lemma SearchIgnoresCase(todos: seq<Todo>, filter: string, search: string)
    ensures VisibleTodos(todos, filter, Lower(search)) == VisibleTodos(todos, filter, search)
  {
    var kept := StatusPass(todos, filter);
    forall i | 0 <= i < |kept|
      ensures TextCallback(Lower(search))(kept[i]) == TextCallback(search)(kept[i])
    {
      MatchIsCaseInsensitive(kept[i], search);
    }
    FilterAgree(kept, TextCallback(Lower(search)), TextCallback(search));
  }

  /** Running the text pass first gives the same list. */
  lemma PassOrderIrrelevant(todos: seq<Todo>, filter: string, search: string)
    ensures VisibleTodos(todos, filter, search) == StatusPass(TextPass(todos, search), filter)
  {
    FilterCommute(todos, StatusCallback(filter), TextCallback(search));
  }

  // ===========================================================================
  // Toggling
  // ===========================================================================

  /** Primary keys are distinct. */
  ghost predicate UniqueIds(todos: seq<Todo>) {
    forall i, j :: 0 <= i < j < |todos| ==> todos[i].id != todos[j].id
  }

  /** Index of the record `todos.find(t => t.id === id)` returns: the first with that id. */
  function FindFirst(todos: seq<Todo>, id: Id): (r: Option<nat>)
    ensures r.None? <==> forall i :: 0 <= i < |todos| ==> todos[i].id != id
    ensures r.Some? ==> r.value < |todos| && todos[r.value].id == id
    ensures r.Some? ==> forall j :: 0 <= j < r.value ==> todos[j].id != id
  {
    if todos == [] then None
    else if todos[0].id == id then Some(0)
    else match FindFirst(todos[1..], id)
      case None => None
      case Some(k) => Some(k + 1)
  }

  /** `update({ completed }).eq('id', id)`. */
  datatype Update = SetCompleted(id: Id, completed: bool)

  /** The update `toggleTodo` issues: none if no item has the id, else the negated flag of the first one. */
  function ToggleRequest(todos: seq<Todo>, id: Id): (r: Option<Update>)
    ensures r.None? <==> forall i :: 0 <= i < |todos| ==> todos[i].id != id
    ensures r.Some? ==> FindFirst(todos, id).Some? && r.value.id == id
                        && r.value.completed == !todos[FindFirst(todos, id).value].completed
  {
    match FindFirst(todos, id)
    case None => None
    case Some(k) => Some(SetCompleted(id, !todos[k].completed))
  }

  /** The effect of an update on the table: every row with the id gets the new flag. */
  function ApplyUpdate(store: seq<Todo>, u: Update): (r: seq<Todo>)
    ensures |r| == |store|
    ensures forall i :: 0 <= i < |store| && store[i].id != u.id ==> r[i] == store[i]
    ensures forall i :: 0 <= i < |store| && store[i].id == u.id ==> r[i] == store[i].(completed := u.completed)
  {
    seq(|store|, i requires 0 <= i < |store| =>
      if store[i].id == u.id then store[i].(completed := u.completed) else store[i])
  }

  /**
   * The table after `toggleTodo(id)` when the cached list is the table itself:
   * unchanged for an absent id, and otherwise the same rows with at most their
   * `completed` flags changed.
   */
  function Toggled(todos: seq<Todo>, id: Id): (r: seq<Todo>)
    ensures (forall i :: 0 <= i < |todos| ==> todos[i].id != id) ==> r == todos
    ensures |r| == |todos|
    ensures forall i :: 0 <= i < |todos| ==> r[i] == todos[i].(completed := r[i].completed)
    ensures forall i :: 0 <= i < |todos| && todos[i].id != id ==> r[i] == todos[i]
  {
    match ToggleRequest(todos, id)
    case None => todos
    case Some(u) => ApplyUpdate(todos, u)
  }

  /** Toggling an absent id issues no request and changes nothing. */
  lemma ToggleAbsentIsNoop(todos: seq<Todo>, id: Id)
    requires forall i :: 0 <= i < |todos| ==> todos[i].id != id
    ensures ToggleRequest(todos, id) == None
    ensures Toggled(todos, id) == todos
  {
  }

  /** Toggling requests the negation of the first matching item's flag. */
  lemma ToggleRequestsFirstMatch(todos: seq<Todo>, id: Id, k: nat)
    requires k < |todos| && todos[k].id == id
    requires forall j :: 0 <= j < k ==> todos[j].id != id
    ensures ToggleRequest(todos, id) == Some(SetCompleted(id, !todos[k].completed))
  {
  }

  /** With distinct ids, toggling flips exactly the flag of the item with that id. */
  lemma TogglePresentFlips(todos: seq<Todo>, id: Id, k: nat)
    requires UniqueIds(todos)
    requires k < |todos| && todos[k].id == id
    ensures |Toggled(todos, id)| == |todos|
    ensures Toggled(todos, id)[k] == todos[k].(completed := !todos[k].completed)
    ensures forall j :: 0 <= j < |todos| && j != k ==> Toggled(todos, id)[j] == todos[j]
  {
    ToggleRequestsFirstMatch(todos, id, k);
  }

  /** With distinct ids, toggling the same id twice restores the table. */
  lemma ToggleTwiceRestores(todos: seq<Todo>, id: Id)
    requires UniqueIds(todos)
    ensures Toggled(Toggled(todos, id), id) == todos
  {
    match FindFirst(todos, id)
    case None =>
    case Some(k) =>
      TogglePresentFlips(todos, id, k);
      var once := Toggled(todos, id);
      assert UniqueIds(once) by {
        forall i, j | 0 <= i < j < |once| ensures once[i].id != once[j].id {
          assert once[i].id == todos[i].id && once[j].id == todos[j].id;
        }
      }
      TogglePresentFlips(once, id, k);
  }

  // ===========================================================================
  // Adding
  // ===========================================================================

  /** The placeholder owner every new row carries. */
  const DemoUser: string := "demo-user"

  /** The record `addTodo` inserts; the store adds the id. */
  datatype NewTodo = NewTodo(
    title: string,
    completed: bool,
    createdAt: Timestamp,
    reminderAt: Option<Timestamp>,
    userId: string)

  /** The record built at `now` for a title and an optional reminder. */
  function NewRecord(title: string, reminderAt: Option<Timestamp>, now: Timestamp): (r: NewTodo)
    ensures r.title == title && r.createdAt == now
    ensures !r.completed
    ensures r.userId == DemoUser
    ensures r.reminderAt.None? <==> reminderAt.None?
    ensures reminderAt.Some? ==> r.reminderAt == reminderAt
  {
    NewTodo(title, false, now, reminderAt, DemoUser)
  }

  /** The row the table holds after inserting `rec` under the fresh key `id`: the record plus the key. */
  function Stored(rec: NewTodo, id: Id): (r: Todo)
    ensures r.id == id
    ensures NewTodo(r.title, r.completed, r.createdAt, r.reminderAt, r.userId) == rec
  {
    Todo(id, rec.title, rec.completed, rec.createdAt, rec.reminderAt, rec.userId)
  }

  /** The table after an insert: the new row first (newest first), then every old row in order. */
  function InsertRow(store: seq<Todo>, rec: NewTodo, id: Id): (r: seq<Todo>)
    ensures |r| == |store| + 1
    ensures r[0].id == id && NewTodo(r[0].title, r[0].completed, r[0].createdAt, r[0].reminderAt, r[0].userId) == rec
    ensures r[1..] == store
  {
    [Stored(rec, id)] + store
  }

  /** Inserting under a fresh key keeps the keys distinct. */
  lemma InsertKeepsUniqueIds(store: seq<Todo>, rec: NewTodo, id: Id)
    requires UniqueIds(store)
    requires forall i :: 0 <= i < |store| ==> store[i].id != id
    ensures UniqueIds(InsertRow(store, rec, id))
  {
    var r := InsertRow(store, rec, id);
    forall i, j | 0 <= i < j < |r| ensures r[i].id != r[j].id {
      if i > 0 {
        assert r[i] == store[i - 1] && r[j] == store[j - 1];
      }
    }
  }

  /** Round trip: looking up the new key gives the submitted title, flags and timestamps. */
  lemma InsertThenFind(store: seq<Todo>, title: string, reminderAt: Option<Timestamp>, now: Timestamp, id: Id)
    requires forall i :: 0 <= i < |store| ==> store[i].id != id
    ensures FindFirst(InsertRow(store, NewRecord(title, reminderAt, now), id), id) == Some(0)
    ensures InsertRow(store, NewRecord(title, reminderAt, now), id)[0]
            == Todo(id, title, false, now, reminderAt, DemoUser)
  {
  }

  /** A new item is open: it shows under `'active'` and not under `'completed'` whenever its title matches. */
  lemma NewItemIsActive(store: seq<Todo>, title: string, reminderAt: Option<Timestamp>, now: Timestamp, id: Id, search: string)
    requires Includes(Lower(title), Lower(search))
    ensures Stored(NewRecord(title, reminderAt, now), id) in VisibleTodos(InsertRow(store, NewRecord(title, reminderAt, now), id), "active", search)
    ensures Stored(NewRecord(title, reminderAt, now), id) !in VisibleTodos(InsertRow(store, NewRecord(title, reminderAt, now), id), "completed", search)
  {
    var row := Stored(NewRecord(title, reminderAt, now), id);
    var after := InsertRow(store, NewRecord(title, reminderAt, now), id);
    assert after[0] == row;
    ActiveMembership(after, search, row);
    CompletedMembership(after, search, row);
  }

  // ===========================================================================
  // Reminders
  // ===========================================================================

  /** `scheduleNotification`: a timer with delay `reminderAt - now` only when that is positive. */
  function ScheduleDelay(reminderAt: Timestamp, now: Timestamp): (r: Option<nat>)
    ensures r.Some? <==> reminderAt - now > 0
    ensures r.Some? ==> r.value > 0 && now + r.value == reminderAt
  {
    var delay := reminderAt - now;
    if delay > 0 then Some(delay) else None
  }

  /** What a completed insert leads to: the new table and the reminder timer, if any. */
  datatype AddOutcome = AddOutcome(store: seq<Todo>, timer: Option<nat>)

  /**
   * `addTodo(title, reminderAt)`: the record is built at `createdAt`; `inserted` is the key
   * the store assigned, or `None` when the insert reported an error; on success a timer is
   * considered when a reminder was given, against the clock reading `scheduledAt`.
   */
  function AddTodo(store: seq<Todo>, title: string, reminderAt: Option<Timestamp>,
                   createdAt: Timestamp, inserted: Option<Id>, scheduledAt: Timestamp): (o: AddOutcome)
    ensures inserted.None? ==> o.store == store && o.timer.None?
    ensures inserted.Some? ==> o.store == [Todo(inserted.value, title, false, createdAt, reminderAt, DemoUser)] + store
    ensures o.timer.Some? <==> inserted.Some? && reminderAt.Some? && reminderAt.value > scheduledAt
    ensures o.timer.Some? ==> scheduledAt + o.timer.value == reminderAt.value
  {
    match inserted
    case None => AddOutcome(store, None)
    case Some(id) =>
      var timer := match reminderAt
        case None => None
        case Some(at) => ScheduleDelay(at, scheduledAt);
      AddOutcome(InsertRow(store, NewRecord(title, reminderAt, createdAt), id), timer)
  }

  // ===========================================================================
  // Worked examples
  // ===========================================================================

  lemma ExampleActive()
    ensures VisibleTodos([Todo(1, "Buy milk", false, 0, None, DemoUser), Todo(2, "Pay rent", true, 0, None, DemoUser)], "active", "")
            == [Todo(1, "Buy milk", false, 0, None, DemoUser)]
  {
    var milk := Todo(1, "Buy milk", false, 0, None, DemoUser);
    var rent := Todo(2, "Pay rent", true, 0, None, DemoUser);
    assert StatusPass([milk, rent], "active") == [milk] by {
      var p := StatusCallback("active");
      assert [milk, rent][1..] == [rent] && [rent][1..] == [];
      assert Filter([rent], p) == [] + Filter([], p);
      assert Filter([milk, rent], p) == [milk] + Filter([rent], p);
    }
    EmptySearchMatches(milk);
    FilterKeepsAll([milk], TextCallback(""));
  }

  lemma ExampleSearch()
    ensures VisibleTodos([Todo(1, "Buy milk", false, 0, None, DemoUser), Todo(2, "Pay rent", true, 0, None, DemoUser)], "all", "pay")
            == [Todo(2, "Pay rent", true, 0, None, DemoUser)]
  {
    var milk := Todo(1, "Buy milk", false, 0, None, DemoUser);
    var rent := Todo(2, "Pay rent", true, 0, None, DemoUser);
    OtherFilterKeepsAll([milk, rent], "all");
    ExampleTitles();
    var q := TextCallback("pay");
    assert [milk, rent][1..] == [rent] && [rent][1..] == [];
    assert Filter([rent], q) == [rent] + Filter([], q);
    assert Filter([milk, rent], q) == [] + Filter([rent], q);
  }

  /** "pay" matches "Pay rent" regardless of case, and does not occur in "Buy milk". */
  lemma ExampleTitles()
    ensures Includes(Lower("Pay rent"), Lower("pay"))
    ensures !Includes(Lower("Buy milk"), Lower("pay"))
  {
    assert Lower("pay") == "pay";
    assert Lower("Pay rent") == "pay rent";
    assert "pay rent"[..3] == "pay";
    assert Lower("Buy milk") == "buy milk";
    NotIncludedWithoutFirstChar("buy milk", "pay");
  }
}
