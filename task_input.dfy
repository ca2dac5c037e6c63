/**
 * The input form for new todos: three state cells (`title`, `reminderDate`,
 * `showReminder`), edit events, the bell button and the guarded submit that
 * calls `onAdd` and resets the form. The pure transitions on `Draft` are the
 * specification; the class `TodoInputForm` is the component, which records
 * each `onAdd` call it makes.
 */
module TaskInput {
  import opened Wrappers
  import opened JsStrings

  /** One call `onAdd(title, reminder)`; the reminder is the picker's raw value, before date parsing. */
  datatype AddEvent = AddEvent(title: string, reminder: Option<string>)

  /** The values of the three state cells. */
  datatype Draft = Draft(title: string, reminderDate: string, showReminder: bool)

  /** The cells' initial values, and the values a successful submit restores. */
  const Initial: Draft := Draft("", "", false)

  /** `!title.trim()`: nothing is left once surrounding whitespace is removed, i.e. the leading scan reaches the end. */
  predicate IsBlank(title: string)
    ensures IsBlank(title) <==> SkipBlanks(title, 0) == |title|
  {
    Trim(title) == ""
  }

  /** A title is blank exactly when it is empty or made only of whitespace. */
  lemma BlankIffAllWhitespace(title: string)
    ensures IsBlank(title) <==> AllWhitespace(title)
  {
    TrimEmptyIffAllWhitespace(title);
  }

  /** `reminderDate ? new Date(reminderDate) : undefined`, before the parse. */
  function EmittedReminder(reminderDate: string): (r: Option<string>)
    ensures r.None? <==> reminderDate == ""
    ensures r.Some? ==> r.value == reminderDate
  {
    if reminderDate == "" then None else Some(reminderDate)
  }

  // ---------------------------------------------------------------------------
  // Transitions
  // ---------------------------------------------------------------------------

  /** The title input's `onChange`. */
  function EditTitle(d: Draft, value: string): (r: Draft)
    ensures r.title == value
    ensures r.reminderDate == d.reminderDate && r.showReminder == d.showReminder
  {
    d.(title := value)
  }

  /** The reminder picker's `onChange`. */
  function EditReminderDate(d: Draft, value: string): (r: Draft)
    ensures r.reminderDate == value
    ensures r.title == d.title && r.showReminder == d.showReminder
  {
    d.(reminderDate := value)
  }

  /** The bell button: `setShowReminder(!showReminder)`. */
  function PressBell(d: Draft): (r: Draft)
    ensures r.showReminder != d.showReminder
    ensures r.title == d.title && r.reminderDate == d.reminderDate
  {
    d.(showReminder := !d.showReminder)
  }

  /** What `handleSubmit` leaves behind: the next cell values and the `onAdd` call, if one was made. */
  datatype Submitted = Submitted(next: Draft, event: Option<AddEvent>)

  /** `handleSubmit`: refuse a blank title; otherwise emit the untrimmed title and the reminder, and reset. */
  function Submit(d: Draft): (o: Submitted)
    ensures o.event.None? <==> IsBlank(d.title)
    ensures o.event.None? ==> o.next == d
    ensures o.event.Some? ==> o.next == Initial
    ensures o.event.Some? ==> o.event.value.title == d.title
    ensures o.event.Some? ==> (o.event.value.reminder.None? <==> d.reminderDate == "")
    ensures o.event.Some? ==> o.event.value.reminder == EmittedReminder(d.reminderDate)
  {
    if IsBlank(d.title) then Submitted(d, None)
    else Submitted(Initial, Some(AddEvent(d.title, EmittedReminder(d.reminderDate))))
  }

  // ---------------------------------------------------------------------------
  // Properties of the transitions
  // ---------------------------------------------------------------------------

  /** An empty or whitespace-only title emits nothing and leaves all three cells as they were. */
  lemma SubmitRefusesWhitespace(d: Draft)
    requires AllWhitespace(d.title)
    ensures Submit(d) == Submitted(d, None)
  {
    BlankIffAllWhitespace(d.title);
  }

  /** A title with a non-whitespace character is emitted as typed, with the reminder, and the form resets. */
  lemma SubmitAcceptsText(d: Draft, i: nat)
    requires i < |d.title| && !IsWhitespace(d.title[i])
    ensures Submit(d) == Submitted(Initial, Some(AddEvent(d.title, EmittedReminder(d.reminderDate))))
  {
    BlankIffAllWhitespace(d.title);
  }

  /** After an accepted submit, submitting again emits nothing: the reset title is blank. */
  lemma ResubmitEmitsNothing(d: Draft)
    requires Submit(d).event.Some?
    ensures Submit(Submit(d).next) == Submitted(Initial, None)
  {
    BlankIffAllWhitespace("");
  }

  /**
   * Hiding the reminder picker with the bell does not discard its value: a date
   * typed and then hidden is still emitted with a non-blank title.
   */
  lemma HiddenReminderIsEmitted(d: Draft, date: string)
    requires d.showReminder && date != ""
    requires !IsBlank(d.title)
    ensures !PressBell(EditReminderDate(d, date)).showReminder
    ensures Submit(PressBell(EditReminderDate(d, date))).event == Some(AddEvent(d.title, Some(date)))
  {
  }

  /** Pressing the bell twice restores every cell. */
  lemma BellTwiceRestores(d: Draft)
    ensures PressBell(PressBell(d)) == d
  {
  }

  /** Edits replace one cell: the last edit wins, and editing one cell commutes with editing the other. */
  lemma EditsAreIndependent(d: Draft, t1: string, t2: string, r: string)
    ensures EditTitle(EditTitle(d, t1), t2) == EditTitle(d, t2)
    ensures EditTitle(EditReminderDate(d, r), t1) == EditReminderDate(EditTitle(d, t1), r)
  {
  }

  // ---------------------------------------------------------------------------
  // The component
  // ---------------------------------------------------------------------------

  class TodoInputForm {
    var title: string
    var reminderDate: string
    var showReminder: bool
    /** The `onAdd` calls made so far, oldest first. */
    var added: seq<AddEvent>

    /** The current values of the three state cells. */
    function State(): Draft
      reads this
    {
      Draft(title, reminderDate, showReminder)
    }

    /** A freshly mounted form: the initial cells and no call to `onAdd`. */
    constructor ()
      ensures State() == Initial
      ensures added == []
    {
      title := "";
      reminderDate := "";
      showReminder := false;
      added := [];
    }

    /** `setTitle(e.target.value)`. */
    method SetTitle(value: string)
      modifies this
      ensures State() == EditTitle(old(State()), value)
      ensures added == old(added)
    {
      title := value;
    }

    /** `setReminderDate(e.target.value)`. */
    method SetReminderDate(value: string)
      modifies this
      ensures State() == EditReminderDate(old(State()), value)
      ensures added == old(added)
    {
      reminderDate := value;
    }

    /** The bell button's `onClick`. */
    method ToggleReminder()
      modifies this
      ensures State() == PressBell(old(State()))
      ensures added == old(added)
    {
      showReminder := !showReminder;
    }

    /** `handleSubmit`: returns whether `onAdd` was called. */
    method HandleSubmit() returns (accepted: bool)
      modifies this
      ensures accepted <==> !IsBlank(old(title))
      ensures accepted <==> !AllWhitespace(old(title))
      ensures State() == Submit(old(State())).next
      ensures !accepted ==> added == old(added)
      ensures accepted ==> added == old(added) + [Submit(old(State())).event.value]
    {
      ghost var before := State();
      BlankIffAllWhitespace(title);
      accepted := Trim(title) != "";
      if accepted {
        var event := AddEvent(title, EmittedReminder(reminderDate));
        assert Submit(before) == Submitted(Initial, Some(event));
        added := added + [event];
        title, reminderDate, showReminder := "", "", false;
      } else {
        assert Submit(before) == Submitted(before, None);
      }
    }
  }

  /** A session with the form, as a user would drive it. */
  method TypeAndSubmit()
  {
    var form := new TodoInputForm();
    var ok := form.HandleSubmit();
    assert !ok && form.added == [];

    form.SetTitle("   ");
    BlankIffAllWhitespace("   ");
    ok := form.HandleSubmit();
    assert !ok && form.title == "   ";

    form.SetTitle("Buy milk");
    form.ToggleReminder();
    form.SetReminderDate("2025-01-01T09:00");
    assert form.showReminder;
    assert !IsWhitespace("Buy milk"[0]);
    BlankIffAllWhitespace("Buy milk");
    ok := form.HandleSubmit();
    assert ok;
    assert form.added == [AddEvent("Buy milk", Some("2025-01-01T09:00"))];
    assert form.State() == Initial;
  }
}
