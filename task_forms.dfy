/** The add-task and edit-task forms of the dashboard: the text the user
    types, the validators that record one message per rejected field, the
    dependency pickers and the request body each form submits. Parse
    failures (`NaN`) are `None`; a `NaN` in a JSON body is sent as `null`. */
module TaskForms {
  import opened Wrappers
  import opened Text
  import opened TaskRecord

  /** The validated text fields, by their input `name`. */
  datatype Field = Number | Title | DueDate | EstimatedHours | Importance

  /** `formData`: every field holds the input's text, except the chosen
      dependency ids. */
  datatype TaskForm = TaskForm(number: string, title: string, dueDate: string,
                               estimatedHours: string, importance: string, dependencies: seq<int>)

  /** The body sent to the create or update endpoint. */
  datatype Payload = Payload(number: Option<int>, title: string, dueDate: string,
                             estimatedHours: Option<int>, importance: Option<int>, dependencies: seq<int>)

  type Errors = map<Field, string>

  function Get(form: TaskForm, f: Field): string {
    match f
    case Number => form.number
    case Title => form.title
    case DueDate => form.dueDate
    case EstimatedHours => form.estimatedHours
    case Importance => form.importance
  }

  // ---------------------------------------------------------------------------
  // Field rules
  // ---------------------------------------------------------------------------

  /** The number check: present after trimming, numeric, and not read by
      `parseInt` as zero or less. A value `parseInt` cannot read (`NaN`)
      does not compare as `<= 0`, so it is not refused here. */
  predicate NumberAccepted(s: string) {
    !AllSpace(s) && ToNumber(s).Some? && !(ParseInt(s).Some? && ParseInt(s).value <= 0)
  }

  /** The estimated-hours check: present, numeric, and not read by
      `parseFloat` as zero or less. */
  predicate HoursAccepted(s: string) {
    s != "" && ToNumber(s).Some? && !(ParseFloat(s).Some? && ParseFloat(s).value <= 0.0)
  }

  /** The importance check: present and read by `parseInt` as 1 to 10. */
  predicate ImportanceAccepted(s: string) {
    s != "" && ParseInt(s).Some? && 1 <= ParseInt(s).value <= 10
  }

  /** The add form's due-date check: present, and not before the start of
      today. `due` is the parsed date (`None` for an invalid date, which
      compares false and so is not refused). */
  predicate DueAccepted(s: string, due: Option<int>, todayStart: int) {
    s != "" && !(due.Some? && due.value < todayStart)
  }

  // ---------------------------------------------------------------------------
  // Add form
  // ---------------------------------------------------------------------------

  /** The number's message: required when blank after trimming, otherwise
      refused when not numeric or read by `parseInt` as zero or less. */
  function NumberMessage(s: string): (m: Option<string>)
    ensures m.None? <==> NumberAccepted(s)
    ensures m.Some? ==> m.value == if AllSpace(s) then "Task number is required" else "Task number must be a positive integer"
  {
    if Trim(s) == [] then Some("Task number is required")
    else if IsNaN(s) || (ParseInt(s).Some? && ParseInt(s).value <= 0) then Some("Task number must be a positive integer")
    else None
  }

  function DueMessage(s: string, due: Option<int>, todayStart: int): (m: Option<string>)
    ensures m.None? <==> DueAccepted(s, due, todayStart)
    ensures m.Some? ==> m.value == if s == "" then "Due date is required" else "Due date cannot be in the past"
  {
    if s == "" then Some("Due date is required")
    else if due.Some? && due.value < todayStart then Some("Due date cannot be in the past")
    else None
  }

  function HoursMessage(s: string): (m: Option<string>)
    ensures m.None? <==> HoursAccepted(s)
    ensures m.Some? ==> m.value == if s == "" then "Estimated hours is required" else "Estimated hours must be a positive number"
  {
    if s == "" then Some("Estimated hours is required")
    else if IsNaN(s) || (ParseFloat(s).Some? && ParseFloat(s).value <= 0.0) then Some("Estimated hours must be a positive number")
    else None
  }

  function ImportanceMessage(s: string): (m: Option<string>)
    ensures m.None? <==> ImportanceAccepted(s)
    ensures m.Some? ==> m.value == if s == "" then "Importance is required" else "Importance must be between 1 and 10"
  {
    if s == "" then Some("Importance is required")
    else
      var importance := ParseInt(s);
      if importance.None? || importance.value < 1 || importance.value > 10 then Some("Importance must be between 1 and 10")
      else None
  }

  /** The errors a validator records: one message per refused field. */
  predicate Reports(errors: Errors, f: Field, message: Option<string>) {
    (f in errors <==> message.Some?) && (message.Some? ==> errors[f] == message.value)
  }

  /** `newErrors.f = message` when the check refused the field. */
  method RecordMessage(errors: Errors, f: Field, message: Option<string>) returns (r: Errors)
    requires f !in errors
    ensures Reports(r, f, message)
    ensures r == if message.Some? then errors[f := message.value] else errors
  {
    r := errors;
    if message.Some? {
      r := r[f := message.value];
    }
  }

  /** Fills `newErrors` field by field from each check's message, and
      reports whether it stayed empty. */
  method CollectErrors(number: Option<string>, title: Option<string>, due: Option<string>,
                       hours: Option<string>, importance: Option<string>) returns (ok: bool, errors: Errors)
    ensures Reports(errors, Number, number) && Reports(errors, Title, title) && Reports(errors, DueDate, due)
    ensures Reports(errors, EstimatedHours, hours) && Reports(errors, Importance, importance)
    ensures ok <==> errors == map[]
    ensures ok <==> number.None? && title.None? && due.None? && hours.None? && importance.None?
  {
    errors := map[];
    errors := RecordMessage(errors, Number, number);
    errors := RecordMessage(errors, Title, title);
    errors := RecordMessage(errors, DueDate, due);
    errors := RecordMessage(errors, EstimatedHours, hours);
    errors := RecordMessage(errors, Importance, importance);
    ok := |errors| == 0;
    NoErrorsIffNoMessages(errors, number, title, due, hours, importance);
  }

  /** `validateForm` of the add page. */
  method ValidateAddForm(form: TaskForm, due: Option<int>, todayStart: int) returns (ok: bool, errors: Errors)
    ensures ok <==> errors == map[]
    ensures ok <==> NumberMessage(form.number).None? && BlankMessage(form.title, "Title is required").None?
                    && DueMessage(form.dueDate, due, todayStart).None?
                    && HoursMessage(form.estimatedHours).None? && ImportanceMessage(form.importance).None?
    ensures Reports(errors, Number, NumberMessage(form.number))
    ensures Reports(errors, Title, BlankMessage(form.title, "Title is required"))
    ensures Reports(errors, DueDate, DueMessage(form.dueDate, due, todayStart))
    ensures Reports(errors, EstimatedHours, HoursMessage(form.estimatedHours))
    ensures Reports(errors, Importance, ImportanceMessage(form.importance))
  {
    ok, errors := CollectErrors(NumberMessage(form.number), BlankMessage(form.title, "Title is required"),
      DueMessage(form.dueDate, due, todayStart), HoursMessage(form.estimatedHours), ImportanceMessage(form.importance));
  }

  /** The form is accepted exactly when no field has a message. */
  lemma NoErrorsIffNoMessages(errors: Errors, m1: Option<string>, m2: Option<string>, m3: Option<string>,
                              m4: Option<string>, m5: Option<string>)
    requires Reports(errors, Number, m1) && Reports(errors, Title, m2) && Reports(errors, DueDate, m3)
    requires Reports(errors, EstimatedHours, m4) && Reports(errors, Importance, m5)
    ensures |errors| == 0 <==> m1.None? && m2.None? && m3.None? && m4.None? && m5.None?
  {
    if m1.None? && m2.None? && m3.None? && m4.None? && m5.None? {
      forall f: Field ensures f !in errors {
        match f
        case Number =>
        case Title =>
        case DueDate =>
        case EstimatedHours =>
        case Importance =>
      }
      assert errors.Keys == {};
      assert errors == map[];
    } else {
      assert errors != map[];
    }
  }

  /** The request body both pages submit: the create body and the update
      body (`String(...)` of a form field is the field itself). */
  function TaskPayload(form: TaskForm): (p: Payload)
    ensures p.title == Trim(form.title) && p.dueDate == form.dueDate && p.dependencies == form.dependencies
    ensures p.number == ParseInt(form.number) && p.estimatedHours == ParseInt(form.estimatedHours)
    ensures p.importance == ParseInt(form.importance)
  {
    Payload(ParseInt(form.number), Trim(form.title), form.dueDate,
            ParseInt(form.estimatedHours), ParseInt(form.importance), form.dependencies)
  }

  /** What a form that passes the add checks sends: a non-blank title with
      no white space at either end, and an importance of 1 to 10. */
  lemma AcceptedTaskPayload(form: TaskForm)
    requires !AllSpace(form.title) && ImportanceAccepted(form.importance)
    ensures var p := TaskPayload(form);
      p.title != [] && !IsSpace(p.title[0]) && !IsSpace(p.title[|p.title| - 1])
      && p.importance.Some? && 1 <= p.importance.value <= 10
  {
    TrimmedEnds(form.title);
  }

  /** Half an hour passes the hours check, which reads the text with
      `parseFloat`, but the body reads it with `parseInt` and sends 0. */
  lemma HalfHourSentAsZero(form: TaskForm)
    requires form.estimatedHours == "0.5"
    ensures HoursAccepted(form.estimatedHours)
    ensures TaskPayload(form).estimatedHours == Some(0)
  {
    assert form.estimatedHours == ['0'] + ".5";
    HalfPastHours('0');
  }

  /** A digit followed by ".5" passes the hours check and `parseInt` reads
      the digit alone. */
  lemma HalfPastHours(d: char)
    requires IsDigit(d)
    ensures HoursAccepted([d] + ".5") && ParseInt([d] + ".5") == Some(DigitValue(d))
  {
    HalfPastText(d);
  }

  /** A digit followed by ".5" is numeric, `parseFloat` reads it with the
      half, and `parseInt` drops the half. */
  lemma HalfPastText(d: char)
    requires IsDigit(d)
    ensures var s := [d] + ".5";
      && ToNumber(s) == Some(DigitValue(d) as real + 0.5)
      && ParseFloat(s) == Some(DigitValue(d) as real + 0.5)
      && ParseInt(s) == Some(DigitValue(d))
  {
    var s := [d] + ".5";
    TrimOfTrimmed(s);
    TrimStartOfUnspaced(s);
    assert SignFree(s) == s;
    assert DigitRun(s) == 1 by {
      assert DigitRun(s[1..]) == 0;
    }
    assert DigitRun(s[2..]) == 1 by {
      assert s[2..][1..] == [];
    }
    assert s[..1] == [d] && s[2..][..1] == "5";
    assert DigitsValue([d]) == DigitValue(d) by {
      assert [d][..0] == [];
    }
    HalfDigit();
  }

  /** The digit `5` after the point is a half. */
  lemma HalfDigit()
    ensures DigitsValue("5") == 5 && Fraction("5") == 0.5
  {
    assert "5"[..0] == [];
    assert Pow10(1) == 10;
  }

  /** One and a half hours pass the hours check and are sent as 1: the
      `step="0.5"` input allows them, and the body truncates. */
  lemma OneAndAHalfSentAsOne(form: TaskForm)
    requires form.estimatedHours == "1.5"
    ensures HoursAccepted(form.estimatedHours)
    ensures TaskPayload(form).estimatedHours == Some(1)
  {
    assert form.estimatedHours == ['1'] + ".5";
    HalfPastHours('1');
  }

  /** A whole positive count of hours passes the hours check and is sent as
      itself. */
  lemma WholeHoursAccepted(n: nat)
    requires n > 0
    ensures HoursAccepted(NatToString(n)) && ParseInt(NatToString(n)) == Some(n)
  {
    NumberOfNatString(n);
  }

  /** `handleDependencyChange` of the add page: checking appends the id,
      unchecking drops every occurrence of it. */
  function ToggleDependency(deps: seq<int>, depId: int, checked: bool): (r: seq<int>)
    ensures checked ==> r == deps + [depId]
    ensures !checked ==> r == RemoveAll(deps, depId)
  {
    if checked then deps + [depId] else RemoveAll(deps, depId)
  }

  /** `deps.filter((id) => id !== d)`. */
  function RemoveAll(deps: seq<int>, d: int): (r: seq<int>)
    ensures d !in r
    ensures forall x :: x in r <==> x in deps && x != d
    ensures |r| <= |deps|
  {
    if deps == [] then []
    else (if deps[0] == d then [] else [deps[0]]) + RemoveAll(deps[1..], d)
  }

  /** The filter keeps every other id as often as it occurs. */
  lemma {:induction false} RemoveAllCounts(deps: seq<int>, d: int)
    ensures multiset(RemoveAll(deps, d)) == multiset(deps)[d := 0]
  {
    if deps != [] {
      var rest := deps[1..];
      RemoveAllCounts(rest, d);
      assert deps == [deps[0]] + rest;
      var head: seq<int> := if deps[0] == d then [] else [deps[0]];
      assert RemoveAll(deps, d) == head + RemoveAll(rest, d);
      assert multiset(head) == multiset([deps[0]])[d := 0];
      UpdateUnion(multiset([deps[0]]), multiset(rest), d);
    }
  }

  /** Zeroing one element's count distributes over a union. */
  lemma UpdateUnion(a: multiset<int>, b: multiset<int>, d: int)
    ensures (a + b)[d := 0] == a[d := 0] + b[d := 0]
  {
  }

  /** The positions the filtered list comes from: increasing, each holding
      an id other than `d`, and every such position among them. So the kept
      ids stay in their order, each once per occurrence. */
  lemma RemoveAllPositions(deps: seq<int>, d: int) returns (ix: seq<int>)
    ensures |ix| == |RemoveAll(deps, d)|
    ensures forall k :: 0 <= k < |ix| ==>
      0 <= ix[k] < |deps| && deps[ix[k]] != d && RemoveAll(deps, d)[k] == deps[ix[k]]
    ensures forall k, l :: 0 <= k < l < |ix| ==> ix[k] < ix[l]
    ensures forall i :: 0 <= i < |deps| && deps[i] != d ==> i in ix
  {
    RemoveAllIsSelection(deps, d);
    ix := SelectedPositions(deps, Kept(deps, d));
  }

  /** Which entries the filter keeps. */
  function Kept(deps: seq<int>, d: int): (keep: seq<bool>)
    ensures |keep| == |deps|
    ensures forall i :: 0 <= i < |deps| ==> (keep[i] <==> deps[i] != d)
  {
    seq(|deps|, i requires 0 <= i < |deps| => deps[i] != d)
  }

  /** The filter is the edit page's selection with the kept entries selected. */
  lemma {:induction false} RemoveAllIsSelection(deps: seq<int>, d: int)
    ensures RemoveAll(deps, d) == SelectedIds(deps, Kept(deps, d))
  {
    if deps != [] {
      RemoveAllIsSelection(deps[1..], d);
      assert Kept(deps, d)[1..] == Kept(deps[1..], d);
    }
  }

  /** Checking a new id and unchecking it again restores the list. */
  lemma {:induction false} CheckThenUncheck(deps: seq<int>, d: int)
    requires d !in deps
    ensures ToggleDependency(ToggleDependency(deps, d, true), d, false) == deps
  {
    RemoveAllAbsent(deps, d);
    RemoveAllAppend(deps, [d], d);
    assert RemoveAll([d], d) == [];
  }

  lemma {:induction false} RemoveAllAbsent(deps: seq<int>, d: int)
    requires d !in deps
    ensures RemoveAll(deps, d) == deps
  {
    if deps != [] {
      RemoveAllAbsent(deps[1..], d);
      assert deps == [deps[0]] + deps[1..];
    }
  }

  lemma {:induction false} RemoveAllAppend(a: seq<int>, b: seq<int>, d: int)
    ensures RemoveAll(a + b, d) == RemoveAll(a, d) + RemoveAll(b, d)
  {
    if a != [] {
      RemoveAllAppend(a[1..], b, d);
      assert (a + b)[1..] == a[1..] + b;
    } else {
      assert a + b == b;
    }
  }

  /** `filteredAvailableTasks`: the dependency choices leave out the tasks
      whose number is the one typed; while the typed text is not a number,
      every task is offered. */
  function AddChoices(tasks: seq<Task>, typed: string): (r: seq<Task>)
    ensures forall t :: t in r <==> t in tasks && (ParseInt(typed).None? || t.number != ParseInt(typed).value)
    ensures ParseInt(typed).None? ==> r == tasks
  {
    if tasks == [] then []
    else
      var keep := ParseInt(typed).None? || tasks[0].number != ParseInt(typed).value;
      var r := (if keep then [tasks[0]] else []) + AddChoices(tasks[1..], typed);
      assert ParseInt(typed).None? ==> r == [tasks[0]] + tasks[1..];
      r
  }

  /** The choice filters work task by task: a one-task list keeps or drops
      its task, and a joined list is filtered piece by piece, so the choices
      keep the fetched order and multiplicity. */
  lemma {:induction false} AddChoicesAppend(a: seq<Task>, b: seq<Task>, typed: string)
    ensures AddChoices(a + b, typed) == AddChoices(a, typed) + AddChoices(b, typed)
  {
    if a == [] {
      assert a + b == b;
    } else {
      AddChoicesAppend(a[1..], b, typed);
      AddChoicesHeadOfAppend(a, [], typed);
      assert a + [] == a;
      AddChoicesHeadOfAppend(a, b, typed);
      Regroup(if ParseInt(typed).None? || a[0].number != ParseInt(typed).value then [a[0]] else [], AddChoices(a[1..], typed), AddChoices(b, typed));
    }
  }

  /** The first task of `a + b` is kept or dropped as in `a`. */
  lemma AddChoicesHeadOfAppend(a: seq<Task>, b: seq<Task>, typed: string)
    requires a != []
    ensures AddChoices(a + b, typed) == (if ParseInt(typed).None? || a[0].number != ParseInt(typed).value then [a[0]] else []) + AddChoices(a[1..] + b, typed)
  {
    assert (a + b)[0] == a[0] && (a + b)[1..] == a[1..] + b;
  }

  lemma {:induction false} EditChoicesAppend(a: seq<Task>, b: seq<Task>, taskId: string)
    ensures EditChoices(a + b, taskId) == EditChoices(a, taskId) + EditChoices(b, taskId)
  {
    if a == [] {
      assert a + b == b;
    } else {
      EditChoicesAppend(a[1..], b, taskId);
      EditChoicesHeadOfAppend(a, [], taskId);
      assert a + [] == a;
      EditChoicesHeadOfAppend(a, b, taskId);
      Regroup(if ParseInt(taskId).None? || a[0].id != ParseInt(taskId).value then [a[0]] else [], EditChoices(a[1..], taskId), EditChoices(b, taskId));
    }
  }

  /** The first task of `a + b` is kept or dropped as in `a`. */
  lemma EditChoicesHeadOfAppend(a: seq<Task>, b: seq<Task>, taskId: string)
    requires a != []
    ensures EditChoices(a + b, taskId) == (if ParseInt(taskId).None? || a[0].id != ParseInt(taskId).value then [a[0]] else []) + EditChoices(a[1..] + b, taskId)
  {
    assert (a + b)[0] == a[0] && (a + b)[1..] == a[1..] + b;
  }

  lemma ChoicesOne(t: Task, typed: string, taskId: string)
    ensures AddChoices([t], typed) == (if ParseInt(typed).None? || t.number != ParseInt(typed).value then [t] else [])
    ensures EditChoices([t], taskId) == (if ParseInt(taskId).None? || t.id != ParseInt(taskId).value then [t] else [])
  {
    assert [t][1..] == [];
  }

  // ---------------------------------------------------------------------------
  // Edit form
  // ---------------------------------------------------------------------------

  /** `loadTaskData`: numbers become their decimal text, but a zero, being
      falsy, becomes the empty string. `dueText` is the formatted date. */
  function LoadForm(t: Task, dueText: string): (form: TaskForm)
    ensures form.number == "" <==> t.number == 0
    ensures form.estimatedHours == "" <==> t.estimatedHours == 0
    ensures form.importance == "" <==> t.importance == 0
    ensures t.number != 0 ==> ParseInt(form.number) == Some(t.number)
    ensures t.estimatedHours != 0 ==> ParseInt(form.estimatedHours) == Some(t.estimatedHours)
    ensures t.importance != 0 ==> ParseInt(form.importance) == Some(t.importance)
    ensures form.title == t.title && form.dueDate == dueText && form.dependencies == t.dependencies
  {
    ParseIntOfIntToString(t.number);
    ParseIntOfIntToString(t.estimatedHours);
    ParseIntOfIntToString(t.importance);
    TaskForm(NumberText(t.number), t.title, dueText, NumberText(t.estimatedHours),
             NumberText(t.importance), t.dependencies)
  }

  /** `n ? String(n) : ""`. */
  function NumberText(n: int): (s: string)
    ensures s == "" <==> n == 0
  {
    if n != 0 then IntToString(n) else ""
  }

  /** `loadAvailableTasks`: every task but the one being edited. */
  function EditChoices(tasks: seq<Task>, taskId: string): (r: seq<Task>)
    ensures forall t :: t in r <==> t in tasks && (ParseInt(taskId).None? || t.id != ParseInt(taskId).value)
    ensures |r| <= |tasks|
  {
    if tasks == [] then []
    else
      (if ParseInt(taskId).None? || tasks[0].id != ParseInt(taskId).value then [tasks[0]] else [])
      + EditChoices(tasks[1..], taskId)
  }

  /** `validateForm` of the edit page: the number, hours and importance are
      trimmed before they are checked, and the due date is only required. */
  method ValidateEditForm(form: TaskForm) returns (ok: bool, errors: Errors)
    ensures ok <==> errors == map[]
    ensures ok <==> NumberMessage(Trim(form.number)).None? && BlankMessage(form.title, "Title is required").None?
                    && DueRequiredMessage(form.dueDate).None?
                    && HoursMessage(Trim(form.estimatedHours)).None? && ImportanceMessage(Trim(form.importance)).None?
    ensures Reports(errors, Number, NumberMessage(Trim(form.number)))
    ensures Reports(errors, Title, BlankMessage(form.title, "Title is required"))
    ensures Reports(errors, DueDate, DueRequiredMessage(form.dueDate))
    ensures Reports(errors, EstimatedHours, HoursMessage(Trim(form.estimatedHours)))
    ensures Reports(errors, Importance, ImportanceMessage(Trim(form.importance)))
  {
    ok, errors := CollectErrors(NumberMessage(Trim(form.number)), BlankMessage(form.title, "Title is required"),
      DueRequiredMessage(form.dueDate), HoursMessage(Trim(form.estimatedHours)), ImportanceMessage(Trim(form.importance)));
  }

  /** The edit page only requires a due date. */
  function DueRequiredMessage(s: string): (m: Option<string>)
    ensures m.None? <==> s != ""
    ensures m.Some? ==> m.value == "Due date is required"
  {
    if s == "" then Some("Due date is required") else None
  }

  /** Trimming first turns a blank numeric field's message into "required". */
  lemma TrimmedBlankIsMissing(s: string)
    requires AllSpace(s)
    ensures HoursMessage(Trim(s)) == Some("Estimated hours is required")
    ensures ImportanceMessage(Trim(s)) == Some("Importance is required")
    ensures NumberMessage(Trim(s)) == Some("Task number is required")
  {
  }

  /** The edit page applies the add page's rules, except that the due date
      is not compared with today: on fields with no white space at either
      end, each field is refused by one exactly when it is by the other. */
  lemma EditRulesAreAddRules(form: TaskForm)
    requires Trim(form.number) == form.number && Trim(form.estimatedHours) == form.estimatedHours
    requires Trim(form.importance) == form.importance
    ensures NumberAccepted(Trim(form.number)) <==> NumberAccepted(form.number)
    ensures HoursAccepted(Trim(form.estimatedHours)) <==> HoursAccepted(form.estimatedHours)
    ensures ImportanceAccepted(Trim(form.importance)) <==> ImportanceAccepted(form.importance)
  {
  }

  /** `handleChange`: writes the one field and blanks that field's message if
      it had a non-empty one. */
  function HandleChange(form: TaskForm, errors: Errors, name: Field, value: string): (r: (TaskForm, Errors))
    ensures Get(r.0, name) == value
    ensures forall f :: f != name ==> Get(r.0, f) == Get(form, f)
    ensures r.0.dependencies == form.dependencies
    ensures r.1.Keys == errors.Keys
    ensures forall f :: f in errors && f != name ==> r.1[f] == errors[f]
    ensures name in errors ==> r.1[name] == ""
  {
    var updated := match name
      case Number => form.(number := value)
      case Title => form.(title := value)
      case DueDate => form.(dueDate := value)
      case EstimatedHours => form.(estimatedHours := value)
      case Importance => form.(importance := value);
    (updated, if name in errors && errors[name] != "" then errors[name := ""] else errors)
  }

  /** `handleDependencyChange` of the edit page: the list becomes the
      selected options' ids, in option order, whatever it held before. */
  function SelectedIds(options: seq<int>, selected: seq<bool>): (r: seq<int>)
    requires |selected| == |options|
    ensures forall x :: x in r <==> exists i :: 0 <= i < |options| && selected[i] && options[i] == x
    ensures |r| <= |options|
  {
    if options == [] then []
    else
      var rest := SelectedIds(options[1..], selected[1..]);
      var r := (if selected[0] then [options[0]] else []) + rest;
      assert forall x :: x in rest <==> exists i :: 1 <= i < |options| && selected[i] && options[i] == x by {
        forall x ensures x in rest <==> exists i :: 1 <= i < |options| && selected[i] && options[i] == x {
          if x in rest {
            var i :| 0 <= i < |options[1..]| && selected[1..][i] && options[1..][i] == x;
            assert selected[i + 1] && options[i + 1] == x;
          }
          if exists i :: 1 <= i < |options| && selected[i] && options[i] == x {
            var i :| 1 <= i < |options| && selected[i] && options[i] == x;
            assert selected[1..][i - 1] && options[1..][i - 1] == x;
          }
        }
      }
      r
  }

  /** The positions the edit page's list comes from: increasing, each a
      selected option, and every selected option among them. So the list is
      the selected options' ids in option order, each once per option. */
  lemma {:induction false} SelectedPositions(options: seq<int>, selected: seq<bool>) returns (ix: seq<int>)
    requires |selected| == |options|
    ensures |ix| == |SelectedIds(options, selected)|
    ensures forall k :: 0 <= k < |ix| ==>
      0 <= ix[k] < |options| && selected[ix[k]] && SelectedIds(options, selected)[k] == options[ix[k]]
    ensures forall k, l :: 0 <= k < l < |ix| ==> ix[k] < ix[l]
    ensures forall i :: 0 <= i < |options| && selected[i] ==> i in ix
  {
    if options == [] {
      return [];
    }
    var tail := SelectedPositions(options[1..], selected[1..]);
    var rest := SelectedIds(options[1..], selected[1..]);
    assert SelectedIds(options, selected) == (if selected[0] then [options[0]] else []) + rest;
    ix := ConsPositions(options, selected, SelectedIds(options, selected), rest, tail);
  }

  /** The positions of `r`, the first option (when selected) followed by
      `rest`, from the positions of `rest` in the other options. */
  lemma ConsPositions(options: seq<int>, selected: seq<bool>, r: seq<int>, rest: seq<int>, tail: seq<int>)
    returns (ix: seq<int>)
    requires |selected| == |options| > 0
    requires r == (if selected[0] then [options[0]] else []) + rest
    requires |tail| == |rest|
    requires forall k :: 0 <= k < |tail| ==>
      0 <= tail[k] < |options| - 1 && selected[1..][tail[k]] && rest[k] == options[1..][tail[k]]
    requires forall k, l :: 0 <= k < l < |tail| ==> tail[k] < tail[l]
    requires forall i :: 0 <= i < |options| - 1 && selected[1..][i] ==> i in tail
    ensures |ix| == |r|
    ensures forall k :: 0 <= k < |ix| ==> 0 <= ix[k] < |options| && selected[ix[k]] && r[k] == options[ix[k]]
    ensures forall k, l :: 0 <= k < l < |ix| ==> ix[k] < ix[l]
    ensures forall i :: 0 <= i < |options| && selected[i] ==> i in ix
  {
    var head: seq<int> := if selected[0] then [0] else [];
    ix := head + Shift(tail);
    ConsPositionsSelected(options, selected, r, rest, tail, head);
    ConsPositionsIncrease(tail, head);
    ConsPositionsCover(options, selected, tail, head);
  }

  lemma ConsPositionsSelected(options: seq<int>, selected: seq<bool>, r: seq<int>, rest: seq<int>, tail: seq<int>,
                              head: seq<int>)
    requires |selected| == |options| > 0
    requires head == if selected[0] then [0] else []
    requires r == (if selected[0] then [options[0]] else []) + rest
    requires |tail| == |rest|
    requires forall k :: 0 <= k < |tail| ==>
      0 <= tail[k] < |options| - 1 && selected[1..][tail[k]] && rest[k] == options[1..][tail[k]]
    ensures var ix := head + Shift(tail);
      forall k :: 0 <= k < |ix| ==> 0 <= ix[k] < |options| && selected[ix[k]] && r[k] == options[ix[k]]
  {
    var ix := head + Shift(tail);
    forall k | 0 <= k < |ix|
      ensures 0 <= ix[k] < |options| && selected[ix[k]] && r[k] == options[ix[k]]
    {
      if k >= |head| {
        ShiftedPosition(options, selected, tail, rest, k - |head|);
        assert r[k] == rest[k - |head|];
      }
    }
  }

  lemma ConsPositionsIncrease(tail: seq<int>, head: seq<int>)
    requires head == [] || head == [0]
    requires forall k :: 0 <= k < |tail| ==> 0 <= tail[k]
    requires forall k, l :: 0 <= k < l < |tail| ==> tail[k] < tail[l]
    ensures var ix := head + Shift(tail);
      forall k, l :: 0 <= k < l < |ix| ==> ix[k] < ix[l]
  {
    var ix := head + Shift(tail);
    forall k, l | 0 <= k < l < |ix|
      ensures ix[k] < ix[l]
    {
      assert ix[l] == tail[l - |head|] + 1;
      if k >= |head| {
        assert ix[k] == tail[k - |head|] + 1;
      }
    }
  }

  lemma ConsPositionsCover(options: seq<int>, selected: seq<bool>, tail: seq<int>, head: seq<int>)
    requires |selected| == |options| > 0
    requires head == if selected[0] then [0] else []
    requires forall i :: 0 <= i < |options| - 1 && selected[1..][i] ==> i in tail
    ensures var ix := head + Shift(tail);
      forall i :: 0 <= i < |options| && selected[i] ==> i in ix
  {
    var ix := head + Shift(tail);
    forall i | 0 <= i < |options| && selected[i]
      ensures i in ix
    {
      if i > 0 {
        assert selected[1..][i - 1];
        var j :| 0 <= j < |tail| && tail[j] == i - 1;
        assert ix[|head| + j] == i;
      }
    }
  }

  /** Every position one further on. */
  function Shift(ix: seq<int>): (r: seq<int>)
    ensures |r| == |ix|
    ensures forall k :: 0 <= k < |ix| ==> r[k] == ix[k] + 1
  {
    seq(|ix|, k requires 0 <= k < |ix| => ix[k] + 1)
  }

  /** A position in the rest of the options, one further on in the whole. */
  lemma ShiftedPosition(options: seq<int>, selected: seq<bool>, tail: seq<int>, rest: seq<int>, j: int)
    requires |selected| == |options| > 0 && 0 <= j < |tail| == |rest|
    requires 0 <= tail[j] < |options| - 1 && selected[1..][tail[j]] && rest[j] == options[1..][tail[j]]
    ensures 0 <= tail[j] + 1 < |options| && selected[tail[j] + 1] && rest[j] == options[tail[j] + 1]
  {
  }

  /** Opening a stored task and saving it unchanged sends its own values
      back, when its numbers are non-zero and its title is already trimmed. */
  lemma LoadThenSaveRoundTrip(t: Task, dueText: string)
    requires t.number != 0 && t.estimatedHours != 0 && t.importance != 0
    requires Trim(t.title) == t.title
    ensures TaskPayload(LoadForm(t, dueText)) ==
      Payload(Some(t.number), t.title, dueText, Some(t.estimatedHours), Some(t.importance), t.dependencies)
  {
  }

  /** A stored task with positive numbers, importance of 1 to 10, a
      non-blank title and a due date opens in a form the edit checks accept. */
  lemma LoadedFormAccepted(t: Task, dueText: string)
    requires t.number > 0 && t.estimatedHours > 0 && 1 <= t.importance <= 10
    requires !AllSpace(t.title) && dueText != ""
    ensures var form := LoadForm(t, dueText);
      NumberAccepted(Trim(form.number)) && !AllSpace(form.title) && form.dueDate != ""
      && HoursAccepted(Trim(form.estimatedHours)) && ImportanceAccepted(Trim(form.importance))
  {
    PositiveTextAccepted(t.number);
    PositiveTextAccepted(t.estimatedHours);
    PositiveTextAccepted(t.importance);
  }

  /** The text of a positive integer passes the number and hours checks, and
      the importance check when it is at most 10. */
  lemma PositiveTextAccepted(n: nat)
    requires n > 0
    ensures Trim(NumberText(n)) == NatToString(n)
    ensures NumberAccepted(NatToString(n)) && HoursAccepted(NatToString(n))
    ensures n <= 10 ==> ImportanceAccepted(NatToString(n))
  {
    NumberOfNatString(n);
    TrimOfNatString(n);
    var ds := NatToString(n);
    assert IsDigit(ds[0]);
  }

  lemma TrimOfNatString(n: nat)
    ensures Trim(NatToString(n)) == NatToString(n)
  {
    var ds := NatToString(n);
    assert IsDigit(ds[0]) && IsDigit(ds[|ds| - 1]);
    TrimOfTrimmed(ds);
  }

  /** A stored task with zero estimated hours (what the add form sends for
      half an hour) opens with an empty hours field, which the edit checks
      refuse as missing. */
  lemma ZeroHoursReopenAsMissing(t: Task, dueText: string)
    requires t.estimatedHours == 0
    ensures LoadForm(t, dueText).estimatedHours == ""
    ensures HoursMessage(Trim(LoadForm(t, dueText).estimatedHours)) == Some("Estimated hours is required")
  {
  }
}
