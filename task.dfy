/** The `Task` entity: construction with validation, the validating property
    setters, conversion from a database row and to and from a dictionary,
    the due-date helpers and identity by task id. */
module Tasks {
  import opened Text
  import opened Values
  import opened Calendar
  import opened TaskStatus
  import opened KanbanDb

  /** The attributes of a task, as its properties return them. The creation
      date is kept in its ISO text form; the task id, due date, editor and
      additional information keep whatever value they were given. */
  datatype TaskFields = TaskFields(
    taskId: Value,
    title: string,
    status: string,
    personInCharge: int,
    dueDate: Value,
    creator: int,
    additionalInfo: Value,
    editors: Value,
    creationDate: Value)

  /** What every constructed task satisfies and every setter keeps. */
  predicate WellFormed(f: TaskFields) {
    && f.title != [] && IsStripped(f.title)
    && f.status in GetValidStatuses()
    && f.personInCharge > 0 && f.creator > 0
    && f.creationDate.Str?
  }

  /** The title test `not value or not value.strip()`: None, 0 and blank strings
      are empty titles, and `.strip()` on a non-zero int raises AttributeError. */
  function TitleCheck(v: Value): (e: Option<Error>)
    ensures e.None? <==> v.Str? && !IsBlank(v.s)
  {
    match v
    case Null => Some(ValueError(EmptyTitle))
    case Int(i) => if i == 0 then Some(ValueError(EmptyTitle)) else Some(AttributeError)
    case Str(s) => if IsBlank(s) then Some(ValueError(EmptyTitle)) else None
  }

  /** `status in TaskStatus.get_valid_statuses()`; a value that is not a string is never in it. */
  predicate IsValidStatus(v: Value) {
    v.Str? && v.s in GetValidStatuses()
  }

  /** `_initialize_creation_date`: None means the current time, a string is kept,
      anything else raises TypeError. */
  function InitCreationDate(v: Value, now: string): (r: Result<Value>)
    ensures r.Ok? <==> !v.Int?
    ensures r.Ok? ==> r.value.Str? && (v.Str? ==> r.value == v) && (v.Null? ==> r.value == Str(now))
  {
    match v
    case Null => Ok(Str(now))
    case Str(s) => Ok(Str(s))
    case Int(_) => Err(TypeError)
  }

  /** `Task(title, status, person_in_charge, due_date, creator, additional_info,
      creation_date, editors, task_id)`; `now` is the clock reading used when no
      creation date is given. The due date, editor and task id are stored unchecked. */
  function Construct(title: Value, status: Value, personInCharge: Value, dueDate: Value, creator: Value,
                     additionalInfo: Value, creationDate: Value, editors: Value, taskId: Value,
                     now: string): (r: Result<TaskFields>)
    ensures r.Ok? <==> (&& title.Str? && !IsBlank(title.s) && IsValidStatus(status)
                        && IsPositiveInt(personInCharge) && IsPositiveInt(creator) && !creationDate.Int?)
    ensures r.Ok? ==> WellFormed(r.value)
    ensures r.Ok? ==> (&& r.value.title == Strip(title.s) && r.value.status == status.s
                       && r.value.personInCharge == personInCharge.i && r.value.creator == creator.i
                       && r.value.dueDate == dueDate && r.value.additionalInfo == additionalInfo
                       && r.value.editors == editors && r.value.taskId == taskId
                       && (creationDate.Str? ==> r.value.creationDate == creationDate))
    ensures title.Str? && IsBlank(title.s) ==> r == Err(ValueError(EmptyTitle))
    ensures TitleCheck(title).None? && !Truthy(status) ==> r == Err(ValueError(EmptyStatus))
  {
    if TitleCheck(title).Some? then Err(TitleCheck(title).value)
    else if !Truthy(status) then Err(ValueError(EmptyStatus))
    else if !IsPositiveInt(personInCharge) then Err(ValueError(BadPersonInCharge))
    else if !IsPositiveInt(creator) then Err(ValueError(BadCreator))
    else if !IsValidStatus(status) then Err(ValueError(InvalidStatus))
    else
      match InitCreationDate(creationDate, now)
      case Err(e) => Err(e)
      case Ok(created) =>
        Ok(TaskFields(taskId, Strip(title.s), status.s, personInCharge.i, dueDate, creator.i,
                      additionalInfo, editors, created))
  }

  /** The `task_id` setter. */
  function WithTaskId(f: TaskFields, v: Value): (r: Result<TaskFields>)
    ensures r.Ok? <==> IsPositiveInt(v)
    ensures r.Err? ==> r.error == ValueError(BadTaskId)
    ensures r.Ok? ==> r.value == f.(taskId := v)
  {
    if IsPositiveInt(v) then Ok(f.(taskId := v)) else Err(ValueError(BadTaskId))
  }

  /** The `title` setter: the stored title is the stripped value. */
  function WithTitle(f: TaskFields, v: Value): (r: Result<TaskFields>)
    ensures r.Ok? <==> v.Str? && !IsBlank(v.s)
    ensures r.Ok? ==> r.value == f.(title := Strip(v.s))
    ensures WellFormed(f) && r.Ok? ==> WellFormed(r.value)
  {
    match TitleCheck(v)
    case Some(e) => Err(e)
    case None =>
      Ok(f.(title := Strip(v.s)))
  }

  /** The `status` setter. */
  function WithStatus(f: TaskFields, v: Value): (r: Result<TaskFields>)
    ensures r.Ok? <==> IsValidStatus(v)
    ensures r.Err? ==> r.error == ValueError(InvalidStatus)
    ensures r.Ok? ==> r.value == f.(status := v.s)
    ensures WellFormed(f) && r.Ok? ==> WellFormed(r.value)
  {
    if IsValidStatus(v) then Ok(f.(status := v.s)) else Err(ValueError(InvalidStatus))
  }

  /** The `person_in_charge` setter: a positive int naming a known user. */
  function WithPersonInCharge(f: TaskFields, v: Value, users: set<int>): (r: Result<TaskFields>)
    ensures r.Ok? <==> IsPositiveInt(v) && CheckUserExist(users, v)
    ensures r.Err? ==> r.error == ValueError(BadPersonInCharge)
    ensures r.Ok? ==> r.value == f.(personInCharge := v.i)
    ensures WellFormed(f) && r.Ok? ==> WellFormed(r.value)
  {
    if !IsPositiveInt(v) then Err(ValueError(BadPersonInCharge))
    else if !CheckUserExist(users, v) then Err(ValueError(BadPersonInCharge))
    else Ok(f.(personInCharge := v.i))
  }

  /** The `due_date` setter: `strptime` raises TypeError on a value that is not a
      string, which the format test does not catch. */
  function WithDueDate(f: TaskFields, v: Value): (r: Result<TaskFields>)
    ensures r.Ok? <==> v.Str? && ParseDate(v.s).Some?
    ensures r.Err? ==> r.error == (if v.Str? then ValueError(BadDueDate) else TypeError)
    ensures r.Ok? ==> r.value == f.(dueDate := v)
    ensures WellFormed(f) && r.Ok? ==> WellFormed(r.value)
  {
    if !v.Str? then Err(TypeError)
    else if ParseDate(v.s).None? then Err(ValueError(BadDueDate))
    else Ok(f.(dueDate := v))
  }

  /** The `editors` setter: None, or a positive int naming a known user. */
  function WithEditors(f: TaskFields, v: Value, users: set<int>): (r: Result<TaskFields>)
    ensures r.Ok? <==> v.Null? || (IsPositiveInt(v) && CheckUserExist(users, v))
    ensures r.Err? ==> r.error == ValueError(BadEditor)
    ensures r.Ok? ==> r.value == f.(editors := v)
    ensures WellFormed(f) && r.Ok? ==> WellFormed(r.value)
  {
    if v.Null? then Ok(f.(editors := Null))
    else if !IsPositiveInt(v) then Err(ValueError(BadEditor))
    else if !CheckUserExist(users, v) then Err(ValueError(BadEditor))
    else Ok(f.(editors := v))
  }

  /** `Task.from_database_row(row)`: columns (id, title, status, person_in_charge,
      creation_date, due_date, creator, editors, additional_info); a row of fewer
      than nine columns is rejected before anything is read. */
  function FromDatabaseRow(row: seq<Value>, now: string): (r: Result<TaskFields>)
    ensures |row| < 9 ==> r == Err(ValueError(ShortRow))
    ensures r.Ok? <==> BuildsTask(row)
    ensures r.Ok? ==> WellFormed(r.value)
  {
    if |row| < 9 then Err(ValueError(ShortRow))
    else Construct(row[1], row[2], row[3], row[5], row[6], row[8], row[4], row[7], row[0], now)
  }

  /** The rows `from_database_row` turns into a task: nine columns, a non-blank title,
      a known status, positive person-in-charge and creator ids and a creation date
      that is not an int. */
  predicate BuildsTask(row: seq<Value>) {
    && |row| >= 9 && row[1].Str? && !IsBlank(row[1].s) && IsValidStatus(row[2])
    && IsPositiveInt(row[3]) && IsPositiveInt(row[6]) && !row[4].Int?
  }

  /** The row the store holds for a task, in the column order `from_database_row` reads. */
  function Row(f: TaskFields): (row: seq<Value>)
    ensures |row| == 9
  {
    [f.taskId, Str(f.title), Str(f.status), Int(f.personInCharge), f.creationDate,
     f.dueDate, Int(f.creator), f.editors, f.additionalInfo]
  }

  /** Reading back the row of a well-formed task gives the same task. */
  lemma FromDatabaseRowOfRow(f: TaskFields, now: string)
    requires WellFormed(f)
    ensures FromDatabaseRow(Row(f), now) == Ok(f)
  {
    StripOfStripped(f.title);
  }

  /** `task.to_dict()`. */
  function ToDict(f: TaskFields): (d: map<string, Value>)
    ensures d.Keys == {"id", "title", "status", "person_in_charge", "due_date", "creator",
                       "editors", "additional_info", "creation_date"}
  {
    map["id" := f.taskId, "title" := Str(f.title), "status" := Str(f.status),
        "person_in_charge" := Int(f.personInCharge), "due_date" := f.dueDate,
        "creator" := Int(f.creator), "editors" := f.editors,
        "additional_info" := f.additionalInfo, "creation_date" := f.creationDate]
  }

  /** `data.get(key, default)`. */
  function Get(data: map<string, Value>, key: string, default: Value): Value {
    if key in data then data[key] else default
  }

  /** `Task.from_dict(data)`: the five required keys raise KeyError when missing;
      the optional ones default to "", None, None and None. */
  function FromDict(data: map<string, Value>, now: string): (r: Result<TaskFields>)
    ensures !({"title", "status", "person_in_charge", "due_date", "creator"} <= data.Keys) ==> r == Err(KeyError)
    ensures r.Ok? ==> WellFormed(r.value)
  {
    if !("title" in data && "status" in data && "person_in_charge" in data
         && "due_date" in data && "creator" in data) then Err(KeyError)
    else
      Construct(data["title"], data["status"], data["person_in_charge"], data["due_date"], data["creator"],
                Get(data, "additional_info", Str("")), Get(data, "creation_date", Null),
                Get(data, "editors", Null), Get(data, "id", Null), now)
  }

  /** The five keys `from_dict` requires read back what `to_dict` wrote. */
  lemma ToDictRequired(f: TaskFields)
    ensures var d := ToDict(f);
            && d["title"] == Str(f.title) && d["status"] == Str(f.status)
            && d["person_in_charge"] == Int(f.personInCharge)
            && d["due_date"] == f.dueDate && d["creator"] == Int(f.creator)
  {
  }

  /** The optional keys are present, so their defaults are never used. */
  lemma ToDictOptional(f: TaskFields)
    ensures var d := ToDict(f);
            && Get(d, "additional_info", Str("")) == f.additionalInfo
            && Get(d, "creation_date", Null) == f.creationDate
            && Get(d, "editors", Null) == f.editors && Get(d, "id", Null) == f.taskId
  {
  }

  /** Reading the dictionary back with the defaults `from_dict` uses. */
  lemma ToDictLookups(f: TaskFields, now: string)
    ensures FromDict(ToDict(f), now)
         == Construct(Str(f.title), Str(f.status), Int(f.personInCharge), f.dueDate, Int(f.creator),
                      f.additionalInfo, f.creationDate, f.editors, f.taskId, now)
  {
    ToDictRequired(f);
    ToDictOptional(f);
  }

  /** `from_dict(to_dict())` reproduces a well-formed task. */
  lemma FromDictToDict(f: TaskFields, now: string)
    requires WellFormed(f)
    ensures FromDict(ToDict(f), now) == Ok(f)
  {
    ToDictLookups(f, now);
    StripOfStripped(f.title);
  }

  /** The label `get_time_until_due` gives for a due date `d` days after today. */
  function DueLabel(d: int): string {
    if d < 0 then "Overdue by " + NatToString(-d) + " days"
    else if d == 0 then "Due today"
    else if d == 1 then "Due tomorrow"
    else if d < 7 then "Due in " + NatToString(d) + " days"
    else if d < 30 then
      var weeks := d / 7;
      "Due in " + NatToString(weeks) + " week" + (if weeks > 1 then "s" else "")
    else
      var months := d / 30;
      "Due in " + NatToString(months) + " month" + (if months > 1 then "s" else "")
  }

  /** The resolution of the label: exact days below a week, then whole weeks
      below thirty days, then whole thirty-day months. */
  datatype DueBucket = Late(days: int) | Today | Tomorrow | Days(days: int) | Weeks(weeks: int) | Months(months: int)

  function Bucket(d: int): DueBucket {
    if d < 0 then Late(-d)
    else if d == 0 then Today
    else if d == 1 then Tomorrow
    else if d < 7 then Days(d)
    else if d < 30 then Weeks(d / 7)
    else Months(d / 30)
  }

  /** A digit run followed by a non-digit is read unambiguously. */
  lemma DigitsPrefixUnique(a: string, b: string, r1: string, r2: string)
    requires AllDigits(a) && AllDigits(b) && a + r1 == b + r2
    requires r1 != [] && r2 != [] && !IsDigit(r1[0]) && !IsDigit(r2[0])
    ensures a == b && r1 == r2
  {
    assert (a + r1)[|a|] == r1[0];
    assert !IsDigit((b + r2)[|a|]);
    assert |a| >= |b|;
    assert (b + r2)[|b|] == r2[0];
    assert !IsDigit((a + r1)[|b|]);
    assert |b| >= |a|;
    assert a == (a + r1)[..|a|];
    assert b == (b + r2)[..|b|];
    assert r1 == (a + r1)[|a|..];
    assert r2 == (b + r2)[|b|..];
  }

  /** The number a "Due in" label shows. */
  function DueCount(d: int): nat
    requires d >= 2
  {
    if d < 7 then d else if d < 30 then d / 7 else d / 30
  }

  /** The text a "Due in" label shows after its number. */
  function DueUnit(d: int): (u: string)
    requires d >= 2
    ensures u != [] && u[0] == ' '
  {
    if d < 7 then " days"
    else if d < 30 then " week" + (if d / 7 > 1 then "s" else "")
    else " month" + (if d / 30 > 1 then "s" else "")
  }

  lemma DueLabelForm(d: int)
    requires d >= 2
    ensures DueLabel(d) == "Due in " + NatToString(DueCount(d)) + DueUnit(d)
  {
  }

  /** `"Due in " + n + " " + unit` determines both the number and the unit. */
  lemma DueInInjective(n1: nat, u1: string, n2: nat, u2: string)
    requires u1 != [] && u2 != [] && !IsDigit(u1[0]) && !IsDigit(u2[0])
    requires "Due in " + NatToString(n1) + u1 == "Due in " + NatToString(n2) + u2
    ensures n1 == n2 && u1 == u2
  {
    var p := "Due in ";
    assert p + NatToString(n1) + u1 == p + (NatToString(n1) + u1);
    assert p + NatToString(n2) + u2 == p + (NatToString(n2) + u2);
    PrefixCancel(p, NatToString(n1) + u1, NatToString(n2) + u2);
    DigitsPrefixUnique(NatToString(n1), NatToString(n2), u1, u2);
    NatToStringInjective(n1, n2);
  }

  /** The unit names the range: days below a week, weeks below thirty days, months after. */
  lemma DueUnitRange(a: int, b: int)
    requires a >= 2 && b >= 2 && DueUnit(a) == DueUnit(b)
    ensures (a < 7) == (b < 7) && (a < 30) == (b < 30)
  {
    var ua := DueUnit(a);
    assert ua[1] == (if a < 7 then 'd' else if a < 30 then 'w' else 'm');
  }

  lemma DueInBucket(a: int, b: int)
    requires a >= 2 && b >= 2 && DueLabel(a) == DueLabel(b)
    ensures Bucket(a) == Bucket(b)
  {
    DueLabelForm(a);
    DueLabelForm(b);
    DueInInjective(DueCount(a), DueUnit(a), DueCount(b), DueUnit(b));
    DueUnitRange(a, b);
  }

  lemma OverdueBucket(a: int, b: int)
    requires a < 0 && b < 0 && DueLabel(a) == DueLabel(b)
    ensures a == b
  {
    var p := "Overdue by ";
    assert DueLabel(a) == p + (NatToString(-a) + " days");
    assert DueLabel(b) == p + (NatToString(-b) + " days");
    PrefixCancel(p, NatToString(-a) + " days", NatToString(-b) + " days");
    DigitsPrefixUnique(NatToString(-a), NatToString(-b), " days", " days");
    NatToStringInjective(-a, -b);
  }

  /** Only overdue labels start with "Overdue"; every other one starts with "Due". */
  lemma DueLabelOverdue(d: int)
    ensures |DueLabel(d)| >= 7
    ensures DueLabel(d)[..7] == "Overdue" <==> d < 0
  {
    var l := DueLabel(d);
    if d >= 2 {
      DueLabelForm(d);
    }
    if d < 0 {
      assert l[..7] == "Overdue";
    } else {
      assert l[0] == 'D';
    }
  }

  /** "Due today" and "Due tomorrow" differ from each other and from every other label. */
  lemma DueLabelShortCases(a: int, b: int)
    requires 0 <= a && 0 <= b && (a <= 1 || b <= 1) && a != b
    ensures DueLabel(a) != DueLabel(b)
  {
    var la := DueLabel(a);
    var lb := DueLabel(b);
    if a >= 2 {
      DueLabelForm(a);
      assert la[4] == 'i';
      assert lb[4] == 't';
    } else if b >= 2 {
      DueLabelForm(b);
      assert lb[4] == 'i';
      assert la[4] == 't';
    } else {
      assert |la| != |lb|;
    }
  }

  /** Two day offsets get the same label exactly when they fall in the same bucket:
      the label loses nothing but the days within a week or a month. */
  lemma DueLabelDeterminesBucket(a: int, b: int)
    ensures DueLabel(a) == DueLabel(b) <==> Bucket(a) == Bucket(b)
  {
    if DueLabel(a) == DueLabel(b) {
      DueLabelOverdue(a);
      DueLabelOverdue(b);
      if a < 0 {
        OverdueBucket(a, b);
      } else if a <= 1 || b <= 1 {
        if a != b {
          DueLabelShortCases(a, b);
        }
      } else {
        DueInBucket(a, b);
      }
    }
  }

  /** `get_time_until_due()` with today's date passed in: a due date that is not a
      string raises TypeError (only ValueError is caught); one that does not parse
      gives None. */
  function TimeUntilDue(due: Value, today: Date): (r: Result<Option<string>>)
    requires ValidDate(today)
    ensures r.Err? <==> !due.Str?
    ensures r.Ok? ==> (r.value.Some? <==> ParseDate(due.s).Some?)
  {
    if !due.Str? then Err(TypeError)
    else match ParseDate(due.s)
      case None => Ok(None)
      case Some(d) => Ok(Some(DueLabel(Ordinal(d) - Ordinal(today))))
  }

  /** `_is_overdue()` with today's date passed in: both exceptions give False. */
  predicate IsOverdue(due: Value, today: Date) {
    due.Str? && ParseDate(due.s).Some? && DateBefore(ParseDate(due.s).value, today)
  }

  /** The two due-date helpers agree: the label says "Overdue" exactly when the
      task is overdue. */
  lemma OverdueLabelAgrees(due: Value, today: Date)
    requires ValidDate(today)
    ensures IsOverdue(due, today) <==>
            (exists l :: TimeUntilDue(due, today) == Ok(Some(l)) && |l| >= 7 && l[..7] == "Overdue")
  {
    if due.Str? && ParseDate(due.s).Some? {
      var d := ParseDate(due.s).value;
      OrdinalOrder(d, today);
      DueLabelOverdue(Ordinal(d) - Ordinal(today));
    }
  }

  /** The field values a failed setter leaves in place and the successful one installs. */
  function Settled(f: TaskFields, r: Result<TaskFields>): TaskFields {
    if r.Ok? then r.value else f
  }

  function ErrorOf<T>(r: Result<T>): Option<Error> {
    if r.Ok? then None else Some(r.error)
  }

  class Task {
    var taskId: Value
    var title: string
    var status: string
    var personInCharge: int
    var dueDate: Value
    const creator: int
    var additionalInfo: Value
    var editors: Value
    const creationDate: Value

    function View(): TaskFields
      reads this
    {
      TaskFields(taskId, title, status, personInCharge, dueDate, creator, additionalInfo, editors, creationDate)
    }

    /** The object `__init__` builds once its arguments have passed validation (see `Construct`). */
    constructor (f: TaskFields)
      requires WellFormed(f)
      ensures View() == f
    {
      taskId := f.taskId;
      title := f.title;
      status := f.status;
      personInCharge := f.personInCharge;
      dueDate := f.dueDate;
      creator := f.creator;
      additionalInfo := f.additionalInfo;
      editors := f.editors;
      creationDate := f.creationDate;
    }

    method SetTaskId(v: Value) returns (err: Option<Error>)
      modifies this
      ensures View() == Settled(old(View()), WithTaskId(old(View()), v))
      ensures err == ErrorOf(WithTaskId(old(View()), v))
    {
      if !IsPositiveInt(v) {
        return Some(ValueError(BadTaskId));
      }
      taskId := v;
      err := None;
    }

    method SetTitle(v: Value) returns (err: Option<Error>)
      modifies this
      ensures View() == Settled(old(View()), WithTitle(old(View()), v))
      ensures err == ErrorOf(WithTitle(old(View()), v))
    {
      err := TitleCheck(v);
      if err.None? {
        title := Strip(v.s);
      }
    }

    method SetStatus(v: Value) returns (err: Option<Error>)
      modifies this
      ensures View() == Settled(old(View()), WithStatus(old(View()), v))
      ensures err == ErrorOf(WithStatus(old(View()), v))
    {
      if !IsValidStatus(v) {
        return Some(ValueError(InvalidStatus));
      }
      status := v.s;
      err := None;
    }

    method SetPersonInCharge(v: Value, users: set<int>) returns (err: Option<Error>)
      modifies this
      ensures View() == Settled(old(View()), WithPersonInCharge(old(View()), v, users))
      ensures err == ErrorOf(WithPersonInCharge(old(View()), v, users))
    {
      if !IsPositiveInt(v) || !CheckUserExist(users, v) {
        return Some(ValueError(BadPersonInCharge));
      }
      personInCharge := v.i;
      err := None;
    }

    method SetDueDate(v: Value) returns (err: Option<Error>)
      modifies this
      ensures View() == Settled(old(View()), WithDueDate(old(View()), v))
      ensures err == ErrorOf(WithDueDate(old(View()), v))
    {
      if !v.Str? {
        return Some(TypeError);
      }
      if ParseDate(v.s).None? {
        return Some(ValueError(BadDueDate));
      }
      dueDate := v;
      err := None;
    }

    method SetEditors(v: Value, users: set<int>) returns (err: Option<Error>)
      modifies this
      ensures View() == Settled(old(View()), WithEditors(old(View()), v, users))
      ensures err == ErrorOf(WithEditors(old(View()), v, users))
    {
      if !v.Null? && (!IsPositiveInt(v) || !CheckUserExist(users, v)) {
        return Some(ValueError(BadEditor));
      }
      editors := v;
      err := None;
    }

    /** The `additional_info` setter accepts any value. */
    method SetAdditionalInfo(v: Value)
      modifies this
      ensures View() == old(View()).(additionalInfo := v)
    {
      additionalInfo := v;
    }

    /** `__eq__`: two tasks are equal when they carry the same, non-None task id. */
    predicate Equals(other: Task)
      reads this, other
    {
      taskId != Null && taskId == other.taskId
    }
  }

  /** Task equality is symmetric and transitive, and a task without an id is not
      even equal to itself. */
  lemma EqualsProperties(a: Task, b: Task, c: Task)
    ensures a.Equals(b) ==> b.Equals(a)
    ensures a.Equals(b) && b.Equals(c) ==> a.Equals(c)
    ensures a.Equals(a) <==> a.taskId != Null
  {
  }
}
