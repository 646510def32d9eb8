/** `KanbanBoard`: adding, editing and deleting tasks in the store, single and
    batch deletion results, reading one or all tasks, and the task-list cache. */
module Kanban {
  import opened Text
  import opened Values
  import opened Calendar
  import opened TaskStatus
  import opened KanbanDb
  import opened Tasks

  /** The keyword arguments `edit_task` forwards to `_apply_task_updates`. A key
      that is absent is `Null` here, which the code treats like an explicit None. */
  datatype Updates = Updates(newTitle: Value, newStatus: Value, newPersonInCharge: Value,
                             newDueDate: Value, newAdditionalInfo: Value)

  /** The task's fields after `_apply_task_updates`, and the list of changed
      field names it returned or the exception it raised. */
  datatype Applied = Applied(fields: TaskFields, outcome: Result<seq<string>>)

  /** The fields `_apply_task_updates` may change, in the order it tries them. */
  datatype Field = TitleField | StatusField | PersonField | DueField | InfoField

  /** The name it reports for a changed field. */
  function FieldName(k: Field): string {
    match k
    case TitleField => "title"
    case StatusField => "status"
    case PersonField => "person_in_charge"
    case DueField => "due_date"
    case InfoField => "additional_info"
  }

  /** The property setter for a field. */
  function SetField(f: TaskFields, k: Field, v: Value, users: set<int>): Result<TaskFields> {
    match k
    case TitleField => WithTitle(f, v)
    case StatusField => WithStatus(f, v)
    case PersonField => WithPersonInCharge(f, v, users)
    case DueField => WithDueDate(f, v)
    case InfoField => Ok(f.(additionalInfo := v))
  }

  /** One `if key in updates and updates[key] is not None:` block: skipped after an
      exception or when the value is None; otherwise the setter runs and, if it
      does not raise, the field's name is appended. */
  function Step(a: Applied, k: Field, v: Value, users: set<int>): Applied {
    if a.outcome.Err? || v.Null? then a
    else match SetField(a.fields, k, v, users)
      case Err(e) => Applied(a.fields, Err(e))
      case Ok(g) => Applied(g, Ok(a.outcome.value + [FieldName(k)]))
  }

  /** The closing block: when anything changed, the editor is set and reported. */
  function Finish(a: Applied, editor: Value, users: set<int>): Applied {
    if a.outcome.Err? || a.outcome.value == [] then a
    else match WithEditors(a.fields, editor, users)
      case Err(e) => Applied(a.fields, Err(e))
      case Ok(g) => Applied(g, Ok(a.outcome.value + ["editor"]))
  }

  /** The field the `n`-th block handles. */
  function FieldAt(n: nat): Field
    requires 1 <= n <= 5
  {
    if n == 1 then TitleField
    else if n == 2 then StatusField
    else if n == 3 then PersonField
    else if n == 4 then DueField
    else InfoField
  }

  /** The value supplied for a field. */
  function ValueOf(u: Updates, k: Field): Value {
    match k
    case TitleField => u.newTitle
    case StatusField => u.newStatus
    case PersonField => u.newPersonInCharge
    case DueField => u.newDueDate
    case InfoField => u.newAdditionalInfo
  }

  /** The state after the first `n` field blocks. */
  function Stage(f: TaskFields, u: Updates, users: set<int>, n: nat): Applied
    requires n <= 5
  {
    if n == 0 then Applied(f, Ok([]))
    else Step(Stage(f, u, users, n - 1), FieldAt(n), ValueOf(u, FieldAt(n)), users)
  }

  /** `_apply_task_updates(task, updates, editor)` on the task's fields. The explicit
      status check before the status setter raises the same ValueError the setter
      would. Setters that ran before an exception have already changed the task. */
  function ApplyUpdates(f: TaskFields, u: Updates, editor: Value, users: set<int>): Applied {
    Finish(Stage(f, u, users, Blocks), editor, users)
  }

  /** The number of field blocks. */
  const Blocks: nat := 5

  /** The names of the supplied (non-None) updates, in the order they are applied. */
  function SuppliedNames(u: Updates): seq<string> {
    (if u.newTitle.Null? then [] else ["title"])
    + (if u.newStatus.Null? then [] else ["status"])
    + (if u.newPersonInCharge.Null? then [] else ["person_in_charge"])
    + (if u.newDueDate.Null? then [] else ["due_date"])
    + (if u.newAdditionalInfo.Null? then [] else ["additional_info"])
  }

  /** Every supplied value passes its setter. */
  predicate FieldsAcceptable(u: Updates, users: set<int>) {
    && (u.newTitle.Null? || (u.newTitle.Str? && !IsBlank(u.newTitle.s)))
    && (u.newStatus.Null? || IsValidStatus(u.newStatus))
    && (u.newPersonInCharge.Null? || (IsPositiveInt(u.newPersonInCharge) && CheckUserExist(users, u.newPersonInCharge)))
    && (u.newDueDate.Null? || (u.newDueDate.Str? && ParseDate(u.newDueDate.s).Some?))
  }

  /** Every supplied value passes its setter, and so does the editor when anything was supplied. */
  predicate Acceptable(u: Updates, editor: Value, users: set<int>) {
    && FieldsAcceptable(u, users)
    && (SuppliedNames(u) == [] || editor.Null? || (IsPositiveInt(editor) && CheckUserExist(users, editor)))
  }

  /** The fields after a successful update: supplied values replace the old ones
      (the title stripped), and the editor is recorded when anything changed. */
  function Merged(f: TaskFields, u: Updates, editor: Value): TaskFields {
    f.(title := if u.newTitle.Str? then Strip(u.newTitle.s) else f.title,
       status := if u.newStatus.Str? then u.newStatus.s else f.status,
       personInCharge := if u.newPersonInCharge.Int? then u.newPersonInCharge.i else f.personInCharge,
       dueDate := if u.newDueDate.Null? then f.dueDate else u.newDueDate,
       additionalInfo := if u.newAdditionalInfo.Null? then f.additionalInfo else u.newAdditionalInfo,
       editors := if SuppliedNames(u) == [] then f.editors else editor)
  }

  /** A value one field's setter accepts. */
  predicate Accepts(k: Field, v: Value, users: set<int>) {
    match k
    case TitleField => v.Str? && !IsBlank(v.s)
    case StatusField => IsValidStatus(v)
    case PersonField => IsPositiveInt(v) && CheckUserExist(users, v)
    case DueField => v.Str? && ParseDate(v.s).Some?
    case InfoField => true
  }

  /** The fields once one block has handled a value: a None leaves them as they are. */
  function Assigned(g: TaskFields, k: Field, v: Value): TaskFields {
    match k
    case TitleField => g.(title := if v.Str? then Strip(v.s) else g.title)
    case StatusField => g.(status := if v.Str? then v.s else g.status)
    case PersonField => g.(personInCharge := if v.Int? then v.i else g.personInCharge)
    case DueField => g.(dueDate := if v.Null? then g.dueDate else v)
    case InfoField => g.(additionalInfo := if v.Null? then g.additionalInfo else v)
  }

  /** Each setter succeeds exactly on the values it accepts, and then assigns its field. */
  lemma SetFieldSpec(g: TaskFields, k: Field, v: Value, users: set<int>)
    ensures SetField(g, k, v, users).Ok? <==> Accepts(k, v, users)
    ensures !v.Null? && Accepts(k, v, users) ==> SetField(g, k, v, users).value == Assigned(g, k, v)
    ensures v.Null? ==> Assigned(g, k, v) == g
  {
  }

  /** The first `n` supplied values are all accepted. */
  predicate AcceptedUpTo(u: Updates, users: set<int>, n: nat)
    requires n <= 5
  {
    n == 0 || (AcceptedUpTo(u, users, n - 1)
               && (ValueOf(u, FieldAt(n)).Null? || Accepts(FieldAt(n), ValueOf(u, FieldAt(n)), users)))
  }

  /** The fields once the first `n` supplied values are assigned. */
  function MergedUpTo(f: TaskFields, u: Updates, n: nat): TaskFields
    requires n <= 5
  {
    if n == 0 then f
    else Assigned(MergedUpTo(f, u, n - 1), FieldAt(n), ValueOf(u, FieldAt(n)))
  }

  /** The names of the first `n` fields, those supplied. */
  function NamesUpTo(u: Updates, n: nat): seq<string>
    requires n <= 5
  {
    if n == 0 then []
    else NamesUpTo(u, n - 1) + (if ValueOf(u, FieldAt(n)).Null? then [] else [FieldName(FieldAt(n))])
  }

  /** The first `n` blocks succeed exactly when their values are accepted, and then
      have assigned those values and reported those names. */
  lemma {:induction false} StageOk(f: TaskFields, u: Updates, users: set<int>, n: nat)
    requires n <= 5
    ensures Stage(f, u, users, n).outcome.Ok? <==> AcceptedUpTo(u, users, n)
    ensures Stage(f, u, users, n).outcome.Ok? ==>
              Stage(f, u, users, n).fields == MergedUpTo(f, u, n)
              && Stage(f, u, users, n).outcome.value == NamesUpTo(u, n)
  {
    if n > 0 {
      StageOk(f, u, users, n - 1);
      StepSpec(Stage(f, u, users, n - 1), FieldAt(n), ValueOf(u, FieldAt(n)), users);
    }
  }

  /** One block succeeds exactly when the blocks before it did and its value is
      None or accepted; it then assigns the value and reports the field's name. */
  lemma StepSpec(a: Applied, k: Field, v: Value, users: set<int>)
    ensures Step(a, k, v, users).outcome.Ok? <==> a.outcome.Ok? && (v.Null? || Accepts(k, v, users))
    ensures Step(a, k, v, users).outcome.Ok? ==>
              Step(a, k, v, users).fields == Assigned(a.fields, k, v)
              && Step(a, k, v, users).outcome.value
                 == a.outcome.value + (if v.Null? then [] else [FieldName(k)])
  {
    SetFieldSpec(a.fields, k, v, users);
  }

  /** No field block touches the id, the creator, the creation date or the editors. */
  lemma {:induction false} StageKeeps(f: TaskFields, u: Updates, users: set<int>, n: nat)
    requires n <= 5
    ensures var g := Stage(f, u, users, n).fields;
            g.taskId == f.taskId && g.creator == f.creator
            && g.creationDate == f.creationDate && g.editors == f.editors
  {
    if n > 0 {
      StageKeeps(f, u, users, n - 1);
      StepSpec(Stage(f, u, users, n - 1), FieldAt(n), ValueOf(u, FieldAt(n)), users);
    }
  }

  lemma AcceptedAll(u: Updates, users: set<int>)
    ensures AcceptedUpTo(u, users, 5) <==> FieldsAcceptable(u, users)
  {
    assert AcceptedUpTo(u, users, 1) <==> (u.newTitle.Null? || (u.newTitle.Str? && !IsBlank(u.newTitle.s)));
    assert AcceptedUpTo(u, users, 3) <==>
      (&& AcceptedUpTo(u, users, 1)
       && (u.newStatus.Null? || IsValidStatus(u.newStatus))
       && (u.newPersonInCharge.Null? || (IsPositiveInt(u.newPersonInCharge) && CheckUserExist(users, u.newPersonInCharge))));
  }

  lemma MergedAll(f: TaskFields, u: Updates)
    ensures MergedUpTo(f, u, 5) == Merged(f, u, Null).(editors := f.editors)
  {
    var g1 := Assigned(f, TitleField, u.newTitle);
    assert MergedUpTo(f, u, 1) == g1;
    var g2 := Assigned(g1, StatusField, u.newStatus);
    assert MergedUpTo(f, u, 2) == g2;
    var g3 := Assigned(g2, PersonField, u.newPersonInCharge);
    assert MergedUpTo(f, u, 3) == g3;
    var g4 := Assigned(g3, DueField, u.newDueDate);
    assert MergedUpTo(f, u, 4) == g4;
  }

  lemma NamesAll(u: Updates)
    ensures NamesUpTo(u, 5) == SuppliedNames(u)
  {
    var n1 := if u.newTitle.Null? then [] else ["title"];
    assert [] + n1 == n1;
    assert NamesUpTo(u, 1) == n1;
    var n2 := n1 + (if u.newStatus.Null? then [] else ["status"]);
    assert NamesUpTo(u, 2) == n2;
    var n3 := n2 + (if u.newPersonInCharge.Null? then [] else ["person_in_charge"]);
    assert NamesUpTo(u, 3) == n3;
    var n4 := n3 + (if u.newDueDate.Null? then [] else ["due_date"]);
    assert NamesUpTo(u, 4) == n4;
  }

  /** What the five field blocks do together. */
  lemma StagesSpec(f: TaskFields, u: Updates, users: set<int>)
    ensures var a := Stage(f, u, users, 5);
      && (a.outcome.Ok? <==> FieldsAcceptable(u, users))
      && (a.outcome.Ok? ==> a.outcome.value == SuppliedNames(u)
                            && a.fields == Merged(f, u, Null).(editors := f.editors))
      && a.fields.taskId == f.taskId && a.fields.creator == f.creator
      && a.fields.creationDate == f.creationDate && a.fields.editors == f.editors
  {
    StageOk(f, u, users, 5);
    StageKeeps(f, u, users, 5);
    AcceptedAll(u, users);
    MergedAll(f, u);
    NamesAll(u);
  }

  /** `_apply_task_updates` succeeds exactly on acceptable updates; it then installs
      the merged fields and reports the supplied names, plus "editor" if there were
      any. The id, creator and creation date are never touched. */
  lemma {:induction false} ApplyUpdatesSpec(f: TaskFields, u: Updates, editor: Value, users: set<int>)
    ensures ApplyUpdates(f, u, editor, users).outcome.Ok? <==> Acceptable(u, editor, users)
    ensures ApplyUpdates(f, u, editor, users).outcome.Ok? ==>
              && ApplyUpdates(f, u, editor, users).fields == Merged(f, u, editor)
              && ApplyUpdates(f, u, editor, users).outcome.value
                 == SuppliedNames(u) + (if SuppliedNames(u) == [] then [] else ["editor"])
    ensures var g := ApplyUpdates(f, u, editor, users).fields;
            g.taskId == f.taskId && g.creator == f.creator && g.creationDate == f.creationDate
  {
    StagesSpec(f, u, users);
  }

  /** After an exception the remaining blocks do nothing: the result is the state
      the exception left. */
  lemma {:induction false} ErrorSticks(f: TaskFields, u: Updates, editor: Value, users: set<int>, n: nat)
    requires 1 <= n <= 5 && Stage(f, u, users, n).outcome.Err?
    ensures ApplyUpdates(f, u, editor, users) == Stage(f, u, users, n)
    decreases 5 - n
  {
    if n < 5 {
      assert Stage(f, u, users, n + 1) == Stage(f, u, users, n);
      ErrorSticks(f, u, editor, users, n + 1);
    }
  }

  /** Running one more block. */
  lemma StageNext(f: TaskFields, u: Updates, users: set<int>, n: nat)
    requires n < Blocks
    ensures Stage(f, u, users, n + 1) == Step(Stage(f, u, users, n), FieldAt(n + 1), ValueOf(u, FieldAt(n + 1)), users)
  {
  }

  lemma {:induction false} StageWellFormed(f: TaskFields, u: Updates, users: set<int>, n: nat)
    requires n <= 5 && WellFormed(f)
    ensures WellFormed(Stage(f, u, users, n).fields)
  {
    if n > 0 {
      StageWellFormed(f, u, users, n - 1);
      StepWellFormed(Stage(f, u, users, n - 1), FieldAt(n), ValueOf(u, FieldAt(n)), users);
    }
  }

  /** One block keeps the fields well formed. */
  lemma StepWellFormed(a: Applied, k: Field, v: Value, users: set<int>)
    requires WellFormed(a.fields)
    ensures WellFormed(Step(a, k, v, users).fields)
  {
  }

  /** Updating keeps a task well formed, whether or not an exception stopped it halfway. */
  lemma ApplyUpdatesWellFormed(f: TaskFields, u: Updates, editor: Value, users: set<int>)
    requires WellFormed(f)
    ensures WellFormed(ApplyUpdates(f, u, editor, users).fields)
  {
    StageWellFormed(f, u, users, 5);
  }

  /** An invalid status is rejected even when a valid title precedes it; the title
      change has by then been made to the task object, though never stored. */
  lemma InvalidStatusStopsUpdate(f: TaskFields, u: Updates, editor: Value, users: set<int>)
    requires u.newTitle.Str? && !IsBlank(u.newTitle.s)
    requires !u.newStatus.Null? && !IsValidStatus(u.newStatus)
    ensures ApplyUpdates(f, u, editor, users) == Applied(f.(title := Strip(u.newTitle.s)), Err(ValueError(InvalidStatus)))
  {
    var a0 := Stage(f, u, users, 0);
    StageNext(f, u, users, 0);
    StepSpec(a0, TitleField, u.newTitle, users);
    assert [] + ["title"] == ["title"];
    var a1 := Stage(f, u, users, 1);
    assert a1 == Applied(f.(title := Strip(u.newTitle.s)), Ok(["title"]));
    StageNext(f, u, users, 1);
    StatusRejected(a1, u.newStatus, users);
    ErrorSticks(f, u, editor, users, 2);
  }

  /** The status block raises on an invalid status and leaves the fields as they were. */
  lemma StatusRejected(a: Applied, v: Value, users: set<int>)
    requires a.outcome.Ok? && !v.Null? && !IsValidStatus(v)
    ensures Step(a, StatusField, v, users) == Applied(a.fields, Err(ValueError(InvalidStatus)))
  {
  }

  /** How the store row for a task is written by `kdb.AddTask`: the editor column starts empty. */
  function RecordOf(id: int, f: TaskFields): (r: Record)
    ensures r.id == id
  {
    Record(id, Str(f.title), Str(f.status), Int(f.personInCharge), f.creationDate, f.dueDate,
           Int(f.creator), Null, f.additionalInfo)
  }

  /** `add_task(title, status, person_in_charge, due_date, creator, additional_info)`:
      the status and both users are checked first, then the task is built (which
      validates the title and the two user ids and stamps the creation time). */
  function AddSpec(users: set<int>, title: Value, status: Value, personInCharge: Value, dueDate: Value,
                   creator: Value, additionalInfo: Value, now: string): (r: Result<TaskFields>)
    ensures r.Ok? <==> (&& IsValidStatus(status) && CheckUserExist(users, personInCharge)
                        && CheckUserExist(users, creator) && title.Str? && !IsBlank(title.s)
                        && IsPositiveInt(personInCharge) && IsPositiveInt(creator))
    ensures r.Ok? ==> WellFormed(r.value) && r.value.taskId == Null && r.value.editors == Null
                      && r.value.creationDate == Str(now) && r.value.dueDate == dueDate
    ensures r.Ok? ==> title.Str? && r.value.title == Strip(title.s) && status.Str? && r.value.status == status.s
                      && personInCharge.Int? && r.value.personInCharge == personInCharge.i
                      && creator.Int? && r.value.creator == creator.i && r.value.additionalInfo == additionalInfo
  {
    if !IsValidStatus(status) then Err(ValueError(InvalidStatus))
    else if !CheckUserExist(users, personInCharge) then Err(ValueError(BadPersonInCharge))
    else if !CheckUserExist(users, creator) then Err(ValueError(BadCreator))
    else Construct(title, status, personInCharge, dueDate, creator, additionalInfo, Null, Null, Null, now)
  }

  /** A due date is stored as given: `add_task` never checks its format. */
  lemma AddAcceptsAnyDueDate(users: set<int>, now: string)
    requires 7 in users
    ensures AddSpec(users, Str("Report"), Str("To-Do"), Int(7), Str("next week"), Int(7), Str(""), now).Ok?
  {
    assert GetValidStatuses()[0] == "To-Do";
    assert "Report"[0] == 'R' && !IsSpace('R');
    assert !IsBlank("Report");
  }

  /** `get_task(task_id)`: the task built from the stored row; a missing row and a
      row that fails construction both give None. */
  function GetTaskSpec(records: seq<Record>, id: int, now: string): (r: Option<TaskFields>)
    ensures r.Some? ==> WellFormed(r.value)
    ensures Find(records, id).None? ==> r.None?
  {
    match Find(records, id)
    case None => None
    case Some(rec) =>
      match FromDatabaseRow(Cells(rec), now)
      case Ok(f) => Some(f)
      case Err(_) => None
  }

  lemma FindAppendFresh(records: seq<Record>, r: Record)
    requires forall k :: 0 <= k < |records| ==> records[k].id != r.id
    ensures Find(records + [r], r.id) == Some(r)
  {
    if records != [] {
      assert (records + [r])[1..] == records[1..] + [r];
      FindAppendFresh(records[1..], r);
    }
  }

  /** A task that was added is read back with the id the store gave it. */
  lemma {:induction false} AddThenGet(records: seq<Record>, nextId: int, users: set<int>, title: Value, status: Value,
                                      personInCharge: Value, dueDate: Value, creator: Value,
                                      additionalInfo: Value, now: string, later: string)
    requires forall k :: 0 <= k < |records| ==> records[k].id < nextId
    requires AddSpec(users, title, status, personInCharge, dueDate, creator, additionalInfo, now).Ok?
    ensures var f := AddSpec(users, title, status, personInCharge, dueDate, creator, additionalInfo, now).value;
            GetTaskSpec(records + [RecordOf(nextId, f)], nextId, later) == Some(f.(taskId := Int(nextId)))
  {
    var f := AddSpec(users, title, status, personInCharge, dueDate, creator, additionalInfo, now).value;
    var g := f.(taskId := Int(nextId));
    FindAppendFresh(records, RecordOf(nextId, f));
    assert Cells(RecordOf(nextId, f)) == Row(g);
    FromDatabaseRowOfRow(g, later);
  }

  /** `delete_task(task_id)`: succeeds when the row exists and still builds a task.
      The clock only fills in a missing creation date, so it never decides the outcome. */
  predicate DeleteSpec(records: seq<Record>, id: int) {
    match Find(records, id)
    case None => false
    case Some(rec) => BuildsTask(Cells(rec))
  }

  lemma {:induction false} FindAfterRemove(records: seq<Record>, x: int, y: int)
    ensures Find(Remove(records, x), y) == if x == y then None else Find(records, y)
  {
    if records != [] {
      FindAfterRemove(records[1..], x, y);
      if records[0].id != x {
        assert (([records[0]] + Remove(records[1..], x))[1..]) == Remove(records[1..], x);
      }
    }
  }

  /** After a successful deletion the task can be neither read nor deleted again. */
  lemma DeleteThenGet(records: seq<Record>, id: int, now: string)
    ensures GetTaskSpec(Remove(records, id), id, now).None?
    ensures !DeleteSpec(Remove(records, id), id)
  {
    FindAfterRemove(records, id, id);
  }

  /** Deleting one task does not change whether another can be deleted or read. */
  lemma DeleteIndependent(records: seq<Record>, x: int, y: int, now: string)
    requires x != y
    ensures DeleteSpec(Remove(records, x), y) == DeleteSpec(records, y)
    ensures GetTaskSpec(Remove(records, x), y, now) == GetTaskSpec(records, y, now)
  {
    FindAfterRemove(records, x, y);
  }

  /** The store and the result lists after `delete_tasks_batch` has handled some ids. */
  datatype BatchRun = BatchRun(records: seq<Record>, successful: seq<int>, failed: seq<int>, notFound: seq<int>)

  /** `delete_tasks_batch(task_ids)`: one `delete_task` per id, in order, against the store
      the earlier deletions left. `delete_task` catches every exception itself, so the
      handler in the loop never runs, and nothing is ever listed as not found. */
  function BatchSpec(records: seq<Record>, ids: seq<int>): BatchRun
    decreases |ids|
  {
    if ids == [] then BatchRun(records, [], [], [])
    else
      var prev := BatchSpec(records, ids[..|ids| - 1]);
      var id := ids[|ids| - 1];
      BatchStep(prev, id, DeleteSpec(prev.records, id))
  }

  /** One iteration of the batch loop, given whether `delete_task(id)` succeeded. */
  function BatchStep(prev: BatchRun, id: int, deleted: bool): BatchRun {
    if deleted
    then BatchRun(Remove(prev.records, id), prev.successful + [id], prev.failed, prev.notFound)
    else BatchRun(prev.records, prev.successful, prev.failed + [id], prev.notFound)
  }

  /** One iteration reports its id once, as successful or failed. */
  lemma BatchStepReports(prev: BatchRun, id: int, deleted: bool)
    ensures var b := BatchStep(prev, id, deleted);
            multiset(b.successful) + multiset(b.failed)
            == multiset(prev.successful) + multiset(prev.failed) + multiset{id}
            && b.notFound == prev.notFound
  {
  }

  /** The ids of `ids` that are deletable in `records`, in order. */
  function Deletable(records: seq<Record>, ids: seq<int>): seq<int>
    decreases |ids|
  {
    if ids == [] then []
    else Deletable(records, ids[..|ids| - 1])
         + (if DeleteSpec(records, ids[|ids| - 1]) then [ids[|ids| - 1]] else [])
  }

  /** Every id is reported exactly once, as successful or failed, and `not_found` stays empty. */
  lemma {:induction false} BatchPartition(records: seq<Record>, ids: seq<int>)
    ensures var b := BatchSpec(records, ids);
            multiset(b.successful) + multiset(b.failed) == multiset(ids) && b.notFound == []
  {
    if ids != [] {
      var front := ids[..|ids| - 1];
      var last := ids[|ids| - 1];
      BatchPartition(records, front);
      var prev := BatchSpec(records, front);
      BatchStepReports(prev, last, DeleteSpec(prev.records, last));
      assert ids == front + [last];
      assert multiset(ids) == multiset(front) + multiset{last};
    }
  }

  /** With distinct ids the batch deletes exactly the ids that were deletable at the
      start, and their rows are the ones gone from the store. */
  lemma {:induction false} BatchDistinct(records: seq<Record>, ids: seq<int>)
    requires forall i, j :: 0 <= i < j < |ids| ==> ids[i] != ids[j]
    ensures BatchSpec(records, ids).successful == Deletable(records, ids)
    ensures forall y :: y !in ids ==> DeleteSpec(BatchSpec(records, ids).records, y) == DeleteSpec(records, y)
  {
    if ids != [] {
      var front := ids[..|ids| - 1];
      var last := ids[|ids| - 1];
      BatchDistinct(records, front);
      var prev := BatchSpec(records, front);
      assert last !in front;
      assert DeleteSpec(prev.records, last) == DeleteSpec(records, last);
      forall y | y !in ids
        ensures DeleteSpec(BatchSpec(records, ids).records, y) == DeleteSpec(records, y)
      {
        assert y != last && y !in front;
        if DeleteSpec(prev.records, last) {
          FindAfterRemove(prev.records, last, y);
        }
      }
    }
  }

  /** Asking twice for the same deletable id: the first succeeds and the second fails. */
  lemma BatchRepeatedId(records: seq<Record>, id: int)
    requires DeleteSpec(records, id)
    ensures BatchSpec(records, [id] + [id]).successful == [id]
    ensures BatchSpec(records, [id] + [id]).failed == [id]
  {
    BatchSingle(records, id);
    BatchSecondFails(records, id);
  }

  /** Once an id has been deleted, asking for it again fails. */
  lemma BatchSecondFails(records: seq<Record>, id: int)
    requires BatchSpec(records, [id]).records == Remove(records, id)
    ensures BatchSpec(records, [id] + [id]) == BatchStep(BatchSpec(records, [id]), id, false)
  {
    BatchSnoc(records, [id], id);
    FindAfterRemove(records, id, id);
  }

  /** The batch over a single id is one `delete_task`. */
  lemma BatchSingle(records: seq<Record>, id: int)
    ensures BatchSpec(records, [id]) == BatchStep(BatchRun(records, [], [], []), id, DeleteSpec(records, id))
  {
    assert [id][..0] == [];
  }

  /** The batch over one more id. */
  lemma BatchSnoc(records: seq<Record>, ids: seq<int>, id: int)
    ensures var prev := BatchSpec(records, ids);
            BatchSpec(records, ids + [id]) == BatchStep(prev, id, DeleteSpec(prev.records, id))
  {
    assert (ids + [id])[..|ids|] == ids;
  }

  /** The outcome of `edit_task`: rejected (returns False), nothing to change
      (returns True, stores nothing) or a write of the updated fields. */
  datatype EditOutcome = EditRejected | EditNoChange | EditWrite(fields: TaskFields)

  /** How `edit_task` reads the result of `_apply_task_updates`: an exception gives
      False, an empty list True without a write, anything else a write. */
  function EditOf(a: Applied): (r: EditOutcome)
    ensures r.EditWrite? ==> r.fields == a.fields
  {
    if a.outcome.Err? then EditRejected
    else if a.outcome.value == [] then EditNoChange
    else EditWrite(a.fields)
  }

  /** `edit_task(task_id, editor, **updates)`. Every exception is caught and turns into False. */
  function EditSpec(records: seq<Record>, users: set<int>, id: int, editor: Value, u: Updates,
                    now: string): EditOutcome
  {
    match Find(records, id)
    case None => EditRejected
    case Some(rec) =>
      if !CheckUserExist(users, editor) then EditRejected
      else match FromDatabaseRow(Cells(rec), now)
        case Err(_) => EditRejected
        case Ok(f) => EditOf(ApplyUpdates(f, u, editor, users))
  }

  /** An edit is rejected when the task cannot be loaded or the editor is unknown;
      otherwise it is decided by applying the updates to the loaded task. */
  lemma EditSpecLoaded(records: seq<Record>, users: set<int>, id: int, editor: Value, u: Updates, now: string)
    ensures GetTaskSpec(records, id, now).Some? && CheckUserExist(users, editor) ==>
      EditSpec(records, users, id, editor, u, now) == EditOf(ApplyUpdates(GetTaskSpec(records, id, now).value, u, editor, users))
    ensures GetTaskSpec(records, id, now).None? || !CheckUserExist(users, editor) ==>
      EditSpec(records, users, id, editor, u, now) == EditRejected
  {
  }

  /** The store after `kdb.EditTask` has written the updated task. */
  function EditedRecords(records: seq<Record>, id: int, g: TaskFields): seq<Record> {
    Update(records, id, Str(g.title), Str(g.status), Int(g.personInCharge), g.dueDate, g.editors, g.additionalInfo)
  }

  /** What `edit_task` writes: the stored task merged with the supplied values and
      stamped with the editor; it writes only when something valid was supplied. */
  lemma EditWriteIsMerge(records: seq<Record>, users: set<int>, id: int, editor: Value, u: Updates, now: string)
    ensures EditSpec(records, users, id, editor, u, now).EditWrite? <==>
            (&& GetTaskSpec(records, id, now).Some? && CheckUserExist(users, editor)
             && Acceptable(u, editor, users) && SuppliedNames(u) != [])
    ensures EditSpec(records, users, id, editor, u, now).EditWrite? ==>
            && EditSpec(records, users, id, editor, u, now).fields == Merged(GetTaskSpec(records, id, now).value, u, editor)
            && EditSpec(records, users, id, editor, u, now).fields.editors == editor
  {
    EditSpecLoaded(records, users, id, editor, u, now);
    if GetTaskSpec(records, id, now).Some? {
      ApplyUpdatesSpec(GetTaskSpec(records, id, now).value, u, editor, users);
    }
  }

  /** Applying no updates changes nothing and reports nothing. */
  lemma NothingApplied(f: TaskFields, editor: Value, users: set<int>)
    ensures ApplyUpdates(f, Updates(Null, Null, Null, Null, Null), editor, users) == Applied(f, Ok([]))
  {
    var u := Updates(Null, Null, Null, Null, Null);
    StageOk(f, u, users, Blocks);
    MergedAll(f, u);
    NamesAll(u);
    AcceptedAll(u, users);
  }

  /** An edit with nothing supplied changes nothing but still reports success. */
  lemma EditNothingSupplied(records: seq<Record>, users: set<int>, id: int, editor: Value, now: string)
    requires GetTaskSpec(records, id, now).Some? && CheckUserExist(users, editor)
    ensures EditSpec(records, users, id, editor, Updates(Null, Null, Null, Null, Null), now) == EditNoChange
  {
    EditSpecLoaded(records, users, id, editor, Updates(Null, Null, Null, Null, Null), now);
    NothingApplied(GetTaskSpec(records, id, now).value, editor, users);
  }

  /** A valid status alone sets the status and the editor and reports both. */
  lemma StatusOnlyApplied(f: TaskFields, s: string, editor: Value, users: set<int>)
    requires IsPositiveInt(editor) && CheckUserExist(users, editor) && s in GetValidStatuses()
    ensures ApplyUpdates(f, Updates(Null, Str(s), Null, Null, Null), editor, users)
            == Applied(f.(status := s, editors := editor), Ok(["status", "editor"]))
  {
    var u := Updates(Null, Str(s), Null, Null, Null);
    ApplyUpdatesSpec(f, u, editor, users);
    assert SuppliedNames(u) == ["status"];
    assert Acceptable(u, editor, users);
    assert Merged(f, u, editor) == f.(status := s, editors := editor);
    assert ["status"] + ["editor"] == ["status", "editor"];
  }

  /** Changing only the status records the new status and the editor, nothing else. */
  lemma EditStatusOnly(records: seq<Record>, users: set<int>, id: int, editor: Value, s: string, now: string)
    requires GetTaskSpec(records, id, now).Some?
    requires IsPositiveInt(editor) && CheckUserExist(users, editor) && s in GetValidStatuses()
    ensures EditSpec(records, users, id, editor, Updates(Null, Str(s), Null, Null, Null), now)
            == EditWrite(GetTaskSpec(records, id, now).value.(status := s, editors := editor))
  {
    EditSpecLoaded(records, users, id, editor, Updates(Null, Str(s), Null, Null, Null), now);
    StatusOnlyApplied(GetTaskSpec(records, id, now).value, s, editor, users);
  }

  /** The store row an edit writes keeps its id, creation date and creator, and
      every other row is unchanged. */
  lemma EditedRecordsFrame(records: seq<Record>, id: int, g: TaskFields)
    ensures var r := EditedRecords(records, id, g);
            |r| == |records|
            && forall k :: 0 <= k < |r| ==>
                 if records[k].id == id
                 then r[k].id == id && r[k].creationDate == records[k].creationDate
                      && r[k].creator == records[k].creator && r[k].title == Str(g.title)
                      && r[k].status == Str(g.status)
                 else r[k] == records[k]
  {
  }

  /** The outcome of building a task from each row, in row order. */
  function Parsed(rows: seq<seq<Value>>, now: string): (rs: seq<Result<TaskFields>>)
    ensures |rs| == |rows| && forall k :: 0 <= k < |rows| ==> rs[k] == FromDatabaseRow(rows[k], now)
  {
    seq(|rows|, k requires 0 <= k < |rows| => FromDatabaseRow(rows[k], now))
  }

  /** A row outcome the per-row handler does not catch: an exception other than
      ValueError or IndexError. */
  predicate Escapes(r: Result<TaskFields>) {
    r.Err? && !(r.error.ValueError? || r.error.IndexError?)
  }

  /** The loop of `get_all_tasks` over the row outcomes: built tasks are collected,
      ValueError and IndexError skip the row, and any other exception reaches the
      outer handler, whose empty result is None here. */
  function Rebuild(rs: seq<Result<TaskFields>>): Option<seq<TaskFields>>
    decreases |rs|
  {
    if rs == [] then Some([])
    else match Rebuild(rs[..|rs| - 1])
      case None => None
      case Some(fs) =>
        match rs[|rs| - 1]
        case Ok(f) => Some(fs + [f])
        case Err(e) => if e.ValueError? || e.IndexError? then Some(fs) else None
  }

  /** `get_all_tasks` rebuilding the list from the stored rows. */
  function RebuildSpec(rows: seq<seq<Value>>, now: string): Option<seq<TaskFields>> {
    Rebuild(Parsed(rows, now))
  }

  /** The positions of the rows that build a task. */
  ghost function KeptRows(rs: seq<Result<TaskFields>>): seq<int>
    decreases |rs|
  {
    if rs == [] then []
    else KeptRows(rs[..|rs| - 1]) + (if rs[|rs| - 1].Ok? then [|rs| - 1] else [])
  }

  /** Rebuilding fails exactly when some row escapes the per-row handler. */
  lemma {:induction false} RebuildFailsIff(rs: seq<Result<TaskFields>>)
    ensures Rebuild(rs).Some? <==> forall k :: 0 <= k < |rs| ==> !Escapes(rs[k])
  {
    if rs != [] {
      var front := rs[..|rs| - 1];
      RebuildFailsIff(front);
      assert forall k :: 0 <= k < |front| ==> front[k] == rs[k];
    }
  }

  /** `fs` lists, in row order, the tasks of the rows of `rs` at the positions `kept`. */
  ghost predicate KeepsGood(rs: seq<Result<TaskFields>>, fs: seq<TaskFields>, kept: seq<int>) {
    && |kept| == |fs|
    && (forall j :: 0 <= j < |kept| ==> 0 <= kept[j] < |rs| && rs[kept[j]] == Ok(fs[j]))
    && (forall i, j :: 0 <= i < j < |kept| ==> kept[i] < kept[j])
  }

  lemma KeepsGoodSnoc(front: seq<Result<TaskFields>>, last: Result<TaskFields>, fs: seq<TaskFields>, kept: seq<int>)
    requires KeepsGood(front, fs, kept)
    ensures last.Ok? ==> KeepsGood(front + [last], fs + [last.value], kept + [|front|])
    ensures !last.Ok? ==> KeepsGood(front + [last], fs, kept)
  {
    assert forall k :: 0 <= k < |front| ==> (front + [last])[k] == front[k];
  }

  /** A successful rebuild keeps, in row order, exactly the tasks of the rows that build one. */
  lemma {:induction false} RebuildKeepsGoodRows(rs: seq<Result<TaskFields>>)
    requires Rebuild(rs).Some?
    ensures KeepsGood(rs, Rebuild(rs).value, KeptRows(rs))
  {
    if rs != [] {
      var front := rs[..|rs| - 1];
      var last := rs[|rs| - 1];
      assert rs == front + [last];
      RebuildKeepsGoodRows(front);
      KeepsGoodSnoc(front, last, Rebuild(front).value, KeptRows(front));
    }
  }

  /** Every row that builds a task is kept. */
  lemma {:induction false} KeptRowsComplete(rs: seq<Result<TaskFields>>)
    ensures forall k :: 0 <= k < |rs| && rs[k].Ok? ==> k in KeptRows(rs)
  {
    if rs != [] {
      var front := rs[..|rs| - 1];
      KeptRowsComplete(front);
      assert forall k :: 0 <= k < |front| ==> front[k] == rs[k];
    }
  }

  lemma {:induction false} KeptRowsBound(rs: seq<Result<TaskFields>>)
    ensures forall j :: 0 <= j < |KeptRows(rs)| ==> 0 <= KeptRows(rs)[j] < |rs|
  {
    if rs != [] {
      KeptRowsBound(rs[..|rs| - 1]);
    }
  }

  /** Rebuilding one more row outcome. */
  lemma RebuildStep(rs: seq<Result<TaskFields>>, i: int, fs: seq<TaskFields>)
    requires 0 <= i < |rs| && Rebuild(rs[..i]) == Some(fs)
    ensures rs[i].Ok? ==> Rebuild(rs[..i + 1]) == Some(fs + [rs[i].value])
    ensures rs[i].Err? && !Escapes(rs[i]) ==> Rebuild(rs[..i + 1]) == Some(fs)
    ensures Escapes(rs[i]) ==> Rebuild(rs[..i + 1]) == None
  {
    assert rs[..i + 1][..i] == rs[..i];
  }

  /** Once a prefix has no result, no longer prefix has one either. */
  lemma {:induction false} RebuildEscapes(rs: seq<Result<TaskFields>>, i: int)
    requires 0 <= i <= |rs| && Rebuild(rs[..i]).None?
    ensures Rebuild(rs).None?
    decreases |rs| - i
  {
    if i < |rs| {
      assert rs[..i + 1][..i] == rs[..i];
      RebuildEscapes(rs, i + 1);
    } else {
      assert rs[..i] == rs;
    }
  }

  /** Every task a rebuild lists is well formed. */
  lemma {:induction false} RebuiltWellFormed(rs: seq<Result<TaskFields>>)
    requires forall k :: 0 <= k < |rs| && rs[k].Ok? ==> WellFormed(rs[k].value)
    ensures Rebuild(rs).Some? ==> forall k :: 0 <= k < |Rebuild(rs).value| ==> WellFormed(Rebuild(rs).value[k])
  {
    if rs != [] {
      var front := rs[..|rs| - 1];
      assert forall k :: 0 <= k < |front| ==> front[k] == rs[k];
      RebuiltWellFormed(front);
    }
  }

  lemma RebuildWellFormed(rows: seq<seq<Value>>, now: string)
    ensures RebuildSpec(rows, now).Some? ==>
              forall k :: 0 <= k < |RebuildSpec(rows, now).value| ==> WellFormed(RebuildSpec(rows, now).value[k])
  {
    RebuiltWellFormed(Parsed(rows, now));
  }

  /** Outcomes that all built a task rebuild to those tasks. */
  lemma {:induction false} RebuildAllBuilt(rs: seq<Result<TaskFields>>, fs: seq<TaskFields>)
    requires |rs| == |fs| && forall k :: 0 <= k < |rs| ==> rs[k] == Ok(fs[k])
    ensures Rebuild(rs) == Some(fs)
  {
    if rs != [] {
      RebuildAllBuilt(rs[..|rs| - 1], fs[..|fs| - 1]);
      assert fs[..|fs| - 1] + [fs[|fs| - 1]] == fs;
    }
  }

  /** A store whose every row was written from a well-formed task lists all of them, in order. */
  lemma RebuildWellFormedStore(tasks: seq<TaskFields>, now: string)
    requires forall k :: 0 <= k < |tasks| ==> WellFormed(tasks[k])
    ensures RebuildSpec(seq(|tasks|, k requires 0 <= k < |tasks| => Row(tasks[k])), now) == Some(tasks)
  {
    var rows := seq(|tasks|, k requires 0 <= k < |tasks| => Row(tasks[k]));
    var rs := Parsed(rows, now);
    forall k | 0 <= k < |tasks|
      ensures rs[k] == Ok(tasks[k])
    {
      FromDatabaseRowOfRow(tasks[k], now);
    }
    RebuildAllBuilt(rs, tasks);
  }

  /** Two outcomes, the second of which escapes the per-row handler. */
  lemma RebuildPairEscapes(x: Result<TaskFields>, y: Result<TaskFields>)
    requires x.Ok? && Escapes(y)
    ensures Rebuild([x]) == Some([x.value])
    ensures Rebuild([x, y]) == None
  {
    assert [x, y][..1] == [x];
    assert [x][..0] == [];
    assert [] + [x.value] == [x.value];
  }

  lemma ParsedPair(a: seq<Value>, b: seq<Value>, now: string)
    ensures Parsed([a, b], now) == [FromDatabaseRow(a, now), FromDatabaseRow(b, now)]
  {
  }

  /** One cell of the wrong type hides every task: an integer creation date makes
      the constructor raise TypeError, which the per-row handler does not catch. */
  lemma OneBadRowHidesAll(good: TaskFields, now: string)
    requires WellFormed(good)
    ensures RebuildSpec([Row(good), Row(good)[4 := Int(0)]], now) == None
  {
    ParsedPair(Row(good), Row(good)[4 := Int(0)], now);
    FromDatabaseRowOfRow(good, now);
    IntCreationDateEscapes(good, now);
    RebuildPairEscapes(Ok(good), Err(TypeError));
  }

  lemma IntCreationDateEscapes(f: TaskFields, now: string)
    requires WellFormed(f)
    ensures FromDatabaseRow(Row(f)[4 := Int(0)], now) == Err(TypeError)
  {
  }

  class KanbanBoard {
    const db: Database
    const validStatuses: seq<string>
    var tasksCache: Option<seq<Task>>
    var cacheDirty: bool

    ghost predicate Valid()
      reads this, db
    {
      db.Valid() && validStatuses == GetValidStatuses()
    }

    /** `KanbanBoard()` over an opened store; the cache starts empty and dirty. */
    constructor (db: Database)
      requires db.Valid()
      ensures Valid() && this.db == db && tasksCache == None && cacheDirty
    {
      this.db := db;
      validStatuses := GetValidStatuses();
      tasksCache := None;
      cacheDirty := true;
    }

    /** The `valid_statuses` property: a copy of the enum's values, in order. */
    function ValidStatuses(): (r: seq<string>)
      reads this, db
      requires Valid()
      ensures r == GetValidStatuses()
    {
      validStatuses
    }

    /** `_is_valid_status(status)`: membership in the board's status list. */
    predicate IsValidStatusOnBoard(v: Value)
      reads this
      ensures validStatuses == GetValidStatuses() ==> (IsValidStatusOnBoard(v) <==> IsValidStatus(v))
    {
      v.Str? && v.s in validStatuses
    }

    /** `_invalidate_cache()`: the next `get_all_tasks` reads the store again. */
    method InvalidateCache()
      modifies this
      ensures cacheDirty && tasksCache == old(tasksCache)
    {
      cacheDirty := true;
    }

    method AddTask(title: Value, status: Value, personInCharge: Value, dueDate: Value, creator: Value,
                   additionalInfo: Value, now: string) returns (ok: bool)
      requires Valid()
      modifies this, db
      ensures Valid()
      ensures var spec := AddSpec(old(db.users), title, status, personInCharge, dueDate, creator, additionalInfo, now);
              && ok == spec.Ok?
              && (ok ==> db.records == old(db.records) + [RecordOf(old(db.nextId), spec.value)] && cacheDirty)
              && (!ok ==> db.records == old(db.records) && db.nextId == old(db.nextId) && cacheDirty == old(cacheDirty))
      ensures db.users == old(db.users) && tasksCache == old(tasksCache)
    {
      if !IsValidStatusOnBoard(status) {
        return false;
      }
      if !db.UserExists(personInCharge) {
        return false;
      }
      if !db.UserExists(creator) {
        return false;
      }
      var built := Construct(title, status, personInCharge, dueDate, creator, additionalInfo, Null, Null, Null, now);
      if built.Err? {
        return false;
      }
      SaveNewTask(built.value);
      ok := true;
    }

    /** The rest of `add_task` once the task is built: store it under a fresh id
        and drop the cache. */
    method SaveNewTask(f: TaskFields)
      requires Valid() && WellFormed(f)
      modifies this, db
      ensures Valid()
      ensures db.records == old(db.records) + [RecordOf(old(db.nextId), f)] && cacheDirty
      ensures db.users == old(db.users) && tasksCache == old(tasksCache)
    {
      var task := new Task(f);
      var _ := db.AddTask(Str(task.title), Str(task.status), Int(task.personInCharge), task.creationDate,
                          task.dueDate, Int(task.creator), task.additionalInfo);
      InvalidateCache();
    }

    /** One field block of `_apply_task_updates`: when the value is not None, run the
        field's setter (for the status, after the board's own status check) and
        append the field's name to the changed list. The ghost parameters say which
        update this block belongs to: `n` blocks of it have run on `f0` so far. */
    method ApplyField(task: Task, k: Field, v: Value, updated: seq<string>,
                      ghost f0: TaskFields, ghost u: Updates, ghost editor: Value, ghost n: nat)
      returns (err: Option<Error>, changed: seq<string>)
      requires validStatuses == GetValidStatuses() && n < Blocks && k == FieldAt(n + 1) && v == ValueOf(u, k)
      requires Stage(f0, u, db.users, n) == Applied(task.View(), Ok(updated))
      modifies task
      ensures err.None? ==> Stage(f0, u, db.users, n + 1) == Applied(task.View(), Ok(changed))
      ensures err.Some? ==> ApplyUpdates(f0, u, editor, db.users) == Applied(task.View(), Err(err.value))
      ensures k == InfoField ==> err.None?
    {
      StageNext(f0, u, db.users, n);
      if v.Null? {
        return None, updated;
      }
      match k {
        case TitleField =>
          err := task.SetTitle(v);
        case StatusField =>
          if !IsValidStatusOnBoard(v) {
            err := Some(ValueError(InvalidStatus));
          } else {
            err := task.SetStatus(v);
          }
        case PersonField =>
          err := task.SetPersonInCharge(v, db.users);
        case DueField =>
          err := task.SetDueDate(v);
        case InfoField =>
          task.SetAdditionalInfo(v);
          err := None;
      }
      if err.None? {
        changed := updated + [FieldName(k)];
      } else {
        changed := updated;
        ErrorSticks(f0, u, editor, db.users, n + 1);
      }
    }

    /** `_apply_task_updates(task, updates, editor)` on a task object. */
    method ApplyTaskUpdates(task: Task, u: Updates, editor: Value) returns (r: Result<seq<string>>)
      requires validStatuses == GetValidStatuses()
      modifies task
      ensures task.View() == ApplyUpdates(old(task.View()), u, editor, db.users).fields
      ensures r == ApplyUpdates(old(task.View()), u, editor, db.users).outcome
    {
      ghost var f0 := task.View();
      var err, updated := ApplyFieldBlocks(task, u, editor);
      if err.Some? {
        return Err(err.value);
      }
      assert ApplyUpdates(f0, u, editor, db.users) == Finish(Applied(task.View(), Ok(updated)), editor, db.users);
      r := ApplyEditor(task, editor, updated);
    }

    /** The five field blocks of `_apply_task_updates`, stopping at the first exception. */
    method ApplyFieldBlocks(task: Task, u: Updates, ghost editor: Value) returns (err: Option<Error>, updated: seq<string>)
      requires validStatuses == GetValidStatuses()
      modifies task
      ensures err.None? ==> Stage(old(task.View()), u, db.users, Blocks) == Applied(task.View(), Ok(updated))
      ensures err.Some? ==> ApplyUpdates(old(task.View()), u, editor, db.users) == Applied(task.View(), Err(err.value))
    {
      ghost var f0 := task.View();
      // The number of blocks run so far; a variable rather than a literal, so that
      // the verifier does not unroll `Stage`.
      ghost var n: nat := 0;
      updated := [];
      err, updated := ApplyField(task, TitleField, u.newTitle, updated, f0, u, editor, n);
      n := n + 1;
      if err.Some? {
        return;
      }
      err, updated := ApplyField(task, StatusField, u.newStatus, updated, f0, u, editor, n);
      n := n + 1;
      if err.Some? {
        return;
      }
      err, updated := ApplyField(task, PersonField, u.newPersonInCharge, updated, f0, u, editor, n);
      n := n + 1;
      if err.Some? {
        return;
      }
      err, updated := ApplyLastFields(task, u, updated, f0, editor, n);
    }

    /** The due-date and additional-info blocks, once the first three have run. */
    method ApplyLastFields(task: Task, u: Updates, updated: seq<string>,
                           ghost f0: TaskFields, ghost editor: Value, ghost n: nat)
      returns (err: Option<Error>, changed: seq<string>)
      requires validStatuses == GetValidStatuses() && n == 3
      requires Stage(f0, u, db.users, n) == Applied(task.View(), Ok(updated))
      modifies task
      ensures err.None? ==> Stage(f0, u, db.users, Blocks) == Applied(task.View(), Ok(changed))
      ensures err.Some? ==> ApplyUpdates(f0, u, editor, db.users) == Applied(task.View(), Err(err.value))
    {
      err, changed := ApplyField(task, DueField, u.newDueDate, updated, f0, u, editor, n);
      if err.Some? {
        return;
      }
      err, changed := ApplyField(task, InfoField, u.newAdditionalInfo, changed, f0, u, editor, n + 1);
    }

    /** The closing block of `_apply_task_updates`: when anything changed, set the
        editor and report it. */
    method ApplyEditor(task: Task, editor: Value, updated: seq<string>) returns (r: Result<seq<string>>)
      modifies task
      ensures Applied(task.View(), r) == Finish(Applied(old(task.View()), Ok(updated)), editor, db.users)
    {
      if updated == [] {
        return Ok(updated);
      }
      var err := task.SetEditors(editor, db.users);
      if err.Some? {
        return Err(err.value);
      }
      r := Ok(updated + ["editor"]);
    }

    method EditTask(id: int, editor: Value, u: Updates, now: string) returns (ok: bool)
      requires Valid()
      modifies this, db
      ensures Valid()
      ensures var spec := EditSpec(old(db.records), old(db.users), id, editor, u, now);
              && ok == !spec.EditRejected?
              && (spec.EditWrite? ==> db.records == EditedRecords(old(db.records), id, spec.fields) && cacheDirty)
              && (!spec.EditWrite? ==> db.records == old(db.records) && cacheDirty == old(cacheDirty))
      ensures db.users == old(db.users) && db.nextId == old(db.nextId) && tasksCache == old(tasksCache)
    {
      var row := db.GetTaskByID(id);
      if row.None? {
        return false;
      }
      if !db.UserExists(editor) {
        return false;
      }
      var parsed := FromDatabaseRow(row.value, now);
      if parsed.Err? {
        return false;
      }
      EditSpecLoaded(db.records, db.users, id, editor, u, now);
      assert GetTaskSpec(db.records, id, now) == Some(parsed.value);
      ok := SaveEdit(id, editor, u, parsed.value);
    }

    /** The rest of `edit_task` once the task is loaded: apply the updates to a
        task object and, when anything changed, write it back and drop the cache. */
    method SaveEdit(id: int, editor: Value, u: Updates, f: TaskFields) returns (ok: bool)
      requires Valid() && WellFormed(f)
      modifies this, db
      ensures Valid()
      ensures var spec := EditOf(ApplyUpdates(f, u, editor, old(db.users)));
              && ok == !spec.EditRejected?
              && (spec.EditWrite? ==> db.records == EditedRecords(old(db.records), id, spec.fields) && cacheDirty)
              && (!spec.EditWrite? ==> db.records == old(db.records) && cacheDirty == old(cacheDirty))
      ensures db.users == old(db.users) && db.nextId == old(db.nextId) && tasksCache == old(tasksCache)
    {
      var current := new Task(f);
      var updated := ApplyTaskUpdates(current, u, editor);
      if updated.Err? {
        return false;
      }
      if updated.value == [] {
        return true;
      }
      db.EditTask(id, Str(current.title), Str(current.status), Int(current.personInCharge),
                  current.dueDate, current.editors, current.additionalInfo);
      InvalidateCache();
      ok := true;
    }

    method DeleteTask(id: int, now: string) returns (ok: bool)
      requires Valid()
      modifies this, db
      ensures Valid()
      ensures ok == DeleteSpec(old(db.records), id)
      ensures ok ==> db.records == Remove(old(db.records), id) && cacheDirty
      ensures !ok ==> db.records == old(db.records) && cacheDirty == old(cacheDirty)
      ensures db.users == old(db.users) && db.nextId == old(db.nextId) && tasksCache == old(tasksCache)
    {
      var row := db.GetTaskByID(id);
      if row.None? {
        return false;
      }
      var parsed := FromDatabaseRow(row.value, now);
      if parsed.Err? {
        return false;
      }
      var task := new Task(parsed.value);
      db.DelTask(id);
      InvalidateCache();
      ok := true;
    }

    method DeleteTasksBatch(ids: seq<int>, now: string) returns (results: BatchRun)
      requires Valid()
      modifies this, db
      ensures Valid()
      ensures results == BatchSpec(old(db.records), ids) && db.records == results.records
      ensures results.successful != [] ==> cacheDirty
      ensures results.successful == [] ==> cacheDirty == old(cacheDirty)
      ensures db.users == old(db.users) && db.nextId == old(db.nextId) && tasksCache == old(tasksCache)
    {
      ghost var start, users, next, cache, dirty := db.records, db.users, db.nextId, tasksCache, cacheDirty;
      results := BatchRun(db.records, [], [], []);
      assert ids[..0] == [];
      var i := 0;
      while i < |ids|
        invariant 0 <= i <= |ids|
        invariant Valid() && db.users == users && db.nextId == next && tasksCache == cache
        invariant results == BatchSpec(start, ids[..i]) && db.records == results.records
        invariant cacheDirty == (dirty || results.successful != [])
      {
        results := DeleteForBatch(start, ids, i, results, now);
        i := i + 1;
      }
      assert ids[..|ids|] == ids;
    }

    /** One iteration of the loop in `delete_tasks_batch`: `delete_task(id)`, and the
        id appended to the successful or the failed list. `prev` is the batch over the
        first `i` ids, started on the store `start`. */
    method DeleteForBatch(ghost start: seq<Record>, ids: seq<int>, i: nat, prev: BatchRun, now: string)
      returns (results: BatchRun)
      requires i < |ids|
      requires Valid() && prev == BatchSpec(start, ids[..i]) && db.records == prev.records
      modifies this, db
      ensures Valid()
      ensures results == BatchSpec(start, ids[..i + 1]) && db.records == results.records
      ensures cacheDirty == (old(cacheDirty) || results.successful != prev.successful)
      ensures results.successful == [] ==> prev.successful == []
      ensures db.users == old(db.users) && db.nextId == old(db.nextId) && tasksCache == old(tasksCache)
    {
      BatchSnoc(start, ids[..i], ids[i]);
      assert ids[..i + 1] == ids[..i] + [ids[i]];
      results := DeleteStep(prev, ids[i], now);
    }

    /** `delete_task(id)` and the id appended to the list its result selects. */
    method DeleteStep(prev: BatchRun, id: int, now: string) returns (results: BatchRun)
      requires Valid() && db.records == prev.records
      modifies this, db
      ensures Valid()
      ensures results == BatchStep(prev, id, DeleteSpec(prev.records, id)) && db.records == results.records
      ensures cacheDirty == (old(cacheDirty) || results.successful != prev.successful)
      ensures results.successful == [] ==> prev.successful == []
      ensures db.users == old(db.users) && db.nextId == old(db.nextId) && tasksCache == old(tasksCache)
    {
      var deleted := DeleteTask(id, now);
      if deleted {
        results := prev.(records := db.records, successful := prev.successful + [id]);
      } else {
        results := prev.(failed := prev.failed + [id]);
      }
    }

    method GetTask(id: int, now: string) returns (t: Option<Task>)
      requires Valid()
      ensures t.Some? <==> GetTaskSpec(db.records, id, now).Some?
      ensures t.Some? ==> fresh(t.value) && t.value.View() == GetTaskSpec(db.records, id, now).value
    {
      var row := db.GetTaskByID(id);
      if row.None? {
        return None;
      }
      var parsed := FromDatabaseRow(row.value, now);
      if parsed.Err? {
        return None;
      }
      var task := new Task(parsed.value);
      t := Some(task);
    }

    /** Whether `get_all_tasks(force_refresh)` may answer from the cache. */
    predicate CacheUsable(forceRefresh: bool)
      reads this
    {
      !forceRefresh && !cacheDirty && tasksCache.Some?
    }

    method GetAllTasks(forceRefresh: bool, now: string) returns (tasks: seq<Task>)
      requires Valid()
      modifies this
      ensures Valid()
      ensures old(CacheUsable(forceRefresh)) ==>
                tasks == old(tasksCache).value && tasksCache == old(tasksCache) && cacheDirty == old(cacheDirty)
      ensures !old(CacheUsable(forceRefresh)) && RebuildSpec(db.GetAllTasks(), now).None? ==>
                tasks == [] && tasksCache == old(tasksCache) && cacheDirty == old(cacheDirty)
      ensures !old(CacheUsable(forceRefresh)) && RebuildSpec(db.GetAllTasks(), now).Some? ==>
                && |tasks| == |RebuildSpec(db.GetAllTasks(), now).value|
                && (forall k :: 0 <= k < |tasks| ==> fresh(tasks[k]) && tasks[k].View() == RebuildSpec(db.GetAllTasks(), now).value[k])
                && tasksCache == Some(tasks) && !cacheDirty
    {
      if CacheUsable(forceRefresh) {
        return tasksCache.value;
      }
      var rows := db.GetAllTasks();
      var ok, fs := RebuildRows(rows, now);
      if !ok {
        return [];
      }
      RebuildWellFormed(rows, now);
      var built := NewTasks(fs);
      tasksCache := Some(built);
      cacheDirty := false;
      tasks := built;
    }
  }

  /** The loop of `get_all_tasks`, on the rows: the fields of every row that builds a
      task, skipping rows that raise ValueError or IndexError; `ok` is false when any
      other exception ends the loop. */
  method RebuildRows(rows: seq<seq<Value>>, now: string) returns (ok: bool, fs: seq<TaskFields>)
    ensures ok <==> RebuildSpec(rows, now).Some?
    ensures ok ==> fs == RebuildSpec(rows, now).value
  {
    ghost var rs := Parsed(rows, now);
    fs := [];
    var i := 0;
    while i < |rows|
      invariant 0 <= i <= |rows|
      invariant Rebuild(rs[..i]) == Some(fs)
    {
      var r := FromDatabaseRow(rows[i], now);
      assert r == rs[i];
      RebuildStep(rs, i, fs);
      if r.Ok? {
        fs := fs + [r.value];
      } else if !(r.error.ValueError? || r.error.IndexError?) {
        RebuildEscapes(rs, i + 1);
        return false, [];
      }
      i := i + 1;
    }
    assert rs[..|rs|] == rs;
    ok := true;
  }

  /** One task object per set of fields, in order. */
  method NewTasks(fs: seq<TaskFields>) returns (tasks: seq<Task>)
    requires forall k :: 0 <= k < |fs| ==> WellFormed(fs[k])
    ensures |tasks| == |fs|
    ensures forall k :: 0 <= k < |tasks| ==> fresh(tasks[k]) && tasks[k].View() == fs[k]
  {
    tasks := [];
    var i := 0;
    while i < |fs|
      invariant 0 <= i <= |fs|
      invariant |tasks| == i
      invariant forall k :: 0 <= k < i ==> fresh(tasks[k])
      invariant forall k :: 0 <= k < i ==> tasks[k].View() == fs[k]
    {
      var t := new Task(fs[i]);
      tasks := tasks + [t];
      i := i + 1;
    }
  }
}
