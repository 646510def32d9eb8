/** The input checks of the interactive menus: what each menu choice accepts
    from the keyboard before it calls the board, and what it refuses with a
    message. Keyboard input is a parameter (one string per `input()` call). */
module Cli {
  import opened Values
  import opened Text
  import opened TaskStatus
  import opened Calendar
  import opened KanbanDb

  /** The message a menu choice prints when it refuses its input and goes
      back to the menu. */
  datatype Rejection =
    | BlankTitle     // "Title cannot be empty."
    | BadNumber      // "Please enter a valid number." (choices 5 and 6 print it without the full stop)
    | BadStatus      // "Status is not valid"
    | BadDateFormat  // "Invalid date format."
    | EmptyCreator   // "Creator cannot be empty."
    | EmptyEditor    // "Editor cannot be empty."

  /** What a menu choice makes of its input: a request for the board, a
      refusal, or an exception nothing catches. */
  datatype Form<+T> = Accepted(request: T) | Rejected(why: Rejection) | Raised(error: Error)

  /** `int(s)` on a stripped string: an optional sign and ASCII decimal digits. */
  function ParseInt(s: string): Option<int> {
    if |s| > 0 && (s[0] == '-' || s[0] == '+') then
      if IsDigitString(s[1..]) then
        var magnitude: int := DigitsValue(s[1..]);
        Some(if s[0] == '-' then -magnitude else magnitude)
      else None
    else if IsDigitString(s) then Some(DigitsValue(s))
    else None
  }

  /** Reading back the decimal rendering of any integer gives the integer. */
  lemma ParseIntOfString(i: int)
    ensures ParseInt(IntToString(i)) == Some(i)
  {
    if i < 0 {
      ParseIntOfNegative(-i);
    } else {
      ParseIntOfNat(i);
    }
  }

  lemma ParseIntOfNat(m: nat)
    ensures ParseInt(NatToString(m)) == Some(m)
  {
    NatToStringRoundTrip(m);
  }

  lemma ParseIntOfNegative(m: nat)
    ensures ParseInt("-" + NatToString(m)) == Some(-(m as int))
  {
    var s := "-" + NatToString(m);
    assert s[0] == '-' && s[1..] == NatToString(m);
    NatToStringRoundTrip(m);
  }

  /** The status menu: 1 to 4 name the statuses in order; any other number is refused. */
  function StatusFromCode(n: int): (r: Option<string>)
    ensures r.Some? <==> 1 <= n <= 4
  {
    if n == 1 then Some("To-Do")
    else if n == 2 then Some("In Progress")
    else if n == 3 then Some("Waiting Review")
    else if n == 4 then Some("Finished")
    else None
  }

  /** The menu's numbering agrees with `TaskStatus.from_number`, so the menu
      offers exactly the board's valid statuses. */
  lemma StatusCodeMatchesEnum(n: int)
    ensures StatusFromCode(n) == FromNumber(n)
    ensures StatusFromCode(n).Some? ==> StatusFromCode(n).value in GetValidStatuses()
  {
  }

  /** The menus' due date check: three `-`-separated parts of 4, 2 and 2 digits. */
  predicate DueDateShapeOk(s: string) {
    var parts := Split(s, '-');
    && |parts| == 3
    && IsDigitString(parts[0]) && |parts[0]| == 4
    && IsDigitString(parts[1]) && |parts[1]| == 2
    && IsDigitString(parts[2]) && |parts[2]| == 2
  }

  /** The check accepts exactly the strings shaped as an RFC 3339 full-date. */
  lemma DueDateShapeIsFullDate(s: string)
    ensures DueDateShapeOk(s) <==> IsFullDate(s)
  {
    var parts := Split(s, '-');
    if DueDateShapeOk(s) {
      JoinSplit(s, '-');
      assert Join(parts[1..], '-') == parts[1] + "-" + parts[2] by {
        assert parts[1..][1..] == [parts[2]];
      }
      assert s == parts[0] + "-" + (parts[1] + "-" + parts[2]);
      assert s[..4] == parts[0] && s[5..7] == parts[1] && s[8..] == parts[2];
    }
    if IsFullDate(s) {
      var a, b, c := s[..4], s[5..7], s[8..];
      assert '-' !in a && '-' !in b && '-' !in c by {
        assert forall i :: 0 <= i < 2 ==> b[i] == s[5 + i];
        assert forall i :: 0 <= i < 2 ==> c[i] == s[8 + i];
      }
      assert s == a + ['-'] + (b + ['-'] + c);
      SplitAtFirst(a, '-', b + ['-'] + c);
      SplitAtFirst(b, '-', c);
      SplitNoSeparator(c, '-');
      assert parts == [a, b, c];
    }
  }

  /** The check is about shape only: a month 13 and a day 45 pass it, though
      no such date exists. */
  lemma ShapeCheckAcceptsImpossibleDate()
    ensures DueDateShapeOk("2024-13-45") && ParseDate("2024-13-45").None?
  {
    ShapeOfImpossibleDate();
    NoMonthThirteen();
  }

  lemma ShapeOfImpossibleDate()
    ensures DueDateShapeOk("2024-13-45")
  {
    var s := "2024-13-45";
    assert IsFullDate(s) by {
      assert s[..4] == "2024" && s[5..7] == "13" && s[8..] == "45";
    }
    DueDateShapeIsFullDate(s);
  }

  lemma NoMonthThirteen()
    ensures ParseDate("2024-13-45").None?
  {
    var s := "2024-13-45";
    assert s[5..] == "13-45";
    assert MatchMonth("13-45").None?;
  }

  /** `input().strip() or None`: the stripped text, or None for a blank answer. */
  function SkipIfBlank(raw: string): (r: Option<string>)
    ensures r.None? <==> IsBlank(raw)
    ensures r.Some? ==> r.value == Strip(raw) && r.value != [] && IsStripped(r.value)
  {
    var t := Strip(raw);
    if t == [] then None else Some(t)
  }

  /** The status answer of the add menu: a number naming a status. */
  function StatusAnswer(raw: string): (r: Form<string>)
    ensures r.Accepted? <==> ParseInt(Strip(raw)).Some? && 1 <= ParseInt(Strip(raw)).value <= 4
    ensures r.Accepted? ==> r.request in GetValidStatuses()
    ensures r.Rejected? ==> r.why == (if ParseInt(Strip(raw)).None? then BadNumber else BadStatus)
    ensures !r.Raised?
  {
    match ParseInt(Strip(raw))
    case None => Rejected(BadNumber)
    case Some(n) =>
      StatusCodeMatchesEnum(n);
      match StatusFromCode(n)
      case None => Rejected(BadStatus)
      case Some(st) => Accepted(st)
  }

  /** The status answer of the move and edit menus: blank keeps the status. */
  function StatusEdit(raw: string): (r: Form<Option<string>>)
    ensures IsBlank(raw) ==> r == Accepted(None)
    ensures !IsBlank(raw) ==> match StatusAnswer(raw)
                              case Accepted(st) => r == Accepted(Some(st))
                              case Rejected(why) => r == Rejected(why)
                              case Raised(e) => r == Raised(e)
    ensures !r.Raised?
  {
    if IsBlank(raw) then Accepted(None)
    else
      // `StatusAnswer` strips the answer itself.
      match StatusAnswer(raw)
      case Accepted(st) => Accepted(Some(st))
      case Rejected(why) => Rejected(why)
      case Raised(e) => Raised(e)
  }

  /** The due date answer of the edit menu: blank skips, otherwise the shape must hold. */
  function DueDateEdit(raw: string): (r: Form<Option<string>>)
    ensures r.Accepted? <==> IsBlank(raw) || IsFullDate(Strip(raw))
    ensures r.Accepted? ==> r.request == SkipIfBlank(raw)
    ensures r.Rejected? ==> r.why == BadDateFormat
    ensures !r.Raised?
  {
    match SkipIfBlank(raw)
    case None => Accepted(None)
    case Some(d) =>
      DueDateShapeIsFullDate(d);
      if DueDateShapeOk(d) then Accepted(Some(d)) else Rejected(BadDateFormat)
  }

  /** What the add menu hands to the board. `dueDate` is None when the answer
      was blank, in which case the menu assigns no due date at all. */
  datatype AddRequest = AddRequest(
    title: string, status: string, personInCharge: string, dueDate: Option<string>,
    creator: string, additionalInfo: string)

  /** Menu choice 2: the answers, in the order they are asked, are checked one
      by one and the first failing check ends the choice. */
  function AddForm(title: string, status: string, personInCharge: string, dueDate: string,
                   creator: string, additionalInfo: string): (r: Form<AddRequest>)
    ensures r.Accepted? <==>
              && !IsBlank(title) && StatusAnswer(status).Accepted?
              && (IsBlank(dueDate) || IsFullDate(Strip(dueDate))) && !IsBlank(creator)
    ensures IsBlank(title) ==> r == Rejected(BlankTitle)
    ensures !IsBlank(title) && StatusAnswer(status).Rejected? ==> r == Rejected(StatusAnswer(status).why)
    ensures r.Accepted? ==>
              && r.request.title == Strip(title) && r.request.creator == Strip(creator)
              && r.request.status in GetValidStatuses()
              && r.request.dueDate == SkipIfBlank(dueDate)
              && r.request.personInCharge == Strip(personInCharge)
              && r.request.additionalInfo == Strip(additionalInfo)
    ensures !r.Raised?
  {
    var t := Strip(title);
    if t == [] then Rejected(BlankTitle)
    else match StatusAnswer(status)
      case Rejected(why) => Rejected(why)
      case Raised(e) => Raised(e)
      case Accepted(st) =>
        match DueDateEdit(dueDate)
        case Rejected(why) => Rejected(why)
        case Raised(e) => Raised(e)
        case Accepted(due) =>
          var c := Strip(creator);
          if c == [] then Rejected(EmptyCreator)
          else Accepted(AddRequest(t, st, Strip(personInCharge), due, c, Strip(additionalInfo)))
  }

  /** What the move and edit menus hand to `EditTask`: None leaves a field as it is. */
  datatype EditRequest = EditRequest(
    taskId: int, editor: string, title: Option<string>, status: Option<string>,
    personInCharge: Option<string>, dueDate: Option<string>, additionalInfo: Option<string>)

  /** The answers of menu choice 4 after the task id, checked in the order asked. */
  function EditAnswers(id: int, editor: string, title: string, status: string,
                       personInCharge: string, dueDate: string, additionalInfo: string): (r: Form<EditRequest>)
    ensures !r.Raised?
    ensures r.Accepted? <==> !IsBlank(editor) && StatusEdit(status).Accepted? && DueDateEdit(dueDate).Accepted?
    ensures r.Accepted? ==>
              r.request == EditRequest(id, Strip(editor), SkipIfBlank(title), StatusEdit(status).request,
                                       SkipIfBlank(personInCharge), SkipIfBlank(dueDate), SkipIfBlank(additionalInfo))
  {
    var e := Strip(editor);
    if e == [] then Rejected(EmptyEditor)
    else match StatusEdit(status)
      case Rejected(why) => Rejected(why)
      case Raised(err) => Raised(err)
      case Accepted(st) =>
        match DueDateEdit(dueDate)
        case Rejected(why) => Rejected(why)
        case Raised(err) => Raised(err)
        case Accepted(due) =>
          Accepted(EditRequest(id, e, SkipIfBlank(title), st, SkipIfBlank(personInCharge), due, SkipIfBlank(additionalInfo)))
  }

  /** Menu choice 4. A task id that is not a number raises ValueError, which
      this choice does not catch. */
  function EditForm(taskId: string, editor: string, title: string, status: string,
                    personInCharge: string, dueDate: string, additionalInfo: string): (r: Form<EditRequest>)
    ensures ParseInt(Strip(taskId)).None? <==> r == Raised(ValueError(NotANumber))
    ensures r.Accepted? <==>
              && ParseInt(Strip(taskId)).Some? && !IsBlank(editor)
              && StatusEdit(status).Accepted? && DueDateEdit(dueDate).Accepted?
    ensures r.Accepted? ==>
              r.request == EditRequest(StoreIdFromDisplayed(ParseInt(Strip(taskId)).value), Strip(editor),
                                       SkipIfBlank(title), StatusEdit(status).request, SkipIfBlank(personInCharge),
                                       SkipIfBlank(dueDate), SkipIfBlank(additionalInfo))
  {
    match ParseInt(Strip(taskId))
    case None => Raised(ValueError(NotANumber))
    case Some(n) => EditAnswers(StoreIdFromDisplayed(n), editor, title, status, personInCharge, dueDate, additionalInfo)
  }

  /** Menu choice 3: a task id (refused when not a number), an editor and a
      new status; nothing else changes. */
  function MoveForm(taskId: string, editor: string, status: string): (r: Form<EditRequest>)
    ensures ParseInt(Strip(taskId)).None? ==> r == Rejected(BadNumber)
    ensures r.Accepted? <==> ParseInt(Strip(taskId)).Some? && !IsBlank(editor) && StatusEdit(status).Accepted?
    ensures r.Accepted? ==>
              r.request == EditRequest(StoreIdFromDisplayed(ParseInt(Strip(taskId)).value), Strip(editor),
                                       None, StatusEdit(status).request, None, None, None)
    ensures !r.Raised?
  {
    match ParseInt(Strip(taskId))
    case None => Rejected(BadNumber)
    case Some(n) =>
      var e := Strip(editor);
      if e == [] then Rejected(EmptyEditor)
      else match StatusEdit(status)
        case Rejected(why) => Rejected(why)
        case Raised(err) => Raised(err)
        case Accepted(st) => Accepted(EditRequest(StoreIdFromDisplayed(n), e, None, st, None, None, None))
  }

  /** Moving a task is editing it with every other answer left blank; the two
      choices differ only in how a task id that is not a number is handled. */
  lemma MoveIsStatusOnlyEdit(taskId: string, editor: string, status: string)
    ensures ParseInt(Strip(taskId)).Some? ==> MoveForm(taskId, editor, status) == EditForm(taskId, editor, "", status, "", "", "")
    ensures ParseInt(Strip(taskId)).None? ==> MoveForm(taskId, editor, status) == Rejected(BadNumber)
  {
    assert IsBlank("");
  }

  /** Menu choice 5: a task id (refused when not a number) and a confirmation;
      only `y` or `Y` (around whitespace) deletes, anything else cancels. */
  function DeleteForm(taskId: string, confirm: string): (r: Form<Option<int>>)
    ensures ParseInt(Strip(taskId)).None? <==> r == Rejected(BadNumber)
    ensures ParseInt(Strip(taskId)).Some? ==>
              r == Accepted(if Strip(confirm) == "y" || Strip(confirm) == "Y"
                            then Some(StoreIdFromDisplayed(ParseInt(Strip(taskId)).value)) else None)
  {
    match ParseInt(Strip(taskId))
    case None => Rejected(BadNumber)
    case Some(n) =>
      LowerIsY(Strip(confirm));
      if Lower(Strip(confirm)) == "y" then Accepted(Some(StoreIdFromDisplayed(n))) else Accepted(None)
  }

  lemma LowerIsY(t: string)
    ensures Lower(t) == "y" <==> t == "y" || t == "Y"
  {
    if |t| == 1 {
      assert Lower(t) == [LowerChar(t[0])];
    }
  }

  /** The id the menus compute from the number the user types, as written:
      one less than the number shown. */
  function DisplayedToIdAsWritten(n: int): int {
    n - 1
  }

  /** The board lists each task under its store id, and the store's ids
      start at 1; subtracting one misses the first task and addresses the
      task listed before the one chosen. */
  lemma DisplayedIdOffByOne()
    ensures var first := Record(1, Str("Plan"), Str("To-Do"), Int(1), Null, Null, Int(1), Null, Null);
            var second := Record(2, Str("Ship"), Str("To-Do"), Int(1), Null, Null, Int(1), Null, Null);
            && Find([first, second], DisplayedToIdAsWritten(1)) == None
            && Find([first, second], DisplayedToIdAsWritten(2)) == Some(first)
  {
  }

  /** The id the menus should address: the number shown is the store id. */
  function StoreIdFromDisplayed(n: int): int {
    n
  }

  /** Typing the id a task is listed under addresses that very task. */
  lemma DisplayedIdFindsTask(records: seq<Record>, k: int)
    requires IdsIncreasing(records) && 0 <= k < |records|
    ensures Find(records, StoreIdFromDisplayed(records[k].id)) == Some(records[k])
  {
    FindInIncreasing(records, k);
  }

  /** `int(answer.strip())` for each answer to the activation prompt. */
  function Numbers(answers: seq<string>): (ns: seq<Option<int>>)
    ensures |ns| == |answers| && forall j :: 0 <= j < |answers| ==> ns[j] == ParseInt(Strip(answers[j]))
  {
    seq(|answers|, j requires 0 <= j < |answers| => ParseInt(Strip(answers[j])))
  }

  /** An answer that sends the prompt round again: a number other than 0 and 1. */
  predicate Retry(n: Option<int>) {
    n.Some? && n.value != 0 && n.value != 1
  }

  /** The position of the first answer that does not send the prompt round again. */
  function FirstFinal(ns: seq<Option<int>>): (k: nat)
    ensures k <= |ns|
    ensures forall j :: 0 <= j < k ==> Retry(ns[j])
    ensures k < |ns| ==> !Retry(ns[k])
  {
    if ns == [] || !Retry(ns[0]) then 0
    else
      var k := FirstFinal(ns[1..]);
      assert forall j :: 1 <= j < k + 1 ==> ns[j] == ns[1..][j - 1];
      k + 1
  }

  /** The activation status the admin menu sets: 0 or 1; the first answer
      that is not a number raises ValueError, and running out of answers
      raises EOFError. */
  function ActivationAnswer(answers: seq<string>): (r: Result<int>)
    ensures r.Ok? ==> r.value == 0 || r.value == 1
  {
    var ns := Numbers(answers);
    var k := FirstFinal(ns);
    if k == |ns| then Err(EOFError)
    else match ns[k]
      case None => Err(ValueError(NotANumber))
      case Some(n) => Ok(n)
  }

  /** The prompt loop of the admin menu's activation choice, over the answers
      as `int()` reads them. */
  method ReadActivation(answers: seq<string>) returns (r: Result<int>, used: nat)
    ensures r == ActivationAnswer(answers)
    ensures var k := FirstFinal(Numbers(answers)); used == (if k == |answers| then k else k + 1)
  {
    var ns := Numbers(answers);
    r, used := Prompt(ns);
  }

  method Prompt(ns: seq<Option<int>>) returns (r: Result<int>, used: nat)
    ensures var k := FirstFinal(ns);
            && used == (if k == |ns| then k else k + 1)
            && r == (if k == |ns| then Err(EOFError)
                     else if ns[k].None? then Err(ValueError(NotANumber)) else Ok(ns[k].value))
  {
    var i := 0;
    while i < |ns|
      invariant 0 <= i <= |ns|
      invariant forall j :: 0 <= j < i ==> Retry(ns[j])
    {
      var isActive := ns[i];
      if isActive.None? {
        FirstFinalAt(ns, i);
        return Err(ValueError(NotANumber)), i + 1;
      }
      if isActive.value == 1 || isActive.value == 0 {
        FirstFinalAt(ns, i);
        return Ok(isActive.value), i + 1;
      }
      i := i + 1;
    }
    FirstFinalAt(ns, i);
    return Err(EOFError), i;
  }

  /** The first final answer is the first one that is not a retry. */
  lemma FirstFinalAt(ns: seq<Option<int>>, i: nat)
    requires i <= |ns| && (forall j :: 0 <= j < i ==> Retry(ns[j]))
    requires i < |ns| ==> !Retry(ns[i])
    ensures FirstFinal(ns) == i
  {
  }
}
