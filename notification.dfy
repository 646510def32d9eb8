/** `UpcomingTask`: the reminder list built from the KANBAN table for tasks that
    are overdue or due within the next `Due` days. The clock reading, the table
    (or its absence) and the user-name lookup are parameters. */
module Notification {
  import opened Values
  import opened Text
  import opened Calendar

  /** How many days ahead a task counts as upcoming. */
  const Due: int := 14

  /** `"\n" + "-"*50 + "\n"`: the line printed between reminders. */
  const Separator: string := "\n--------------------------------------------------\n"

  const HourMicros: int := 3_600_000_000
  const MinuteMicros: int := 60_000_000

  /** The due day's last microsecond: the parsed date at 23:59:59.999999. */
  function DueEnd(d: Date): DateTime {
    DateTime(d, DayMicros - 1)
  }

  /** `timedelta.days`, `seconds // 3600` and `(seconds % 3600) // 60` of a
      non-negative timedelta of `x` microseconds. */
  function Days(x: nat): nat { x / DayMicros }
  function Hours(x: nat): nat { (x % DayMicros) / 1_000_000 / 3600 }
  function Minutes(x: nat): nat { (x % DayMicros) / 1_000_000 % 3600 / 60 }

  lemma SecondsOfDay(x: nat)
    ensures (x % DayMicros) / 1_000_000 < 86400
    ensures x == Days(x) * DayMicros + (x % DayMicros) / 1_000_000 * 1_000_000 + (x % DayMicros) % 1_000_000
  {
  }

  lemma ClockOfSeconds(s: nat)
    requires s < 86400
    ensures s / 3600 < 24 && s % 3600 / 60 < 60
    ensures s * 1_000_000 == s / 3600 * HourMicros + s % 3600 / 60 * MinuteMicros + s % 60 * 1_000_000
  {
    assert s == s / 3600 * 3600 + s % 3600;
    assert s % 3600 == s % 3600 / 60 * 60 + s % 3600 % 60;
    assert s % 3600 % 60 == s % 60;
  }

  /** The days, hours and minutes shown are the delta truncated to whole
      minutes, with hours below 24 and minutes below 60. */
  lemma {:induction false} DeltaParts(x: nat)
    ensures Hours(x) < 24 && Minutes(x) < 60
    ensures var shown := Days(x) * DayMicros + Hours(x) * HourMicros + Minutes(x) * MinuteMicros;
            shown <= x < shown + MinuteMicros
  {
    SecondsOfDay(x);
    var s := (x % DayMicros) / 1_000_000;
    ClockOfSeconds(s);
    assert Hours(x) == s / 3600 && Minutes(x) == s % 3600 / 60;
  }

  /** `f"{Hours:02d}h {Minutes:02d}m"`. */
  function Clock(x: nat): string {
    Pad2(Hours(x)) + "h " + Pad2(Minutes(x)) + "m"
  }

  /** `f"{Days}d {Hours:02d}h {Minutes:02d}m"`. */
  function DueIn(x: nat): string {
    IntToString(Days(x)) + "d " + Clock(x)
  }

  /** The first line of a reminder for a task due on `d`. */
  function DueMessage(d: Date, now: DateTime): string
    requires ValidDate(d) && ValidDateTime(now)
  {
    var timeLeft := Instant(DueEnd(d)) - Instant(now);
    if timeLeft < 0 then "[Task overdue by " + DueIn(-timeLeft) + "]\n"
    else
      var dueIn := if d == now.date then "0d " + Clock(timeLeft) else DueIn(timeLeft);
      "[Task due in " + dueIn + "]\n"
  }

  /** A task is reported overdue exactly when its due day is before today:
      the due day counts up to its last microsecond. */
  lemma OverdueIffDayPassed(d: Date, now: DateTime)
    requires ValidDate(d) && ValidDateTime(now)
    ensures Instant(DueEnd(d)) - Instant(now) < 0 <==> Ordinal(d) < Ordinal(now.date)
  {
    var k := Ordinal(d) - Ordinal(now.date);
    assert Instant(DueEnd(d)) - Instant(now) == k * DayMicros + (DayMicros - 1 - now.micros);
    if k < 0 {
      assert k * DayMicros <= -DayMicros;
    } else {
      assert k * DayMicros >= 0;
    }
  }

  /** The first line names the right case, and the time left (or overdue) is
      the distance from now to the end of the due day. */
  lemma DueMessageCases(d: Date, now: DateTime)
    requires ValidDate(d) && ValidDateTime(now)
    ensures Ordinal(d) < Ordinal(now.date) ==>
              DueMessage(d, now) == "[Task overdue by " + DueIn(Instant(now) - Instant(DueEnd(d))) + "]\n"
    ensures Ordinal(d) >= Ordinal(now.date) ==>
              DueMessage(d, now) == "[Task due in " + DueIn(Instant(DueEnd(d)) - Instant(now)) + "]\n"
  {
    OverdueIffDayPassed(d, now);
    var timeLeft := Instant(DueEnd(d)) - Instant(now);
    if timeLeft < 0 {
      assert -timeLeft == Instant(now) - Instant(DueEnd(d));
    } else if d == now.date {
      DueTodayOverride(d, now);
    }
  }

  /** For a task due today the time left is under a day, so forcing the day
      count to 0 changes nothing. */
  lemma DueTodayOverride(d: Date, now: DateTime)
    requires ValidDate(d) && ValidDateTime(now) && d == now.date
    ensures 0 <= Instant(DueEnd(d)) - Instant(now) < DayMicros
    ensures DueIn(Instant(DueEnd(d)) - Instant(now)) == "0d " + Clock(Instant(DueEnd(d)) - Instant(now))
  {
    var x := Instant(DueEnd(d)) - Instant(now);
    assert x == DayMicros - 1 - now.micros;
    assert Days(x) == 0;
  }

  /** The due date cell, stripped and parsed; None when the row is skipped
      (not a string, blank, or not a date `strptime` accepts). */
  function DueDay(cell: Value): (r: Option<Date>)
    ensures r.Some? ==> ValidDate(r.value)
    ensures r.Some? ==> cell.Str? && !IsBlank(cell.s)
  {
    if !cell.Str? || IsBlank(cell.s) then None else ParseDate(Strip(cell.s))
  }

  /** `DueDate.date() < Now.date() or Now.date() <= DueDate.date() <= Threshold.date()`. */
  predicate Selected(d: Date, now: DateTime)
    requires ValidDate(d) && ValidDateTime(now)
  {
    var today := Ordinal(now.date);
    Ordinal(d) < today || (today <= Ordinal(d) <= today + Due)
  }

  /** A task is listed when it is due no later than `Due` days from today. */
  lemma SelectedIffWithinHorizon(d: Date, now: DateTime)
    requires ValidDate(d) && ValidDateTime(now)
    ensures Selected(d, now) <==> Ordinal(d) <= Ordinal(now.date) + Due
  {
  }

  /** The reminder text for one selected row (`"".join(Message)`); the due date
      is shown as stored, before stripping. */
  function Message(row: seq<Value>, d: Date, now: DateTime, nameOf: Value -> Value): string
    requires |row| >= 9 && ValidDate(d) && ValidDateTime(now)
  {
    DueMessage(d, now)
    + "Task ID: " + ValueText(row[0]) + "\n"
    + "Title: " + ValueText(row[1]) + "\n"
    + "Status: " + ValueText(row[2]) + "\n"
    + "Person in charge: " + ValueText(nameOf(row[3])) + "\n"
    + "Creation date: " + ValueText(row[4]) + "\n"
    + "Due date: " + ValueText(row[5]) + "\n"
    + "Creator: " + ValueText(nameOf(row[6])) + "\n"
    + "Editor: " + ValueText(nameOf(row[7])) + "\n"
    + "Additional information: " + ValueText(row[8])
  }

  /** What one row of the table leads to. */
  datatype Outcome =
    | Short                    // fewer than nine cells: `Datum[k]` raises IndexError
    | Skip                     // no usable due date, or not due soon enough
    | Remind(message: string)  // the reminder appended, followed by a separator

  /** The body of the loop for one row. */
  function RowOutcome(row: seq<Value>, now: DateTime, nameOf: Value -> Value): (r: Outcome)
    requires ValidDateTime(now)
    ensures r.Short? <==> |row| < 9
    ensures r.Remind? <==> |row| >= 9 && DueDay(row[5]).Some? && Selected(DueDay(row[5]).value, now)
    ensures r.Remind? ==> |row| >= 9 && DueDay(row[5]).Some? &&
                          r.message == Message(row, DueDay(row[5]).value, now, nameOf)
  {
    if |row| < 9 then Short
    else match DueDay(row[5])
      case None => Skip
      case Some(d) => if Selected(d, now) then Remind(Message(row, d, now, nameOf)) else Skip
  }

  /** A row whose due date is not a string, blank or not a date adds nothing. */
  lemma UnusableDueDateSkipped(row: seq<Value>, now: DateTime, nameOf: Value -> Value)
    requires ValidDateTime(now) && |row| >= 9
    requires !row[5].Str? || IsBlank(row[5].s) || ParseDate(Strip(row[5].s)).None?
    ensures RowOutcome(row, now, nameOf) == Skip
  {
  }

  /** The outcome of every row, in table order. */
  function Outcomes(rows: seq<seq<Value>>, now: DateTime, nameOf: Value -> Value): (os: seq<Outcome>)
    requires ValidDateTime(now)
    ensures |os| == |rows| && forall k :: 0 <= k < |rows| ==> os[k] == RowOutcome(rows[k], now, nameOf)
  {
    seq(|rows|, k requires 0 <= k < |rows| => RowOutcome(rows[k], now, nameOf))
  }

  /** The list the loop builds from these outcomes after the leading separator,
      or the IndexError of the first short row. */
  function Gather(os: seq<Outcome>): Result<seq<string>> {
    if os == [] then Ok([])
    else
      match Gather(os[..|os| - 1])
      case Err(e) => Err(e)
      case Ok(ms) =>
        match os[|os| - 1]
        case Short => Err(IndexError)
        case Skip => Ok(ms)
        case Remind(m) => Ok(ms + [m, Separator])
  }

  /** `UpcomingTask()`: OverflowError when today plus `Due` days is past year
      9999; an empty list when there is no KANBAN table; otherwise a separator
      followed by what the rows add. */
  function Upcoming(now: DateTime, table: Option<seq<seq<Value>>>, nameOf: Value -> Value): Result<seq<string>>
    requires ValidDateTime(now)
  {
    if Ordinal(now.date) + Due > MaxOrdinal then Err(OverflowError)
    else match table
      case None => Ok([])
      case Some(rows) =>
        match Gather(Outcomes(rows, now, nameOf))
        case Err(e) => Err(e)
        case Ok(ms) => Ok([Separator] + ms)
  }

  /** The reminders among the outcomes, in order. */
  function Reminders(os: seq<Outcome>): (ms: seq<string>)
    ensures |ms| <= |os|
  {
    if os == [] then []
    else
      var last := os[|os| - 1];
      Reminders(os[..|os| - 1]) + (if last.Remind? then [last.message] else [])
  }

  /** Each reminder followed by a separator. */
  function Framed(ms: seq<string>): (r: seq<string>)
    ensures |r| == 2 * |ms|
    ensures forall k :: 0 <= k < |ms| ==> r[2 * k] == ms[k] && r[2 * k + 1] == Separator
  {
    if ms == [] then []
    else
      var n := |ms| - 1;
      assert forall k :: 0 <= k < n ==> ms[..n][k] == ms[k];
      Framed(ms[..n]) + [ms[n], Separator]
  }

  /** Without a short row, the list is every reminder framed by separators, in row order. */
  lemma {:induction false} GatherFramesReminders(os: seq<Outcome>)
    requires forall k :: 0 <= k < |os| ==> !os[k].Short?
    ensures Gather(os) == Ok(Framed(Reminders(os)))
  {
    if os != [] {
      var n := |os| - 1;
      assert forall k :: 0 <= k < n ==> os[..n][k] == os[k];
      GatherFramesReminders(os[..n]);
      var prev := Reminders(os[..n]);
      if os[n].Remind? {
        var ms := prev + [os[n].message];
        assert Reminders(os) == ms;
        assert ms[..|ms| - 1] == prev && ms[|ms| - 1] == os[n].message;
        assert Framed(ms) == Framed(prev) + [os[n].message, Separator];
      } else {
        assert Reminders(os) == prev + [];
        assert prev + [] == prev;
      }
    }
  }

  /** The list fails, with IndexError, exactly when some row is short. */
  lemma {:induction false} GatherFailsIff(os: seq<Outcome>)
    ensures Gather(os).Err? <==> exists k :: 0 <= k < |os| && os[k].Short?
    ensures Gather(os).Err? ==> Gather(os).error == IndexError
  {
    if os != [] {
      var n := |os| - 1;
      GatherFailsIff(os[..n]);
      assert forall k :: 0 <= k < n ==> os[..n][k] == os[k];
    }
  }

  /** The overall shape: no table gives an empty list; a table without short
      rows gives a separator, then each reminder and a separator; a short row
      anywhere gives IndexError. */
  lemma UpcomingShape(now: DateTime, table: Option<seq<seq<Value>>>, nameOf: Value -> Value)
    requires ValidDateTime(now) && Ordinal(now.date) + Due <= MaxOrdinal
    ensures table.None? ==> Upcoming(now, table, nameOf) == Ok([])
    ensures table.Some? && (forall k :: 0 <= k < |table.value| ==> |table.value[k]| >= 9) ==>
              Upcoming(now, table, nameOf) == Ok([Separator] + Framed(Reminders(Outcomes(table.value, now, nameOf))))
    ensures table.Some? && (exists k :: 0 <= k < |table.value| && |table.value[k]| < 9) ==>
              Upcoming(now, table, nameOf) == Err(IndexError)
  {
    if table.Some? {
      var os := Outcomes(table.value, now, nameOf);
      GatherFailsIff(os);
      if forall k :: 0 <= k < |table.value| ==> |table.value[k]| >= 9 {
        GatherFramesReminders(os);
      }
    }
  }

  /** Once a prefix of the outcomes fails, the whole list fails the same way. */
  lemma {:induction false} GatherErrSticks(os: seq<Outcome>, n: nat)
    requires n <= |os| && Gather(os[..n]).Err?
    ensures Gather(os) == Gather(os[..n])
    decreases |os| - n
  {
    if n < |os| {
      assert os[..n + 1][..n] == os[..n];
      GatherErrSticks(os, n + 1);
    } else {
      assert os[..n] == os;
    }
  }

  lemma AppendAssociative<T>(a: seq<T>, b: seq<T>, c: seq<T>)
    ensures (a + b) + c == a + (b + c)
  {
  }

  /** What one more outcome does to the list. */
  lemma GatherStep(os: seq<Outcome>, i: nat)
    requires i < |os| && Gather(os[..i]).Ok?
    ensures os[i].Short? ==> Gather(os[..i + 1]) == Err(IndexError)
    ensures os[i].Skip? ==> Gather(os[..i + 1]) == Gather(os[..i])
    ensures os[i].Remind? ==> Gather(os[..i + 1]) == Ok(Gather(os[..i]).value + [os[i].message, Separator])
  {
    assert os[..i + 1][..i] == os[..i];
  }

  /** `UpcomingTask()`: the threshold first, then whether the KANBAN table exists,
      then the loop over its rows. */
  method UpcomingTask(now: DateTime, table: Option<seq<seq<Value>>>, nameOf: Value -> Value)
      returns (r: Result<seq<string>>)
    requires ValidDateTime(now)
    ensures r == Upcoming(now, table, nameOf)
  {
    if Ordinal(now.date) + Due > MaxOrdinal {
      return Err(OverflowError);
    }
    if table.None? {
      return Ok([]);
    }
    r := CollectReminders(Outcomes(table.value, now, nameOf));
  }

  /** The loop of `UpcomingTask()` over the row outcomes: a separator first, then
      each selected row's reminder and a separator; a short row ends it with IndexError. */
  method CollectReminders(os: seq<Outcome>) returns (r: Result<seq<string>>)
    ensures Gather(os).Err? ==> r == Gather(os)
    ensures Gather(os).Ok? ==> r == Ok([Separator] + Gather(os).value)
  {
    var notifications := [Separator];
    ghost var ms: seq<string> := [];
    var i := 0;
    while i < |os|
      invariant 0 <= i <= |os|
      invariant Gather(os[..i]) == Ok(ms) && notifications == [Separator] + ms
    {
      GatherStep(os, i);
      match os[i] {
        case Short =>
          GatherErrSticks(os, i + 1);
          return Err(IndexError);
        case Skip =>
        case Remind(message) =>
          AppendAssociative([Separator], ms, [message, Separator]);
          notifications := notifications + [message, Separator];
          ms := ms + [message, Separator];
      }
      i := i + 1;
    }
    assert os[..i] == os;
    r := Ok(notifications);
  }
}
