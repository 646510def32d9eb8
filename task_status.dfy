/** `TaskStatus`: the closed, ordered set of task states and its helpers. */
module TaskStatus {
  import opened Values

  datatype Status = ToDo | InProgress | WaitingReview | Finished

  /** The member's `.value`. */
  function StatusValue(st: Status): string {
    match st
    case ToDo => "To-Do"
    case InProgress => "In Progress"
    case WaitingReview => "Waiting Review"
    case Finished => "Finished"
  }

  /** The members in declaration order, the order in which the enum iterates. */
  const Members: seq<Status> := [ToDo, InProgress, WaitingReview, Finished]

  /** `get_valid_statuses()`: the value of every member, in declaration order. */
  function GetValidStatuses(): (r: seq<string>)
    ensures |r| == |Members| == 4
    ensures forall i :: 0 <= i < 4 ==> r[i] == StatusValue(Members[i])
    ensures forall i, j :: 0 <= i < j < 4 ==> r[i] != r[j]
  {
    seq(|Members|, i requires 0 <= i < |Members| => StatusValue(Members[i]))
  }

  /** `TaskStatus(value)`: the member with a given value, if any. */
  function FromValue(s: string): (r: Option<Status>)
    ensures r.Some? <==> s in GetValidStatuses()
  {
    assert GetValidStatuses() == ["To-Do", "In Progress", "Waiting Review", "Finished"];
    if s == "To-Do" then Some(ToDo)
    else if s == "In Progress" then Some(InProgress)
    else if s == "Waiting Review" then Some(WaitingReview)
    else if s == "Finished" then Some(Finished)
    else None
  }

  /** Every member is recovered from its value, and a value names one member. */
  lemma ValueRoundTrip(st: Status, s: string)
    ensures FromValue(StatusValue(st)) == Some(st)
    ensures FromValue(s) == Some(st) ==> StatusValue(st) == s
  {
  }

  /** `from_number(n)`: numbers 1 to 4 name the members in order; any other number gives None. */
  function FromNumber(n: int): (r: Option<string>)
    ensures r.Some? <==> 1 <= n <= 4
    ensures r.Some? ==> r.value == GetValidStatuses()[n - 1]
  {
    var statusMap := map[1 := StatusValue(ToDo), 2 := StatusValue(InProgress),
                         3 := StatusValue(WaitingReview), 4 := StatusValue(Finished)];
    if n in statusMap then Some(statusMap[n]) else None
  }
}
