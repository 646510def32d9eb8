/** The task table and user directory behind `KanbanInfoDatabase` (imported as
    `kdb`). That module is not part of this model; its behaviour is stated here
    as an abstract table: rows in storage order, ids assigned by an
    AUTOINCREMENT counter and never reused, and a set of known users. */
module KanbanDb {
  import opened Values

  /** One row of the KANBAN table. `id` is the INTEGER PRIMARY KEY; the other
      columns hold whatever Python value was written. */
  datatype Record = Record(
    id: int, title: Value, status: Value, personInCharge: Value, creationDate: Value,
    dueDate: Value, creator: Value, editors: Value, additionalInfo: Value)

  /** The row as `SELECT *` returns it, columns in schema order: (id, title, status,
      person_in_charge, creation_date, due_date, creator, editors, additional_info). */
  function Cells(r: Record): (row: seq<Value>)
    ensures |row| == 9 && row[0] == Int(r.id)
  {
    [Int(r.id), r.title, r.status, r.personInCharge, r.creationDate, r.dueDate, r.creator, r.editors, r.additionalInfo]
  }

  /** `kdb.CheckUserExist(v)`: v is an integer user key the directory knows. */
  predicate CheckUserExist(users: set<int>, v: Value) {
    v.Int? && v.i in users
  }

  /** Storage order is id order: AUTOINCREMENT appends ever larger ids. */
  predicate IdsIncreasing(records: seq<Record>) {
    forall i, j :: 0 <= i < j < |records| ==> records[i].id < records[j].id
  }

  /** `SELECT * FROM KANBAN WHERE ID = id`. */
  function Find(records: seq<Record>, id: int): (r: Option<Record>)
    ensures r.Some? <==> exists k :: 0 <= k < |records| && records[k].id == id
    ensures r.Some? ==> r.value in records && r.value.id == id
  {
    if records == [] then None
    else if records[0].id == id then Some(records[0])
    else
      var r := Find(records[1..], id);
      assert forall k :: 1 <= k < |records| ==> records[k] == records[1..][k - 1];
      r
  }

  /** `DELETE FROM KANBAN WHERE ID = id`. */
  function Remove(records: seq<Record>, id: int): (r: seq<Record>)
    ensures forall k :: 0 <= k < |r| ==> r[k].id != id && r[k] in records
    ensures forall x :: x in records && x.id != id ==> x in r
    ensures |r| <= |records|
  {
    if records == [] then []
    else if records[0].id == id then Remove(records[1..], id)
    else [records[0]] + Remove(records[1..], id)
  }

  /** `UPDATE KANBAN SET Title, Status, PersonInCharge, DueDate, Editors,
      AdditionalInfo WHERE ID = id`: the id, creation date and creator columns stay. */
  function Update(records: seq<Record>, id: int, title: Value, status: Value, personInCharge: Value,
                  dueDate: Value, editors: Value, additionalInfo: Value): (r: seq<Record>)
    ensures |r| == |records|
    ensures forall k :: 0 <= k < |r| ==> r[k].id == records[k].id
    ensures forall k :: 0 <= k < |r| ==> r[k] == (if records[k].id == id
      then records[k].(title := title, status := status, personInCharge := personInCharge,
                       dueDate := dueDate, editors := editors, additionalInfo := additionalInfo)
      else records[k])
  {
    seq(|records|, k requires 0 <= k < |records| =>
      if records[k].id == id
      then records[k].(title := title, status := status, personInCharge := personInCharge,
                       dueDate := dueDate, editors := editors, additionalInfo := additionalInfo)
      else records[k])
  }

  lemma RemoveKeepsOrder(records: seq<Record>, id: int)
    requires IdsIncreasing(records)
    ensures IdsIncreasing(Remove(records, id))
  {
    if records != [] {
      RemoveKeepsOrder(records[1..], id);
    }
  }

  lemma FindInIncreasing(records: seq<Record>, k: int)
    requires IdsIncreasing(records) && 0 <= k < |records|
    ensures Find(records, records[k].id) == Some(records[k])
  {
    if k > 0 {
      assert records[1..][k - 1] == records[k];
      FindInIncreasing(records[1..], k - 1);
    }
  }

  class Database {
    var users: set<int>
    var records: seq<Record>
    /** The next value of the AUTOINCREMENT counter. */
    var nextId: int
    /** Every id handed out so far, including those of deleted rows. */
    ghost var issued: set<int>

    ghost predicate Valid()
      reads this
    {
      && IdsIncreasing(records)
      && (forall k :: 0 <= k < |records| ==> records[k].id in issued)
      && (forall id :: id in issued ==> id < nextId)
      && nextId >= 1
    }

    constructor (users: set<int>, records: seq<Record>, nextId: int)
      requires IdsIncreasing(records) && nextId >= 1
      requires forall k :: 0 <= k < |records| ==> records[k].id < nextId
      ensures Valid()
      ensures this.users == users && this.records == records && this.nextId == nextId
    {
      this.users := users;
      this.records := records;
      this.nextId := nextId;
      issued := set k | 0 <= k < |records| :: records[k].id;
    }

    /** `kdb.GetTaskByID(id)`: the row, or None. */
    function GetTaskByID(id: int): Option<seq<Value>>
      reads this
    {
      match Find(records, id)
      case None => None
      case Some(r) => Some(Cells(r))
    }

    /** `kdb.GetAllTasks()`: every row in storage order. */
    function GetAllTasks(): (rows: seq<seq<Value>>)
      reads this
      ensures |rows| == |records| && forall k :: 0 <= k < |rows| ==> rows[k] == Cells(records[k])
    {
      seq(|records|, k requires 0 <= k < |records| reads this => Cells(records[k]))
    }

    predicate UserExists(v: Value)
      reads this
    {
      CheckUserExist(users, v)
    }

    /** `kdb.AddTask(...)`: appends a row under a fresh id; the editor column starts empty. */
    method AddTask(title: Value, status: Value, personInCharge: Value, creationDate: Value,
                   dueDate: Value, creator: Value, additionalInfo: Value) returns (id: int)
      requires Valid()
      modifies this
      ensures Valid()
      ensures id == old(nextId) && id !in old(issued) && issued == old(issued) + {id}
      ensures nextId == id + 1 && users == old(users)
      ensures records == old(records) + [Record(id, title, status, personInCharge, creationDate,
                                                dueDate, creator, Null, additionalInfo)]
    {
      id := nextId;
      records := records + [Record(id, title, status, personInCharge, creationDate, dueDate, creator, Null, additionalInfo)];
      issued := issued + {id};
      nextId := nextId + 1;
    }

    /** `kdb.EditTask(id, title, status, person_in_charge, due_date, editors, additional_info)`. */
    method EditTask(id: int, title: Value, status: Value, personInCharge: Value, dueDate: Value,
                    editors: Value, additionalInfo: Value)
      requires Valid()
      modifies this
      ensures Valid()
      ensures records == Update(old(records), id, title, status, personInCharge, dueDate, editors, additionalInfo)
      ensures users == old(users) && nextId == old(nextId) && issued == old(issued)
    {
      var updated := Update(records, id, title, status, personInCharge, dueDate, editors, additionalInfo);
      assert IdsIncreasing(updated);
      records := updated;
    }

    /** `kdb.DelTask(id)`. */
    method DelTask(id: int)
      requires Valid()
      modifies this
      ensures Valid()
      ensures records == Remove(old(records), id)
      ensures users == old(users) && nextId == old(nextId) && issued == old(issued)
    {
      RemoveKeepsOrder(records, id);
      records := Remove(records, id);
    }
  }
}
