/** How the board orders and groups its tasks before they are shown:
    `KanbanBoard._sort_tasks` (Python's stable `sorted` under a key) and the
    status buckets `_display_grouped_by_status` fills in `valid_statuses` order. */
module BoardView {
  import opened Values
  import opened Text
  import opened Tasks

  /** The key a task sorts under: `(due_date, title)` for "due_date", `title.lower()`
      for "title" and `due_date` otherwise, each as a tuple of strings. A due date
      that is not a string has no place in this order (see `Sortable`). */
  function SortKey(f: TaskFields, sortBy: string): seq<string> {
    var due := if f.dueDate.Str? then f.dueDate.s else "";
    if sortBy == "due_date" then [due, f.title]
    else if sortBy == "title" then [Lower(f.title)]
    else [due]
  }

  /** Python's `<` on tuples of strings: the first differing component decides,
      and a proper prefix comes first. */
  predicate KeyLess(a: seq<string>, b: seq<string>) {
    if a == [] then b != []
    else if b == [] then false
    else StrLess(a[0], b[0]) || (a[0] == b[0] && KeyLess(a[1..], b[1..]))
  }

  lemma {:induction false} KeyLessIrreflexive(a: seq<string>)
    ensures !KeyLess(a, a)
  {
    if a != [] {
      StrLessIrreflexive(a[0]);
      KeyLessIrreflexive(a[1..]);
    }
  }

  lemma {:induction false} KeyLessTransitive(a: seq<string>, b: seq<string>, c: seq<string>)
    requires KeyLess(a, b) && KeyLess(b, c)
    ensures KeyLess(a, c)
  {
    if a != [] {
      if StrLess(a[0], b[0]) && StrLess(b[0], c[0]) {
        StrLessTransitive(a[0], b[0], c[0]);
      } else if a[0] == b[0] && b[0] == c[0] {
        KeyLessTransitive(a[1..], b[1..], c[1..]);
      }
    }
  }

  lemma {:induction false} KeyLessTotal(a: seq<string>, b: seq<string>)
    ensures a == b || KeyLess(a, b) || KeyLess(b, a)
  {
    if a != [] && b != [] {
      StrLessTotal(a[0], b[0]);
      if a[0] == b[0] {
        KeyLessTotal(a[1..], b[1..]);
        if a[1..] == b[1..] {
          assert a == [a[0]] + a[1..] && b == [b[0]] + b[1..];
        }
      }
    }
  }

  /** "Not after" is transitive: the order is a total preorder on tasks. */
  lemma NotLessTransitive(a: seq<string>, b: seq<string>, c: seq<string>)
    requires !KeyLess(b, a) && !KeyLess(c, b)
    ensures !KeyLess(c, a)
  {
    if KeyLess(c, a) {
      KeyLessTotal(a, b);
      if KeyLess(a, b) {
        KeyLessTransitive(c, a, b);
      }
    }
  }

  predicate Less(x: TaskFields, y: TaskFields, sortBy: string) {
    KeyLess(SortKey(x, sortBy), SortKey(y, sortBy))
  }

  /** No task comes after one it sorts before. */
  predicate Sorted(r: seq<TaskFields>, sortBy: string) {
    forall i, j :: 0 <= i < j < |r| ==> !Less(r[j], r[i], sortBy)
  }

  /** The sort is defined when every comparison it may make is: Python raises
      TypeError when it compares a non-string due date with a string. */
  predicate Sortable(tasks: seq<TaskFields>, sortBy: string) {
    sortBy == "title" || forall k :: 0 <= k < |tasks| ==> tasks[k].dueDate.Str?
  }

  /** Places `x` before the first task that does not sort before it. */
  function Insert(x: TaskFields, s: seq<TaskFields>, sortBy: string): seq<TaskFields> {
    if s == [] then [x]
    else if Less(s[0], x, sortBy) then [s[0]] + Insert(x, s[1..], sortBy)
    else [x] + s
  }

  /** Inserting adds `x` and drops nothing, and keeps a sorted list sorted. */
  lemma {:induction false} InsertKeeps(x: TaskFields, s: seq<TaskFields>, sortBy: string)
    ensures multiset(Insert(x, s, sortBy)) == multiset(s) + multiset{x}
    ensures Sorted(s, sortBy) ==> Sorted(Insert(x, s, sortBy), sortBy)
  {
    if s != [] {
      assert s == [s[0]] + s[1..];
      if Less(s[0], x, sortBy) {
        var t := Insert(x, s[1..], sortBy);
        InsertKeeps(x, s[1..], sortBy);
        assert Sorted(s, sortBy) ==> Sorted(s[1..], sortBy);
        InsertAfterHead(s[0], x, s[1..], t, sortBy);
      } else {
        InsertAtHead(x, s, sortBy);
      }
    }
  }

  lemma InsertAfterHead(h: TaskFields, x: TaskFields, s: seq<TaskFields>, t: seq<TaskFields>, sortBy: string)
    requires Less(h, x, sortBy)
    requires multiset(t) == multiset(s) + multiset{x}
    requires Sorted([h] + s, sortBy) ==> Sorted(t, sortBy)
    ensures Sorted([h] + s, sortBy) ==> Sorted([h] + t, sortBy)
  {
    if Sorted([h] + s, sortBy) {
      forall e | e in t
        ensures !Less(e, h, sortBy)
      {
        assert e in multiset(t);
        if e == x {
          KeyLessIrreflexive(SortKey(h, sortBy));
          if Less(x, h, sortBy) {
            KeyLessTransitive(SortKey(h, sortBy), SortKey(x, sortBy), SortKey(h, sortBy));
          }
        } else {
          assert e in multiset(s) by {
            assert multiset(t)[e] == multiset(s)[e] + multiset{x}[e];
          }
          var k :| 0 <= k < |s| && s[k] == e;
          assert ([h] + s)[k + 1] == e && ([h] + s)[0] == h;
        }
      }
      forall i, j | 0 <= i < j < |[h] + t|
        ensures !Less(([h] + t)[j], ([h] + t)[i], sortBy)
      {
        if i == 0 {
          assert ([h] + t)[j] == t[j - 1];
          assert t[j - 1] in t;
        } else {
          assert ([h] + t)[j] == t[j - 1] && ([h] + t)[i] == t[i - 1];
        }
      }
    }
  }

  lemma InsertAtHead(x: TaskFields, s: seq<TaskFields>, sortBy: string)
    requires s != [] && !Less(s[0], x, sortBy)
    ensures Sorted(s, sortBy) ==> Sorted([x] + s, sortBy)
  {
    if Sorted(s, sortBy) {
      forall i, j | 0 <= i < j < |[x] + s|
        ensures !Less(([x] + s)[j], ([x] + s)[i], sortBy)
      {
        if i == 0 {
          assert ([x] + s)[j] == s[j - 1];
          if j > 1 {
            NotLessTransitive(SortKey(x, sortBy), SortKey(s[0], sortBy), SortKey(s[j - 1], sortBy));
          }
        } else {
          assert ([x] + s)[j] == s[j - 1] && ([x] + s)[i] == s[i - 1];
        }
      }
    }
  }

  /** `sorted(tasks, key=...)`, stably: each task is inserted ahead of every
      later task with the same key. */
  function Sort(s: seq<TaskFields>, sortBy: string): (r: seq<TaskFields>)
    ensures multiset(r) == multiset(s)
    ensures Sorted(r, sortBy)
  {
    if s == [] then []
    else
      assert s == [s[0]] + s[1..];
      InsertKeeps(s[0], Sort(s[1..], sortBy), sortBy);
      Insert(s[0], Sort(s[1..], sortBy), sortBy)
  }

  /** `_sort_tasks(tasks, sort_by)`: a reordering of the tasks, in key order. */
  function SortTasks(tasks: seq<TaskFields>, sortBy: string): (r: seq<TaskFields>)
    requires sortBy != "assignee" && Sortable(tasks, sortBy)
    ensures multiset(r) == multiset(tasks) && |r| == |tasks|
    ensures Sorted(r, sortBy)
  {
    assert |multiset(Sort(tasks, sortBy))| == |Sort(tasks, sortBy)|;
    Sort(tasks, sortBy)
  }

  /** The tasks of `s` that sort under key `k`, in their order in `s`. */
  function WithKey(s: seq<TaskFields>, k: seq<string>, sortBy: string): seq<TaskFields> {
    if s == [] then []
    else (if SortKey(s[0], sortBy) == k then [s[0]] else []) + WithKey(s[1..], k, sortBy)
  }

  lemma WithKeyCons(a: TaskFields, t: seq<TaskFields>, k: seq<string>, sortBy: string)
    ensures WithKey([a] + t, k, sortBy) == (if SortKey(a, sortBy) == k then [a] else []) + WithKey(t, k, sortBy)
  {
    assert ([a] + t)[0] == a && ([a] + t)[1..] == t;
  }

  lemma {:induction false} InsertWithKey(x: TaskFields, s: seq<TaskFields>, k: seq<string>, sortBy: string)
    ensures WithKey(Insert(x, s, sortBy), k, sortBy)
            == (if SortKey(x, sortBy) == k then [x] else []) + WithKey(s, k, sortBy)
  {
    if s != [] {
      assert s == [s[0]] + s[1..];
      WithKeyCons(s[0], s[1..], k, sortBy);
      if Less(s[0], x, sortBy) {
        var t := Insert(x, s[1..], sortBy);
        assert Insert(x, s, sortBy) == [s[0]] + t;
        WithKeyCons(s[0], t, k, sortBy);
        InsertWithKey(x, s[1..], k, sortBy);
        KeyLessIrreflexive(SortKey(x, sortBy));
        assert SortKey(s[0], sortBy) != SortKey(x, sortBy);
      } else {
        assert Insert(x, s, sortBy) == [x] + s;
        WithKeyCons(x, s, k, sortBy);
      }
    }
  }

  /** Python's sort is stable: tasks with equal keys keep their relative order. */
  lemma {:induction false} SortStable(s: seq<TaskFields>, k: seq<string>, sortBy: string)
    ensures WithKey(Sort(s, sortBy), k, sortBy) == WithKey(s, k, sortBy)
  {
    if s != [] {
      SortStable(s[1..], k, sortBy);
      InsertWithKey(s[0], Sort(s[1..], sortBy), k, sortBy);
    }
  }

  /** What the order means field by field: by due date then title, by
      lower-cased title, or by due date alone. */
  lemma SortedMeaning(r: seq<TaskFields>, sortBy: string, i: int, j: int)
    requires Sorted(r, sortBy) && sortBy != "assignee" && Sortable(r, sortBy)
    requires 0 <= i < j < |r|
    ensures sortBy == "due_date" ==>
              !StrLess(r[j].dueDate.s, r[i].dueDate.s)
              && (r[j].dueDate == r[i].dueDate ==> !StrLess(r[j].title, r[i].title))
    ensures sortBy == "title" ==> !StrLess(Lower(r[j].title), Lower(r[i].title))
    ensures sortBy != "due_date" && sortBy != "title" ==> !StrLess(r[j].dueDate.s, r[i].dueDate.s)
  {
    assert !Less(r[j], r[i], sortBy);
    var a, b := SortKey(r[j], sortBy), SortKey(r[i], sortBy);
    if sortBy == "due_date" {
      assert a == [r[j].dueDate.s, r[j].title] && b == [r[i].dueDate.s, r[i].title];
      assert a[1..] == [r[j].title] && b[1..] == [r[i].title];
      assert a[1..][1..] == [] && b[1..][1..] == [];
      assert KeyLess(a[1..], b[1..]) <== StrLess(r[j].title, r[i].title);
    }
  }

  /** `task.status in grouped_tasks`: the tasks with a given status, in order. */
  function InStatus(tasks: seq<TaskFields>, st: string): (r: seq<TaskFields>)
    ensures |r| <= |tasks|
    ensures forall k :: 0 <= k < |r| ==> r[k] in tasks && r[k].status == st
  {
    if tasks == [] then []
    else
      var last := tasks[|tasks| - 1];
      InStatus(tasks[..|tasks| - 1], st) + (if last.status == st then [last] else [])
  }

  /** The tasks whose status is none of the board's statuses. */
  function Unknown(tasks: seq<TaskFields>, statuses: seq<string>): seq<TaskFields> {
    if tasks == [] then []
    else
      var last := tasks[|tasks| - 1];
      Unknown(tasks[..|tasks| - 1], statuses) + (if last.status in statuses then [] else [last])
  }

  /** Everything the status buckets hold, counted with multiplicity. */
  function Gathered(tasks: seq<TaskFields>, statuses: seq<string>): multiset<TaskFields> {
    if statuses == [] then multiset{}
    else multiset(InStatus(tasks, statuses[0])) + Gathered(tasks, statuses[1..])
  }

  predicate Distinct(statuses: seq<string>) {
    forall i, j :: 0 <= i < j < |statuses| ==> statuses[i] != statuses[j]
  }

  lemma {:induction false} GatheredSnoc(a: seq<TaskFields>, x: TaskFields, statuses: seq<string>)
    requires Distinct(statuses)
    ensures Gathered(a + [x], statuses)
            == Gathered(a, statuses) + (if x.status in statuses then multiset{x} else multiset{})
  {
    assert (a + [x])[..|a + [x]| - 1] == a;
    if statuses != [] {
      assert Distinct(statuses[1..]);
      GatheredSnoc(a, x, statuses[1..]);
      assert x.status in statuses <==> x.status == statuses[0] || x.status in statuses[1..];
      assert x.status == statuses[0] ==> x.status !in statuses[1..];
    }
  }

  /** The buckets and the invalid bucket split the tasks: each task lands in
      exactly one of them, as often as it occurs. */
  lemma {:induction false} GroupsPartition(tasks: seq<TaskFields>, statuses: seq<string>)
    requires Distinct(statuses)
    ensures Gathered(tasks, statuses) + multiset(Unknown(tasks, statuses)) == multiset(tasks)
  {
    if tasks == [] {
      GatheredEmpty(statuses);
    } else {
      var a, x := tasks[..|tasks| - 1], tasks[|tasks| - 1];
      assert tasks == a + [x];
      GroupsPartition(a, statuses);
      GatheredSnoc(a, x, statuses);
    }
  }

  lemma {:induction false} GatheredEmpty(statuses: seq<string>)
    ensures Gathered([], statuses) == multiset{}
  {
    if statuses != [] {
      GatheredEmpty(statuses[1..]);
    }
  }

  /** A bucket keeps the order the tasks came in, so sorted tasks give sorted buckets. */
  lemma {:induction false} InStatusSorted(tasks: seq<TaskFields>, st: string, sortBy: string)
    requires Sorted(tasks, sortBy)
    ensures Sorted(InStatus(tasks, st), sortBy)
    ensures forall e :: e in InStatus(tasks, st) ==> e in tasks && e.status == st
  {
    if tasks != [] {
      var a, x := tasks[..|tasks| - 1], tasks[|tasks| - 1];
      assert Sorted(a, sortBy);
      InStatusSorted(a, st, sortBy);
      var g := InStatus(a, st);
      if x.status == st {
        forall i, j | 0 <= i < j < |g + [x]|
          ensures !Less((g + [x])[j], (g + [x])[i], sortBy)
        {
          if j == |g| {
            assert g[i] in a;
            var k :| 0 <= k < |a| && a[k] == g[i];
            assert tasks[k] == g[i] && tasks[|tasks| - 1] == x;
          } else {
            assert (g + [x])[j] == g[j] && (g + [x])[i] == g[i];
          }
        }
      }
    }
  }

  /** The bucket-filling loop of `_display_grouped_by_status`: a dict with one
      empty bucket per board status (iterated in `statuses` order), each task
      appended to the bucket of its status, tasks with any other status collected apart. */
  method GroupByStatus(tasks: seq<TaskFields>, statuses: seq<string>)
      returns (grouped: map<string, seq<TaskFields>>, invalid: seq<TaskFields>)
    ensures grouped.Keys == set st | st in statuses
    ensures forall st :: st in statuses ==> grouped[st] == InStatus(tasks, st)
    ensures invalid == Unknown(tasks, statuses)
  {
    grouped := map st | st in statuses :: [];
    invalid := [];
    var i := 0;
    while i < |tasks|
      invariant 0 <= i <= |tasks|
      invariant grouped.Keys == set st | st in statuses
      invariant forall st :: st in statuses ==> grouped[st] == InStatus(tasks[..i], st)
      invariant invalid == Unknown(tasks[..i], statuses)
    {
      var t := tasks[i];
      assert tasks[..i + 1][..i] == tasks[..i];
      if t.status in grouped {
        grouped := grouped[t.status := grouped[t.status] + [t]];
      } else {
        invalid := invalid + [t];
      }
      i := i + 1;
    }
    assert tasks[..i] == tasks;
  }
}
