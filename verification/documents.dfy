/**
  Decoded documents of the task store and the two in-memory transforms the
  store applies to them: appending a fresh task (app/tasks.py:53-64) and
  dropping the tasks whose description equals a given string
  (app/tasks.py:73-80).
 */
module Documents {
  import opened Wrappers

  /** One task record: a string-keyed mapping of string values. */
  type Record = map<string, string>

  /** A decoded document: named collections of records, in file order. */
  datatype Document = Document(collections: map<string, seq<Record>>)

  /** The only collection the store reads and writes. */
  const TasksKey: string := "tasks"

  /** The four fields of a task record, as the initial header declares them. */
  const TaskFields: set<string> := {"id", "description", "status", "created_at"}

  /** What a failed read degrades to: `{'tasks': []}`. */
  const EmptyDocument: Document := Document(map[TasksKey := []])

  /** `data.get('tasks', [])`: the task collection, or nothing when the key is absent. */
  function TasksOf(d: Document): seq<Record>
  {
    if TasksKey in d.collections then d.collections[TasksKey] else []
  }

  /** `data['tasks'] = tasks`. */
  function WithTasks(d: Document, tasks: seq<Record>): Document
  {
    Document(d.collections[TasksKey := tasks])
  }

  /** Every collection other than the task collection is the same in `d` and `e`. */
  predicate SameOtherCollections(d: Document, e: Document)
  {
    && d.collections.Keys - {TasksKey} == e.collections.Keys - {TasksKey}
    && forall k :: k in d.collections && k in e.collections && k != TasksKey ==>
         d.collections[k] == e.collections[k]
  }

  /** The record built for a new task: the caller's description, status `pending`. */
  function NewTask(id: string, description: string, createdAt: string): (t: Record)
    ensures t.Keys == TaskFields
    ensures t["id"] == id && t["description"] == description
    ensures t["status"] == "pending" && t["created_at"] == createdAt
  {
    map["id" := id, "description" := description, "status" := "pending", "created_at" := createdAt]
  }

  /**
    Appends one record at the end of the task collection, creating the
    collection first when the document has none.
   */
  function AppendTask(d: Document, t: Record): (r: Document)
    ensures TasksKey in r.collections
    ensures TasksOf(r) == TasksOf(d) + [t]
    ensures |TasksOf(r)| == |TasksOf(d)| + 1
    ensures SameOtherCollections(d, r)
  {
    var tasks := if TasksKey in d.collections then d.collections[TasksKey] else [];
    WithTasks(d, tasks + [t])
  }

  /**
    `t.get('description') == description`. A record without a description
    field yields `None`, which is never equal to a string.
   */
  predicate Matches(t: Record, description: string)
  {
    "description" in t && t["description"] == description
  }

  /** Some record in `tasks` matches `description`. */
  predicate AnyMatch(tasks: seq<Record>, description: string)
  {
    exists i :: 0 <= i < |tasks| && Matches(tasks[i], description)
  }

  /**
    The records of `tasks` that do not match `description`, in their
    original order (the list comprehension at app/tasks.py:76).
   */
  function Remaining(tasks: seq<Record>, description: string): (r: seq<Record>)
    ensures |r| <= |tasks|
    ensures forall t :: t in r ==> t in tasks && !Matches(t, description)
    ensures forall t :: t in tasks && !Matches(t, description) ==> t in r
  {
    if tasks == [] then []
    else
      var rest := Remaining(tasks[1..], description);
      if Matches(tasks[0], description) then rest else [tasks[0]] + rest
  }

  /** `a` occurs in `b` in order, possibly with gaps. */
  predicate IsSubsequence<T(==)>(a: seq<T>, b: seq<T>)
    decreases |b|
  {
    if a == [] then true
    else if b == [] then false
    else if a[0] == b[0] then IsSubsequence(a[1..], b[1..])
    else IsSubsequence(a, b[1..])
  }

  /**
    The deletion step on a whole document: `None` when nothing is to be
    written back, otherwise the document to write. The store writes only
    when the task collection exists and shrank.
   */
  function DeletePlan(d: Document, description: string): (r: Option<Document>)
    ensures r.Some? <==> TasksKey in d.collections && AnyMatch(TasksOf(d), description)
    ensures r.Some? ==> TasksKey in r.value.collections
    ensures r.Some? ==> TasksOf(r.value) == Remaining(TasksOf(d), description)
    ensures r.Some? ==> SameOtherCollections(d, r.value)
  {
    if TasksKey !in d.collections then None
    else
      var before := d.collections[TasksKey];
      var kept := Remaining(before, description);
      RemainingShrinksIffMatch(before, description);
      if |kept| < |before| then Some(WithTasks(d, kept)) else None
  }

  /** The comprehension at app/tasks.py:76 as a forward loop over the records. */
  method FilterTasks(tasks: seq<Record>, description: string) returns (kept: seq<Record>)
    ensures kept == Remaining(tasks, description)
  {
    kept := [];
    var i := 0;
    while i < |tasks|
      invariant 0 <= i <= |tasks|
      invariant kept == Remaining(tasks[..i], description)
    {
      assert tasks[..i + 1] == tasks[..i] + [tasks[i]];
      RemainingConcat(tasks[..i], [tasks[i]], description);
      if !Matches(tasks[i], description) {
        kept := kept + [tasks[i]];
      }
      i := i + 1;
    }
    assert tasks[..|tasks|] == tasks;
  }

  /** Filtering distributes over concatenation: relative order is kept. */
  lemma {:induction false} RemainingConcat(a: seq<Record>, b: seq<Record>, description: string)
    ensures Remaining(a + b, description) == Remaining(a, description) + Remaining(b, description)
  {
    if a == [] {
      assert a + b == b;
    } else {
      assert (a + b)[1..] == a[1..] + b;
      RemainingConcat(a[1..], b, description);
    }
  }

  /** The remaining records form a subsequence of the original ones. */
  lemma {:induction false} RemainingIsSubsequence(tasks: seq<Record>, description: string)
    ensures IsSubsequence(Remaining(tasks, description), tasks)
  {
    if tasks != [] {
      RemainingIsSubsequence(tasks[1..], description);
      var rest := Remaining(tasks[1..], description);
      if !Matches(tasks[0], description) {
        assert ([tasks[0]] + rest)[1..] == rest;
      } else {
        SubsequenceDropHead(rest, tasks);
      }
    }
  }

  /** Skipping the first element of `b` keeps `a` a subsequence of `b`. */
  lemma {:induction false} SubsequenceDropHead<T>(a: seq<T>, b: seq<T>)
    requires b != []
    requires IsSubsequence(a, b[1..])
    ensures IsSubsequence(a, b)
    decreases |b|, 0
  {
    if a != [] && a[0] == b[0] {
      SubsequenceTail(a, b[1..]);
    }
  }

  /** Dropping the head of a subsequence leaves a subsequence. */
  lemma {:induction false} SubsequenceTail<T>(a: seq<T>, b: seq<T>)
    requires a != []
    requires IsSubsequence(a, b)
    ensures IsSubsequence(a[1..], b)
    decreases |b|, 1
  {
    if a[0] == b[0] {
      SubsequenceDropHead(a[1..], b);
    } else {
      SubsequenceTail(a, b[1..]);
      SubsequenceDropHead(a[1..], b);
    }
  }

  /**
    All and only the matches are removed: each matching record occurs zero
    times afterwards, every other record as often as before.
   */
  lemma {:induction false} RemainingCounts(tasks: seq<Record>, description: string)
    ensures forall t ::
      multiset(Remaining(tasks, description))[t] == (if Matches(t, description) then 0 else multiset(tasks)[t])
  {
    if tasks != [] {
      RemainingCounts(tasks[1..], description);
      assert tasks == [tasks[0]] + tasks[1..];
      assert multiset(tasks) == multiset{tasks[0]} + multiset(tasks[1..]);
    }
  }

  /**
    A record with no description field is never removed (`t.get` yields
    `None`): in any collection it is kept, as often as it occurs.
   */
  lemma RecordWithoutDescriptionIsKept(tasks: seq<Record>, t: Record, description: string)
    requires "description" !in t
    ensures t in tasks ==> t in Remaining(tasks, description)
    ensures multiset(Remaining(tasks, description))[t] == multiset(tasks)[t]
  {
    RemainingCounts(tasks, description);
  }

  /** The collection shrinks exactly when some record matches. */
  lemma {:induction false} RemainingShrinksIffMatch(tasks: seq<Record>, description: string)
    ensures |Remaining(tasks, description)| < |tasks| <==> AnyMatch(tasks, description)
    ensures Remaining(tasks, description) == tasks <==> !AnyMatch(tasks, description)
  {
    if tasks != [] {
      RemainingShrinksIffMatch(tasks[1..], description);
      if AnyMatch(tasks[1..], description) {
        var i :| 0 <= i < |tasks[1..]| && Matches(tasks[1..][i], description);
        assert Matches(tasks[i + 1], description);
      }
      if AnyMatch(tasks, description) && !Matches(tasks[0], description) {
        var i :| 0 <= i < |tasks| && Matches(tasks[i], description);
        assert Matches(tasks[1..][i - 1], description);
      }
      assert tasks == [tasks[0]] + tasks[1..];
    }
  }

  /** Deleting the same description twice removes nothing the second time. */
  lemma {:induction false} RemainingIdempotent(tasks: seq<Record>, description: string)
    ensures Remaining(Remaining(tasks, description), description) == Remaining(tasks, description)
  {
    if tasks != [] {
      RemainingIdempotent(tasks[1..], description);
    }
  }

  /**
    Adding a task and then deleting its description leaves exactly the prior
    records that did not match it; every matching record is gone.
   */
  lemma AddThenDelete(d: Document, id: string, description: string, createdAt: string)
    ensures DeletePlan(AppendTask(d, NewTask(id, description, createdAt)), description).Some?
    ensures TasksOf(DeletePlan(AppendTask(d, NewTask(id, description, createdAt)), description).value)
      == Remaining(TasksOf(d), description)
    ensures !AnyMatch(Remaining(TasksOf(d), description), description)
  {
    var t := NewTask(id, description, createdAt);
    var after := TasksOf(AppendTask(d, t));
    assert Matches(after[|after| - 1], description);
    RemainingConcat(TasksOf(d), [t], description);
  }
}
