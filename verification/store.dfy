/**
  The read-modify-write task store of app/tasks.py over an abstract file.

  The file is a value (`FileState`); every operation takes the file as it is
  before the call and returns it as it is afterwards. The serializer the
  store calls (`parse` and `dump` of app.toons) is not part of this model:
  it enters as a `Codec` of two arbitrary functions, and nothing is assumed
  about it beyond what a lemma states as its own hypothesis. Failures of the
  environment (reading the file, opening it for writing) are parameters.
 */
module Store {
  import opened Wrappers
  import opened Documents

  /** The tasks file on disk: absent, or present with its text. */
  datatype FileState = Absent | Present(content: string)

  /**
    The serializer: `parse` of a text and `dump` of a document, each `None`
    when the call raises. `parse` stands for parsing the text as a text-mode
    read returns it, so newline translation and character decoding are part
    of it.
   */
  datatype Codec = Codec(parse: string -> Option<Document>, dump: Document -> Option<string>)

  /**
    What the environment does on one operation: whether opening and reading
    the file succeeds, and whether opening it for writing succeeds.
   */
  datatype Io = Io(readOk: bool, openForWriteOk: bool)

  /** The text written into a freshly created tasks file: an empty collection with its header. */
  const InitialContent: string := "tasks[0]{id,description,status,created_at}:\n"

  /** The listing an operation returns, with the file as it is afterwards. */
  datatype Listing = Listing(file: FileState, tasks: seq<Record>)

  /** Creates the file with the empty-collection header when, and only when, it is absent. */
  function EnsureFileExists(f: FileState): (g: FileState)
    ensures g.Present?
    ensures f.Present? ==> g == f
    ensures f.Absent? ==> g.content == InitialContent
  {
    match f
    case Absent => Present(InitialContent)
    case Present(_) => f
  }

  /** Initializing a second time changes nothing. */
  lemma EnsureIdempotent(f: FileState)
    ensures EnsureFileExists(EnsureFileExists(f)) == EnsureFileExists(f)
    ensures f.Present? ==> EnsureFileExists(f) == f
  {
  }

  /** The text the store reads: the file after initialization. */
  function StoredText(f: FileState): string
  {
    EnsureFileExists(f).content
  }

  /**
    Reads and decodes the whole file. A failed read or a raising parse
    degrades to `{'tasks': []}`; there is no error result.
   */
  function ReadDocument(codec: Codec, f: FileState, readOk: bool): (d: Document)
    ensures !readOk ==> d == EmptyDocument
    ensures codec.parse(StoredText(f)).None? ==> d == EmptyDocument
    ensures readOk && codec.parse(StoredText(f)).Some? ==> d == codec.parse(StoredText(f)).value
  {
    if readOk then codec.parse(StoredText(f)).GetOr(EmptyDocument) else EmptyDocument
  }

  /**
    Writes a whole document. A failure to open the file leaves it as it was
    after initialization. Opening for writing truncates the file before
    `dump` runs, so a raising `dump` leaves it empty.
   */
  function SaveDocument(codec: Codec, f: FileState, d: Document, openForWriteOk: bool): (g: FileState)
    ensures g.Present?
    ensures !openForWriteOk ==> g == EnsureFileExists(f)
    ensures openForWriteOk && codec.dump(d).Some? ==> g.content == codec.dump(d).value
    ensures openForWriteOk && codec.dump(d).None? ==> g.content == ""
  {
    var initialized := EnsureFileExists(f);
    if openForWriteOk then Present(codec.dump(d).GetOr("")) else initialized
  }

  /** The stored task collection, or the empty sequence when there is none. */
  function GetTasksRaw(codec: Codec, f: FileState, readOk: bool): (l: Listing)
    ensures l.file == EnsureFileExists(f)
    ensures !readOk ==> l.tasks == []
    ensures codec.parse(StoredText(f)).None? ==> l.tasks == []
    ensures readOk && codec.parse(StoredText(f)).Some? ==>
      l.tasks == TasksOf(codec.parse(StoredText(f)).value)
  {
    Listing(EnsureFileExists(f), TasksOf(ReadDocument(codec, f, readOk)))
  }

  /**
    The public listing operation, an alias of `GetTasksRaw`: it only
    initializes the file, lists nothing when the read fails or the parse
    raises, and otherwise lists the parsed document's task collection.
   */
  function GetTasks(codec: Codec, f: FileState, readOk: bool): (l: Listing)
    ensures l.file == EnsureFileExists(f)
    ensures !readOk || codec.parse(StoredText(f)).None? ==> l.tasks == []
    ensures readOk && codec.parse(StoredText(f)).Some? ==>
      l.tasks == TasksOf(codec.parse(StoredText(f)).value)
    ensures l == GetTasksRaw(codec, f, readOk)
  {
    GetTasksRaw(codec, f, readOk)
  }

  /** `str(uuid4())[:8]`: the first eight characters of the token, or all of a shorter one. */
  function NewTaskId(token: string): (id: string)
    ensures |token| >= 8 ==> |id| == 8
    ensures |token| < 8 ==> id == token
    ensures id <= token
  {
    if |token| <= 8 then token else token[..8]
  }

  /**
    The record `add_task_to_file` builds from its inputs: the caller's
    description, status `pending`, the timestamp, and an id cut from the token.
   */
  function CreatedTask(description: string, token: string, createdAt: string): (t: Record)
    ensures t.Keys == TaskFields
    ensures t["id"] <= token
    ensures |token| >= 8 ==> |t["id"]| == 8
    ensures t["description"] == description
    ensures t["status"] == "pending"
    ensures t["created_at"] == createdAt
  {
    NewTask(NewTaskId(token), description, createdAt)
  }

  /**
    Adds a task: reads the document, appends a fresh `pending` record and
    writes the whole document back. Returns only the new file.
   */
  function AddTask(codec: Codec, f: FileState, description: string, token: string, createdAt: string, io: Io): (g: FileState)
    ensures g.Present?
    ensures !io.openForWriteOk ==> g == EnsureFileExists(f)
    ensures io.openForWriteOk ==>
      g == Present(codec.dump(AppendTask(ReadDocument(codec, f, io.readOk), CreatedTask(description, token, createdAt))).GetOr(""))
  {
    var data := ReadDocument(codec, f, io.readOk);
    var task := CreatedTask(description, token, createdAt);
    SaveDocument(codec, EnsureFileExists(f), AppendTask(data, task), io.openForWriteOk)
  }

  /**
    Deletes every task whose description equals `description` exactly and
    writes back only when at least one record was removed.
   */
  function DeleteTask(codec: Codec, f: FileState, description: string, io: Io): (g: FileState)
    ensures g.Present?
    ensures !AnyMatch(TasksOf(ReadDocument(codec, f, io.readOk)), description) ==> g == EnsureFileExists(f)
    ensures f.Present? && !AnyMatch(TasksOf(ReadDocument(codec, f, io.readOk)), description) ==> g == f
    ensures !io.readOk ==> g == EnsureFileExists(f)
    ensures var data := ReadDocument(codec, f, io.readOk);
            TasksKey in data.collections && AnyMatch(TasksOf(data), description) ==>
            g == SaveDocument(codec, EnsureFileExists(f), WithTasks(data, Remaining(TasksOf(data), description)),
                              io.openForWriteOk)
  {
    var data := ReadDocument(codec, f, io.readOk);
    match DeletePlan(data, description)
    case None => EnsureFileExists(f)
    case Some(kept) => SaveDocument(codec, EnsureFileExists(f), kept, io.openForWriteOk)
  }

  /** The serializer reproduces `d` from its own output. */
  predicate RoundTrips(codec: Codec, d: Document)
  {
    codec.dump(d).Some? && codec.parse(codec.dump(d).value) == Some(d)
  }

  /**
    When the write succeeds and the serializer reproduces the written
    document, listing after an add shows the previous listing with exactly
    the new record at the end.
   */
  lemma AddTaskThenList(codec: Codec, f: FileState, description: string, token: string, createdAt: string, io: Io)
    requires io.openForWriteOk
    requires RoundTrips(codec, AppendTask(ReadDocument(codec, f, io.readOk), CreatedTask(description, token, createdAt)))
    ensures GetTasks(codec, AddTask(codec, f, description, token, createdAt, io), true).tasks
      == GetTasks(codec, f, io.readOk).tasks + [CreatedTask(description, token, createdAt)]
  {
  }

  /**
    After a failed read, an add writes a document whose only task is the new
    one: every record previously on disk is dropped.
   */
  lemma AddAfterReadFailureDropsPriorTasks(codec: Codec, f: FileState, description: string, token: string, createdAt: string)
    requires RoundTrips(codec, Document(map[TasksKey := [CreatedTask(description, token, createdAt)]]))
    ensures GetTasks(codec, AddTask(codec, f, description, token, createdAt, Io(false, true)), true).tasks
      == [CreatedTask(description, token, createdAt)]
  {
    var task := CreatedTask(description, token, createdAt);
    assert TasksOf(EmptyDocument) + [task] == [task];
    assert EmptyDocument.collections[TasksKey := [task]] == map[TasksKey := [task]];
    assert AppendTask(EmptyDocument, task) == Document(map[TasksKey := [task]]);
  }

  /**
    Listing after a delete shows exactly the previously listed records that
    do not match, in order, provided the serializer reproduces the document
    the delete writes (when it writes at all).
   */
  lemma DeleteTaskThenList(codec: Codec, f: FileState, description: string)
    requires DeletePlan(ReadDocument(codec, f, true), description).Some? ==>
      RoundTrips(codec, DeletePlan(ReadDocument(codec, f, true), description).value)
    ensures GetTasks(codec, DeleteTask(codec, f, description, Io(true, true)), true).tasks
      == Remaining(GetTasks(codec, f, true).tasks, description)
  {
    var before := ReadDocument(codec, f, true);
    RemainingShrinksIffMatch(TasksOf(before), description);
  }

  /** Two adds in a row list their records in call order after everything already stored. */
  lemma AddTwiceKeepsCallOrder(codec: Codec, f: FileState, x: string, tokenX: string, timeX: string,
                               y: string, tokenY: string, timeY: string)
    requires RoundTrips(codec, AppendTask(ReadDocument(codec, f, true), CreatedTask(x, tokenX, timeX)))
    requires RoundTrips(codec, AppendTask(AppendTask(ReadDocument(codec, f, true), CreatedTask(x, tokenX, timeX)),
                                          CreatedTask(y, tokenY, timeY)))
    ensures GetTasks(codec, AddTask(codec, AddTask(codec, f, x, tokenX, timeX, Io(true, true)),
                                    y, tokenY, timeY, Io(true, true)), true).tasks
      == GetTasks(codec, f, true).tasks + [CreatedTask(x, tokenX, timeX), CreatedTask(y, tokenY, timeY)]
  {
  }
}
