# Task store model

A Dafny model of the persistence layer of TaskSerpent, `app/tasks.py`. The
store keeps an ordered collection of task records in one text file. Each
record maps `id`, `description`, `status` and `created_at` to strings. Every
operation first makes sure the file exists. It then reads and decodes the
whole file, changes the decoded document in memory and, for a mutation,
writes the whole document back.

- `wrappers.dfy`: `Option`, used for calls that may raise.
- `documents.dfy` (module `Documents`): records, decoded documents, and the
  two in-memory transforms. `AppendTask` adds a fresh record at the end.
  `Remaining` and `DeletePlan` drop the records with a given description,
  and decide whether anything has to be written back.
- `store.dfy` (module `Store`): the file as a value, `FileState = Absent |
  Present(content)`. Also the serializer interface, `Codec`, and the store
  operations `EnsureFileExists`, `ReadDocument`, `SaveDocument`,
  `GetTasksRaw`, `GetTasks`, `AddTask` and `DeleteTask`, with lemmas that
  connect them.
- `scenarios.dfy` (module `Scenarios`): concrete runs. There is deletion on
  small collections, and a list/add/list/delete/list session that starts
  from a missing file.

The serializer module `app/toons.py` is not part of this model. The store
takes it as a `Codec` of two arbitrary functions:
`parse: string -> Option<Document>` and `dump: Document -> Option<string>`.
Here `None` means the call raised. `parse` stands for `toons.parse`
applied to the text as the text-mode read at `app/tasks.py:24` returns it:
the newline translation and character decoding of that read are folded
into `parse`. No operation assumes anything about its format or its round
trip. A lemma that needs `parse` to read back what
`dump` wrote states that as its own hypothesis, `RoundTrips(codec, d)`, for
the specific documents involved. This is a condition on the composition:
dump, write, read back in text mode, then parse. `Scenarios.SessionFromMissingFile`
additionally takes as a hypothesis that `parse` reads the initial header
text as the document `{'tasks': []}`.

Environment effects become parameters of each operation:
- `Io.readOk`: whether opening and reading the file succeeds.
- `Io.openForWriteOk`: whether opening it for writing succeeds.
- `token`: the text of the generated UUID.
- `createdAt`: the formatted clock reading.

Two details of the code are modelled as written:
- Deletion compares descriptions exactly with `!=`
  (`app/tasks.py:76`). No surrounding whitespace is trimmed;
  `Scenarios.DeleteDoesNotTrim` shows that `" buy milk"` deletes nothing.
- `add_task_to_file` returns `None` (`app/tasks.py:51-65`). `Store.AddTask`
  returns only the new file state, not the created task.

Two consequences of the code as written are stated and proved, not
corrected:
- A failed read degrades to `{'tasks': []}`. So an add after a failed read
  writes a file whose only task is the new one, and every task stored
  before is dropped (`Store.AddAfterReadFailureDropsPriorTasks`).
- Opening the file for writing truncates it before `dump` runs. So a
  raising `dump` leaves an empty file (`Store.SaveDocument`).

## Model

| member | source | states |
|---|---|---|
| Store.EnsureFileExists | app/tasks.py:10-18 | afterwards the file exists; an absent file gets exactly the empty-collection header `tasks[0]{id,description,status,created_at}:` plus newline; a present file is left as it was |
| Store.EnsureIdempotent | app/tasks.py:15-18 | initializing twice equals initializing once, and initializing a present file is the identity |
| Store.ReadDocument | app/tasks.py:20-29 | a failed read or a raising parse yields the document `{'tasks': []}`; otherwise the parsed document of the (initialized) file; never an error |
| Store.SaveDocument | app/tasks.py:31-38 | the file exists afterwards; a failed open leaves the initialized file unchanged; otherwise the file holds the dump of the document, or is empty when dump raises after the truncating open |
| Store.GetTasksRaw | app/tasks.py:40-43 | the listing is the document's `tasks` collection, the empty sequence when the key is absent, the read fails or the parse raises; listing only initializes the file |
| Store.GetTasks | app/tasks.py:45-49 | the public listing only initializes the file; it is empty after a failed read or a raising parse, otherwise the parsed document's `tasks` collection (or empty when the key is absent); it coincides with the raw listing |
| Store.NewTaskId | app/tasks.py:58 | the id is a prefix of the generated token, of length 8 whenever the token has at least 8 characters (a UUID text has 36) |
| Store.CreatedTask | app/tasks.py:57-62 | the appended record has exactly the four task fields: the caller's description, status `pending`, the given timestamp, and an id that is a prefix of the token, of length 8 whenever the token has at least 8 characters |
| Documents.NewTask | app/tasks.py:57-62 | the new record has exactly the four task fields: the given id and description, status `pending`, and the given timestamp |
| Documents.AppendTask | app/tasks.py:53-64 | the new `tasks` collection is the old one (or the empty one when the key was absent) plus exactly the new record at the end; length grows by one; every other collection is unchanged |
| Store.AddTask | app/tasks.py:51-65 | the file exists afterwards; a failed open leaves the initialized file unchanged; otherwise the file holds the dump of the read document with the created task appended |
| Store.AddTaskThenList | app/tasks.py:51-65 | if the write succeeds and the serializer reads back what it wrote, the listing after an add is the listing before plus the new record at the end |
| Store.AddTwiceKeepsCallOrder | app/tasks.py:51-65 | two successive adds list both new records after all prior ones, in call order |
| Store.AddAfterReadFailureDropsPriorTasks | app/tasks.py:23-29 | after a failed read, an add writes a document whose only task is the new one, whatever the file held before |
| Documents.Remaining | app/tasks.py:76 | the kept records are no more than before; every kept record was present and does not match; every non-matching record is kept |
| Documents.FilterTasks | app/tasks.py:76 | the forward loop over the records builds exactly the non-matching records in order |
| Documents.RemainingConcat | app/tasks.py:76 | filtering distributes over concatenation, so the relative order of kept records is preserved |
| Documents.RemainingIsSubsequence | app/tasks.py:76 | the kept records form an in-order subsequence of the original records |
| Documents.RemainingCounts | app/tasks.py:74-76 | all and only the matches are removed: a matching record occurs zero times afterwards, any other record exactly as often as before |
| Documents.RecordWithoutDescriptionIsKept | app/tasks.py:76 | in any collection, a record with no `description` field is kept, and it occurs afterwards exactly as often as before |
| Documents.RemainingShrinksIffMatch | app/tasks.py:75-79 | the collection shrinks if and only if some record's description equals the argument; it is unchanged if and only if none does |
| Documents.RemainingIdempotent | app/tasks.py:76 | deleting the same description a second time removes nothing more |
| Documents.DeletePlan | app/tasks.py:72-80 | a write is planned if and only if the `tasks` key is present and some record matches; the planned document holds exactly the non-matching records and keeps every other collection |
| Documents.AddThenDelete | app/tasks.py:53-80 | deleting the description just added always writes, and leaves exactly the prior non-matching records, none of which matches |
| Store.DeleteTask | app/tasks.py:67-80 | the file exists afterwards; when no record matches (including a missing `tasks` key or a failed read) the file is only initialized, so a present file is left exactly as it was; when the `tasks` key is present and some record matches, the file is saved with exactly the non-matching records in order and every other collection kept, so a failed open leaves the initialized file and a raising dump leaves it empty |
| Store.DeleteTaskThenList | app/tasks.py:67-80 | if the serializer reads back what a delete writes, the listing after deleting is the earlier listing without the matching records, in order |
| Scenarios.DeleteRemovesEveryMatch | app/tasks.py:76 | from `buy milk`, `buy milk`, `walk dog`, deleting `buy milk` leaves only the `walk dog` record |
| Scenarios.DeleteDoesNotTrim | app/tasks.py:76-80 | `" buy milk"` does not match a `buy milk` record, and deleting it leaves the file unchanged |
| Scenarios.SessionFromMissingFile | app/tasks.py:10-80 | from a missing file: the listing is empty, then one `pending` record with the given description, an 8-character id and the timestamp, then empty again after deleting that description |

## Left out

- Directory creation (`os.makedirs`, `app/tasks.py:12-13`) has no separate state. A missing directory is folded into `Absent`.
- An exception raised by `_ensure_file_exists` itself propagates, because it sits outside the `try`. The model assumes initialization succeeds.
- The `print` error logging at `app/tasks.py:28` and `app/tasks.py:38` is output only, and is left out.
- A write that fails after the file was opened and partly written, for example because the disk is full, is not modelled. Only a failed open and a raising `dump` are.
- `app.toons` parse/dump is not part of this model: it is the `Codec` parameter, and no format or round-trip law is assumed.
- `uuid.uuid4()` and `datetime.now()` are parameters (`token`, `createdAt`). The timestamp's format is not constrained.
- Concurrent callers and lost updates: the code has no locking, and the model is sequential.
- The web layer, `app/routes.py`, passes only non-empty form values to the store. The store itself accepts any string, so no precondition is imposed.
- Python values of the wrong shape are not modelled. This covers a parse result that is not a mapping, and a `tasks` entry that is not a list. It also covers other top-level keys whose values are not lists of records, such as scalars or nested mappings; Python carries these through unchanged. Record values that are not strings are left out too.
- The newline translation (`'\r\n'` and `'\r'` read as `'\n'`) and character decoding of the text-mode read at `app/tasks.py:24` have no separate step. They are folded into `Codec.parse`, and so into every `RoundTrips` hypothesis.
- Python dicts keep insertion order, but `Record` and `Document` are unordered maps. The field order of a new record, and the position of a `tasks` key added last, are not modelled. `dump` may depend on that order, and it is an arbitrary function of the map here.
- The file path configuration (`BASE_DIR`, `TASKS_FILE`) is left out: there is one file.
