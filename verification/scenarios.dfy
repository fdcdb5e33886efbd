/**
  Concrete runs of the task store: the deletion policy on small collections
  and a whole list / add / list / delete / list session from a missing file.
 */
module Scenarios {
  import opened Wrappers
  import opened Documents
  import opened Store

  /** Two records share the description "buy milk"; deleting it removes both. */
  lemma DeleteRemovesEveryMatch()
    ensures Remaining([NewTask("a", "buy milk", "t1"), NewTask("b", "buy milk", "t2"), NewTask("c", "walk dog", "t3")],
                      "buy milk")
      == [NewTask("c", "walk dog", "t3")]
  {
  }

  /**
    The comparison is exact: surrounding whitespace in the argument is not
    trimmed, so " buy milk" deletes nothing and the file is left untouched.
   */
  lemma DeleteDoesNotTrim(codec: Codec, text: string)
    requires codec.parse(text) == Some(Document(map[TasksKey := [NewTask("a", "buy milk", "t1")]]))
    ensures Remaining([NewTask("a", "buy milk", "t1")], " buy milk") == [NewTask("a", "buy milk", "t1")]
    ensures DeleteTask(codec, Present(text), " buy milk", Io(true, true)) == Present(text)
  {
  }

  /**
    From a missing file: the listing is empty; after adding "write spec" it
    holds exactly one `pending` record with that description and an eight
    character id; after deleting "write spec" it is empty again. The
    serializer is only required to read the initial header as an empty
    collection and to reproduce the two documents written.
   */
  lemma SessionFromMissingFile(codec: Codec, token: string, createdAt: string)
    requires |token| == 36
    requires codec.parse(InitialContent) == Some(EmptyDocument)
    requires RoundTrips(codec, Document(map[TasksKey := [CreatedTask("write spec", token, createdAt)]]))
    requires RoundTrips(codec, EmptyDocument)
    ensures GetTasks(codec, Absent, true).tasks == []
    ensures GetTasks(codec, Absent, true).file == Present(InitialContent)
    ensures var afterAdd := AddTask(codec, Present(InitialContent), "write spec", token, createdAt, Io(true, true));
            var listed := GetTasks(codec, afterAdd, true).tasks;
            && |listed| == 1
            && listed[0].Keys == TaskFields
            && listed[0]["description"] == "write spec"
            && listed[0]["status"] == "pending"
            && |listed[0]["id"]| == 8
            && listed[0]["created_at"] == createdAt
            && GetTasks(codec, DeleteTask(codec, afterAdd, "write spec", Io(true, true)), true).tasks == []
  {
    var io := Io(true, true);
    var task := CreatedTask("write spec", token, createdAt);
    var one := Document(map[TasksKey := [task]]);
    assert TasksOf(EmptyDocument) + [task] == [task];
    assert EmptyDocument.collections[TasksKey := [task]] == map[TasksKey := [task]];
    assert AppendTask(EmptyDocument, task) == one;
    var afterAdd := AddTask(codec, Present(InitialContent), "write spec", token, createdAt, io);
    assert afterAdd == Present(codec.dump(one).value);
    assert ReadDocument(codec, afterAdd, true) == one;
    assert Matches(TasksOf(one)[0], "write spec");
    assert Remaining([task], "write spec") == [] by {
      var single: seq<Record> := [task];
      assert single[1..] == [];
    }
    assert one.collections[TasksKey := []] == EmptyDocument.collections;
    assert DeletePlan(one, "write spec") == Some(EmptyDocument);
  }
}
