/**
 * The snapshot listener: every snapshot the store pushes replaces the board's task list
 * wholesale with one task per document, `{id: doc.id, ...doc.data()}`. A document's stored
 * data is a field map; the task record is that map spread over the document id, so a stored
 * field named `id` takes the document id's place. The writes the handlers send are stated
 * here on documents too, and tied to their task-level meaning in Tasks.
 */
module Sync {
  import opened Wrappers
  import opened Tasks
  import opened Projection
  import opened TaskActions

  /** A stored field value: the board stores strings and integral numbers. */
  datatype Value = Str(s: string) | Num(n: int)

  /** A document of a snapshot: the store's document id and its stored field map. */
  datatype Doc = Doc(docId: string, data: map<string, Value>)

  /** The object `{id: doc.id, ...doc.data()}`: the stored fields are spread last, so they win. */
  function Spread(d: Doc): map<string, Value>
  {
    map["id" := Str(d.docId)] + d.data
  }

  /** A field map holding a task: string id, title and column, numeric position. */
  predicate IsTaskRecord(m: map<string, Value>)
  {
    && "id" in m && m["id"].Str?
    && "title" in m && m["title"].Str?
    && "column" in m && m["column"].Str?
    && "position" in m && m["position"].Num?
  }

  /** A document whose stored data has the fields the board reads, with their types. */
  predicate WellFormed(d: Doc)
  {
    && ("id" in d.data ==> d.data["id"].Str?)
    && "title" in d.data && d.data["title"].Str?
    && "column" in d.data && d.data["column"].Str?
    && "position" in d.data && d.data["position"].Num?
  }

  /** Reads the task fields of a task record. */
  function AsTask(m: map<string, Value>): Task
    requires IsTaskRecord(m)
  {
    Task(m["id"].s, m["title"].s, m["column"].s, m["position"].n)
  }

  /**
   * The task the listener builds from one document: the stored title, column and position,
   * and the document id unless the stored data carries an `id` of its own.
   */
  function TaskOf(d: Doc): (t: Task)
    requires WellFormed(d)
    ensures t.title == d.data["title"].s && t.column == d.data["column"].s
    ensures t.position == d.data["position"].n
    ensures t.id == if "id" in d.data then d.data["id"].s else d.docId
  {
    AsTask(Spread(d))
  }

  /** The task list the listener builds from a snapshot, one task per document, in snapshot order. */
  function TasksOf(docs: seq<Doc>): (r: seq<Task>)
    requires forall i :: 0 <= i < |docs| ==> WellFormed(docs[i])
    ensures |r| == |docs|
    ensures forall i :: 0 <= i < |docs| ==> r[i] == TaskOf(docs[i])
  {
    if docs == [] then [] else [TaskOf(docs[0])] + TasksOf(docs[1..])
  }

  /** Every document is well formed and none stores an `id` field. */
  predicate NoStoredIds(docs: seq<Doc>)
  {
    forall i :: 0 <= i < |docs| ==> WellFormed(docs[i]) && "id" !in docs[i].data
  }

  /** Where no document stores an `id` field, the tasks carry exactly the document ids, in order. */
  lemma {:induction false} TaskIdsAreDocIds(docs: seq<Doc>)
    requires NoStoredIds(docs)
    ensures forall i :: 0 <= i < |docs| ==> TasksOf(docs)[i].id == docs[i].docId
  {
  }

  // ------------------------------------------------------------------ writes

  /** The field map the create handler stores (the store adds no `id` field). */
  function CreatedFields(n: NewTask): map<string, Value>
  {
    map["title" := Str(n.title), "column" := Str(n.column), "position" := Num(n.position)]
  }

  /** A record written by the create handler comes back, under its document id, as the task created. */
  lemma {:induction false} CreatedRecordReadBack(n: NewTask, docId: string)
    ensures WellFormed(Doc(docId, CreatedFields(n)))
    ensures TaskOf(Doc(docId, CreatedFields(n))) == Stored(n, docId)
  {
    var d := Doc(docId, CreatedFields(n));
    assert "id" !in d.data;
  }

  /** The field map of an update: exactly the fields it names. */
  function UpdateFields(u: Update): map<string, Value>
  {
    var m1: map<string, Value> := if u.title.Some? then map["title" := Str(u.title.value)] else map[];
    var m2: map<string, Value> := if u.column.Some? then m1["column" := Str(u.column.value)] else m1;
    if u.position.Some? then m2["position" := Num(u.position.value)] else m2
  }

  /** A document after `u` has been written to it: the named fields overwrite the stored ones. */
  function WriteDoc(d: Doc, u: Update): Doc
  {
    if d.docId == u.id then Doc(d.docId, d.data + UpdateFields(u)) else d
  }

  /** The snapshot's documents after `u` has been written to the document `u.id`. */
  function WriteDocs(docs: seq<Doc>, u: Update): seq<Doc>
  {
    if docs == [] then [] else [WriteDoc(docs[0], u)] + WriteDocs(docs[1..], u)
  }

  /** The snapshot's documents after the document `d.id` has been deleted. */
  function DeleteDocs(docs: seq<Doc>, d: Delete): seq<Doc>
  {
    if docs == [] then []
    else (if docs[0].docId == d.id then [] else [docs[0]]) + DeleteDocs(docs[1..], d)
  }

  /** Writing an update into the stored fields merges it into the task read back. */
  lemma {:induction false} WriteIsMerge(d: Doc, u: Update)
    requires WellFormed(d)
    ensures WellFormed(Doc(d.docId, d.data + UpdateFields(u)))
    ensures TaskOf(Doc(d.docId, d.data + UpdateFields(u))) == Merge(TaskOf(d), u)
  {
    var f := UpdateFields(u);
    assert "id" !in f;
    assert "title" in f <==> u.title.Some?;
    assert "column" in f <==> u.column.Some?;
    assert "position" in f <==> u.position.Some?;
    assert u.title.Some? ==> f["title"] == Str(u.title.value);
    assert u.column.Some? ==> f["column"] == Str(u.column.value);
  }

  /**
   * Where no document stores an `id` field, the snapshot after a write to a document holds the
   * task list ApplyUpdate gives.
   */
  lemma {:induction false} SnapshotAfterUpdate(docs: seq<Doc>, u: Update)
    requires NoStoredIds(docs)
    ensures NoStoredIds(WriteDocs(docs, u))
    ensures TasksOf(WriteDocs(docs, u)) == ApplyUpdate(TasksOf(docs), u)
  {
    if docs != [] {
      var d := docs[0];
      NoStoredIdsTail(docs);
      SnapshotAfterUpdate(docs[1..], u);
      WriteIsMerge(d, u);
      assert "id" !in UpdateFields(u);
      var w := WriteDocs(docs, u);
      assert w == [WriteDoc(d, u)] + WriteDocs(docs[1..], u);
      assert NoStoredIds(w) by {
        forall i | 0 <= i < |w| ensures WellFormed(w[i]) && "id" !in w[i].data {
          if i > 0 { assert w[i] == WriteDocs(docs[1..], u)[i - 1]; }
        }
      }
      assert TasksOf(w) == [TaskOf(WriteDoc(d, u))] + TasksOf(WriteDocs(docs[1..], u));
      assert TasksOf(docs) == [TaskOf(d)] + TasksOf(docs[1..]);
      assert TaskOf(WriteDoc(d, u)) == UpdateOne(TaskOf(d), u);
    }
  }

  /**
   * Where no document stores an `id` field, the snapshot after a delete of a document holds the
   * task list ApplyDelete gives.
   */
  lemma {:induction false} SnapshotAfterDelete(docs: seq<Doc>, d: Delete)
    requires NoStoredIds(docs)
    ensures NoStoredIds(DeleteDocs(docs, d))
    ensures TasksOf(DeleteDocs(docs, d)) == ApplyDelete(TasksOf(docs), d)
  {
    if docs != [] {
      var x, tail := docs[0], docs[1..];
      assert docs == [x] + tail;
      NoStoredIdsTail(docs);
      SnapshotAfterDelete(tail, d);
      if x.docId == d.id {
        DeleteDropsHead(x, tail, d);
      } else {
        DeleteKeepsHead(x, tail, d);
      }
    }
  }

  /** The delete step where the first document is the one deleted. */
  lemma {:induction false} DeleteDropsHead(x: Doc, tail: seq<Doc>, d: Delete)
    requires WellFormed(x) && "id" !in x.data && x.docId == d.id
    requires NoStoredIds(tail) && NoStoredIds(DeleteDocs(tail, d))
    requires TasksOf(DeleteDocs(tail, d)) == ApplyDelete(TasksOf(tail), d)
    ensures DeleteDocs([x] + tail, d) == DeleteDocs(tail, d)
    ensures TasksOf(DeleteDocs([x] + tail, d)) == ApplyDelete(TasksOf([x] + tail), d)
  {
    assert ([x] + tail)[0] == x && ([x] + tail)[1..] == tail;
    TasksOfCons(x, tail);
    ApplyDeleteCons(TaskOf(x), TasksOf(tail), d);
  }

  /** The delete step where the first document stays. */
  lemma {:induction false} DeleteKeepsHead(x: Doc, tail: seq<Doc>, d: Delete)
    requires WellFormed(x) && "id" !in x.data && x.docId != d.id
    requires NoStoredIds(tail) && NoStoredIds(DeleteDocs(tail, d))
    requires TasksOf(DeleteDocs(tail, d)) == ApplyDelete(TasksOf(tail), d)
    ensures DeleteDocs([x] + tail, d) == [x] + DeleteDocs(tail, d)
    ensures NoStoredIds([x] + DeleteDocs(tail, d))
    ensures TasksOf([x] + DeleteDocs(tail, d)) == ApplyDelete(TasksOf([x] + tail), d)
  {
    assert ([x] + tail)[0] == x && ([x] + tail)[1..] == tail;
    var rest := DeleteDocs(tail, d);
    NoStoredIdsAppend([x], rest);
    TasksOfCons(x, rest);
    TasksOfCons(x, tail);
    ApplyDeleteCons(TaskOf(x), TasksOf(tail), d);
  }

  /** Reading a snapshot with one more document in front. */
  lemma {:induction false} TasksOfCons(x: Doc, s: seq<Doc>)
    requires WellFormed(x)
    requires forall i :: 0 <= i < |s| ==> WellFormed(s[i])
    ensures forall i :: 0 <= i < |[x] + s| ==> WellFormed(([x] + s)[i])
    ensures TasksOf([x] + s) == [TaskOf(x)] + TasksOf(s)
  {
    assert ([x] + s)[1..] == s;
    assert forall i :: 0 < i < |[x] + s| ==> ([x] + s)[i] == s[i - 1];
  }

  lemma {:induction false} NoStoredIdsTail(docs: seq<Doc>)
    requires NoStoredIds(docs) && docs != []
    ensures NoStoredIds(docs[1..])
  {
    forall i | 0 <= i < |docs[1..]| ensures WellFormed(docs[1..][i]) && "id" !in docs[1..][i].data {
      assert docs[1..][i] == docs[i + 1];
    }
  }

  lemma {:induction false} NoStoredIdsAppend(a: seq<Doc>, b: seq<Doc>)
    requires NoStoredIds(a) && NoStoredIds(b)
    ensures NoStoredIds(a + b)
  {
    forall i | 0 <= i < |a + b| ensures WellFormed((a + b)[i]) && "id" !in (a + b)[i].data {
      if i >= |a| { assert (a + b)[i] == b[i - |a|]; }
    }
  }

  /**
   * A document that stores its own `id` field: a delete sent for the task's id names a document
   * the store does not have, so the snapshot keeps the task, while ApplyDelete drops it.
   */
  lemma {:induction false} StoredIdDefeatsDelete()
    ensures var docs := [Doc("x", map["id" := Str("y"), "title" := Str("t"), "column" := Str("todo"), "position" := Num(1)])];
            && WellFormed(docs[0])
            && TasksOf(docs)[0].id == "y"
            && DeleteDocs(docs, RemoveTask("y", true).value) == docs
            && ApplyDelete(TasksOf(docs), RemoveTask("y", true).value) == []
  {
    var docs := [Doc("x", map["id" := Str("y"), "title" := Str("t"), "column" := Str("todo"), "position" := Num(1)])];
    assert docs[1..] == [];
    var ts := TasksOf(docs);
    assert ts == [TaskOf(docs[0])];
    assert ts[1..] == [];
  }

  // ------------------------------------------------------------------ the board

  /** The board's local task list, overwritten by each snapshot. */
  class Board {
    var tasks: seq<Task>

    /** The board starts with no tasks, before the first snapshot arrives. */
    constructor ()
      ensures tasks == []
    {
      tasks := [];
    }

    /** Replaces the task list by the snapshot's, whatever the list held before. */
    method ApplySnapshot(docs: seq<Doc>)
      requires forall i :: 0 <= i < |docs| ==> WellFormed(docs[i])
      modifies this
      ensures tasks == TasksOf(docs)
    {
      tasks := TasksOf(docs);
    }

    /**
     * The three columns the board renders from its current task list: each exactly the tasks
     * of its key, as often as they occur in the list, sorted by position.
     */
    function Columns(): (view: seq<seq<Task>>)
      reads this
      ensures |view| == |BoardColumns|
      ensures forall i :: 0 <= i < |view| ==> SortedByPosition(view[i])
      ensures forall i, t :: 0 <= i < |view| ==> (t in view[i] <==> t in tasks && t.column == BoardColumns[i])
      ensures forall i, t :: 0 <= i < |view| ==>
                multiset(view[i])[t] == if t.column == BoardColumns[i] then multiset(tasks)[t] else 0
    {
      BoardView(tasks)
    }
  }
}
