/**
 * The task record of the board and the two kinds of write the board sends to the store
 * for an existing task: a partial field update of one document and a delete of one document.
 * ApplyUpdate and ApplyDelete give the meaning of such a write on a task list: the list a
 * snapshot is expected to report once the store has applied it and nobody else has written.
 */
module Tasks {
  import opened Wrappers

  /** A task as the board holds it: the store's document id plus the stored fields. */
  datatype Task = Task(id: string, title: string, column: string, position: int)

  /** The column keys, in the order the board renders them. */
  const BoardColumns: seq<string> := ["todo", "inProgress", "done"]

  /** A partial field set written to the document `id`; a field that is None is not named. */
  datatype Update = Update(id: string, title: Option<string>, column: Option<string>, position: Option<int>)

  /** A delete of the document `id`. */
  datatype Delete = Delete(id: string)

  /** The record after the fields named by `u` have been written over those of `t`. */
  function Merge(t: Task, u: Update): (r: Task)
    ensures r.id == t.id
    ensures u.title.None? && u.column.None? && u.position.None? ==> r == t
  {
    Task(t.id,
         if u.title.Some? then u.title.value else t.title,
         if u.column.Some? then u.column.value else t.column,
         if u.position.Some? then u.position.value else t.position)
  }

  /** One record once `u` has been written: merged when it is the target, kept otherwise. */
  function UpdateOne(t: Task, u: Update): Task
  {
    if t.id == u.id then Merge(t, u) else t
  }

  /** The task list once `u` has been written: every record with id `u.id` merged, the rest kept. */
  function ApplyUpdate(ts: seq<Task>, u: Update): (r: seq<Task>)
    ensures |r| == |ts|
    ensures forall i :: 0 <= i < |ts| ==> r[i] == if ts[i].id == u.id then Merge(ts[i], u) else ts[i]
  {
    if ts == [] then []
    else [UpdateOne(ts[0], u)] + ApplyUpdate(ts[1..], u)
  }

  /** The task list once `d` has been applied: every record with id `d.id` gone, the rest kept in order (see ProjectDeleteKeepsOrder for the order). */
  function ApplyDelete(ts: seq<Task>, d: Delete): (r: seq<Task>)
    ensures forall t :: multiset(r)[t] == if t.id == d.id then 0 else multiset(ts)[t]
  {
    if ts == [] then []
    else
      assert ts == [ts[0]] + ts[1..];
      (if ts[0].id == d.id then [] else [ts[0]]) + ApplyDelete(ts[1..], d)
  }

  /** A write to an id that no record carries leaves the list as it was. */
  lemma {:induction false} ApplyUpdateAbsent(ts: seq<Task>, u: Update)
    requires forall t :: t in ts ==> t.id != u.id
    ensures ApplyUpdate(ts, u) == ts
  {
    if ts != [] {
      ApplyUpdateAbsent(ts[1..], u);
    }
  }

  /** A delete of an id that no record carries leaves the list as it was. */
  lemma {:induction false} ApplyDeleteAbsent(ts: seq<Task>, d: Delete)
    requires forall t :: t in ts ==> t.id != d.id
    ensures ApplyDelete(ts, d) == ts
  {
    if ts != [] {
      ApplyDeleteAbsent(ts[1..], d);
    }
  }

  /** Updating a concatenation updates each part. */
  lemma {:induction false} ApplyUpdateAppend(a: seq<Task>, b: seq<Task>, u: Update)
    ensures ApplyUpdate(a + b, u) == ApplyUpdate(a, u) + ApplyUpdate(b, u)
  {
    if a != [] {
      assert (a + b)[1..] == a[1..] + b;
      ApplyUpdateAppend(a[1..], b, u);
    } else {
      assert a + b == b;
    }
  }

  /** A write to the id of `t` alone, where no other record carries that id. */
  lemma {:induction false} UpdateOnlyThat(a: seq<Task>, t: Task, b: seq<Task>, u: Update)
    requires t.id == u.id
    requires forall e :: e in a ==> e.id != u.id
    requires forall e :: e in b ==> e.id != u.id
    ensures ApplyUpdate(a + [t] + b, u) == a + [Merge(t, u)] + b
  {
    ApplyUpdateAppend(a + [t], b, u);
    UpdateOnlyLast(a, t, u);
    ApplyUpdateAbsent(b, u);
  }

  lemma {:induction false} UpdateOnlyLast(a: seq<Task>, t: Task, u: Update)
    requires t.id == u.id
    requires forall e :: e in a ==> e.id != u.id
    ensures ApplyUpdate(a + [t], u) == a + [Merge(t, u)]
  {
    ApplyUpdateAppend(a, [t], u);
    ApplyUpdateAbsent(a, u);
    ApplyUpdateSingleton(t, u);
  }

  lemma {:induction false} ApplyUpdateSingleton(t: Task, u: Update)
    ensures ApplyUpdate([t], u) == [UpdateOne(t, u)]
  {
    assert [t][1..] == [];
  }

  /** A write applied to a list with one more record in front. */
  lemma {:induction false} ApplyUpdateCons(t: Task, s: seq<Task>, u: Update)
    ensures ApplyUpdate([t] + s, u) == [UpdateOne(t, u)] + ApplyUpdate(s, u)
  {
    assert ([t] + s)[1..] == s;
  }

  /** A delete applied to a list with one more record in front. */
  lemma {:induction false} ApplyDeleteCons(t: Task, s: seq<Task>, d: Delete)
    ensures ApplyDelete([t] + s, d) == (if t.id == d.id then [] else [t]) + ApplyDelete(s, d)
  {
    assert ([t] + s)[1..] == s;
  }
}
