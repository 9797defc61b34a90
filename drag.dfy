/**
 * The drag-end handler: a completed drag either produces no write, or a write of the dragged
 * task's column and position. The drop index the library reports is not used.
 */
module DragResolver {
  import opened Wrappers
  import opened Tasks
  import opened Projection

  /** A place in a column as the drag library reports it. */
  datatype Location = Location(droppableId: string, index: nat)

  /** What the drag library hands to the handler when a drag ends. */
  datatype DragResult = DragResult(draggableId: string, source: Location, destination: Option<Location>)

  /** The write a finished drag produces; `now` is the clock reading taken by the handler. */
  function ResolveDrag(drag: DragResult, now: int): (r: Option<Update>)
    ensures r.None? <==> drag.destination.None? || drag.destination.value.droppableId == drag.source.droppableId
    ensures r.Some? ==> && r.value.id == drag.draggableId
                        && r.value.column == Some(drag.destination.value.droppableId)
                        && r.value.position == Some(now)
                        && r.value.title.None?
  {
    match drag.destination
    case None => None
    case Some(dest) =>
      if dest.droppableId == drag.source.droppableId then None
      else Some(Update(drag.draggableId, None, Some(dest.droppableId), Some(now)))
  }

  /** Neither the source index nor the destination index has any effect on the write. */
  lemma {:induction false} DropIndexIgnored(id: string, source: string, dest: string, i: nat, j: nat, i': nat, j': nat, now: int)
    ensures ResolveDrag(DragResult(id, Location(source, i), Some(Location(dest, j))), now)
         == ResolveDrag(DragResult(id, Location(source, i'), Some(Location(dest, j'))), now)
  {
  }

  /** Written over the dragged task, a move changes its column and position and nothing else. */
  lemma {:induction false} MoveKeepsTitle(t: Task, drag: DragResult, now: int)
    requires t.id == drag.draggableId
    requires ResolveDrag(drag, now).Some?
    ensures Merge(t, ResolveDrag(drag, now).value)
         == Task(t.id, t.title, drag.destination.value.droppableId, now)
  {
  }

  /**
   * When the clock reading is above every position in the destination column, the moved task
   * lands at the end of that column, the rest of the column keeps its order, and the record
   * as it was before the move is shown in no column.
   */
  lemma {:induction false} MovedTaskLandsLast(a: seq<Task>, t: Task, b: seq<Task>, drag: DragResult, now: int)
    requires t.id == drag.draggableId && t.column == drag.source.droppableId
    requires forall e :: e in a + b ==> e.id != t.id
    requires ResolveDrag(drag, now).Some?
    requires forall e :: e in a + b && e.column == drag.destination.value.droppableId ==> e.position < now
    ensures var u := ResolveDrag(drag, now).value;
            var dest := drag.destination.value.droppableId;
            && Project(ApplyUpdate(a + [t] + b, u), dest) == Project(a + [t] + b, dest) + [Merge(t, u)]
            && forall key :: t !in Project(ApplyUpdate(a + [t] + b, u), key)
  {
    var u := ResolveDrag(drag, now).value;
    var dest := drag.destination.value.droppableId;
    var t' := Merge(t, u);
    assert t'.column == dest && t'.position == now;
    UpdateOnlyThat(a, t, b, u);
    ReplaceLandsLast(a, t, t', b, dest);
    assert t !in a + [t'] + b;
  }

  /**
   * The example of a drag between columns: tasks A (todo, 10) and B (todo, 20), A dragged
   * from todo to inProgress; afterwards todo shows B alone and inProgress shows A alone.
   */
  lemma {:induction false} DragExample(now: int, i: nat, j: nat)
    ensures var a, b := Task("A", "a", "todo", 10), Task("B", "b", "todo", 20);
            var drag := DragResult("A", Location("todo", i), Some(Location("inProgress", j)));
            var u := ResolveDrag(drag, now).value;
            var after := ApplyUpdate([a, b], u);
            && u == Update("A", None, Some("inProgress"), Some(now))
            && Project(after, "todo") == [b]
            && Project(after, "inProgress") == [Task("A", "a", "inProgress", now)]
  {
    var a, b := Task("A", "a", "todo", 10), Task("B", "b", "todo", 20);
    var a' := Task("A", "a", "inProgress", now);
    var drag := DragResult("A", Location("todo", i), Some(Location("inProgress", j)));
    var u := ResolveDrag(drag, now).value;
    assert u == Update("A", None, Some("inProgress"), Some(now));
    assert [] + [a] + [b] == [a, b] && [] + [a'] + [b] == [a', b];
    UpdateOnlyThat([], a, [b], u);
    assert ApplyUpdate([a, b], u) == [a', b];
    ReplaceLandsLast([], a, a', [b], "inProgress");
    InColumnAroundOut([], a, [b], "inProgress");
    InColumnSingle(b, "inProgress");
    assert Project([a, b], "inProgress") == [];
    InColumnAroundOut([], a', [b], "todo");
    InColumnSingle(b, "todo");
    assert InColumn([a', b], "todo") == [b];
    assert SortByPosition([b]) == [b] by {
      assert [b][1..] == [];
    }
  }
}
