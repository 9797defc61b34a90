# Task board core

A model of the decision logic of a real-time task board whose one component, `App.jsx`,
renders three columns of tasks kept in a remote document store and lets the user create,
rename, delete and drag tasks between columns. The model pulls that logic out of the React
callbacks and the store calls and states it in Dafny:

- **Column projection** (`Projection`): the flat task list becomes one sequence per column key
  of `["todo", "inProgress", "done"]`: the tasks whose `column` is the key, sorted ascending by
  `position` with a stable insertion sort. There is no tie-break on `id`, so tasks with equal
  positions keep their order from the snapshot, as JavaScript's stable `Array.prototype.sort`
  does. A task's index in this sequence is the index handed to the drag library.
- **Drag resolver** (`DragResolver`): a finished drag gives no write when it has no destination
  or stays in its column. Otherwise it gives one write of `column := destination` and
  `position := now` to the dragged id. The drop index is ignored.
- **Create / rename / delete guards** (`TaskActions`): the dialog's answer and the clock are
  parameters. Create abandons a cancelled or empty name. Rename writes only a non-empty,
  changed title. Delete is sent only when confirmed.
- **Snapshot application** (`Sync`): a `Board` object whose `tasks` field each snapshot
  replaces wholesale. A document is its document id and its stored field map, and the task
  built from it is the map `{id: doc.id, ...doc.data()}`: the stored fields are spread last,
  so a stored field named `id` takes the document id's place.
- **Meaning of a write** (`Tasks.ApplyUpdate`, `Tasks.ApplyDelete`): the task list the next
  snapshot is expected to hold once the store has applied a write and nobody else has written.
  `Sync` states the writes on documents too (`WriteDocs`, `DeleteDocs`, keyed by document id)
  and proves that, where no document stores an `id` field, the snapshot read back is the task
  list these functions give. These give each handler a partner to be proved against: a move
  lands the task at the end of its new column, a rename or a delete reorders nothing, and a
  delete of a missing id changes nothing.

Two behaviours of the code are modelled as written:
- Tasks with equal positions are not ordered by `id`. The comparator looks at `position`
  only, so such tasks keep their order from the snapshot.
- A moved task's new position is the clock reading `now`. Nothing makes it larger than the
  positions already in the destination column. The lemmas that place a moved or created task
  last take that as a hypothesis.

`Date.now()` is the parameter `now: int`. `prompt` is a parameter `Option<string>` (None for a
cancelled dialog). `window.confirm` is a parameter `bool`.

## Model

| member | source | states |
|---|---|---|
| `Tasks.Merge` | App.jsx:48-50 | a write keeps the record's id, and a write that names no field leaves the record as it was |
| `Tasks.ApplyUpdate` | App.jsx:67-70 | a write to an id merges its named fields into every record with that id, keeps all other records, and keeps the length |
| `Tasks.ApplyDelete` | App.jsx:58 | a delete drops every record with that id and keeps every other record with its multiplicity |
| `Projection.InColumn` | App.jsx:106 | the filter returns no more tasks than it is given, all of them of column `key` |
| `Projection.InColumnCounts` | App.jsx:105-106 | the filter keeps each task of column `key` as often as it occurs in the list, and drops every other task |
| `Projection.InsertByPosition` | App.jsx:107 | one insertion step of the sort adds exactly the inserted task (multiset) |
| `Projection.InsertSorted` | App.jsx:107 | an insertion step keeps a sequence sorted by position |
| `Projection.SortByPosition` | App.jsx:107 | the sort returns a permutation of its input, non-decreasing by position |
| `Projection.SortKeepsTies` | App.jsx:107 | the sort is stable: the tasks of any one position come out in input order |
| `Projection.Project` | App.jsx:105-108 | a column shows exactly the tasks whose column is its key (same multiplicity, membership both ways), sorted by position |
| `Projection.ProjectIsStable` | App.jsx:105-107 | tasks of one column with equal position appear in the order they have in the task list |
| `Projection.ProjectShowsOnce` | App.jsx:105-106 | with unique ids, each task of the column is shown exactly once and nothing else is shown |
| `Projection.BoardView` | App.jsx:88-108 | the board has one column per key of `boardColumns`, and a task is in a column if and only if it is in the list and its `column` is that column's key |
| `Projection.ColumnsDistinct` | App.jsx:13 | no key occurs twice in `boardColumns` |
| `Projection.ShownIffRecognised` | App.jsx:88-108 | a task is shown in some column if and only if it is in the list and its column is one of the three keys |
| `Projection.ShownOnce` | App.jsx:88-106 | a task shown in two columns is shown in one only, the one its `column` names |
| `Projection.SortMaxLast` | App.jsx:107 | a task whose position is above all others is sorted last, wherever it sits in the input, and the rest keep their sorted order |
| `Projection.ReplaceLandsLast` | App.jsx:105-107 | replacing a task from another column by one of this column with the highest position appends it to this column's end |
| `Projection.ProjectKeepsOrder` | App.jsx:105-108 | a write that names neither column nor position changes no column's order: each column shows the same records in the same places, with the write applied |
| `Projection.ProjectDeleteKeepsOrder` | App.jsx:105-107 | a delete changes no column's order: each column shows its old sequence with the deleted records taken out |
| `DragResolver.ResolveDrag` | App.jsx:63-71 | no write if and only if the destination is missing or equals the source column; otherwise one write to the dragged id of column := destination and position := now, with no title |
| `DragResolver.DropIndexIgnored` | App.jsx:64-70 | the source and destination indices have no effect on the write |
| `DragResolver.MoveKeepsTitle` | App.jsx:67-70 | applied to the dragged task, the write changes its column and position and keeps its id and title |
| `DragResolver.MovedTaskLandsLast` | App.jsx:63-71 | with unique ids and `now` above the destination's positions, the moved task becomes the last task of the destination, and its old record is shown in no column |
| `DragResolver.DragExample` | App.jsx:63-71 | A (todo, 10) and B (todo, 20), A dragged to inProgress: todo shows [B] and inProgress shows [A moved] |
| `TaskActions.CreateTask` | App.jsx:33-42 | nothing is created if and only if the name is cancelled or empty; otherwise the record has the name as title, column "todo" and position now |
| `TaskActions.CreatedTaskShownInTodo` | App.jsx:37-41 | once stored and reported in a snapshot, wherever the snapshot lists it, a created task is shown in the todo column and in no column of any other key |
| `TaskActions.CreatedTaskLandsLast` | App.jsx:37-41 | with `now` above every todo position, the created task is the last of todo wherever the snapshot lists it, and the rest of todo is unchanged |
| `TaskActions.CreateExample` | App.jsx:33-41 | on an empty board, a created "Write spec" is the only todo task and done is empty |
| `TaskActions.RenameTask` | App.jsx:45-52 | a write if and only if the answer is present, non-empty and differs from the current title; it targets the task's id and names the title only |
| `TaskActions.RenameChangesTitleOnly` | App.jsx:48-50 | applied to the task, a rename changes its title and nothing else |
| `TaskActions.RenameKeepsOrder` | App.jsx:48-50 | after a rename every column shows the same records in the same places, renamed |
| `TaskActions.RemoveTask` | App.jsx:55-60 | a delete if and only if confirmed, of exactly the given id |
| `TaskActions.DeletedTaskShownNowhere` | App.jsx:57-58 | after a confirmed delete no column shows a task with that id |
| `TaskActions.DeleteKeepsOrder` | App.jsx:55-60 | after a confirmed delete every column shows its old sequence with the deleted task taken out, in the same order |
| `TaskActions.DeleteOfAbsentTaskChangesNothing` | App.jsx:58 | the delete of an id no task carries leaves every column as it was |
| `Sync.TaskOf` | App.jsx:22-25 | the task read from the spread `{id: doc.id, ...doc.data()}` has the stored title, column and position, and its id is the stored `id` field when there is one and the document id otherwise |
| `Sync.TasksOf` | App.jsx:22-25 | a snapshot becomes one task per document, in snapshot order |
| `Sync.TaskIdsAreDocIds` | App.jsx:22-25 | where no document stores an `id` field, the tasks carry exactly the document ids |
| `Sync.CreatedRecordReadBack` | App.jsx:37-41 | a record written by create reads back under its document id as the task created |
| `Sync.WriteIsMerge` | App.jsx:48-50 | writing an update's fields over a document's stored fields reads back as the update merged into the document's task |
| `Sync.SnapshotAfterUpdate` | App.jsx:48-50 | where no document stores an `id` field, the snapshot after a document write holds what ApplyUpdate gives on the old snapshot's tasks |
| `Sync.SnapshotAfterDelete` | App.jsx:58 | where no document stores an `id` field, the snapshot after a document delete holds what ApplyDelete gives on the old snapshot's tasks |
| `Sync.StoredIdDefeatsDelete` | App.jsx:22-25 | a document "x" storing `id: "y"` shows as task "y"; deleting "y" removes no document, yet ApplyDelete drops the task |
| `Sync.Board.constructor` | App.jsx:16 | the board starts with an empty task list |
| `Sync.Board.ApplySnapshot` | App.jsx:21-27 | after a snapshot the task list is exactly the mapped snapshot, whatever it was before, so applying the same snapshot again changes nothing |
| `Sync.Board.Columns` | App.jsx:88-108 | the rendered board has three columns, each sorted by position; a task is in a column if and only if it is in the list with that column's key, and as many times as it is in the list |

## Left out

- The store calls `collection`, `addDoc`, `updateDoc`, `deleteDoc`, `doc` and `onSnapshot`: foreign library calls over the network. The handlers return the write they intend, and `ApplyUpdate`/`ApplyDelete` state the effect that write should have. The store itself is not modelled.
- The id the store mints on create: the create record has no id, and `Stored` takes the minted id as a parameter.
- The `useEffect` subscribe and unsubscribe lifecycle: React and listener plumbing.
- `async`/`await` ordering between writes in flight and snapshots: concurrency is outside this model.
- `prompt` and `window.confirm`: blocking dialogs, replaced by parameters.
- `Date.now()`: replaced by the parameter `now`. Nothing is assumed about it increasing.
- The JSX rendering, styling, the drag-and-drop components and the column display labels: presentation.
- Documents that are not `WellFormed`: a document missing `title`, `column` or `position`, or holding a value of another type there, is outside the model. `position` is an integer.
- `Tasks.ApplyUpdate`, `Tasks.ApplyDelete`: these key writes by task id, but the store keys them by document id. The two agree only where no document stores an `id` field. `Sync.SnapshotAfterUpdate` and `Sync.SnapshotAfterDelete` prove the agreement under that hypothesis, and `Sync.StoredIdDefeatsDelete` shows a document on which it fails.
- `Projection.Project`: the comparator `a.position - b.position` is floating-point subtraction in JavaScript. It is modelled as integer comparison, which agrees for the integer millisecond values the app writes but not for positions beyond 2^53 or for non-numeric ones.
- `DragResolver.MovedTaskLandsLast`: assumes `now` is above every position in the destination column, because the code does not guarantee it.
