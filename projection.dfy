/**
 * The column projection of the render: for a column key, the tasks whose `column` is that key,
 * sorted ascending by `position` with a stable sort (equal positions keep their list order,
 * no tie-break on `id`). The index of a task in a projected column is the index the board
 * hands to the drag library for that task.
 */
module Projection {
  import opened Tasks

  /** The tasks of `ts` whose column is `key`, in list order. */
  function InColumn(ts: seq<Task>, key: string): (r: seq<Task>)
    ensures |r| <= |ts|
    ensures forall i :: 0 <= i < |r| ==> r[i].column == key
  {
    if ts == [] then []
    else (if ts[0].column == key then [ts[0]] else []) + InColumn(ts[1..], key)
  }

  /** Each task occurs in column `key` as often as in the list when its column is `key`, else never. */
  lemma {:induction false} InColumnCounts(ts: seq<Task>, key: string)
    ensures forall t :: multiset(InColumn(ts, key))[t] == if t.column == key then multiset(ts)[t] else 0
  {
    if ts != [] {
      assert ts == [ts[0]] + ts[1..];
      InColumnCounts(ts[1..], key);
    }
  }

  /** The tasks of `s` whose position is `p`, in order. */
  function AtPosition(s: seq<Task>, p: int): seq<Task>
  {
    if s == [] then []
    else (if s[0].position == p then [s[0]] else []) + AtPosition(s[1..], p)
  }

  /** Non-decreasing by position. */
  predicate SortedByPosition(s: seq<Task>)
  {
    forall i, j :: 0 <= i < j < |s| ==> s[i].position <= s[j].position
  }

  /** Every task of `s` has a position strictly below `p`. */
  predicate AllBelow(s: seq<Task>, p: int)
  {
    forall i :: 0 <= i < |s| ==> s[i].position < p
  }

  /** Puts `x` in front of the first task whose position is not below its own. */
  function InsertByPosition(x: Task, s: seq<Task>): (r: seq<Task>)
    ensures multiset(r) == multiset(s) + multiset{x}
  {
    if s == [] || x.position <= s[0].position then [x] + s
    else
      assert s == [s[0]] + s[1..];
      [s[0]] + InsertByPosition(x, s[1..])
  }

  /** Every task of `s` has a position of at least `p`. */
  predicate AllAtLeast(s: seq<Task>, p: int)
  {
    forall i :: 0 <= i < |s| ==> p <= s[i].position
  }

  lemma {:induction false} InsertAtLeast(x: Task, s: seq<Task>, p: int)
    requires AllAtLeast(s, p) && p <= x.position
    ensures AllAtLeast(InsertByPosition(x, s), p)
  {
    if !(s == [] || x.position <= s[0].position) {
      InsertAtLeast(x, s[1..], p);
    }
  }

  /** Inserting into a sorted sequence keeps it sorted. */
  lemma {:induction false} InsertSorted(x: Task, s: seq<Task>)
    requires SortedByPosition(s)
    ensures SortedByPosition(InsertByPosition(x, s))
  {
    if !(s == [] || x.position <= s[0].position) {
      InsertSorted(x, s[1..]);
      InsertAtLeast(x, s[1..], s[0].position);
    }
  }

  /** Stable insertion sort by position. */
  function SortByPosition(s: seq<Task>): (r: seq<Task>)
    ensures multiset(r) == multiset(s)
    ensures SortedByPosition(r)
  {
    if s == [] then []
    else
      assert s == [s[0]] + s[1..];
      InsertSorted(s[0], SortByPosition(s[1..]));
      InsertByPosition(s[0], SortByPosition(s[1..]))
  }

  /** The ordered sequence of column `key`, as the board renders it. */
  function Project(ts: seq<Task>, key: string): (r: seq<Task>)
    ensures SortedByPosition(r)
    ensures forall t :: multiset(r)[t] == if t.column == key then multiset(ts)[t] else 0
    ensures forall t :: t in r <==> t in ts && t.column == key
  {
    InColumnCounts(ts, key);
    var r := SortByPosition(InColumn(ts, key));
    assert forall t :: t in r <==> t in multiset(r);
    r
  }

  /** The three columns of the board, in the order of BoardColumns. */
  function BoardView(ts: seq<Task>): (view: seq<seq<Task>>)
    ensures |view| == |BoardColumns|
    ensures forall i, t :: 0 <= i < |view| ==> (t in view[i] <==> t in ts && t.column == BoardColumns[i])
  {
    seq(|BoardColumns|, i requires 0 <= i < |BoardColumns| => Project(ts, BoardColumns[i]))
  }

  // ---------------------------------------------------------------- stability

  lemma {:induction false} AtPositionCons(x: Task, s: seq<Task>, p: int)
    ensures AtPosition([x] + s, p) == (if x.position == p then [x] else []) + AtPosition(s, p)
  {
    assert ([x] + s)[1..] == s;
  }

  /** Inserting `x` puts it in front of every task of `s` that has its position. */
  lemma {:induction false} InsertKeepsTies(x: Task, s: seq<Task>, p: int)
    ensures AtPosition(InsertByPosition(x, s), p) == (if x.position == p then [x] else []) + AtPosition(s, p)
  {
    if s == [] || x.position <= s[0].position {
      AtPositionCons(x, s, p);
    } else {
      InsertKeepsTies(x, s[1..], p);
      AtPositionCons(s[0], InsertByPosition(x, s[1..]), p);
      AtPositionCons(s[0], s[1..], p);
      assert [s[0]] + s[1..] == s;
    }
  }

  /** The sort is stable: the tasks of each position come out in input order. */
  lemma {:induction false} SortKeepsTies(s: seq<Task>, p: int)
    ensures AtPosition(SortByPosition(s), p) == AtPosition(s, p)
  {
    if s != [] {
      SortKeepsTies(s[1..], p);
      InsertKeepsTies(s[0], SortByPosition(s[1..]), p);
      AtPositionCons(s[0], s[1..], p);
      assert [s[0]] + s[1..] == s;
    }
  }

  /** Selecting a column and selecting a position commute. */
  lemma {:induction false} InColumnAtPositionCommute(ts: seq<Task>, key: string, p: int)
    ensures AtPosition(InColumn(ts, key), p) == InColumn(AtPosition(ts, p), key)
  {
    if ts != [] {
      InColumnAtPositionCommute(ts[1..], key, p);
      var head := if ts[0].column == key then [ts[0]] else [];
      assert InColumn(ts, key) == head + InColumn(ts[1..], key);
      AtPositionAppend(head, InColumn(ts[1..], key), p);
      var headP := if ts[0].position == p then [ts[0]] else [];
      assert AtPosition(ts, p) == headP + AtPosition(ts[1..], p);
      InColumnAppend(headP, AtPosition(ts[1..], p), key);
    }
  }

  /**
   * Tasks of column `key` with equal position `p` appear in the projection in the order
   * they have in the task list.
   */
  lemma {:induction false} ProjectIsStable(ts: seq<Task>, key: string, p: int)
    ensures AtPosition(Project(ts, key), p) == InColumn(AtPosition(ts, p), key)
  {
    SortKeepsTies(InColumn(ts, key), p);
    InColumnAtPositionCommute(ts, key, p);
  }

  // ----------------------------------------------------------- concatenation

  lemma {:induction false} AtPositionAppend(a: seq<Task>, b: seq<Task>, p: int)
    ensures AtPosition(a + b, p) == AtPosition(a, p) + AtPosition(b, p)
  {
    if a == [] {
      assert a + b == b;
    } else {
      var rest := a[1..];
      assert a == [a[0]] + rest;
      assert a + b == [a[0]] + (rest + b);
      AtPositionAppend(rest, b, p);
      AtPositionCons(a[0], rest + b, p);
      AtPositionCons(a[0], rest, p);
    }
  }

  lemma {:induction false} InColumnAppend(a: seq<Task>, b: seq<Task>, key: string)
    ensures InColumn(a + b, key) == InColumn(a, key) + InColumn(b, key)
  {
    if a == [] {
      assert a + b == b;
    } else {
      assert (a + b)[1..] == a[1..] + b;
      InColumnAppend(a[1..], b, key);
    }
  }

  lemma {:induction false} InColumnSingle(x: Task, key: string)
    ensures InColumn([x], key) == (if x.column == key then [x] else [])
  {
    assert [x][1..] == [];
  }

  lemma {:induction false} InColumnSnoc(a: seq<Task>, x: Task, key: string)
    ensures InColumn(a + [x], key) == InColumn(a, key) + InColumn([x], key)
  {
    InColumnAppend(a, [x], key);
  }

  /** A task of column `key` keeps its place among the column's tasks. */
  lemma {:induction false} InColumnAroundIn(a: seq<Task>, x: Task, b: seq<Task>, key: string)
    requires x.column == key
    ensures InColumn(a + [x] + b, key) == InColumn(a, key) + [x] + InColumn(b, key)
  {
    InColumnAppend(a + [x], b, key);
    InColumnSnoc(a, x, key);
    InColumnSingle(x, key);
  }

  /** A task of another column is left out of column `key`. */
  lemma {:induction false} InColumnAroundOut(a: seq<Task>, x: Task, b: seq<Task>, key: string)
    requires x.column != key
    ensures InColumn(a + [x] + b, key) == InColumn(a, key) + InColumn(b, key)
  {
    InColumnAppend(a + [x], b, key);
    InColumnSnoc(a, x, key);
    InColumnSingle(x, key);
    assert InColumn(a, key) + [] == InColumn(a, key);
  }

  // ------------------------------------------------------------ appending last

  /** A task above every position of a sorted column is inserted at its end. */
  lemma {:induction false} InsertAboveAll(x: Task, s: seq<Task>)
    requires AllBelow(s, x.position)
    ensures InsertByPosition(x, s) == s + [x]
  {
    if s != [] {
      InsertAboveAll(x, s[1..]);
    }
  }

  /** Inserting below a final maximum leaves the maximum last. */
  lemma {:induction false} InsertBeforeLast(y: Task, s: seq<Task>, x: Task)
    requires y.position < x.position
    ensures InsertByPosition(y, s + [x]) == InsertByPosition(y, s) + [x]
  {
    if s == [] {
      assert s + [x] == [x];
    } else {
      assert (s + [x])[0] == s[0];
      assert (s + [x])[1..] == s[1..] + [x];
      InsertBeforeLast(y, s[1..], x);
    }
  }

  /**
   * Wherever a task sits in the input, if its position is above every other task's, the
   * sort places it last and orders the rest as it would without it.
   */
  lemma {:induction false} SortMaxLast(a: seq<Task>, x: Task, b: seq<Task>)
    requires AllBelow(a + b, x.position)
    ensures SortByPosition(a + [x] + b) == SortByPosition(a + b) + [x]
  {
    if a == [] {
      assert a + [x] + b == [x] + b;
      assert ([x] + b)[1..] == b;
      assert a + b == b;
      var sb := SortByPosition(b);
      assert AllBelow(sb, x.position) by {
        forall i | 0 <= i < |sb| ensures sb[i].position < x.position {
          assert sb[i] in multiset(b);
        }
      }
      InsertAboveAll(x, sb);
    } else {
      assert (a + [x] + b)[0] == a[0];
      assert (a + [x] + b)[1..] == a[1..] + [x] + b;
      assert (a + b)[0] == a[0];
      assert (a + b)[1..] == a[1..] + b;
      assert AllBelow(a[1..] + b, x.position) by {
        forall i | 0 <= i < |a[1..] + b| ensures (a[1..] + b)[i].position < x.position {
          assert (a[1..] + b)[i] == (a + b)[i + 1];
        }
      }
      SortMaxLast(a[1..], x, b);
      InsertBeforeLast(a[0], SortByPosition(a[1..] + b), x);
    }
  }

  /**
   * Replacing a task outside column `key` by one inside it whose position is above the
   * column's positions appends the new one to the end of the column.
   */
  lemma {:induction false} ReplaceLandsLast(a: seq<Task>, t: Task, t': Task, b: seq<Task>, key: string)
    requires t.column != key && t'.column == key
    requires forall e :: e in a + b && e.column == key ==> e.position < t'.position
    ensures Project(a + [t'] + b, key) == Project(a + [t] + b, key) + [t']
  {
    InColumnAroundIn(a, t', b, key);
    InColumnAroundOut(a, t, b, key);
    ColumnsBelow(a, b, key, t'.position);
    SortMaxLast(InColumn(a, key), t', InColumn(b, key));
  }

  lemma {:induction false} ColumnsBelow(a: seq<Task>, b: seq<Task>, key: string, p: int)
    requires forall e :: e in a + b && e.column == key ==> e.position < p
    ensures AllBelow(InColumn(a, key) + InColumn(b, key), p)
  {
    var ca: seq<Task>, cb: seq<Task> := InColumn(a, key), InColumn(b, key);
    InColumnCounts(a, key);
    InColumnCounts(b, key);
    forall i | 0 <= i < |ca + cb| ensures (ca + cb)[i].position < p {
      var e := (ca + cb)[i];
      assert e in multiset(ca) || e in multiset(cb);
      assert e in a + b;
    }
  }

  // ----------------------------------------------------- writes that keep order

  /** A write that names neither column nor position leaves the column's membership alone. */
  lemma {:induction false} InColumnKeepsOrder(ts: seq<Task>, u: Update, key: string)
    requires u.column.None?
    ensures InColumn(ApplyUpdate(ts, u), key) == ApplyUpdate(InColumn(ts, key), u)
  {
    if ts != [] {
      var x, rest := ts[0], ts[1..];
      InColumnKeepsOrder(rest, u, key);
      assert ts == [x] + rest;
      assert ApplyUpdate(ts, u) == [UpdateOne(x, u)] + ApplyUpdate(rest, u);
      InColumnCons(UpdateOne(x, u), ApplyUpdate(rest, u), key);
      InColumnCons(x, rest, key);
      if x.column == key {
        ApplyUpdateAppend([x], InColumn(rest, key), u);
        ApplyUpdateSingleton(x, u);
      } else {
        assert [] + InColumn(rest, key) == InColumn(rest, key);
      }
    }
  }

  lemma {:induction false} InColumnCons(x: Task, s: seq<Task>, key: string)
    ensures InColumn([x] + s, key) == (if x.column == key then [x] else []) + InColumn(s, key)
  {
    assert ([x] + s)[1..] == s;
  }

  /** The same write commutes with inserting by position. */
  lemma {:induction false} InsertKeepsOrder(x: Task, s: seq<Task>, u: Update)
    requires u.position.None?
    ensures InsertByPosition(UpdateOne(x, u), ApplyUpdate(s, u)) == ApplyUpdate(InsertByPosition(x, s), u)
  {
    var x' := UpdateOne(x, u);
    if s == [] || x.position <= s[0].position {
      ApplyUpdateCons(x, s, u);
      var s' := ApplyUpdate(s, u);
      assert s' == [] || x'.position <= s'[0].position;
    } else {
      var y, rest := s[0], s[1..];
      assert s == [y] + rest;
      InsertKeepsOrder(x, rest, u);
      InsertCons(x, y, rest);
      ApplyUpdateCons(y, InsertByPosition(x, rest), u);
      ApplyUpdateCons(y, rest, u);
      InsertCons(x', UpdateOne(y, u), ApplyUpdate(rest, u));
    }
  }

  /** The same write commutes with the sort. */
  lemma {:induction false} SortKeepsOrder(s: seq<Task>, u: Update)
    requires u.position.None?
    ensures SortByPosition(ApplyUpdate(s, u)) == ApplyUpdate(SortByPosition(s), u)
  {
    if s != [] {
      SortKeepsOrder(s[1..], u);
      InsertKeepsOrder(s[0], SortByPosition(s[1..]), u);
    }
  }

  /**
   * A write that names neither column nor position changes no column's order: each column
   * shows the same records, in the same places, each with the write applied.
   */
  lemma {:induction false} ProjectKeepsOrder(ts: seq<Task>, u: Update, key: string)
    requires u.column.None? && u.position.None?
    ensures Project(ApplyUpdate(ts, u), key) == ApplyUpdate(Project(ts, key), u)
  {
    InColumnKeepsOrder(ts, u, key);
    SortKeepsOrder(InColumn(ts, key), u);
  }

  // ------------------------------------------------------ deletes keep order

  lemma {:induction false} InColumnDelete(ts: seq<Task>, d: Delete, key: string)
    ensures InColumn(ApplyDelete(ts, d), key) == ApplyDelete(InColumn(ts, key), d)
  {
    if ts != [] {
      var x, rest := ts[0], ts[1..];
      assert ts == [x] + rest;
      InColumnDelete(rest, d, key);
      ApplyDeleteCons(x, rest, d);
      InColumnCons(x, rest, key);
      if x.id == d.id {
        assert ApplyDelete(ts, d) == ApplyDelete(rest, d);
        if x.column == key {
          ApplyDeleteCons(x, InColumn(rest, key), d);
        } else {
          assert InColumn(ts, key) == InColumn(rest, key);
        }
      } else {
        InColumnCons(x, ApplyDelete(rest, d), key);
        if x.column == key {
          ApplyDeleteCons(x, InColumn(rest, key), d);
        } else {
          assert InColumn(ts, key) == InColumn(rest, key);
        }
      }
    }
  }

  lemma {:induction false} DeleteAtLeast(s: seq<Task>, d: Delete, p: int)
    requires AllAtLeast(s, p)
    ensures AllAtLeast(ApplyDelete(s, d), p)
  {
    var r := ApplyDelete(s, d);
    forall i | 0 <= i < |r| ensures p <= r[i].position {
      assert r[i] in multiset(r);
      assert r[i] in multiset(s);
    }
  }

  /** Deleting from a sorted sequence and then inserting is inserting and then deleting. */
  lemma {:induction false} InsertDelete(x: Task, s: seq<Task>, d: Delete)
    requires SortedByPosition(s)
    ensures ApplyDelete(InsertByPosition(x, s), d)
         == if x.id == d.id then ApplyDelete(s, d) else InsertByPosition(x, ApplyDelete(s, d))
  {
    if s == [] || x.position <= s[0].position {
      InsertDeleteFront(x, s, d);
    } else {
      var y, rest := s[0], s[1..];
      assert s == [y] + rest;
      InsertDelete(x, rest, d);
      InsertCons(x, y, rest);
      InsertDeletePast(x, y, rest, d);
    }
  }

  /** The insertion case where the task goes in front. */
  lemma {:induction false} InsertDeleteFront(x: Task, s: seq<Task>, d: Delete)
    requires SortedByPosition(s)
    requires s == [] || x.position <= s[0].position
    ensures ApplyDelete(InsertByPosition(x, s), d)
         == if x.id == d.id then ApplyDelete(s, d) else InsertByPosition(x, ApplyDelete(s, d))
  {
    InsertFront(x, s);
    ApplyDeleteCons(x, s, d);
    if x.id != d.id {
      var s' := ApplyDelete(s, d);
      assert AllAtLeast(s, x.position);
      DeleteAtLeast(s, d, x.position);
      InsertFront(x, s');
    }
  }

  /** A task no later than the head of `s` goes in front. */
  lemma {:induction false} InsertFront(x: Task, s: seq<Task>)
    requires s == [] || x.position <= s[0].position
    ensures InsertByPosition(x, s) == [x] + s
  {
  }

  /** The insertion case where the task passes the head `y`. */
  lemma {:induction false} InsertDeletePast(x: Task, y: Task, rest: seq<Task>, d: Delete)
    requires y.position < x.position
    requires ApplyDelete(InsertByPosition(x, rest), d)
          == if x.id == d.id then ApplyDelete(rest, d) else InsertByPosition(x, ApplyDelete(rest, d))
    ensures ApplyDelete([y] + InsertByPosition(x, rest), d)
         == if x.id == d.id then ApplyDelete([y] + rest, d) else InsertByPosition(x, ApplyDelete([y] + rest, d))
  {
    var ins := InsertByPosition(x, rest);
    var dr := ApplyDelete(rest, d);
    ApplyDeleteCons(y, ins, d);
    ApplyDeleteCons(y, rest, d);
    if x.id == d.id {
      PastGone(y, ins, rest, d);
    } else if y.id == d.id {
      assert ApplyDelete([y] + ins, d) == ApplyDelete(ins, d);
      assert ApplyDelete([y] + rest, d) == dr;
    } else {
      InsertCons(x, y, dr);
      assert ApplyDelete([y] + rest, d) == [y] + dr;
    }
  }

  /** Equal after a delete stays equal with the same head in front. */
  lemma {:induction false} PastGone(y: Task, a: seq<Task>, b: seq<Task>, d: Delete)
    requires ApplyDelete(a, d) == ApplyDelete(b, d)
    ensures ApplyDelete([y] + a, d) == ApplyDelete([y] + b, d)
  {
    ApplyDeleteCons(y, a, d);
    ApplyDeleteCons(y, b, d);
  }

  /** Inserting a task later than the head leaves the head in front. */
  lemma {:induction false} InsertCons(x: Task, y: Task, r: seq<Task>)
    requires y.position < x.position
    ensures InsertByPosition(x, [y] + r) == [y] + InsertByPosition(x, r)
  {
    assert ([y] + r)[0] == y && ([y] + r)[1..] == r;
  }

  /** Sorting a cons inserts its head into the sorted tail. */
  lemma {:induction false} SortCons(x: Task, r: seq<Task>)
    ensures SortByPosition([x] + r) == InsertByPosition(x, SortByPosition(r))
  {
    assert ([x] + r)[0] == x && ([x] + r)[1..] == r;
  }

  lemma {:induction false} SortDelete(s: seq<Task>, d: Delete)
    ensures ApplyDelete(SortByPosition(s), d) == SortByPosition(ApplyDelete(s, d))
  {
    if s != [] {
      var x, rest := s[0], s[1..];
      assert s == [x] + rest;
      SortDelete(rest, d);
      SortCons(x, rest);
      InsertDelete(x, SortByPosition(rest), d);
      ApplyDeleteCons(x, rest, d);
      if x.id != d.id {
        SortCons(x, ApplyDelete(rest, d));
      } else {
        assert ApplyDelete(s, d) == ApplyDelete(rest, d);
      }
    }
  }

  /**
   * A delete reorders nothing: each column shows the tasks it showed, in the same order,
   * less those with the deleted id.
   */
  lemma {:induction false} ProjectDeleteKeepsOrder(ts: seq<Task>, d: Delete, key: string)
    ensures Project(ApplyDelete(ts, d), key) == ApplyDelete(Project(ts, key), d)
  {
    InColumnDelete(ts, d, key);
    SortDelete(InColumn(ts, key), d);
  }

  /** No two tasks of the list share an id. */
  predicate UniqueIds(ts: seq<Task>)
  {
    forall i, j :: 0 <= i < j < |ts| ==> ts[i].id != ts[j].id
  }

  lemma {:induction false} UniqueIdsCountOnce(ts: seq<Task>, t: Task)
    requires UniqueIds(ts)
    ensures multiset(ts)[t] == if t in ts then 1 else 0
  {
    if ts != [] {
      assert ts == [ts[0]] + ts[1..];
      assert UniqueIds(ts[1..]) by {
        forall i, j | 0 <= i < j < |ts[1..]| ensures ts[1..][i].id != ts[1..][j].id {
          assert ts[1..][i] == ts[i + 1] && ts[1..][j] == ts[j + 1];
        }
      }
      UniqueIdsCountOnce(ts[1..], t);
      if t == ts[0] {
        assert t !in ts[1..] by {
          forall k | 0 <= k < |ts[1..]| ensures ts[1..][k] != t {
            assert ts[1..][k] == ts[k + 1];
          }
        }
      }
    }
  }

  /**
   * With ids unique, each task of column `key` is shown exactly once in its projection, and
   * no other task is shown.
   */
  lemma {:induction false} ProjectShowsOnce(ts: seq<Task>, key: string, t: Task)
    requires UniqueIds(ts)
    ensures multiset(Project(ts, key))[t] == if t in ts && t.column == key then 1 else 0
  {
    UniqueIdsCountOnce(ts, t);
  }

  // ------------------------------------------------------------------ the board

  /**
   * A task is shown in some column exactly when it is in the list and its column is one of
   * the board's keys; an unrecognised column hides it.
   */
  lemma {:induction false} ShownIffRecognised(ts: seq<Task>, t: Task)
    ensures (exists i :: 0 <= i < |BoardView(ts)| && t in BoardView(ts)[i])
            <==> t in ts && t.column in BoardColumns
  {
    var view := BoardView(ts);
    if t in ts && t.column in BoardColumns {
      var i :| 0 <= i < |BoardColumns| && BoardColumns[i] == t.column;
      assert t in view[i];
    }
  }

  /** A shown task is shown in one column only, the one its `column` names. */
  lemma {:induction false} ShownOnce(ts: seq<Task>, t: Task, i: int, j: int)
    requires 0 <= i < |BoardColumns| && 0 <= j < |BoardColumns|
    requires t in BoardView(ts)[i] && t in BoardView(ts)[j]
    ensures i == j && t.column == BoardColumns[i]
  {
    var view := BoardView(ts);
    assert t.column == BoardColumns[i] by { assert t in view[i]; }
    assert t.column == BoardColumns[j] by { assert t in view[j]; }
    ColumnsDistinct(i, j);
  }

  /** No key appears twice on the board. */
  lemma {:induction false} ColumnsDistinct(i: int, j: int)
    requires 0 <= i < |BoardColumns| && 0 <= j < |BoardColumns|
    requires BoardColumns[i] == BoardColumns[j]
    ensures i == j
  {
    // "todo" and "done" share a length but not a first letter; "inProgress" is longer
    assert |BoardColumns[0]| == |BoardColumns[2]| < |BoardColumns[1]|;
    assert BoardColumns[0][0] != BoardColumns[2][0];
  }
}
