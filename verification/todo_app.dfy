/** The goal and task lists of the planner (`TodoApp` in script.js).

    Goals and tasks are kept in four lists: active goals, completed goals,
    active tasks and completed tasks. Completing or reactivating moves an item
    between the two lists of its kind; deleting filters it out of both. The
    last deleted task is remembered for "Undo". Persistence calls are left out:
    the model follows the path on which every save succeeds. Clock readings are
    parameters (`now` is an ISO-8601 timestamp). */
module TodoLists {
  import opened Common
  import opened Sorting

  datatype GoalItem = GoalItem(
    id: string,
    text: string,
    level: string,
    parentId: Option<string>,
    completed: bool,
    created: string,
    completedAt: Option<string>)

  datatype TodoItem = TodoItem(
    id: string,
    text: string,
    goalId: Option<string>,
    completed: bool,
    created: string,
    priority: string,
    isDaily: bool,
    lastCompleted: Option<string>,
    completedAt: Option<string>)

  /** What "Undo" can restore: a goal (an object with a `level` field) or a task. */
  datatype Item = GoalEntry(goal: GoalItem) | TodoEntry(todo: TodoItem)

  /** The planner's list state. */
  datatype Lists = Lists(
    activeGoals: seq<GoalItem>,
    completedGoals: seq<GoalItem>,
    activeTodos: seq<TodoItem>,
    completedTodos: seq<TodoItem>,
    deletedItem: Option<Item>)

  function GoalId(g: GoalItem): string { g.id }
  function TodoId(t: TodoItem): string { t.id }

  /** The calendar date of an ISO-8601 timestamp (`now.split('T')[0]`). */
  function DatePart(now: string): string {
    SplitOn(now, 'T')[0]
  }

  // ---------------------------------------------------------------------------
  // The list transitions
  // ---------------------------------------------------------------------------

  /** `completeGoal`: the first active goal with the id is marked completed and
      appended to the completed goals; every active goal with the id is removed. */
  function AfterCompleteGoal(st: Lists, id: string, now: string): Lists {
    match FirstWith(st.activeGoals, GoalId, id)
    case None => st
    case Some(g) =>
      st.(activeGoals := Keep(st.activeGoals, GoalId, {id}),
          completedGoals := st.completedGoals + [g.(completed := true, completedAt := Some(now))])
  }

  /** `reactivateGoal`: the reverse move, clearing the completion time. */
  function AfterReactivateGoal(st: Lists, id: string): Lists {
    match FirstWith(st.completedGoals, GoalId, id)
    case None => st
    case Some(g) =>
      st.(completedGoals := Keep(st.completedGoals, GoalId, {id}),
          activeGoals := st.activeGoals + [g.(completed := false, completedAt := None)])
  }

  /** A task as `completeTodo` stores it: a daily task also records the day. */
  function CompletedTodo(t: TodoItem, now: string): TodoItem {
    t.(completed := true, completedAt := Some(now),
       lastCompleted := if t.isDaily then Some(DatePart(now)) else t.lastCompleted)
  }

  /** `completeTodo`. */
  function AfterCompleteTodo(st: Lists, id: string, now: string): Lists {
    match FirstWith(st.activeTodos, TodoId, id)
    case None => st
    case Some(t) =>
      st.(activeTodos := Keep(st.activeTodos, TodoId, {id}),
          completedTodos := st.completedTodos + [CompletedTodo(t, now)])
  }

  /** `reactivateTodo`; `lastCompleted` is kept. */
  function AfterReactivateTodo(st: Lists, id: string): Lists {
    match FirstWith(st.completedTodos, TodoId, id)
    case None => st
    case Some(t) =>
      st.(completedTodos := Keep(st.completedTodos, TodoId, {id}),
          activeTodos := st.activeTodos + [t.(completed := false, completedAt := None)])
  }

  /** `deleteGoal`: the id is filtered out of both goal lists. */
  function AfterDeleteGoal(st: Lists, id: string): Lists {
    st.(activeGoals := Keep(st.activeGoals, GoalId, {id}),
        completedGoals := Keep(st.completedGoals, GoalId, {id}))
  }

  /** `deleteTodo`: remembers the first task with the id (active tasks first),
      or nothing when there is none, and filters the id out of both task lists. */
  function AfterDeleteTodo(st: Lists, id: string): Lists {
    var found := FirstWith(st.activeTodos + st.completedTodos, TodoId, id);
    st.(deletedItem := if found.Some? then Some(TodoEntry(found.value)) else None,
        activeTodos := Keep(st.activeTodos, TodoId, {id}),
        completedTodos := Keep(st.completedTodos, TodoId, {id}))
  }

  /** `handleNotificationAction` ("Undo"): a remembered item goes back to the
      end of the active list of its kind and is forgotten. */
  function AfterUndo(st: Lists): Lists {
    match st.deletedItem
    case None => st
    case Some(GoalEntry(g)) => st.(activeGoals := st.activeGoals + [g], deletedItem := None)
    case Some(TodoEntry(t)) => st.(activeTodos := st.activeTodos + [t], deletedItem := None)
  }

  // ---------------------------------------------------------------------------
  // Properties of the transitions
  // ---------------------------------------------------------------------------

  /** Every goal id and every task id occurs once across the two lists of its kind. */
  predicate UniqueIds(st: Lists) {
    UniqueKeys(st.activeGoals + st.completedGoals, GoalId) &&
    UniqueKeys(st.activeTodos + st.completedTodos, TodoId)
  }

  function GoalIds(st: Lists): set<string> {
    KeySet(st.activeGoals, GoalId) + KeySet(st.completedGoals, GoalId)
  }

  function TodoIds(st: Lists): set<string> {
    KeySet(st.activeTodos, TodoId) + KeySet(st.completedTodos, TodoId)
  }

  /** Moving an item from one list to the other keeps ids unique. */
  lemma MoveKeepsUnique<T(!new)>(from: seq<T>, to: seq<T>, key: T -> string, x: T, y: T)
    requires UniqueKeys(from + to, key)
    requires x in from && key(y) == key(x)
    ensures UniqueKeys(Keep(from, key, {key(x)}) + (to + [y]), key)
    ensures UniqueKeys((to + [y]) + Keep(from, key, {key(x)}), key)
    ensures KeySet(Keep(from, key, {key(x)}), key) + KeySet(to + [y], key) == KeySet(from, key) + KeySet(to, key)
    ensures key(x) !in KeySet(Keep(from, key, {key(x)}), key)
  {
    UniqueKeysAppend(from, to, key);
    KeepUnique(from, key, {key(x)});
    UniqueKeysAppend(to, [y], key);
    var kept := Keep(from, key, {key(x)});
    assert KeySet(to + [y], key) == KeySet(to, key) + {key(y)};
    assert key(x) in KeySet(from, key);
    UniqueKeysAppend(kept, to + [y], key);
    UniqueKeysAppend(to + [y], kept, key);
  }

  /** Completing a goal moves it: ids stay unique, the set of goal ids is the
      same, and the goal's id is now only among the completed goals. */
  lemma CompleteGoalMoves(st: Lists, id: string, now: string)
    requires UniqueIds(st)
    ensures var r := AfterCompleteGoal(st, id, now);
      UniqueIds(r) && GoalIds(r) == GoalIds(st) &&
      (id in KeySet(st.activeGoals, GoalId) ==>
        id !in KeySet(r.activeGoals, GoalId) && id in KeySet(r.completedGoals, GoalId))
  {
    var found := FirstWith(st.activeGoals, GoalId, id);
    if found.Some? {
      var g := found.value;
      MoveKeepsUnique(st.activeGoals, st.completedGoals, GoalId, g, g.(completed := true, completedAt := Some(now)));
    }
  }

  /** Reactivating a goal moves it back under the same guarantees. */
  lemma ReactivateGoalMoves(st: Lists, id: string)
    requires UniqueIds(st)
    ensures var r := AfterReactivateGoal(st, id);
      UniqueIds(r) && GoalIds(r) == GoalIds(st) &&
      (id in KeySet(st.completedGoals, GoalId) ==>
        id in KeySet(r.activeGoals, GoalId) && id !in KeySet(r.completedGoals, GoalId))
  {
    var found := FirstWith(st.completedGoals, GoalId, id);
    if found.Some? {
      var g := found.value;
      UniqueKeysAppend(st.activeGoals, st.completedGoals, GoalId);
      UniqueKeysAppend(st.completedGoals, st.activeGoals, GoalId);
      MoveKeepsUnique(st.completedGoals, st.activeGoals, GoalId, g, g.(completed := false, completedAt := None));
    }
  }

  /** Completing a task moves it under the same guarantees. */
  lemma CompleteTodoMoves(st: Lists, id: string, now: string)
    requires UniqueIds(st)
    ensures var r := AfterCompleteTodo(st, id, now);
      UniqueIds(r) && TodoIds(r) == TodoIds(st) &&
      (id in KeySet(st.activeTodos, TodoId) ==>
        id !in KeySet(r.activeTodos, TodoId) && id in KeySet(r.completedTodos, TodoId))
  {
    var found := FirstWith(st.activeTodos, TodoId, id);
    if found.Some? {
      var t := found.value;
      MoveKeepsUnique(st.activeTodos, st.completedTodos, TodoId, t, CompletedTodo(t, now));
    }
  }

  /** Reactivating a task moves it back under the same guarantees. */
  lemma ReactivateTodoMoves(st: Lists, id: string)
    requires UniqueIds(st)
    ensures var r := AfterReactivateTodo(st, id);
      UniqueIds(r) && TodoIds(r) == TodoIds(st) &&
      (id in KeySet(st.completedTodos, TodoId) ==>
        id in KeySet(r.activeTodos, TodoId) && id !in KeySet(r.completedTodos, TodoId))
  {
    var found := FirstWith(st.completedTodos, TodoId, id);
    if found.Some? {
      var t := found.value;
      UniqueKeysAppend(st.activeTodos, st.completedTodos, TodoId);
      UniqueKeysAppend(st.completedTodos, st.activeTodos, TodoId);
      MoveKeepsUnique(st.completedTodos, st.activeTodos, TodoId, t, t.(completed := false, completedAt := None));
    }
  }

  /** Completing and then reactivating a goal puts it back at the end of the
      active goals, no longer completed, and leaves the completed goals as they
      were. */
  lemma CompleteThenReactivateGoal(st: Lists, id: string, now: string, g: GoalItem)
    requires FirstWith(st.activeGoals, GoalId, id) == Some(g)
    requires id !in KeySet(st.completedGoals, GoalId)
    ensures AfterReactivateGoal(AfterCompleteGoal(st, id, now), id) ==
      st.(activeGoals := Keep(st.activeGoals, GoalId, {id}) + [g.(completed := false, completedAt := None)])
  {
    var mid := AfterCompleteGoal(st, id, now);
    var done := g.(completed := true, completedAt := Some(now));
    assert mid.completedGoals == st.completedGoals + [done];
    FirstWithAppend(st.completedGoals, done, GoalId, id);
    KeepAppend(st.completedGoals, [done], GoalId, {id});
    KeepNothing(st.completedGoals, GoalId, {id});
  }

  lemma {:induction false} FirstWithAppend<T(!new)>(s: seq<T>, x: T, key: T -> string, id: string)
    requires key(x) == id && id !in KeySet(s, key)
    ensures FirstWith(s + [x], key, id) == Some(x)
  {
    if s != [] {
      assert s[0] in s;
      assert (s + [x])[1..] == s[1..] + [x];
      FirstWithAppend(s[1..], x, key, id);
    }
  }

  /** Deleting a task and then undoing puts the deleted task back at the end of
      the active tasks; with unique ids the ids of tasks are then those before the
      delete. */
  lemma DeleteThenUndoTodo(st: Lists, id: string)
    requires UniqueIds(st)
    requires id in TodoIds(st)
    ensures var r := AfterUndo(AfterDeleteTodo(st, id));
      && r.deletedItem == None
      && r.activeTodos == Keep(st.activeTodos, TodoId, {id}) + [FirstWith(st.activeTodos + st.completedTodos, TodoId, id).value]
      && r.completedTodos == Keep(st.completedTodos, TodoId, {id})
      && TodoIds(r) == TodoIds(st)
      && UniqueIds(r)
  {
    var all := st.activeTodos + st.completedTodos;
    assert id in KeySet(all, TodoId);
    var t := FirstWith(all, TodoId, id).value;
    var a := Keep(st.activeTodos, TodoId, {id});
    var c := Keep(st.completedTodos, TodoId, {id});
    var r := AfterUndo(AfterDeleteTodo(st, id));
    assert r == st.(activeTodos := a + [t], completedTodos := c, deletedItem := None);
    RestoredTodoIds(st, id, t);
  }

  /** Both lists of tasks after the undo hold the same ids, each once. */
  lemma RestoredTodoIds(st: Lists, id: string, t: TodoItem)
    requires UniqueKeys(st.activeTodos + st.completedTodos, TodoId)
    requires t in st.activeTodos + st.completedTodos && t.id == id
    ensures var a, c := Keep(st.activeTodos, TodoId, {id}), Keep(st.completedTodos, TodoId, {id});
      UniqueKeys(a + [t] + c, TodoId) && KeySet(a + [t], TodoId) + KeySet(c, TodoId) == TodoIds(st)
  {
    UniqueKeysAppend(st.activeTodos, st.completedTodos, TodoId);
    KeepUnique(st.activeTodos, TodoId, {id});
    KeepUnique(st.completedTodos, TodoId, {id});
    var a := Keep(st.activeTodos, TodoId, {id});
    var c := Keep(st.completedTodos, TodoId, {id});
    KeySetAppend(st.activeTodos, st.completedTodos, TodoId);
    UniqueKeysAppend(a, [t], TodoId);
    KeySetAppend(a, [t], TodoId);
    KeySetSingleton(t, TodoId);
    UniqueKeysAppend(a + [t], c, TodoId);
  }

  /** Deleting a goal removes its id, and only its id, from the goals. */
  lemma DeleteGoalRemovesId(st: Lists, id: string)
    requires UniqueIds(st)
    ensures var r := AfterDeleteGoal(st, id);
      UniqueIds(r) && GoalIds(r) == GoalIds(st) - {id} && r.activeTodos == st.activeTodos
  {
    UniqueKeysAppend(st.activeGoals, st.completedGoals, GoalId);
    KeepUnique(st.activeGoals, GoalId, {id});
    KeepUnique(st.completedGoals, GoalId, {id});
    UniqueKeysAppend(Keep(st.activeGoals, GoalId, {id}), Keep(st.completedGoals, GoalId, {id}), GoalId);
  }

  // ---------------------------------------------------------------------------
  // Cascading delete
  // ---------------------------------------------------------------------------

  /** A ranking that decreases from parent to child. The cascade has no visited
      set, so it only ends when `parentId` links are acyclic; this ranking is
      the witness of that. */
  ghost predicate RankedByParent(all: seq<GoalItem>, rank: map<string, nat>) {
    forall g :: g in all && g.parentId.Some? ==>
      g.id in rank && g.parentId.value in rank && rank[g.id] < rank[g.parentId.value]
  }

  function Measure(id: string, rank: map<string, nat>): nat {
    if id in rank then rank[id] else 0
  }

  /** The ids `findChildren(p)` pushes: every goal whose parent is `p`, each
      followed by its own descendants, in list order (pre-order). */
  function Descendants(all: seq<GoalItem>, p: string, rank: map<string, nat>): seq<string>
    requires RankedByParent(all, rank)
    decreases Measure(p, rank), |all| + 1
  {
    ChildScan(all, p, rank, |all|)
  }

  /** What `findChildren(p)` has pushed after visiting the first `n` goals. */
  function ChildScan(all: seq<GoalItem>, p: string, rank: map<string, nat>, n: nat): seq<string>
    requires RankedByParent(all, rank) && n <= |all|
    decreases Measure(p, rank), n
  {
    if n == 0 then []
    else
      var g := all[n - 1];
      ChildScan(all, p, rank, n - 1) +
        (if g.parentId == Some(p) then
           assert g in all;
           [g.id] + Descendants(all, g.id, rank)
         else [])
  }

  /** Every collected id is a goal whose parent is `p` or itself collected. */
  lemma {:induction false} DescendantsSound(all: seq<GoalItem>, p: string, rank: map<string, nat>, n: nat)
    requires RankedByParent(all, rank) && n <= |all|
    ensures forall x :: x in ChildScan(all, p, rank, n) ==> SoundlyCollected(all, p, rank, x)
    decreases Measure(p, rank), n
  {
    if n > 0 {
      var g := all[n - 1];
      DescendantsSound(all, p, rank, n - 1);
      if g.parentId == Some(p) {
        assert g in all;
        DescendantsSound(all, g.id, rank, |all|);
        DescendantsClosed(all, p, rank, n, g.id);
        forall x | x in Descendants(all, g.id, rank)
          ensures SoundlyCollected(all, p, rank, x)
        {
          assert SoundlyCollected(all, g.id, rank, x);
          var h :| h in all && h.id == x && h.parentId.Some? &&
            (h.parentId.value == g.id || h.parentId.value in Descendants(all, g.id, rank));
          assert h.parentId.value in Descendants(all, p, rank);
        }
        assert SoundlyCollected(all, p, rank, g.id);
      }
    }
  }

  /** `x` is the id of a goal whose parent is `p` or a collected goal. */
  ghost predicate SoundlyCollected(all: seq<GoalItem>, p: string, rank: map<string, nat>, x: string)
    requires RankedByParent(all, rank)
  {
    exists g :: g in all && g.id == x && g.parentId.Some? &&
      (g.parentId.value == p || g.parentId.value in Descendants(all, p, rank))
  }

  /** Collection is monotone in the number of goals scanned. */
  lemma {:induction false} ChildScanGrows(all: seq<GoalItem>, p: string, rank: map<string, nat>, n: nat)
    requires RankedByParent(all, rank) && n <= |all|
    ensures forall x :: x in ChildScan(all, p, rank, n) ==> x in Descendants(all, p, rank)
    decreases |all| - n
  {
    if n < |all| {
      ChildScanGrows(all, p, rank, n + 1);
    }
  }

  /** When a child `c` of `p` has been collected, so are all of `c`'s descendants. */
  lemma DescendantsClosed(all: seq<GoalItem>, p: string, rank: map<string, nat>, n: nat, c: string)
    requires RankedByParent(all, rank) && 0 < n <= |all|
    requires all[n - 1].parentId == Some(p) && all[n - 1].id == c
    ensures c in Descendants(all, p, rank)
    ensures forall x :: x in Descendants(all, c, rank) ==> x in Descendants(all, p, rank)
  {
    ChildScanGrows(all, p, rank, n);
  }

  /** Every goal whose parent is `p` or a collected goal is itself collected. */
  lemma {:induction false} DescendantsComplete(all: seq<GoalItem>, p: string, rank: map<string, nat>, g: GoalItem)
    requires RankedByParent(all, rank)
    requires g in all && g.parentId.Some?
    requires g.parentId.value == p || g.parentId.value in Descendants(all, p, rank)
    ensures g.id in Descendants(all, p, rank)
    decreases Measure(p, rank)
  {
    var n :| 0 <= n < |all| && all[n] == g;
    if g.parentId.value == p {
      DescendantsClosed(all, p, rank, n + 1, g.id);
    } else {
      var q := g.parentId.value;
      ChildInScan(all, p, rank, |all|, q);
      var m :| 0 <= m < |all| && all[m].parentId == Some(p) &&
        (q == all[m].id || q in Descendants(all, all[m].id, rank));
      DescendantsClosed(all, p, rank, m + 1, all[m].id);
      if q == all[m].id {
        DescendantsComplete(all, q, rank, g);
      } else {
        assert all[m] in all;
        DescendantsComplete(all, all[m].id, rank, g);
      }
    }
  }

  /** A collected id comes from some child of `p` among the scanned goals. */
  lemma {:induction false} ChildInScan(all: seq<GoalItem>, p: string, rank: map<string, nat>, n: nat, x: string)
    requires RankedByParent(all, rank) && n <= |all|
    requires x in ChildScan(all, p, rank, n)
    ensures exists m :: 0 <= m < n && all[m].parentId == Some(p) &&
             (x == all[m].id || x in Descendants(all, all[m].id, rank))
  {
    var g := all[n - 1];
    if x !in ChildScan(all, p, rank, n - 1) {
      assert g.parentId == Some(p);
    } else {
      ChildInScan(all, p, rank, n - 1, x);
    }
  }

  /** `findChildren`: pushes, onto `collected`, each goal whose parent is `p`
      followed by that goal's own descendants. */
  method FindChildren(all: seq<GoalItem>, p: string, ghost rank: map<string, nat>, collected: seq<string>)
    returns (r: seq<string>)
    requires RankedByParent(all, rank)
    ensures r == collected + Descendants(all, p, rank)
    decreases Measure(p, rank), |all| + 1
  {
    r := collected;
    var i := 0;
    while i < |all|
      invariant 0 <= i <= |all|
      invariant r == collected + ChildScan(all, p, rank, i)
    {
      var g := all[i];
      if g.parentId == Some(p) {
        assert g in all;
        r := r + [g.id];
        r := FindChildren(all, g.id, rank, r);
      }
      i := i + 1;
    }
  }

  /** Tasks linked to goal `gid`, in list order. */
  function LinkedTodos(todos: seq<TodoItem>, gid: string): (r: seq<TodoItem>)
    ensures forall t :: t in r <==> t in todos && t.goalId == Some(gid)
  {
    if todos == [] then []
    else (if todos[0].goalId == Some(gid) then [todos[0]] else []) + LinkedTodos(todos[1..], gid)
  }

  /** `deleteTodo` on each task of `ts` in turn. */
  function DeleteTodos(st: Lists, ts: seq<TodoItem>): Lists {
    if ts == [] then st
    else AfterDeleteTodo(DeleteTodos(st, ts[..|ts| - 1]), ts[|ts| - 1].id)
  }

  lemma DeleteTodosStep(st: Lists, ts: seq<TodoItem>, j: nat)
    requires j < |ts|
    ensures DeleteTodos(st, ts[..j + 1]) == AfterDeleteTodo(DeleteTodos(st, ts[..j]), ts[j].id)
  {
    assert ts[..j + 1][..j] == ts[..j];
  }

  /** The delete loop of `deleteGoalWithConfirmation`: for each collected id,
      delete the goal, then delete every task now linked to it. */
  function Cascade(st: Lists, ids: seq<string>): (r: Lists)
    ensures forall t :: t in r.activeTodos ==> t in st.activeTodos
    ensures forall t :: t in r.completedTodos ==> t in st.completedTodos
  {
    if ids == [] then st
    else
      var before := Cascade(st, ids[..|ids| - 1]);
      var gid := ids[|ids| - 1];
      var goalGone := AfterDeleteGoal(before, gid);
      var linked := LinkedTodos(goalGone.activeTodos + goalGone.completedTodos, gid);
      DeleteTodosFilters(goalGone, linked);
      DeleteTodos(goalGone, linked)
  }

  lemma CascadeStep(st: Lists, ids: seq<string>, k: nat)
    requires k < |ids|
    ensures var goalGone := AfterDeleteGoal(Cascade(st, ids[..k]), ids[k]);
      Cascade(st, ids[..k + 1]) ==
        DeleteTodos(goalGone, LinkedTodos(goalGone.activeTodos + goalGone.completedTodos, ids[k]))
  {
    assert ids[..k + 1][..k] == ids[..k];
  }

  /** Deleting tasks one by one filters out exactly their ids and touches no goal. */
  lemma {:induction false} DeleteTodosFilters(st: Lists, ts: seq<TodoItem>)
    ensures DeleteTodos(st, ts).activeTodos == Keep(st.activeTodos, TodoId, KeySet(ts, TodoId))
    ensures DeleteTodos(st, ts).completedTodos == Keep(st.completedTodos, TodoId, KeySet(ts, TodoId))
    ensures DeleteTodos(st, ts).activeGoals == st.activeGoals
    ensures DeleteTodos(st, ts).completedGoals == st.completedGoals
  {
    if ts == [] {
      assert KeySet(ts, TodoId) == {};
      KeepNothing(st.activeTodos, TodoId, {});
      KeepNothing(st.completedTodos, TodoId, {});
    } else {
      var init, last := ts[..|ts| - 1], ts[|ts| - 1];
      DeleteTodosFilters(st, init);
      DeleteTodosFiltersStep(st, init, last);
      assert ts == init + [last];
    }
  }

  /** `DeleteTodosFilters` for `init + [last]` from the claim for `init`. */
  lemma DeleteTodosFiltersStep(st: Lists, init: seq<TodoItem>, last: TodoItem)
    requires DeleteTodos(st, init).activeTodos == Keep(st.activeTodos, TodoId, KeySet(init, TodoId))
    requires DeleteTodos(st, init).completedTodos == Keep(st.completedTodos, TodoId, KeySet(init, TodoId))
    requires DeleteTodos(st, init).activeGoals == st.activeGoals
    requires DeleteTodos(st, init).completedGoals == st.completedGoals
    ensures DeleteTodos(st, init + [last]).activeTodos == Keep(st.activeTodos, TodoId, KeySet(init + [last], TodoId))
    ensures DeleteTodos(st, init + [last]).completedTodos == Keep(st.completedTodos, TodoId, KeySet(init + [last], TodoId))
    ensures DeleteTodos(st, init + [last]).activeGoals == st.activeGoals
    ensures DeleteTodos(st, init + [last]).completedGoals == st.completedGoals
  {
    var ts := init + [last];
    assert ts[..|ts| - 1] == init;
    KeepKeep(st.activeTodos, TodoId, KeySet(init, TodoId), {last.id});
    KeepKeep(st.completedTodos, TodoId, KeySet(init, TodoId), {last.id});
    KeySetAppend(init, [last], TodoId);
    KeySetSingleton(last, TodoId);
  }

  /** After the cascade over `ids` the goals are exactly the former goals whose
      id is not in `ids`, in their former order. */
  lemma {:induction false} CascadeRemovesGoals(st: Lists, ids: seq<string>)
    ensures Cascade(st, ids).activeGoals == Keep(st.activeGoals, GoalId, set x | x in ids)
    ensures Cascade(st, ids).completedGoals == Keep(st.completedGoals, GoalId, set x | x in ids)
  {
    if ids == [] {
      CascadeRemovesNothing(st, ids);
    } else {
      var init, gid := ids[..|ids| - 1], ids[|ids| - 1];
      InitLast(ids);
      CascadeRemovesGoals(st, init);
      CascadeRemovesGoalsStep(st, ids, init, gid);
    }
  }

  lemma CascadeRemovesNothing(st: Lists, ids: seq<string>)
    requires ids == []
    ensures Cascade(st, ids).activeGoals == Keep(st.activeGoals, GoalId, set x | x in ids)
    ensures Cascade(st, ids).completedGoals == Keep(st.completedGoals, GoalId, set x | x in ids)
  {
    assert (set x | x in ids) == {};
    KeepNothing(st.activeGoals, GoalId, {});
    KeepNothing(st.completedGoals, GoalId, {});
  }

  /** `CascadeRemovesGoals` for `ids` from the claim for all but its last id. */
  lemma CascadeRemovesGoalsStep(st: Lists, ids: seq<string>, init: seq<string>, gid: string)
    requires ids == init + [gid]
    requires Cascade(st, init).activeGoals == Keep(st.activeGoals, GoalId, set x | x in init)
    requires Cascade(st, init).completedGoals == Keep(st.completedGoals, GoalId, set x | x in init)
    ensures Cascade(st, ids).activeGoals == Keep(st.activeGoals, GoalId, set x | x in ids)
    ensures Cascade(st, ids).completedGoals == Keep(st.completedGoals, GoalId, set x | x in ids)
  {
    assert ids[..|ids| - 1] == init;
    var goalGone := AfterDeleteGoal(Cascade(st, init), gid);
    DeleteTodosFilters(goalGone, LinkedTodos(goalGone.activeTodos + goalGone.completedTodos, gid));
    assert Cascade(st, ids).activeGoals == goalGone.activeGoals;
    assert Cascade(st, ids).completedGoals == goalGone.completedGoals;
    KeepKeep(st.activeGoals, GoalId, set x | x in init, {gid});
    KeepKeep(st.completedGoals, GoalId, set x | x in init, {gid});
    ElemsSnoc(init, gid);
  }

  lemma ElemsSnoc(s: seq<string>, x: string)
    ensures (set y | y in s + [x]) == (set y | y in s) + {x}
  {
  }

  /** After the cascade over `ids` no remaining task is linked to a deleted
      goal. */
  lemma {:induction false} CascadeRemovesLinkedTodos(st: Lists, ids: seq<string>)
    ensures forall t :: t in Cascade(st, ids).activeTodos + Cascade(st, ids).completedTodos ==>
      t.goalId.None? || t.goalId.value !in ids
  {
    if ids != [] {
      var init := ids[..|ids| - 1];
      var gid := ids[|ids| - 1];
      CascadeRemovesLinkedTodos(st, init);
      var before := Cascade(st, init);
      var goalGone := AfterDeleteGoal(before, gid);
      var linked := LinkedTodos(goalGone.activeTodos + goalGone.completedTodos, gid);
      DeleteTodosFilters(goalGone, linked);
      var r := Cascade(st, ids);
      assert r == DeleteTodos(goalGone, linked);
      forall t | t in r.activeTodos + r.completedTodos
        ensures t.goalId.None? || t.goalId.value !in ids
      {
        assert t in before.activeTodos + before.completedTodos;
      }
    }
  }

  /** The tasks of `todos` linked to no goal of `gids`, in order. */
  function UnlinkedFrom(todos: seq<TodoItem>, gids: set<string>): (r: seq<TodoItem>)
    ensures forall t :: t in r <==> t in todos && (t.goalId.None? || t.goalId.value !in gids)
  {
    if todos == [] then []
    else
      (if todos[0].goalId.Some? && todos[0].goalId.value in gids then [] else [todos[0]]) +
      UnlinkedFrom(todos[1..], gids)
  }

  lemma {:induction false} UnlinkedFromNothing(todos: seq<TodoItem>)
    ensures UnlinkedFrom(todos, {}) == todos
  {
    if todos != [] {
      UnlinkedFromNothing(todos[1..]);
      HeadTail(todos);
    }
  }

  /** Filtering twice is filtering once by both goal sets. */
  lemma {:induction false} UnlinkedFromTwice(todos: seq<TodoItem>, a: set<string>, b: set<string>)
    ensures UnlinkedFrom(UnlinkedFrom(todos, a), b) == UnlinkedFrom(todos, a + b)
  {
    if todos != [] {
      var t := todos[0];
      var rest := UnlinkedFrom(todos[1..], a);
      UnlinkedFromTwice(todos[1..], a, b);
      var both := if t.goalId.Some? && t.goalId.value in a + b then [] else [t];
      assert UnlinkedFrom(todos, a + b) == both + UnlinkedFrom(todos[1..], a + b);
      if t.goalId.Some? && t.goalId.value in a {
        assert UnlinkedFrom(todos, a) == rest;
      } else {
        var once := UnlinkedFrom(todos, a);
        assert once == [t] + rest;
        assert once[0] == t && once[1..] == rest;
        assert UnlinkedFrom(once, b) == both + UnlinkedFrom(rest, b);
      }
    }
  }

  /** Every task id names one task: two tasks with the same id are the same. */
  ghost predicate IdsDetermine(todos: seq<TodoItem>) {
    forall x, u :: x in todos && u in todos && x.id == u.id ==> x == u
  }

  lemma UniqueIdsDetermine(todos: seq<TodoItem>)
    requires UniqueKeys(todos, TodoId)
    ensures IdsDetermine(todos)
  {
    forall x, u | x in todos && u in todos && x.id == u.id
      ensures x == u
    {
      var i :| 0 <= i < |todos| && todos[i] == x;
      var j :| 0 <= j < |todos| && todos[j] == u;
      assert TodoId(todos[i]) == TodoId(todos[j]);
    }
  }

  /** When ids name tasks, a task's id is among the ids of the tasks linked to
      `gid` exactly when the task itself is linked to `gid`. */
  lemma LinkedIdsAreLinked(all: seq<TodoItem>, gid: string, x: TodoItem)
    requires IdsDetermine(all) && x in all
    ensures x.id in KeySet(LinkedTodos(all, gid), TodoId) <==> x.goalId == Some(gid)
  {
    if x.id in KeySet(LinkedTodos(all, gid), TodoId) {
      var u :| u in LinkedTodos(all, gid) && TodoId(u) == x.id;
    }
    if x.goalId == Some(gid) {
      assert x in LinkedTodos(all, gid);
    }
  }

  /** Deleting the linked tasks by id removes exactly the linked tasks. */
  lemma {:induction false} KeepLinkedIsUnlinked(a: seq<TodoItem>, all: seq<TodoItem>, gid: string)
    requires IdsDetermine(all) && forall x :: x in a ==> x in all
    ensures Keep(a, TodoId, KeySet(LinkedTodos(all, gid), TodoId)) == UnlinkedFrom(a, {gid})
  {
    if a != [] {
      LinkedIdsAreLinked(all, gid, a[0]);
      KeepLinkedIsUnlinked(a[1..], all, gid);
    }
  }

  /** With unique task ids the cascade over `ids` removes exactly the tasks
      linked to a goal of `ids`: every other task stays, in its list and order. */
  lemma {:induction false} CascadeKeepsUnlinkedTodos(st: Lists, ids: seq<string>)
    requires UniqueIds(st)
    ensures Cascade(st, ids).activeTodos == UnlinkedFrom(st.activeTodos, set x | x in ids)
    ensures Cascade(st, ids).completedTodos == UnlinkedFrom(st.completedTodos, set x | x in ids)
  {
    if ids == [] {
      assert (set x | x in ids) == {};
      UnlinkedFromNothing(st.activeTodos);
      UnlinkedFromNothing(st.completedTodos);
    } else {
      var init, gid := ids[..|ids| - 1], ids[|ids| - 1];
      InitLast(ids);
      CascadeKeepsUnlinkedTodos(st, init);
      UniqueIdsDetermine(st.activeTodos + st.completedTodos);
      CascadeKeepsUnlinkedStep(st, ids, init, gid);
    }
  }

  /** `CascadeKeepsUnlinkedTodos` for `ids` from the claim for all but its last id. */
  lemma CascadeKeepsUnlinkedStep(st: Lists, ids: seq<string>, init: seq<string>, gid: string)
    requires ids == init + [gid]
    requires IdsDetermine(st.activeTodos + st.completedTodos)
    requires Cascade(st, init).activeTodos == UnlinkedFrom(st.activeTodos, set x | x in init)
    requires Cascade(st, init).completedTodos == UnlinkedFrom(st.completedTodos, set x | x in init)
    ensures Cascade(st, ids).activeTodos == UnlinkedFrom(st.activeTodos, set x | x in ids)
    ensures Cascade(st, ids).completedTodos == UnlinkedFrom(st.completedTodos, set x | x in ids)
  {
    assert ids[..|ids| - 1] == init;
    var goalGone := AfterDeleteGoal(Cascade(st, init), gid);
    var all := goalGone.activeTodos + goalGone.completedTodos;
    var linked := LinkedTodos(all, gid);
    DeleteTodosFilters(goalGone, linked);
    assert Cascade(st, ids) == DeleteTodos(goalGone, linked);
    assert forall x :: x in all ==> x in st.activeTodos + st.completedTodos;
    assert IdsDetermine(all);
    KeepLinkedIsUnlinked(goalGone.activeTodos, all, gid);
    KeepLinkedIsUnlinked(goalGone.completedTodos, all, gid);
    UnlinkedFromTwice(st.activeTodos, set x | x in init, {gid});
    UnlinkedFromTwice(st.completedTodos, set x | x in init, {gid});
    ElemsSnoc(init, gid);
  }

  // ---------------------------------------------------------------------------
  // Goal levels
  // ---------------------------------------------------------------------------

  /** The display order of goal levels (`levelOrder`). */
  const LevelOrder: map<string, nat> :=
    map["someday" := 0, "5year" := 1, "1year" := 2, "monthly" := 3, "weekly" := 4]

  /** A level's place in `LevelOrder`; levels outside the table sort last. */
  function LevelRank(level: string): nat {
    if level in LevelOrder then LevelOrder[level] else 5
  }

  function GoalLevelRank(g: GoalItem): int { LevelRank(g.level) }

  /** The parent choice is hidden for "someday" goals. */
  predicate ParentChoiceShown(level: string) {
    level != "someday"
  }

  /** The levels a new goal's parent may have (`updateParentGoalOptions`). */
  function ParentLevels(level: string): seq<string> {
    if level == "5year" then ["someday"]
    else if level == "1year" then ["5year"]
    else if level == "monthly" then ["1year"]
    else if level == "weekly" then ["monthly"]
    else []
  }

  /** The active goals offered as parents, in list order. */
  function ParentOptions(activeGoals: seq<GoalItem>, level: string): (r: seq<GoalItem>)
    ensures forall g :: g in r ==> g in activeGoals
    ensures level == "someday" ==> r == []
  {
    if !ParentChoiceShown(level) || activeGoals == [] then []
    else
      (if activeGoals[0].level in ParentLevels(level) then [activeGoals[0]] else []) +
      ParentOptions(activeGoals[1..], level)
  }

  /** A goal may be offered as a parent exactly when its level sits one step
      above the new goal's level in the display order. */
  lemma ParentIsOneLevelUp(level: string, parentLevel: string)
    requires level in LevelOrder && parentLevel in LevelOrder
    ensures parentLevel in ParentLevels(level) <==> LevelOrder[parentLevel] + 1 == LevelOrder[level]
  {
  }

  /** The options are exactly the active goals one level above. */
  lemma {:induction false} ParentOptionsOneLevelUp(activeGoals: seq<GoalItem>, level: string, g: GoalItem)
    requires level in LevelOrder
    requires forall h :: h in activeGoals ==> h.level in LevelOrder
    ensures g in ParentOptions(activeGoals, level) <==>
      g in activeGoals && LevelOrder[g.level] + 1 == LevelOrder[level]
  {
    if activeGoals != [] {
      ParentOptionsOneLevelUp(activeGoals[1..], level, g);
      ParentIsOneLevelUp(level, activeGoals[0].level);
      assert activeGoals == [activeGoals[0]] + activeGoals[1..];
    }
  }

  // ---------------------------------------------------------------------------
  // The goal forest
  // ---------------------------------------------------------------------------

  /** `goal.parentId` used as a JavaScript condition. */
  predicate HasParent(g: GoalItem) {
    g.parentId.Some? && g.parentId.value != ""
  }

  /** An active goal is a root when it has no parent or its parent is not active. */
  predicate IsRoot(g: GoalItem, activeIds: set<string>) {
    !(HasParent(g) && g.parentId.value in activeIds)
  }

  /** The goal the id map holds for each id: the last goal with that id. */
  function ById(goals: seq<GoalItem>): (m: map<string, GoalItem>)
    ensures m.Keys == KeySet(goals, GoalId)
  {
    if goals == [] then map[]
    else
      var init, last := goals[..|goals| - 1], goals[|goals| - 1];
      assert goals == init + [last];
      KeySetAppend(init, [last], GoalId);
      KeySetSingleton(last, GoalId);
      ById(init)[last.id := last]
  }

  /** The roots in list order, as the forest loop collects them. */
  function Roots(goals: seq<GoalItem>, byId: map<string, GoalItem>): seq<GoalItem>
    requires forall g :: g in goals ==> g.id in byId
  {
    if goals == [] then []
    else
      var g := goals[|goals| - 1];
      Roots(goals[..|goals| - 1], byId) + (if IsRoot(g, byId.Keys) then [byId[g.id]] else [])
  }

  /** The children of `p` in list order, as the forest loop collects them. */
  function Children(goals: seq<GoalItem>, byId: map<string, GoalItem>, p: string): seq<GoalItem>
    requires forall g :: g in goals ==> g.id in byId
  {
    if goals == [] then []
    else
      var g := goals[|goals| - 1];
      Children(goals[..|goals| - 1], byId, p) +
        (if !IsRoot(g, byId.Keys) && g.parentId.value == p then [byId[g.id]] else [])
  }

  /** The forest of `renderGoals`: `roots` are the root goals ordered by level
      (stable), and `children[p]` lists the goals under `p`. */
  method BuildForest(activeGoals: seq<GoalItem>) returns (roots: seq<GoalItem>, children: map<string, seq<GoalItem>>)
    ensures children.Keys == KeySet(activeGoals, GoalId)
    ensures roots == SortByRank(Roots(activeGoals, ById(activeGoals)), GoalLevelRank)
    ensures forall p :: p in children ==> children[p] == Children(activeGoals, ById(activeGoals), p)
  {
    var byId := IndexGoals(activeGoals);
    var unsorted;
    unsorted, children := CollectForest(activeGoals, byId);
    roots := SortByRank(unsorted, GoalLevelRank);
  }

  /** The forest's first loop: the id map. */
  method IndexGoals(activeGoals: seq<GoalItem>) returns (byId: map<string, GoalItem>)
    ensures byId == ById(activeGoals)
  {
    byId := map[];
    var i := 0;
    while i < |activeGoals|
      invariant 0 <= i <= |activeGoals|
      invariant byId == ById(activeGoals[..i])
    {
      var g := activeGoals[i];
      byId := byId[g.id := g];
      assert activeGoals[..i + 1][..i] == activeGoals[..i];
      i := i + 1;
    }
    assert activeGoals[..|activeGoals|] == activeGoals;
  }

  /** The forest's second loop: roots in list order, and each goal's children. */
  method CollectForest(activeGoals: seq<GoalItem>, byId: map<string, GoalItem>)
    returns (unsorted: seq<GoalItem>, children: map<string, seq<GoalItem>>)
    requires forall g :: g in activeGoals ==> g.id in byId
    ensures unsorted == Roots(activeGoals, byId)
    ensures children.Keys == byId.Keys
    ensures forall p :: p in children ==> children[p] == Children(activeGoals, byId, p)
  {
    unsorted := [];
    children := map p | p in byId :: [];
    var i := 0;
    ghost var done: seq<GoalItem> := [];
    while i < |activeGoals|
      invariant 0 <= i <= |activeGoals| && done == activeGoals[..i]
      invariant children.Keys == byId.Keys
      invariant unsorted == Roots(done, byId)
      invariant forall p :: p in children ==> children[p] == Children(done, byId, p)
    {
      var g := activeGoals[i];
      assert g.id in byId;
      RootsStep(activeGoals, i, byId);
      if HasParent(g) && g.parentId.value in byId {
        var p := g.parentId.value;
        assert !IsRoot(g, byId.Keys);
        children := children[p := children[p] + [byId[g.id]]];
      } else {
        assert IsRoot(g, byId.Keys);
        unsorted := unsorted + [byId[g.id]];
      }
      forall q | q in children
        ensures children[q] == Children(activeGoals[..i + 1], byId, q)
      {
        ChildrenStep(activeGoals, i, byId, q);
      }
      done := activeGoals[..i + 1];
      i := i + 1;
    }
    assert done == activeGoals;
  }

  /** One step of the forest loop: goal `i` is appended to the roots when it
      is one. */
  lemma RootsStep(goals: seq<GoalItem>, i: nat, byId: map<string, GoalItem>)
    requires i < |goals| && forall g :: g in goals ==> g.id in byId
    ensures forall g :: g in goals[..i + 1] ==> g.id in byId
    ensures Roots(goals[..i + 1], byId) ==
      Roots(goals[..i], byId) + (if IsRoot(goals[i], byId.Keys) then [byId[goals[i].id]] else [])
  {
    assert goals[..i + 1][..i] == goals[..i];
  }

  /** One step of the forest loop: goal `i` is appended to the children of
      `p` when `p` is its active parent. */
  lemma ChildrenStep(goals: seq<GoalItem>, i: nat, byId: map<string, GoalItem>, p: string)
    requires i < |goals| && forall g :: g in goals ==> g.id in byId
    ensures forall g :: g in goals[..i + 1] ==> g.id in byId
    ensures Children(goals[..i + 1], byId, p) ==
      Children(goals[..i], byId, p) +
      (if !IsRoot(goals[i], byId.Keys) && goals[i].parentId.value == p then [byId[goals[i].id]] else [])
  {
    assert goals[..i + 1][..i] == goals[..i];
  }

  /** With unique ids each active goal appears exactly once in the forest: as a
      root when it is one, otherwise under its parent and under no other goal. */
  lemma ForestCoversEachGoalOnce(activeGoals: seq<GoalItem>, g: GoalItem)
    requires UniqueKeys(activeGoals, GoalId)
    requires g in activeGoals
    ensures var byId := ById(activeGoals);
      && (multiset(Roots(activeGoals, byId))[g] == if IsRoot(g, byId.Keys) then 1 else 0)
      && (forall p :: p in byId ==>
            multiset(Children(activeGoals, byId, p))[g] ==
              if !IsRoot(g, byId.Keys) && g.parentId.value == p then 1 else 0)
  {
    var byId := ById(activeGoals);
    ByIdUnique(activeGoals);
    RootsCount(activeGoals, byId, g);
    forall p | p in byId
      ensures multiset(Children(activeGoals, byId, p))[g] ==
        if !IsRoot(g, byId.Keys) && g.parentId.value == p then 1 else 0
    {
      ChildrenCount(activeGoals, byId, p, g);
    }
  }

  /** With unique ids the id map returns each goal itself. */
  lemma {:induction false} ByIdUnique(goals: seq<GoalItem>)
    requires UniqueKeys(goals, GoalId)
    ensures forall g :: g in goals ==> ById(goals)[g.id] == g
  {
    if goals != [] {
      UniqueInit(goals, GoalId);
      ByIdUnique(goals[..|goals| - 1]);
      InOrLast(goals, goals[|goals| - 1]);
      forall g | g in goals
        ensures ById(goals)[g.id] == g
      {
        InOrLast(goals, g);
      }
    }
  }

  /** Goals whose parent, when it is a goal, sits one level above them (the
      only parents `updateParentGoalOptions` offers) cannot form a parent
      cycle: ranking each goal by its height in `LevelOrder`, and a parent id
      that names no goal above every level, decreases from parent to child. */
  lemma OneLevelUpIsRanked(all: seq<GoalItem>)
    requires UniqueKeys(all, GoalId)
    requires forall g :: g in all ==> g.level in LevelOrder
    requires forall g, h :: g in all && h in all && g.parentId == Some(h.id) ==>
      LevelOrder[h.level] + 1 == LevelOrder[g.level]
    ensures exists rank :: RankedByParent(all, rank)
  {
    var byId := ById(all);
    ByIdUnique(all);
    var parents := set g | g in all && g.parentId.Some? :: g.parentId.value;
    var rank := map x | x in byId.Keys + parents :: Height(byId, x);
    forall g | g in all && g.parentId.Some?
      ensures g.id in rank && g.parentId.value in rank && rank[g.id] < rank[g.parentId.value]
    {
      var p := g.parentId.value;
      assert g.id in byId.Keys && p in parents;
      ParentAbove(all, byId, g);
    }
    assert RankedByParent(all, rank);
  }

  /** A goal's height: 4 for "someday" down to 0 for "weekly"; 5 for an id
      that names no goal. */
  function Height(byId: map<string, GoalItem>, x: string): nat {
    if x in byId && LevelRank(byId[x].level) <= 4 then 4 - LevelRank(byId[x].level) else 5
  }

  lemma LevelRankBound(level: string)
    requires level in LevelOrder
    ensures LevelRank(level) <= 4
  {
  }

  /** The parent of a goal is higher than the goal. */
  lemma ParentAbove(all: seq<GoalItem>, byId: map<string, GoalItem>, g: GoalItem)
    requires forall h :: h in all ==> h.id in byId && byId[h.id] == h
    requires byId.Keys == KeySet(all, GoalId)
    requires forall h :: h in all ==> h.level in LevelOrder
    requires forall g, h :: g in all && h in all && g.parentId == Some(h.id) ==>
      LevelOrder[h.level] + 1 == LevelOrder[g.level]
    requires g in all && g.parentId.Some?
    ensures Height(byId, g.id) < Height(byId, g.parentId.value)
  {
    var p := g.parentId.value;
    LevelRankBound(g.level);
    if p in byId {
      var h :| h in all && h.id == p;
      LevelRankBound(h.level);
    }
  }

  lemma {:induction false} RootsCount(goals: seq<GoalItem>, byId: map<string, GoalItem>, g: GoalItem)
    requires forall h :: h in goals ==> h.id in byId && byId[h.id] == h
    requires UniqueKeys(goals, GoalId)
    ensures multiset(Roots(goals, byId))[g] == if g in goals && IsRoot(g, byId.Keys) then 1 else 0
  {
    if goals != [] {
      UniqueInit(goals, GoalId);
      RootsCount(goals[..|goals| - 1], byId, g);
      RootsCountStep(goals, byId, g);
    }
  }

  lemma RootsCountStep(goals: seq<GoalItem>, byId: map<string, GoalItem>, g: GoalItem)
    requires goals != []
    requires forall h :: h in goals ==> h.id in byId && byId[h.id] == h
    requires forall h :: h in goals[..|goals| - 1] ==> h.id != goals[|goals| - 1].id
    requires multiset(Roots(goals[..|goals| - 1], byId))[g] ==
      if g in goals[..|goals| - 1] && IsRoot(g, byId.Keys) then 1 else 0
    ensures multiset(Roots(goals, byId))[g] == if g in goals && IsRoot(g, byId.Keys) then 1 else 0
  {
    var init, last := goals[..|goals| - 1], goals[|goals| - 1];
    var tail := if IsRoot(last, byId.Keys) then [last] else [];
    assert byId[last.id] == last;
    assert Roots(goals, byId) == Roots(init, byId) + tail;
    assert multiset(Roots(goals, byId)) == multiset(Roots(init, byId)) + multiset(tail);
    InOrLast(goals, g);
    if last == g {
      assert g !in init;
    }
  }

  /** A record is in a non-empty list exactly when it is in all but the last
      position or is the last one. */
  lemma InOrLast<T>(s: seq<T>, x: T)
    requires s != []
    ensures x in s <==> x in s[..|s| - 1] || x == s[|s| - 1]
  {
    assert s == s[..|s| - 1] + [s[|s| - 1]];
  }

  lemma {:induction false} ChildrenCount(goals: seq<GoalItem>, byId: map<string, GoalItem>, p: string, g: GoalItem)
    requires forall h :: h in goals ==> h.id in byId && byId[h.id] == h
    requires UniqueKeys(goals, GoalId)
    ensures multiset(Children(goals, byId, p))[g] ==
      if g in goals && !IsRoot(g, byId.Keys) && g.parentId.value == p then 1 else 0
  {
    if goals != [] {
      UniqueInit(goals, GoalId);
      ChildrenCount(goals[..|goals| - 1], byId, p, g);
      ChildrenCountStep(goals, byId, p, g);
    }
  }

  lemma ChildrenCountStep(goals: seq<GoalItem>, byId: map<string, GoalItem>, p: string, g: GoalItem)
    requires goals != []
    requires forall h :: h in goals ==> h.id in byId && byId[h.id] == h
    requires forall h :: h in goals[..|goals| - 1] ==> h.id != goals[|goals| - 1].id
    requires multiset(Children(goals[..|goals| - 1], byId, p))[g] ==
      if g in goals[..|goals| - 1] && !IsRoot(g, byId.Keys) && g.parentId.value == p then 1 else 0
    ensures multiset(Children(goals, byId, p))[g] ==
      if g in goals && !IsRoot(g, byId.Keys) && g.parentId.value == p then 1 else 0
  {
    var init, last := goals[..|goals| - 1], goals[|goals| - 1];
    var tail := if !IsRoot(last, byId.Keys) && last.parentId.value == p then [last] else [];
    assert byId[last.id] == last;
    assert Children(goals, byId, p) == Children(init, byId, p) + tail;
    assert multiset(Children(goals, byId, p)) == multiset(Children(init, byId, p)) + multiset(tail);
    InOrLast(goals, g);
    if last == g {
      assert g !in init;
    }
  }

  /** The roots are ordered someday, 5year, 1year, monthly, weekly, keeping list
      order within a level, and are a permutation of the collected roots. */
  lemma RootsOrdered(activeGoals: seq<GoalItem>, k: int)
    ensures var roots := Roots(activeGoals, ById(activeGoals));
      var sorted := SortByRank(roots, GoalLevelRank);
      && SortedBy(sorted, GoalLevelRank)
      && multiset(sorted) == multiset(roots)
      && WithKey(sorted, GoalLevelRank, k) == WithKey(roots, GoalLevelRank, k)
  {
    SortByRankStable(Roots(activeGoals, ById(activeGoals)), GoalLevelRank, k);
  }

  // ---------------------------------------------------------------------------
  // Task order
  // ---------------------------------------------------------------------------

  /** The sort rank of a task priority (`priorityOrder`); unknown ones sort last. */
  function PriorityRank(t: TodoItem): int {
    if t.priority == "high" then 0
    else if t.priority == "medium" then 1
    else if t.priority == "low" then 2
    else 3
  }

  function OneThingTasks(todos: seq<TodoItem>): (r: seq<TodoItem>)
    ensures forall t :: t in r <==> t in todos && t.priority == "one_thing"
  {
    if todos == [] then []
    else (if todos[0].priority == "one_thing" then [todos[0]] else []) + OneThingTasks(todos[1..])
  }

  function OtherTasks(todos: seq<TodoItem>): (r: seq<TodoItem>)
    ensures forall t :: t in r <==> t in todos && t.priority != "one_thing"
  {
    if todos == [] then []
    else (if todos[0].priority != "one_thing" then [todos[0]] else []) + OtherTasks(todos[1..])
  }

  /** The active-task display order of `renderTodos`: the ONE Thing tasks in
      list order, then the remaining tasks by priority. */
  function TaskOrder(activeTodos: seq<TodoItem>): (r: seq<TodoItem>)
    ensures multiset(r) == multiset(activeTodos)
  {
    SplitPermutes(activeTodos);
    OneThingTasks(activeTodos) + SortByRank(OtherTasks(activeTodos), PriorityRank)
  }

  /** The display lists every active task once, the ONE Thing tasks first, and
      the others ordered high, medium, low. */
  lemma TaskOrderIsPartitionedSort(activeTodos: seq<TodoItem>)
    ensures multiset(TaskOrder(activeTodos)) == multiset(activeTodos)
    ensures |TaskOrder(activeTodos)| == |activeTodos|
    ensures var n := |OneThingTasks(activeTodos)|;
      && (forall i :: 0 <= i < n ==> TaskOrder(activeTodos)[i].priority == "one_thing")
      && (forall i :: n <= i < |TaskOrder(activeTodos)| ==> TaskOrder(activeTodos)[i].priority != "one_thing")
      && SortedBy(TaskOrder(activeTodos)[n..], PriorityRank)
  {
    SplitPermutes(activeTodos);
    var one := OneThingTasks(activeTodos);
    var rest := SortByRank(OtherTasks(activeTodos), PriorityRank);
    var order := TaskOrder(activeTodos);
    assert order[|one|..] == rest;
    assert |order| == |activeTodos| by {
      assert |multiset(order)| == |multiset(activeTodos)|;
    }
    forall i | 0 <= i < |one|
      ensures order[i].priority == "one_thing"
    {
      assert order[i] == one[i] && one[i] in one;
    }
    forall i | |one| <= i < |activeTodos|
      ensures order[i].priority != "one_thing"
    {
      assert order[i] == rest[i - |one|];
      assert rest[i - |one|] in multiset(rest);
    }
  }

  lemma {:induction false} SplitPermutes(todos: seq<TodoItem>)
    ensures multiset(OneThingTasks(todos)) + multiset(OtherTasks(todos)) == multiset(todos)
  {
    if todos != [] {
      SplitPermutes(todos[1..]);
      assert todos == [todos[0]] + todos[1..];
    }
  }

  // ---------------------------------------------------------------------------
  // The planner object
  // ---------------------------------------------------------------------------

  class TodoApp {
    var activeGoals: seq<GoalItem>
    var completedGoals: seq<GoalItem>
    var activeTodos: seq<TodoItem>
    var completedTodos: seq<TodoItem>
    var deletedItem: Option<Item>

    function State(): Lists
      reads this
    {
      Lists(activeGoals, completedGoals, activeTodos, completedTodos, deletedItem)
    }

    constructor ()
      ensures State() == Lists([], [], [], [], None)
    {
      activeGoals, completedGoals, activeTodos, completedTodos := [], [], [], [];
      deletedItem := None;
    }

    method CompleteGoal(goalId: string, now: string) returns (ok: bool)
      modifies this
      ensures ok <==> goalId in KeySet(old(activeGoals), GoalId)
      ensures State() == AfterCompleteGoal(old(State()), goalId, now)
    {
      var goal := FirstWith(activeGoals, GoalId, goalId);
      if goal.None? {
        return false;
      }
      var g := goal.value.(completed := true, completedAt := Some(now));
      activeGoals := Keep(activeGoals, GoalId, {goalId});
      completedGoals := completedGoals + [g];
      ok := true;
    }

    method ReactivateGoal(goalId: string) returns (ok: bool)
      modifies this
      ensures ok <==> goalId in KeySet(old(completedGoals), GoalId)
      ensures State() == AfterReactivateGoal(old(State()), goalId)
    {
      var goal := FirstWith(completedGoals, GoalId, goalId);
      if goal.None? {
        return false;
      }
      var g := goal.value.(completed := false, completedAt := None);
      completedGoals := Keep(completedGoals, GoalId, {goalId});
      activeGoals := activeGoals + [g];
      ok := true;
    }

    method CompleteTodo(todoId: string, now: string) returns (ok: bool)
      modifies this
      ensures ok <==> todoId in KeySet(old(activeTodos), TodoId)
      ensures State() == AfterCompleteTodo(old(State()), todoId, now)
    {
      var todo := FirstWith(activeTodos, TodoId, todoId);
      if todo.None? {
        return false;
      }
      var t := todo.value.(completed := true, completedAt := Some(now));
      if t.isDaily {
        t := t.(lastCompleted := Some(DatePart(now)));
      }
      activeTodos := Keep(activeTodos, TodoId, {todoId});
      completedTodos := completedTodos + [t];
      ok := true;
    }

    method ReactivateTodo(todoId: string) returns (ok: bool)
      modifies this
      ensures ok <==> todoId in KeySet(old(completedTodos), TodoId)
      ensures State() == AfterReactivateTodo(old(State()), todoId)
    {
      var todo := FirstWith(completedTodos, TodoId, todoId);
      if todo.None? {
        return false;
      }
      var t := todo.value.(completed := false, completedAt := None);
      completedTodos := Keep(completedTodos, TodoId, {todoId});
      activeTodos := activeTodos + [t];
      ok := true;
    }

    method DeleteGoal(goalId: string)
      modifies this
      ensures State() == AfterDeleteGoal(old(State()), goalId)
    {
      activeGoals := Keep(activeGoals, GoalId, {goalId});
      completedGoals := Keep(completedGoals, GoalId, {goalId});
    }

    method DeleteTodo(todoId: string)
      modifies this
      ensures State() == AfterDeleteTodo(old(State()), todoId)
    {
      var todo := FirstWith(activeTodos + completedTodos, TodoId, todoId);
      deletedItem := if todo.Some? then Some(TodoEntry(todo.value)) else None;
      activeTodos := Keep(activeTodos, TodoId, {todoId});
      completedTodos := Keep(completedTodos, TodoId, {todoId});
    }

    /** `deleteGoalWithConfirmation`: when confirmed, deletes the goal and its
        descendants (found through `parentId` among all goals) together with
        every task linked to any of them. */
    method DeleteGoalWithConfirmation(goalId: string, confirmed: bool, ghost rank: map<string, nat>)
      requires RankedByParent(activeGoals + completedGoals, rank)
      modifies this
      ensures !confirmed ==> State() == old(State())
      ensures confirmed ==>
        State() == Cascade(old(State()), [goalId] + Descendants(old(activeGoals + completedGoals), goalId, rank))
    {
      if !confirmed {
        return;
      }
      ghost var st0 := State();
      var goalsToDelete := FindChildren(activeGoals + completedGoals, goalId, rank, [goalId]);
      var k := 0;
      ghost var done: seq<string> := [];
      while k < |goalsToDelete|
        invariant 0 <= k <= |goalsToDelete| && done == goalsToDelete[..k]
        invariant State() == Cascade(st0, done)
      {
        var gid := goalsToDelete[k];
        CascadeStep(st0, goalsToDelete, k);
        DeleteGoal(gid);
        DeleteLinkedTodos(gid);
        done := goalsToDelete[..k + 1];
        k := k + 1;
      }
      assert done == goalsToDelete;
    }

    /** The inner loop of `deleteGoalWithConfirmation`: deletes every task
        linked to `gid`, one by one. */
    method DeleteLinkedTodos(gid: string)
      modifies this
      ensures State() == DeleteTodos(old(State()), LinkedTodos(old(activeTodos + completedTodos), gid))
    {
      ghost var goalGone := State();
      var linked := LinkedTodos(activeTodos + completedTodos, gid);
      var j := 0;
      ghost var done: seq<TodoItem> := [];
      while j < |linked|
        invariant 0 <= j <= |linked| && done == linked[..j]
        invariant State() == DeleteTodos(goalGone, done)
      {
        DeleteTodosStep(goalGone, linked, j);
        DeleteTodo(linked[j].id);
        done := linked[..j + 1];
        j := j + 1;
      }
      assert done == linked;
    }

    method HandleNotificationAction()
      modifies this
      ensures State() == AfterUndo(old(State()))
    {
      match deletedItem {
        case None =>
        case Some(GoalEntry(g)) =>
          activeGoals := activeGoals + [g];
          deletedItem := None;
        case Some(TodoEntry(t)) =>
          activeTodos := activeTodos + [t];
          deletedItem := None;
      }
    }
  }
}
