/** The in-memory task store of js/taskManager.js: the task record, the
    TaskManager object that owns the list of tasks, its mutators and its
    read-only queries. Timestamps are integers (milliseconds); ids and the
    current time are parameters. */
module TaskStore {
  import opened Common
  import opened Text

  type TaskId = string

  /** One to-do record, as stored in `this.tasks`. */
  datatype Task = Task(
    id: TaskId,
    title: string,
    description: string,
    category: string,
    priority: string,
    dueDate: Option<int>,
    completed: bool,
    createdAt: int,
    updatedAt: int,
    position: int)

  /** The argument of `addTask`. A missing field is the empty string, or None for the due date. */
  datatype TaskInput = TaskInput(
    title: string,
    description: string,
    category: string,
    priority: string,
    dueDate: Option<int>)

  /** The argument of `updateTask`: the fields it spreads over the existing record.
      `dueDate: Some(None)` sets the due date to `null`. */
  datatype Patch = Patch(
    title: Option<string>,
    description: Option<string>,
    category: Option<string>,
    priority: Option<string>,
    dueDate: Option<Option<int>>,
    completed: Option<bool>,
    position: Option<int>)

  const NoChanges := Patch(None, None, None, None, None, None, None)

  /** One `{id, position}` pair passed to `updateTaskPositions`. */
  datatype PositionUpdate = PositionUpdate(id: TaskId, position: int)

  /** What the storage key `tasks` holds when the store is created. */
  datatype Stored = Absent | Corrupt | Saved(tasks: seq<Task>)

  const MillisPerHour := 60 * 60 * 1000

  ghost predicate UniqueIds(ts: seq<Task>) {
    forall i, j :: 0 <= i < j < |ts| ==> ts[i].id != ts[j].id
  }

  predicate IdFresh(ts: seq<Task>, id: TaskId) {
    forall i :: 0 <= i < |ts| ==> ts[i].id != id
  }

  /** JavaScript's `value || fallback` on a string. */
  function OrDefault(value: string, fallback: string): string {
    if value == "" then fallback else value
  }

  /** `tasks.findIndex(task => task.id === id)`: the first index holding `id`, or -1. */
  function FindIndex(ts: seq<Task>, id: TaskId): (k: int)
    ensures -1 <= k < |ts|
    ensures k >= 0 ==> ts[k].id == id && forall j :: 0 <= j < k ==> ts[j].id != id
    ensures k == -1 <==> IdFresh(ts, id)
    decreases |ts|
  {
    if ts == [] then -1
    else if ts[0].id == id then 0
    else
      var k := FindIndex(ts[1..], id);
      if k == -1 then -1 else k + 1
  }

  /** FindIndex depends on the ids alone. */
  lemma FindIndexSameIds(a: seq<Task>, b: seq<Task>, id: TaskId)
    requires |a| == |b| && forall k :: 0 <= k < |a| ==> a[k].id == b[k].id
    ensures FindIndex(a, id) == FindIndex(b, id)
  {
    var i, j := FindIndex(a, id), FindIndex(b, id);
    if i >= 0 && j >= 0 {
      assert a[j].id == id && b[i].id == id;
    }
  }

  /** Appending a task with a fresh id makes it findable at the end and moves no other id. */
  lemma FindIndexAppendFresh(ts: seq<Task>, t: Task, id: TaskId)
    requires IdFresh(ts, t.id)
    ensures FindIndex(ts + [t], t.id) == |ts|
    ensures id != t.id ==> FindIndex(ts + [t], id) == FindIndex(ts, id)
  {
    var s := ts + [t];
    assert forall j :: 0 <= j < |ts| ==> s[j] == ts[j];
    assert s[|ts|] == t;
    assert forall j :: 0 <= j < |ts| ==> s[j].id != t.id;
    var k := FindIndex(s, id);
    if id != t.id && k >= 0 {
      assert s[k] == ts[k];
    }
  }

  /** With unique ids, looking up a task's own id finds that task. */
  lemma FindIndexOfUnique(ts: seq<Task>, k: nat)
    requires UniqueIds(ts) && k < |ts|
    ensures FindIndex(ts, ts[k].id) == k
  {
    var j := FindIndex(ts, ts[k].id);
    assert ts[j].id == ts[k].id;
  }

  /** Edits that keep the id at every index keep ids unique. */
  lemma SameIdsKeepUnique(a: seq<Task>, b: seq<Task>)
    requires |a| == |b| && forall k :: 0 <= k < |a| ==> a[k].id == b[k].id
    ensures UniqueIds(a) ==> UniqueIds(b)
  {
  }

  /** A tasks list with every task of id `id` removed: the filter of `deleteTask`. */
  function Without(ts: seq<Task>, id: TaskId): (r: seq<Task>)
    ensures IsSubseq(r, ts)
    ensures forall t :: t in r <==> t in ts && t.id != id
    ensures forall t :: multiset(r)[t] == if t.id != id then multiset(ts)[t] else 0
    ensures |r| < |ts| <==> !IdFresh(ts, id)
    ensures IdFresh(ts, id) ==> r == ts
  {
    var p := (t: Task) => t.id != id;
    FilterMultiset(ts, p);
    Filter(ts, p)
  }

  lemma WithoutKeepsUniqueIds(ts: seq<Task>, id: TaskId)
    requires UniqueIds(ts)
    ensures UniqueIds(Without(ts, id))
  {
    FilterKeepsUniqueIds(ts, (t: Task) => t.id != id);
  }

  lemma {:induction false} FilterKeepsUniqueIds(ts: seq<Task>, p: Task -> bool)
    requires UniqueIds(ts)
    ensures UniqueIds(Filter(ts, p))
    decreases |ts|
  {
    if ts != [] {
      var rest := Filter(ts[1..], p);
      assert UniqueIds(ts[1..]);
      FilterKeepsUniqueIds(ts[1..], p);
      if p(ts[0]) {
        assert ts == [ts[0]] + ts[1..];
        assert Filter(ts, p) == [ts[0]] + rest;
        forall j | 0 <= j < |rest|
          ensures rest[j].id != ts[0].id
        {
          assert rest[j] in ts[1..];
        }
      }
    }
  }

  /** The record `updateTask` builds: `{...task, ...patch, updatedAt: now}`. */
  function Merge(t: Task, p: Patch, now: int): (r: Task)
    ensures r.id == t.id && r.createdAt == t.createdAt && r.updatedAt == now
    ensures p == NoChanges ==> r == t.(updatedAt := now)
  {
    t.(title := p.title.GetOr(t.title),
       description := p.description.GetOr(t.description),
       category := p.category.GetOr(t.category),
       priority := p.priority.GetOr(t.priority),
       dueDate := p.dueDate.GetOr(t.dueDate),
       completed := p.completed.GetOr(t.completed),
       position := p.position.GetOr(t.position),
       updatedAt := now)
  }

  /** The tasks after `toggleTaskCompletion(id)` at time `now`. */
  function ToggledIn(ts: seq<Task>, id: TaskId, now: int): (r: seq<Task>)
    ensures |r| == |ts|
    ensures forall k :: 0 <= k < |ts| ==> r[k].id == ts[k].id
  {
    var k := FindIndex(ts, id);
    if k == -1 then ts else ts[k := ts[k].(completed := !ts[k].completed, updatedAt := now)]
  }

  /** Toggling twice restores the completion flag; only `updatedAt` of the first task with that id has moved. */
  lemma ToggleTwice(ts: seq<Task>, id: TaskId, now1: int, now2: int)
    ensures var k := FindIndex(ts, id);
      ToggledIn(ToggledIn(ts, id, now1), id, now2) == if k == -1 then ts else ts[k := ts[k].(updatedAt := now2)]
  {
    FindIndexSameIds(ts, ToggledIn(ts, id, now1), id);
  }

  /** One step of `updateTaskPositions`: the first task with the pair's id gets the pair's position. */
  function SetPosition(ts: seq<Task>, u: PositionUpdate): (r: seq<Task>)
    ensures |r| == |ts|
    ensures forall k :: 0 <= k < |ts| ==> r[k] == ts[k].(position := r[k].position)
    ensures forall k :: 0 <= k < |ts| ==> r[k].position == if k == FindIndex(ts, u.id) then u.position else ts[k].position
  {
    var k := FindIndex(ts, u.id);
    if k == -1 then ts else ts[k := ts[k].(position := u.position)]
  }

  /** The tasks after applying `pairs` in order. */
  function ApplyPositions(ts: seq<Task>, pairs: seq<PositionUpdate>): (r: seq<Task>)
    ensures |r| == |ts|
    ensures forall k :: 0 <= k < |ts| ==> r[k] == ts[k].(position := r[k].position)
    decreases |pairs|
  {
    if pairs == [] then ts
    else SetPosition(ApplyPositions(ts, pairs[..|pairs| - 1]), pairs[|pairs| - 1])
  }

  lemma ApplyPositionsKeepsUniqueIds(ts: seq<Task>, pairs: seq<PositionUpdate>)
    ensures UniqueIds(ts) ==> UniqueIds(ApplyPositions(ts, pairs))
  {
    SameIdsKeepUnique(ts, ApplyPositions(ts, pairs));
  }

  /** The position of the last pair naming `id`, if any pair does. */
  function LastPosition(pairs: seq<PositionUpdate>, id: TaskId): Option<int>
    decreases |pairs|
  {
    if pairs == [] then None
    else if pairs[|pairs| - 1].id == id then Some(pairs[|pairs| - 1].position)
    else LastPosition(pairs[..|pairs| - 1], id)
  }

  /** `updateTaskPositions` changes only positions; the first task holding an id
      named by some pair takes the position of the LAST such pair, and every other
      task (unknown ids, later duplicates of an id) keeps its position. */
  lemma {:induction false} ApplyPositionsEffect(ts: seq<Task>, pairs: seq<PositionUpdate>)
    ensures |ApplyPositions(ts, pairs)| == |ts|
    ensures forall k :: 0 <= k < |ts| ==>
      ApplyPositions(ts, pairs)[k] == ts[k].(position := ApplyPositions(ts, pairs)[k].position)
    ensures forall k :: 0 <= k < |ts| ==>
      ApplyPositions(ts, pairs)[k].position ==
        if FindIndex(ts, ts[k].id) == k && LastPosition(pairs, ts[k].id).Some?
        then LastPosition(pairs, ts[k].id).value
        else ts[k].position
    decreases |pairs|
  {
    if pairs != [] {
      var init, u := pairs[..|pairs| - 1], pairs[|pairs| - 1];
      var mid := ApplyPositions(ts, init);
      ApplyPositionsEffect(ts, init);
      FindIndexSameIds(ts, mid, u.id);
      var r := ApplyPositions(ts, pairs);
      assert r == SetPosition(mid, u);
      forall k | 0 <= k < |ts|
        ensures r[k].position ==
          if FindIndex(ts, ts[k].id) == k && LastPosition(pairs, ts[k].id).Some?
          then LastPosition(pairs, ts[k].id).value
          else ts[k].position
      {
        var j := FindIndex(ts, u.id);
        if ts[k].id == u.id {
          assert LastPosition(pairs, ts[k].id) == Some(u.position);
          if j != k {
            assert FindIndex(ts, ts[k].id) == j;
          }
        } else {
          assert LastPosition(pairs, ts[k].id) == LastPosition(init, ts[k].id);
        }
      }
    }
  }

  predicate SortedByPosition(ts: seq<Task>) {
    forall i, j :: 0 <= i < j < |ts| ==> ts[i].position <= ts[j].position
  }

  /** Putting a task in front of a sorted list whose head it does not exceed keeps it sorted. */
  lemma PrependSorted(t: Task, s: seq<Task>)
    requires SortedByPosition(s) && (s != [] ==> t.position <= s[0].position)
    ensures SortedByPosition([t] + s)
  {
    var r := [t] + s;
    forall i, j | 0 <= i < j < |r|
      ensures r[i].position <= r[j].position
    {
      if i > 0 {
        assert r[i] == s[i - 1] && r[j] == s[j - 1];
      } else if j > 1 {
        assert s[0].position <= s[j - 1].position;
      }
    }
  }

  /** Puts `t` in front of the first task whose position is not below its own. */
  function InsertByPosition(t: Task, s: seq<Task>): (r: seq<Task>)
    requires SortedByPosition(s)
    ensures SortedByPosition(r)
    ensures multiset(r) == multiset(s) + multiset{t}
    ensures |r| == |s| + 1 && (r[0] == t || (s != [] && r[0] == s[0]))
    decreases |s|
  {
    if s == [] || t.position <= s[0].position then
      PrependSorted(t, s);
      [t] + s
    else
      assert SortedByPosition(s[1..]);
      var rest := InsertByPosition(t, s[1..]);
      assert s == [s[0]] + s[1..];
      assert |s| > 1 ==> s[0].position <= s[1].position;
      PrependSorted(s[0], rest);
      [s[0]] + rest
  }

  /** The tasks of `ts` at position `pos`, in their order in `ts`. */
  function WithPosition(ts: seq<Task>, pos: int): seq<Task>
    decreases |ts|
  {
    if ts == [] then [] else (if ts[0].position == pos then [ts[0]] else []) + WithPosition(ts[1..], pos)
  }

  lemma WithPositionCons(x: Task, s: seq<Task>, pos: int)
    ensures WithPosition([x] + s, pos) == (if x.position == pos then [x] else []) + WithPosition(s, pos)
  {
    assert ([x] + s)[0] == x && ([x] + s)[1..] == s;
  }

  /** Inserting a task puts it in front of every task of its own position already there. */
  lemma {:induction false} InsertByPositionStable(t: Task, s: seq<Task>, pos: int)
    requires SortedByPosition(s)
    ensures WithPosition(InsertByPosition(t, s), pos) == (if t.position == pos then [t] else []) + WithPosition(s, pos)
    decreases |s|
  {
    var mid := if t.position == pos then [t] else [];
    if s == [] || t.position <= s[0].position {
      assert InsertByPosition(t, s) == [t] + s;
      WithPositionCons(t, s, pos);
    } else {
      assert SortedByPosition(s[1..]);
      var rest, tail := InsertByPosition(t, s[1..]), WithPosition(s[1..], pos);
      var head := if s[0].position == pos then [s[0]] else [];
      assert WithPosition(InsertByPosition(t, s), pos) == head + WithPosition(rest, pos) by {
        assert InsertByPosition(t, s) == [s[0]] + rest;
        WithPositionCons(s[0], rest, pos);
      }
      assert WithPosition(rest, pos) == mid + tail by {
        InsertByPositionStable(t, s[1..], pos);
      }
      assert WithPosition(s, pos) == head + tail;
      // s[0] stays in front of t only when t's position is larger, so at most one of them is kept
      if head == [] {
        assert head + (mid + tail) == mid + tail && head + tail == tail;
      } else {
        assert mid == [] && mid + tail == tail && mid + (head + tail) == head + tail;
      }
    }
  }

  /** `[...tasks].sort((a, b) => a.position - b.position)`, as a stable insertion sort. */
  function SortByPosition(ts: seq<Task>): (r: seq<Task>)
    ensures SortedByPosition(r)
    ensures multiset(r) == multiset(ts)
    decreases |ts|
  {
    if ts == [] then []
    else
      assert ts == [ts[0]] + ts[1..];
      InsertByPosition(ts[0], SortByPosition(ts[1..]))
  }

  /** The sort is stable: the tasks sharing any one position come out in their input order. */
  lemma {:induction false} SortByPositionStable(ts: seq<Task>, pos: int)
    ensures WithPosition(SortByPosition(ts), pos) == WithPosition(ts, pos)
    decreases |ts|
  {
    if ts != [] {
      SortByPositionStable(ts[1..], pos);
      InsertByPositionStable(ts[0], SortByPosition(ts[1..]), pos);
    }
  }

  /** The due-soon test of `getTasksDueSoon(hours)`: not completed, dated, due after
      now and no later than `hours` hours from now. */
  predicate IsDueSoon(t: Task, now: int, hours: int) {
    t.dueDate.Some? && !t.completed && now < t.dueDate.value <= now + hours * MillisPerHour
  }

  /** The test of `getOverdueTasks`: not completed, dated, due strictly before now. */
  predicate IsOverdue(t: Task, now: int) {
    t.dueDate.Some? && !t.completed && t.dueDate.value < now
  }

  /** The test of `searchTasks` once the query is lower-cased. */
  predicate MatchesQuery(t: Task, lowerQuery: string) {
    Contains(Lower(t.title), lowerQuery) || Contains(Lower(t.description), lowerQuery)
  }

  function CategoryColumn(ts: seq<Task>): (cs: seq<string>)
    ensures |cs| == |ts| && forall k :: 0 <= k < |ts| ==> cs[k] == ts[k].category
  {
    seq(|ts|, k requires 0 <= k < |ts| => ts[k].category)
  }

  /** The `forEach` of `deleteTask`: every task's position becomes its index. */
  method Renumber(ts: seq<Task>) returns (r: seq<Task>)
    ensures |r| == |ts|
    ensures forall k :: 0 <= k < |ts| ==> r[k] == ts[k].(position := k)
  {
    r := ts;
    var i := 0;
    while i < |r|
      invariant 0 <= i <= |r| == |ts|
      invariant forall k :: 0 <= k < i ==> r[k] == ts[k].(position := k)
      invariant forall k :: i <= k < |r| ==> r[k] == ts[k]
    {
      r := r[i := r[i].(position := i)];
      i := i + 1;
    }
  }

  /** The task store: `this.tasks` and, as a ghost, the snapshot last written to storage. */
  class TaskManager {
    var tasks: seq<Task>
    ghost var saved: Option<seq<Task>>

    /** `new TaskManager()` with `loadFromLocalStorage`: a missing, empty or unparsable entry gives no tasks. */
    constructor (stored: Stored)
      ensures tasks == (if stored.Saved? then stored.tasks else [])
      ensures saved == (if stored.Saved? then Some(stored.tasks) else None)
    {
      tasks := if stored.Saved? then stored.tasks else [];
      saved := if stored.Saved? then Some(stored.tasks) else None;
    }

    /** `getAllTasks`: a copy of the list. */
    function GetAllTasks(): (r: seq<Task>)
      reads this
      ensures r == tasks
    {
      tasks
    }

    /** `getTaskById`: the first task with that id, or None. */
    function GetTaskById(id: TaskId): (r: Option<Task>)
      reads this
      ensures r.None? <==> IdFresh(tasks, id)
      ensures r.Some? ==> r.value in tasks && r.value.id == id
      ensures r.Some? ==> forall j :: 0 <= j < |tasks| && tasks[j] != r.value ==>
        tasks[j].id != id || exists i :: 0 <= i < j && tasks[i] == r.value
    {
      var k := FindIndex(tasks, id);
      if k == -1 then None else Some(tasks[k])
    }

    /** `addTask`: appends one new task at the end with the defaults filled in. */
    method AddTask(data: TaskInput, id: TaskId, now: int) returns (t: Task)
      requires IdFresh(tasks, id)
      modifies this
      ensures tasks == old(tasks) + [t]
      ensures t.id == id && t.title == data.title && t.description == data.description
      ensures t.category == OrDefault(data.category, "other")
      ensures t.priority == OrDefault(data.priority, "medium")
      ensures t.dueDate == data.dueDate && !t.completed
      ensures t.createdAt == now && t.updatedAt == now
      ensures t.position == |old(tasks)|
      ensures GetTaskById(id) == Some(t)
      ensures UniqueIds(old(tasks)) ==> UniqueIds(tasks)
      ensures saved == Some(tasks)
    {
      t := Task(id, data.title, OrDefault(data.description, ""), OrDefault(data.category, "other"),
                OrDefault(data.priority, "medium"), data.dueDate, false, now, now, |tasks|);
      FindIndexAppendFresh(tasks, t, id);
      tasks := tasks + [t];
      saved := Some(tasks);
    }

    /** `updateTask`: merges the patch into the first task with that id. */
    method UpdateTask(id: TaskId, patch: Patch, now: int) returns (r: Option<Task>)
      modifies this
      ensures var k := FindIndex(old(tasks), id);
        if k == -1 then r == None && tasks == old(tasks) && saved == old(saved)
        else r == Some(Merge(old(tasks)[k], patch, now)) && tasks == old(tasks)[k := r.value] && saved == Some(tasks)
      ensures UniqueIds(old(tasks)) ==> UniqueIds(tasks)
    {
      var k := FindIndex(tasks, id);
      if k == -1 {
        return None;
      }
      var updated := Merge(tasks[k], patch, now);
      tasks := tasks[k := updated];
      saved := Some(tasks);
      r := Some(updated);
    }

    /** `deleteTask`: removes every task with that id and renumbers the survivors densely. */
    method DeleteTask(id: TaskId) returns (deleted: bool)
      modifies this
      ensures deleted <==> !IdFresh(old(tasks), id)
      ensures !deleted ==> tasks == old(tasks) && saved == old(saved)
      ensures deleted ==> |tasks| == |Without(old(tasks), id)| && saved == Some(tasks)
      ensures deleted ==> forall k :: 0 <= k < |tasks| ==> tasks[k] == Without(old(tasks), id)[k].(position := k)
      ensures UniqueIds(old(tasks)) ==> UniqueIds(tasks)
    {
      var initialLength := |tasks|;
      if UniqueIds(tasks) {
        WithoutKeepsUniqueIds(tasks, id);
      }
      tasks := Without(tasks, id);
      if |tasks| == initialLength {
        return false;
      }
      ghost var kept := tasks;
      tasks := Renumber(tasks);
      SameIdsKeepUnique(kept, tasks);
      saved := Some(tasks);
      return true;
    }

    /** `toggleTaskCompletion`: flips `completed` of the first task with that id. */
    method ToggleTaskCompletion(id: TaskId, now: int) returns (r: Option<Task>)
      modifies this
      ensures tasks == ToggledIn(old(tasks), id, now)
      ensures r.None? <==> IdFresh(old(tasks), id)
      ensures r.None? ==> saved == old(saved)
      ensures r.Some? ==> r.value == tasks[FindIndex(old(tasks), id)] && saved == Some(tasks)
      ensures r.Some? ==> r.value.completed == !old(GetTaskById(id)).value.completed && r.value.updatedAt == now
      ensures UniqueIds(old(tasks)) ==> UniqueIds(tasks)
    {
      SameIdsKeepUnique(tasks, ToggledIn(tasks, id, now));
      var k := FindIndex(tasks, id);
      if k == -1 {
        return None;
      }
      var task := tasks[k].(completed := !tasks[k].completed, updatedAt := now);
      tasks := tasks[k := task];
      saved := Some(tasks);
      r := Some(task);
    }

    /** `updateTaskPositions`: applies each pair in turn to the first task with its id. */
    method UpdateTaskPositions(pairs: seq<PositionUpdate>)
      modifies this
      ensures tasks == ApplyPositions(old(tasks), pairs)
      ensures UniqueIds(old(tasks)) ==> UniqueIds(tasks)
      ensures saved == Some(tasks)
    {
      var i := 0;
      while i < |pairs|
        invariant 0 <= i <= |pairs|
        invariant tasks == ApplyPositions(old(tasks), pairs[..i])
      {
        assert ApplyPositions(old(tasks), pairs[..i + 1]) == SetPosition(tasks, pairs[i]) by {
          assert pairs[..i + 1][..i] == pairs[..i];
        }
        var k := FindIndex(tasks, pairs[i].id);
        if k != -1 {
          tasks := tasks[k := tasks[k].(position := pairs[i].position)];
        }
        i := i + 1;
      }
      assert pairs[..|pairs|] == pairs;
      ApplyPositionsKeepsUniqueIds(old(tasks), pairs);
      saved := Some(tasks);
    }

    /** `getTasksByCategory`: everything for "all", else the tasks of that category in order. */
    function GetTasksByCategory(category: string): (r: seq<Task>)
      reads this
      ensures category == "all" ==> r == tasks
      ensures category != "all" ==> IsSubseq(r, tasks) && forall t :: t in r <==> t in tasks && t.category == category
      ensures category != "all" ==> forall t :: multiset(r)[t] == if t.category == category then multiset(tasks)[t] else 0
    {
      if category == "all" then tasks
      else
        var p := (t: Task) => t.category == category;
        FilterMultiset(tasks, p);
        Filter(tasks, p)
    }

    /** `getTasksByCompletionStatus`. */
    function GetTasksByCompletionStatus(completed: bool): (r: seq<Task>)
      reads this
      ensures IsSubseq(r, tasks)
      ensures forall t :: t in r <==> t in tasks && t.completed == completed
      ensures forall t :: multiset(r)[t] == if t.completed == completed then multiset(tasks)[t] else 0
    {
      var p := (t: Task) => t.completed == completed;
      FilterMultiset(tasks, p);
      Filter(tasks, p)
    }

    /** `getTasksByPriority`. */
    function GetTasksByPriority(priority: string): (r: seq<Task>)
      reads this
      ensures IsSubseq(r, tasks)
      ensures forall t :: t in r <==> t in tasks && t.priority == priority
      ensures forall t :: multiset(r)[t] == if t.priority == priority then multiset(tasks)[t] else 0
    {
      var p := (t: Task) => t.priority == priority;
      FilterMultiset(tasks, p);
      Filter(tasks, p)
    }

    /** `getTasksByDateRange`: dated tasks with `start <= dueDate <= end`. */
    function GetTasksByDateRange(start: int, end: int): (r: seq<Task>)
      reads this
      ensures IsSubseq(r, tasks)
      ensures forall t :: t in r <==> t in tasks && t.dueDate.Some? && start <= t.dueDate.value <= end
      ensures forall t :: (multiset(r)[t] ==
        if t.dueDate.Some? && start <= t.dueDate.value <= end then multiset(tasks)[t] else 0)
    {
      var p := (t: Task) => t.dueDate.Some? && start <= t.dueDate.value <= end;
      FilterMultiset(tasks, p);
      Filter(tasks, p)
    }

    /** `searchTasks`: all tasks for the empty query, else the tasks whose lower-cased
        title or description contains the lower-cased query. */
    function SearchTasks(query: string): (r: seq<Task>)
      reads this
      ensures query == "" ==> r == tasks
      ensures IsSubseq(r, tasks)
      ensures forall t :: t in r <==> t in tasks && (query == "" || MatchesQuery(t, Lower(query)))
      ensures forall t :: (multiset(r)[t] ==
        if query == "" || MatchesQuery(t, Lower(query)) then multiset(tasks)[t] else 0)
    {
      if query == "" then
        SubseqRefl(tasks);
        tasks
      else
        var lowerQuery := Lower(query);
        var p := (t: Task) => MatchesQuery(t, lowerQuery);
        FilterMultiset(tasks, p);
        Filter(tasks, p)
    }

    /** `getAllCategories`: each category present once, in order of first use. */
    function GetAllCategories(): (r: seq<string>)
      reads this
      ensures Distinct(r)
      ensures forall c :: c in r <==> c in CategoryColumn(tasks)
      ensures forall c :: c in r <==> exists k :: 0 <= k < |tasks| && tasks[k].category == c
      ensures forall i, j :: 0 <= i < j < |r| ==>
        FirstIndex(CategoryColumn(tasks), r[i]) < FirstIndex(CategoryColumn(tasks), r[j])
    {
      var column := CategoryColumn(tasks);
      DedupFirstOccurrenceOrder(column);
      assert forall c :: c in column <==> exists k :: 0 <= k < |tasks| && tasks[k].category == c by {
        forall c | c in column
          ensures exists k :: 0 <= k < |tasks| && tasks[k].category == c
        {
          var k :| 0 <= k < |column| && column[k] == c;
          assert tasks[k].category == c;
        }
      }
      Dedup(column)
    }

    /** `getTasksSortedByPosition`: the tasks reordered by ascending position. */
    function GetTasksSortedByPosition(): (r: seq<Task>)
      reads this
      ensures multiset(r) == multiset(tasks)
      ensures SortedByPosition(r)
    {
      SortByPosition(tasks)
    }

    /** `getTasksDueSoon(hours)`. */
    function GetTasksDueSoon(now: int, hours: int): (r: seq<Task>)
      reads this
      ensures IsSubseq(r, tasks)
      ensures forall t :: t in r ==> !t.completed && t.dueDate.Some? && now < t.dueDate.value <= now + hours * MillisPerHour
      ensures forall t :: t in tasks && IsDueSoon(t, now, hours) ==> t in r
      ensures forall t :: multiset(r)[t] == if IsDueSoon(t, now, hours) then multiset(tasks)[t] else 0
    {
      var p := (t: Task) => IsDueSoon(t, now, hours);
      FilterMultiset(tasks, p);
      Filter(tasks, p)
    }

    /** `getOverdueTasks`. */
    function GetOverdueTasks(now: int): (r: seq<Task>)
      reads this
      ensures IsSubseq(r, tasks)
      ensures forall t :: t in r ==> !t.completed && t.dueDate.Some? && t.dueDate.value < now
      ensures forall t :: t in tasks && IsOverdue(t, now) ==> t in r
      ensures forall t :: multiset(r)[t] == if IsOverdue(t, now) then multiset(tasks)[t] else 0
    {
      var p := (t: Task) => IsOverdue(t, now);
      FilterMultiset(tasks, p);
      Filter(tasks, p)
    }
  }

  /** A task whose title or description contains the query verbatim is found, whatever the case of either. */
  lemma SearchFindsVerbatim(m: TaskManager, t: Task, query: string)
    requires t in m.tasks && (Contains(t.title, query) || Contains(t.description, query))
    ensures t in m.SearchTasks(query)
  {
    if Contains(t.title, query) {
      ContainsLower(t.title, query);
    } else {
      ContainsLower(t.description, query);
    }
  }

  /** The search ignores case: two queries that agree once lower-cased give the same result. */
  lemma SearchCaseInsensitive(m: TaskManager, q1: string, q2: string)
    requires Lower(q1) == Lower(q2)
    ensures m.SearchTasks(q1) == m.SearchTasks(q2)
  {
    assert |q1| == |Lower(q1)| && |q2| == |Lower(q2)|;
  }

  /** No task is both due soon and overdue. */
  lemma DueSoonOverdueDisjoint(m: TaskManager, now: int, hours: int)
    ensures forall t :: t in m.GetTasksDueSoon(now, hours) ==> t !in m.GetOverdueTasks(now)
  {
  }

  /** A task due one hour ahead is due soon in a 24-hour window; completed, it is neither due soon nor overdue. */
  lemma DueSoonExample(m: TaskManager, now: int, t: Task)
    requires m.tasks == [t] && t.dueDate == Some(now + MillisPerHour)
    ensures !t.completed ==> m.GetTasksDueSoon(now, 24) == [t]
    ensures t.completed ==> m.GetTasksDueSoon(now, 24) == [] && m.GetOverdueTasks(now) == []
  {
    var r := m.GetTasksDueSoon(now, 24);
    if !t.completed {
      assert t in r;
      assert |r| <= 1;
    }
  }

  /** Two tasks, the first undated in "shopping", the second overdue in "other":
      only the second is overdue and the categories come out in insertion order. */
  lemma OverdueAndCategoriesExample(m: TaskManager, now: int, a: Task, b: Task)
    requires m.tasks == [a, b]
    requires a.category == "shopping" && a.dueDate == None
    requires b.category == "other" && b.dueDate == Some(now - 24 * MillisPerHour) && !b.completed
    ensures m.GetOverdueTasks(now) == [b]
    ensures m.GetAllCategories() == ["shopping", "other"]
  {
    var o := m.GetOverdueTasks(now);
    assert b in o && a !in o;
    assert o == Filter([a, b], (t: Task) => IsOverdue(t, now));
    var cs := m.GetAllCategories();
    assert "shopping" in cs && "other" in cs;
    assert |cs| <= 2;
    var column := CategoryColumn(m.tasks);
    assert column == ["shopping", "other"];
    assert FirstIndex(column, "shopping") == 0;
    assert FirstIndex(column, "other") == 1;
  }
}
