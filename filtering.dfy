/** The filter chain of `FilterManager.applyFilters` (js/filterManager.js):
    status, then category, then due-date range, over a snapshot of the store.
    The checkbox values and the date pickers become parameters; the upper
    date bound is already the end of its day. */
module Filtering {
  import opened Common
  import opened TaskStore

  /** The status stage: "all" keeps everything; otherwise "active" and "completed"
      each filter in turn, and an empty selection keeps nothing. */
  function StatusFilter(ts: seq<Task>, statuses: seq<string>): (r: seq<Task>)
    ensures IsSubseq(r, ts)
    ensures forall t :: t in r <==> t in ts && StatusSelected(statuses, t)
    ensures forall t :: multiset(r)[t] == if StatusSelected(statuses, t) then multiset(ts)[t] else 0
  {
    if "all" in statuses then
      SubseqRefl(ts);
      ts
    else
      var open, closed := (t: Task) => !t.completed, (t: Task) => t.completed;
      FilterMultiset(ts, open);
      var active := if "active" in statuses then Filter(ts, open) else ts;
      FilterMultiset(active, closed);
      var done := if "completed" in statuses then Filter(active, closed) else active;
      SubseqRefl(ts);
      SubseqRefl(active);
      SubseqTrans(done, active, ts);
      EmptySubseq(ts);
      if |statuses| == 0 then [] else done
  }

  /** The category stage: "all" keeps everything, otherwise the tasks whose category is selected. */
  function CategoryFilter(ts: seq<Task>, categories: seq<string>): (r: seq<Task>)
    ensures IsSubseq(r, ts)
    ensures forall t :: t in r <==> t in ts && CategorySelected(categories, t)
    ensures forall t :: multiset(r)[t] == if CategorySelected(categories, t) then multiset(ts)[t] else 0
  {
    if "all" in categories then
      SubseqRefl(ts);
      ts
    else
      var p := (t: Task) => t.category in categories;
      FilterMultiset(ts, p);
      Filter(ts, p)
  }

  /** The date stage, with its three branches (both bounds, lower only, upper only). */
  function DateFilter(ts: seq<Task>, from: Option<int>, to: Option<int>): (r: seq<Task>)
    ensures IsSubseq(r, ts)
    ensures forall t :: t in r <==> t in ts && DateSelected(from, to, t)
    ensures forall t :: multiset(r)[t] == if DateSelected(from, to, t) then multiset(ts)[t] else 0
  {
    if from.Some? && to.Some? then
      var p := (t: Task) => t.dueDate.Some? && from.value <= t.dueDate.value && t.dueDate.value <= to.value;
      FilterMultiset(ts, p);
      Filter(ts, p)
    else if from.Some? then
      var p := (t: Task) => t.dueDate.Some? && from.value <= t.dueDate.value;
      FilterMultiset(ts, p);
      Filter(ts, p)
    else if to.Some? then
      var p := (t: Task) => t.dueDate.Some? && t.dueDate.value <= to.value;
      FilterMultiset(ts, p);
      Filter(ts, p)
    else
      SubseqRefl(ts);
      ts
  }

  /** `applyFilters`: the three stages one after the other. */
  function ApplyFilters(ts: seq<Task>, statuses: seq<string>, categories: seq<string>,
                        from: Option<int>, to: Option<int>): (r: seq<Task>)
    ensures IsSubseq(r, ts)
    ensures forall t :: t in r <==> t in ts && Selected(statuses, categories, from, to, t)
    ensures forall t :: multiset(r)[t] == if Selected(statuses, categories, from, to, t) then multiset(ts)[t] else 0
  {
    var s := StatusFilter(ts, statuses);
    var c := CategoryFilter(s, categories);
    var d := DateFilter(c, from, to);
    SubseqTrans(c, s, ts);
    SubseqTrans(d, c, ts);
    d
  }

  // Reference definitions of which tasks each stage keeps, stated per task.

  ghost predicate StatusSelected(statuses: seq<string>, t: Task) {
    "all" in statuses ||
    (|statuses| > 0 && ("active" in statuses ==> !t.completed) && ("completed" in statuses ==> t.completed))
  }

  ghost predicate CategorySelected(categories: seq<string>, t: Task) {
    "all" in categories || t.category in categories
  }

  /** No bound keeps every task; any bound keeps only dated tasks within the inclusive bounds. */
  ghost predicate DateSelected(from: Option<int>, to: Option<int>, t: Task) {
    (from.None? && to.None?) ||
    (t.dueDate.Some? && (from.Some? ==> from.value <= t.dueDate.value) && (to.Some? ==> t.dueDate.value <= to.value))
  }

  ghost predicate Selected(statuses: seq<string>, categories: seq<string>, from: Option<int>, to: Option<int>, t: Task) {
    StatusSelected(statuses, t) && CategorySelected(categories, t) && DateSelected(from, to, t)
  }

  /** With no status checkbox ticked, nothing is shown. */
  lemma NoStatusSelectedIsEmpty(ts: seq<Task>, categories: seq<string>, from: Option<int>, to: Option<int>)
    ensures ApplyFilters(ts, [], categories, from, to) == []
  {
    EmptyIffNoMembers(ApplyFilters(ts, [], categories, from, to));
  }

  /** Ticking both "active" and "completed" without "all" shows nothing: the two filters run in sequence. */
  lemma ActiveAndCompletedIsEmpty(ts: seq<Task>, statuses: seq<string>, categories: seq<string>,
                                  from: Option<int>, to: Option<int>)
    requires "all" !in statuses && "active" in statuses && "completed" in statuses
    ensures ApplyFilters(ts, statuses, categories, from, to) == []
  {
    EmptyIffNoMembers(ApplyFilters(ts, statuses, categories, from, to));
  }

  /** "all" for status and category and no dates: the whole snapshot, in order. */
  lemma AllSelectedKeepsEverything(ts: seq<Task>, statuses: seq<string>, categories: seq<string>)
    requires "all" in statuses && "all" in categories
    ensures ApplyFilters(ts, statuses, categories, None, None) == ts
  {
  }

  /** Without "all", exactly the tasks in a selected category survive the category stage;
      an empty category selection shows nothing. */
  lemma CategorySelectionIsExact(ts: seq<Task>, statuses: seq<string>, categories: seq<string>,
                                 from: Option<int>, to: Option<int>)
    requires "all" !in categories
    ensures forall t :: t in ApplyFilters(ts, statuses, categories, from, to) ==> t.category in categories
    ensures forall t :: (t in ts && StatusSelected(statuses, t) && DateSelected(from, to, t) && t.category in categories
      ==> t in ApplyFilters(ts, statuses, categories, from, to))
    ensures categories == [] ==> ApplyFilters(ts, statuses, categories, from, to) == []
  {
    if categories == [] {
      EmptyIffNoMembers(ApplyFilters(ts, statuses, categories, from, to));
    }
  }

  /** Any date bound excludes tasks that have no due date. */
  lemma BoundExcludesUndated(ts: seq<Task>, statuses: seq<string>, categories: seq<string>,
                             from: Option<int>, to: Option<int>)
    requires from.Some? || to.Some?
    ensures forall t :: t in ApplyFilters(ts, statuses, categories, from, to) ==> t.dueDate.Some?
  {
  }

  /** The bounds are inclusive: a task due exactly on a bound is kept, one due just outside is not. */
  lemma BoundsAreInclusive(ts: seq<Task>, statuses: seq<string>, categories: seq<string>,
                           from: Option<int>, to: Option<int>, t: Task)
    requires t in ts && StatusSelected(statuses, t) && CategorySelected(categories, t) && t.dueDate.Some?
    ensures from == Some(t.dueDate.value) && (to.None? || t.dueDate.value <= to.value)
      ==> t in ApplyFilters(ts, statuses, categories, from, to)
    ensures to == Some(t.dueDate.value) && (from.None? || from.value <= t.dueDate.value)
      ==> t in ApplyFilters(ts, statuses, categories, from, to)
    ensures from == Some(t.dueDate.value + 1) || to == Some(t.dueDate.value - 1)
      ==> t !in ApplyFilters(ts, statuses, categories, from, to)
  {
  }
}
