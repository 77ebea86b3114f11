/** The reorder logic of js/dragDropManager.js. The rendered task cards are
    the sequence of their ids in display order; a card element is named by its
    index in that sequence. */
module DragDrop {
  import opened Common
  import opened TaskStore

  function RemoveAt<T>(s: seq<T>, j: nat): (r: seq<T>)
    requires j < |s|
    ensures |r| == |s| - 1
    ensures forall k :: 0 <= k < j ==> r[k] == s[k]
    ensures forall k :: j <= k < |r| ==> r[k] == s[k + 1]
  {
    s[..j] + s[j + 1..]
  }

  function InsertAt<T>(s: seq<T>, j: nat, x: T): (r: seq<T>)
    requires j <= |s|
    ensures |r| == |s| + 1 && r[j] == x
    ensures forall k :: 0 <= k < j ==> r[k] == s[k]
    ensures forall k :: j < k < |r| ==> r[k] == s[k - 1]
  {
    s[..j] + [x] + s[j..]
  }

  lemma RemoveAtMultiset<T>(s: seq<T>, j: nat)
    requires j < |s|
    ensures multiset(s) == multiset(RemoveAt(s, j)) + multiset{s[j]}
  {
    assert s == s[..j] + [s[j]] + s[j + 1..];
  }

  lemma InsertAtMultiset<T>(s: seq<T>, j: nat, x: T)
    requires j <= |s|
    ensures multiset(InsertAt(s, j, x)) == multiset(s) + multiset{x}
  {
    assert s == s[..j] + s[j..];
  }

  /** Taking out what was just put in gives back the original sequence. */
  lemma RemoveInserted<T>(s: seq<T>, j: nat, x: T)
    requires j <= |s|
    ensures RemoveAt(InsertAt(s, j, x), j) == s
  {
  }

  /** The card order after `insertBefore` in `reorderTasks`: the dragged card is
      taken out and put back after the drop target when it moved down, before it
      when it moved up. It ends at the drop index and the other cards keep their order. */
  function MoveCard<T>(cards: seq<T>, from: nat, to: nat): (r: seq<T>)
    requires from < |cards| && to < |cards|
    ensures |r| == |cards| && r[to] == cards[from]
    ensures multiset(r) == multiset(cards)
    ensures RemoveAt(r, to) == RemoveAt(cards, from)
    ensures forall k :: 0 <= k < |cards| && k < from && k < to ==> r[k] == cards[k]
    ensures forall k :: 0 <= k < |cards| && k > from && k > to ==> r[k] == cards[k]
    ensures from < to ==> forall k :: from <= k < to ==> r[k] == cards[k + 1]
    ensures to < from ==> forall k :: to < k <= from ==> r[k] == cards[k - 1]
  {
    var rest := RemoveAt(cards, from);
    // index of the drop target once the dragged card is out
    var target := if from < to then to - 1 else to;
    var r := if from < to then InsertAt(rest, target + 1, cards[from]) else InsertAt(rest, target, cards[from]);
    RemoveAtMultiset(cards, from);
    InsertAtMultiset(rest, to, cards[from]);
    RemoveInserted(rest, to, cards[from]);
    r
  }

  /** The pairs `reorderTasks` sends: every rendered card's id with its index. */
  function NewPositions(order: seq<TaskId>): (pairs: seq<PositionUpdate>)
    ensures |pairs| == |order|
    ensures forall i :: 0 <= i < |order| ==> pairs[i] == PositionUpdate(order[i], i)
  {
    seq(|order|, i requires 0 <= i < |order| => PositionUpdate(order[i], i))
  }

  /** In the pairs built from a card order, the last pair naming an id carries
      the last index of that id, and an id not rendered is named by none. */
  lemma {:induction false} LastPositionOfNewPositions(order: seq<TaskId>, id: TaskId)
    ensures id !in order ==> LastPosition(NewPositions(order), id) == None
    ensures forall i :: (0 <= i < |order| && order[i] == id && (forall j :: i < j < |order| ==> order[j] != id)
      ==> LastPosition(NewPositions(order), id) == Some(i))
    decreases |order|
  {
    if order != [] {
      var n := |order| - 1;
      var init := order[..n];
      assert NewPositions(order)[..n] == NewPositions(init);
      LastPositionOfNewPositions(init, id);
      assert order == init + [order[n]];
      forall i | 0 <= i < |order| && order[i] == id && (forall j :: i < j < |order| ==> order[j] != id)
        ensures LastPosition(NewPositions(order), id) == Some(i)
      {
        if i < n {
          assert init[i] == id;
        }
      }
    }
  }

  /** Sending the visible order to `updateTaskPositions` gives every rendered task
      its index and leaves every task that is not rendered as it was. */
  lemma ReorderTouchesOnlyVisible(ts: seq<Task>, order: seq<TaskId>)
    requires UniqueIds(ts) && Distinct(order)
    ensures |ApplyPositions(ts, NewPositions(order))| == |ts|
    ensures forall k :: 0 <= k < |ts| && ts[k].id !in order ==> ApplyPositions(ts, NewPositions(order))[k] == ts[k]
    ensures forall k, i :: (0 <= k < |ts| && 0 <= i < |order| && ts[k].id == order[i]
      ==> ApplyPositions(ts, NewPositions(order))[k] == ts[k].(position := i))
  {
    var r := ApplyPositions(ts, NewPositions(order));
    ApplyPositionsEffect(ts, NewPositions(order));
    forall k | 0 <= k < |ts|
      ensures FindIndex(ts, ts[k].id) == k
    {
      FindIndexOfUnique(ts, k);
    }
    forall k | 0 <= k < |ts| && ts[k].id !in order
      ensures r[k] == ts[k]
    {
      LastPositionOfNewPositions(order, ts[k].id);
    }
    forall k, i | 0 <= k < |ts| && 0 <= i < |order| && ts[k].id == order[i]
      ensures r[k] == ts[k].(position := i)
    {
      LastPositionOfNewPositions(order, ts[k].id);
    }
  }

  /** Three cards a, b, c: dragging c onto a gives the order c, a, b. */
  lemma MoveCardExample(a: TaskId, b: TaskId, c: TaskId)
    ensures MoveCard([a, b, c], 2, 0) == [c, a, b]
  {
    var rest := RemoveAt([a, b, c], 2);
    assert rest == [a, b];
    assert InsertAt(rest, 0, c) == [c, a, b];
  }

  /** Tasks a, b, c at positions 0, 1, 2 and the order c, a, b: c goes to 0, a to 1, b to 2. */
  lemma ReorderExample(a: Task, b: Task, c: Task)
    requires a.id != b.id && b.id != c.id && a.id != c.id
    ensures ApplyPositions([a, b, c], NewPositions([c.id, a.id, b.id])) ==
      [a.(position := 1), b.(position := 2), c.(position := 0)]
  {
    var ts, order := [a, b, c], [c.id, a.id, b.id];
    assert UniqueIds(ts) && Distinct(order);
    ReorderTouchesOnlyVisible(ts, order);
    var r := ApplyPositions(ts, NewPositions(order));
    assert r[0] == a.(position := 1) by {
      assert ts[0].id == order[1];
    }
    assert r[1] == b.(position := 2) by {
      assert ts[1].id == order[2];
    }
    assert r[2] == c.(position := 0) by {
      assert ts[2].id == order[0];
    }
  }

  /** The drag-and-drop handler: the card being dragged, if any, and the store it writes to. */
  class DragDropManager {
    const store: TaskManager
    var dragged: Option<nat>

    constructor (store: TaskManager)
      ensures this.store == store && dragged == None
    {
      this.store := store;
      dragged := None;
    }

    /** `handleDragStart`: remembers the card, unless the event target is not a task card (None). */
    method HandleDragStart(card: Option<nat>)
      modifies this
      ensures dragged == if card.Some? then card else old(dragged)
    {
      if card.Some? {
        dragged := card;
      }
    }

    /** `handleDragEnd`: forgets the dragged card. */
    method HandleDragEnd()
      modifies this
      ensures dragged == None
    {
      dragged := None;
    }

    /** `handleDrop`: reorders only when there is a drop target, a dragged card and the two differ. */
    method HandleDrop(cards: seq<TaskId>, target: Option<nat>) returns (newCards: seq<TaskId>)
      requires target.Some? ==> target.value < |cards|
      requires dragged.Some? ==> dragged.value < |cards|
      modifies store
      ensures if target.Some? && dragged.Some? && target.value != dragged.value
        then newCards == MoveCard(cards, dragged.value, target.value)
          && store.tasks == ApplyPositions(old(store.tasks), NewPositions(newCards))
          && store.saved == Some(store.tasks)
        else newCards == cards && store.tasks == old(store.tasks) && store.saved == old(store.saved)
      ensures UniqueIds(old(store.tasks)) ==> UniqueIds(store.tasks)
    {
      if target.Some? && dragged.Some? && target.value != dragged.value {
        newCards := ReorderTasks(cards, dragged.value, target.value);
      } else {
        newCards := cards;
      }
    }

    /** `reorderTasks`: moves the dragged card and writes the dense positions of the rendered cards. */
    method ReorderTasks(cards: seq<TaskId>, draggedIndex: nat, dropIndex: nat) returns (newCards: seq<TaskId>)
      requires draggedIndex < |cards| && dropIndex < |cards|
      modifies store
      ensures newCards == MoveCard(cards, draggedIndex, dropIndex)
      ensures store.tasks == ApplyPositions(old(store.tasks), NewPositions(newCards))
      ensures store.saved == Some(store.tasks)
      ensures UniqueIds(old(store.tasks)) ==> UniqueIds(store.tasks)
    {
      newCards := MoveCard(cards, draggedIndex, dropIndex);
      store.UpdateTaskPositions(NewPositions(newCards));
    }
  }
}
