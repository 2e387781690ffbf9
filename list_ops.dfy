/**
 * What the editing commands do to the list of pending items, as functions on
 * values: reordering by trading keys, deleting under the cursor, choosing the
 * key and the parent of a new item, joining the editor's lines, and the
 * storage writes a reorder hands off. The class in module AppState performs
 * these steps in place and is proved to agree with them.
 */
module ListOps {
  import opened Models
  import opened SortKey
  import opened Hierarchy

  /** The items of one list together with the index its cursor rests on, if any. */
  datatype TodoList = TodoList(items: seq<TodoItem>, selected: Option<nat>)

  /**
   * A write handed to the storage layer. Only writes that reach storage are
   * recorded: an item without an id is never updated or deleted there.
   */
  datatype Intent =
    | InsertTodo(item: TodoItem)
    | DeleteTodo(id: int)
    | UpdateText(id: int, text: string)
    | UpdateSortOrder(id: int, sortOrder: int)

  /** The cursor rests on an actual item. */
  predicate HasSelectedItem(l: TodoList) {
    l.selected.Some? && l.selected.value < |l.items|
  }

  // ---------------------------------------------------------------------
  // Reordering

  /** The keys read position by position. */
  function Keys(s: seq<TodoItem>): seq<int>
  {
    seq(|s|, k requires 0 <= k < |s| => s[k].sortOrder)
  }

  /** The two items agree on everything except possibly their keys. */
  predicate SameButKey(a: TodoItem, b: TodoItem) {
    a.(sortOrder := 0) == b.(sortOrder := 0)
  }

  /**
   * Items `i` and `i + 1` trade places while the keys stay where they were:
   * each of the two takes over the other's key, and nothing else changes.
   */
  function SwapWithNext(s: seq<TodoItem>, i: nat): (r: seq<TodoItem>)
    requires i + 1 < |s|
    ensures |r| == |s| && Keys(r) == Keys(s)
    ensures SameButKey(r[i], s[i + 1]) && SameButKey(r[i + 1], s[i])
    ensures forall k :: 0 <= k < |s| && k != i && k != i + 1 ==> r[k] == s[k]
  {
    s[i := s[i + 1].(sortOrder := s[i].sortOrder)][i + 1 := s[i].(sortOrder := s[i + 1].sortOrder)]
  }

  /** Trading twice gives back the original items and keys. */
  lemma SwapWithNextTwice(s: seq<TodoItem>, i: nat)
    requires i + 1 < |s|
    ensures SwapWithNext(SwapWithNext(s, i), i) == s
  {
    var r := SwapWithNext(SwapWithNext(s, i), i);
    forall k | 0 <= k < |s| ensures r[k] == s[k] {
      if k == i || k == i + 1 {
        assert r[k].(sortOrder := 0) == s[k].(sortOrder := 0);
        assert Keys(r)[k] == Keys(s)[k];
      }
    }
  }

  predicate CanMoveUp(l: TodoList) {
    l.selected.Some? && 0 < l.selected.value < |l.items|
  }

  predicate CanMoveDown(l: TodoList) {
    l.selected.Some? && l.selected.value + 1 < |l.items|
  }

  /**
   * Moves the selected item one place up, trading keys with its neighbour,
   * and moves the cursor with it. Without an item above it nothing changes.
   */
  function MoveUp(l: TodoList): (r: TodoList)
    ensures |r.items| == |l.items| && Keys(r.items) == Keys(l.items)
    ensures CanMoveUp(l) ==>
      var i := l.selected.value;
      r.selected == Some(i - 1) && r.items == SwapWithNext(l.items, i - 1)
    ensures !CanMoveUp(l) ==> r == l
  {
    if CanMoveUp(l) then
      var i := l.selected.value;
      TodoList(SwapWithNext(l.items, i - 1), Some(i - 1))
    else l
  }

  /**
   * Moves the selected item one place down, trading keys with its neighbour,
   * and moves the cursor with it. Without an item below it nothing changes.
   */
  function MoveDown(l: TodoList): (r: TodoList)
    ensures |r.items| == |l.items| && Keys(r.items) == Keys(l.items)
    ensures CanMoveDown(l) ==>
      var i := l.selected.value;
      r.selected == Some(i + 1) && r.items == SwapWithNext(l.items, i)
    ensures !CanMoveDown(l) ==> r == l
  {
    if CanMoveDown(l) then
      var i := l.selected.value;
      TodoList(SwapWithNext(l.items, i), Some(i + 1))
    else l
  }

  /** The cursor stays on the item it was on; only that item's key changes. */
  lemma MoveKeepsSelectedItem(l: TodoList)
    requires HasSelectedItem(l)
    ensures HasSelectedItem(MoveUp(l)) && SameButKey(MoveUp(l).items[MoveUp(l).selected.value], l.items[l.selected.value])
    ensures HasSelectedItem(MoveDown(l)) && SameButKey(MoveDown(l).items[MoveDown(l).selected.value], l.items[l.selected.value])
  {
  }

  /** Moving an item up and then down again restores items, keys and cursor. */
  lemma MoveUpThenDown(l: TodoList)
    requires CanMoveUp(l)
    ensures MoveDown(MoveUp(l)) == l
  {
    var i := l.selected.value;
    SwapWithNextTwice(l.items, i - 1);
  }

  /** Moving an item down and then up again restores items, keys and cursor. */
  lemma MoveDownThenUp(l: TodoList)
    requires CanMoveDown(l)
    ensures MoveUp(MoveDown(l)) == l
  {
    var i := l.selected.value;
    SwapWithNextTwice(l.items, i);
  }

  /**
   * Moves do not respect the hierarchy: a child moved above its parent ends
   * up at the head of the list, where only a top-level item may stand.
   */
  lemma MoveUpCanBreakGrouping()
    ensures var p := TodoItem(Some(1), "p", "", None, 0, None, 10);
            var c := TodoItem(Some(2), "c", "", None, 0, Some(1), 20);
            var l := TodoList([p, c], Some(1));
            Grouped(l.items) && !Grouped(MoveUp(l).items)
  {
    var p := TodoItem(Some(1), "p", "", None, 0, None, 10);
    var c := TodoItem(Some(2), "c", "", None, 0, Some(1), 20);
    var l := TodoList([p, c], Some(1));
    assert ChildRun(l.items, 0, 1);
    assert MoveUp(l).items[0] == c.(sortOrder := 10);
  }

  /** The largest 64-bit unsigned value plus one: unsigned subtraction wraps modulo this. */
  const UsizeModulus: int := 0x1_0000_0000_0000_0000

  /**
   * The guard of the downward move as the program writes it,
   * `index < len - 1` on unsigned 64-bit integers, where `0 - 1` wraps
   * around to the largest value.
   */
  function MoveDownGuardAsWritten(len: nat, index: nat): (r: bool)
    ensures 0 < len <= UsizeModulus ==> (r <==> index + 1 < len)
  {
    index < (len - 1) % UsizeModulus
  }

  /**
   * On an empty list with a cursor at 0 the guard as written lets the move
   * through although neither index it goes on to read exists.
   */
  lemma MoveDownGuardAdmitsEmptyList()
    ensures MoveDownGuardAsWritten(0, 0)
    ensures !CanMoveDown(TodoList([], Some(0)))
  {
    assert (0 - 1) % UsizeModulus == UsizeModulus - 1;
  }

  // ---------------------------------------------------------------------
  // Deleting

  /**
   * Removes the selected item. The cursor stays where it was when an item is
   * still there, moves to the new last item when it fell off the end, and is
   * cleared when the list became empty. Without a selected item nothing
   * changes.
   */
  function Delete(l: TodoList): (r: TodoList)
    ensures !HasSelectedItem(l) ==> r == l
    ensures HasSelectedItem(l) ==>
      var i := l.selected.value;
      |r.items| == |l.items| - 1 &&
      (forall k :: 0 <= k < i ==> r.items[k] == l.items[k]) &&
      (forall k :: i <= k < |r.items| ==> r.items[k] == l.items[k + 1])
    ensures HasSelectedItem(l) ==>
      var i := l.selected.value;
      r.selected == (if r.items == [] then None else if i < |r.items| then Some(i) else Some(|r.items| - 1))
  {
    if HasSelectedItem(l) then
      var i := l.selected.value;
      var rest := l.items[..i] + l.items[i + 1..];
      TodoList(rest, if rest == [] then None else if i >= |rest| then Some(|rest| - 1) else Some(i))
    else l
  }

  /**
   * Deleting removes exactly the selected item, and afterwards the cursor
   * rests on an item unless none is left.
   */
  lemma DeleteRemovesSelected(l: TodoList)
    requires HasSelectedItem(l)
    ensures multiset(Delete(l).items) + multiset{l.items[l.selected.value]} == multiset(l.items)
    ensures HasSelectedItem(Delete(l)) || Delete(l).items == []
  {
    var i := l.selected.value;
    assert l.items == l.items[..i] + [l.items[i]] + l.items[i + 1..];
    assert Delete(l).items == l.items[..i] + l.items[i + 1..];
  }

  // ---------------------------------------------------------------------
  // Adding

  /** The largest key in the list, None for an empty list. */
  function MaxKey(s: seq<TodoItem>): (r: Option<int>)
    ensures r.None? <==> s == []
    ensures r.Some? ==> forall x :: x in s ==> x.sortOrder <= r.value
    ensures r.Some? ==> exists x :: x in s && x.sortOrder == r.value
  {
    if s == [] then None
    else
      var m := MaxKey(s[1..]);
      assert forall x :: x in s ==> x == s[0] || x in s[1..];
      if m.None? || m.value < s[0].sortOrder then Some(s[0].sortOrder) else m
  }

  /** The key of a new item: ten more than the largest key, or ten when the list is empty. */
  function NextSortOrder(s: seq<TodoItem>): (r: int)
    ensures forall x :: x in s ==> x.sortOrder + 10 <= r
    ensures s == [] ==> r == 10
    ensures s != [] ==> exists x :: x in s && x.sortOrder == r - 10
  {
    match MaxKey(s)
    case None => 0 + 10
    case Some(m) => m + 10
  }

  /**
   * The parent of a new item: the id of the selected item when a child is
   * being created and the cursor rests on an item, otherwise none.
   */
  function ParentForNew(l: TodoList, creatingChild: bool): (r: Option<int>)
    ensures r.Some? ==> creatingChild && HasSelectedItem(l) && l.items[l.selected.value].id == r
    ensures creatingChild && HasSelectedItem(l) ==> r == l.items[l.selected.value].id
  {
    if creatingChild && HasSelectedItem(l) then l.items[l.selected.value].id else None
  }

  /** The item a commit of the editor's text creates. */
  function NewInputItem(l: TodoList, creatingChild: bool, text: string, now: Timestamp): (r: TodoItem)
    ensures r.id.None? && r.completedAt.None? && r.date == now
    ensures r.todo == text && r.details == "New Status"
    ensures r.parentId == ParentForNew(l, creatingChild)
    ensures r.sortOrder == NextSortOrder(l.items)
    ensures forall x :: x in l.items ==> x.sortOrder < r.sortOrder
  {
    NewTodoItem(text, "New Status", ParentForNew(l, creatingChild), now).(sortOrder := NextSortOrder(l.items))
  }

  /**
   * After re-ordering, a new item is shown exactly when it is top-level or
   * its parent is the id of a top-level item already in the list.
   */
  lemma AddedItemShown(items: seq<TodoItem>, x: TodoItem)
    ensures x in Hierarchical(items + [x]) <==>
      x.parentId.None? || exists p :: p in items && p.parentId.None? && p.id == x.parentId
  {
    HierarchicalMembers(items + [x], x);
    assert x in items + [x];
    if exists p :: p in items + [x] && p.parentId.None? && p.id == x.parentId {
      var p :| p in items + [x] && p.parentId.None? && p.id == x.parentId;
      if x.parentId.Some? {
        assert p in items;
      }
    }
    if exists p :: p in items && p.parentId.None? && p.id == x.parentId {
      var p :| p in items && p.parentId.None? && p.id == x.parentId;
      assert p in items + [x];
    }
  }

  /** A new top-level item with the largest key becomes the last top-level item shown. */
  lemma AddedTopLevelLast(items: seq<TodoItem>, x: TodoItem)
    requires x.parentId.None?
    requires forall y :: y in items ==> y.sortOrder < x.sortOrder
    ensures TopLevel(Hierarchical(items + [x])) == SortByKey(TopLevel(items)) + [x]
  {
    HierarchicalTopLevel(items + [x]);
    TopLevelAppend(items, [x]);
    assert TopLevel([x]) == [x];
    TopLevelMembers(items);
    SortByKeyAppendLargest(TopLevel(items), x);
  }

  /**
   * With distinct top-level ids, a new child with the largest key is shown
   * last among the children of its parent.
   */
  lemma AddedChildLast(items: seq<TodoItem>, x: TodoItem, p: TodoItem)
    requires DistinctIds(TopLevel(items))
    requires p in items && p.parentId.None? && p.id.Some? && x.parentId == p.id
    requires forall y :: y in items ==> y.sortOrder < x.sortOrder
    ensures ChildrenOf(Hierarchical(items + [x]), p.id) == SortByKey(ChildrenOf(items, p.id)) + [x]
  {
    TopLevelAppend(items, [x]);
    assert TopLevel([x]) == [];
    assert TopLevel(items + [x]) == TopLevel(items);
    HierarchicalChildren(items + [x], p);
    ChildrenOfAppend(items, [x], p.id);
    assert ChildrenOf([x], p.id) == [x];
    ChildrenOfMembers(items, p.id);
    SortByKeyAppendLargest(ChildrenOf(items, p.id), x);
  }

  // ---------------------------------------------------------------------
  // Editor text

  /** The editor's lines joined with a line feed between neighbours. */
  function JoinLines(lines: seq<string>): (r: string)
    ensures lines == [] ==> r == ""
    ensures |lines| > 0 ==> |r| == |lines| - 1 + SumLengths(lines)
  {
    if lines == [] then ""
    else if |lines| == 1 then lines[0]
    else lines[0] + "\n" + JoinLines(lines[1..])
  }

  function SumLengths(lines: seq<string>): nat
  {
    if lines == [] then 0 else |lines[0]| + SumLengths(lines[1..])
  }

  /** Cuts a text at every line feed; the pieces contain none. */
  function SplitLines(s: string): (r: seq<string>)
    ensures |r| >= 1
  {
    if s == [] then [""]
    else
      var rest := SplitLines(s[1..]);
      if s[0] == '\n' then [""] + rest else [[s[0]] + rest[0]] + rest[1..]
  }

  predicate NoLineFeed(s: string) {
    forall c :: c in s ==> c != '\n'
  }

  lemma {:induction false} SplitLinesPlain(s: string)
    requires NoLineFeed(s)
    ensures SplitLines(s) == [s]
  {
    if s != [] {
      assert s[0] in s;
      assert forall c :: c in s[1..] ==> c in s;
      SplitLinesPlain(s[1..]);
      assert [s[0]] + s[1..] == s;
    }
  }

  lemma {:induction false} SplitLinesAfterLine(a: string, b: string)
    requires NoLineFeed(a)
    ensures SplitLines(a + "\n" + b) == [a] + SplitLines(b)
  {
    if a == [] {
      assert a + "\n" + b == "\n" + b;
      assert ("\n" + b)[1..] == b;
    } else {
      var t := a + "\n" + b;
      assert t[0] == a[0] && t[1..] == a[1..] + "\n" + b;
      assert a[0] in a;
      assert forall c :: c in a[1..] ==> c in a;
      SplitLinesAfterLine(a[1..], b);
      assert [a[0]] + a[1..] == a;
    }
  }

  /**
   * Joining lines and cutting the result at line feeds gives back the lines,
   * as long as there is at least one line and none contains a line feed.
   */
  lemma {:induction false} SplitJoinLines(lines: seq<string>)
    requires |lines| >= 1
    requires forall k :: 0 <= k < |lines| ==> NoLineFeed(lines[k])
    ensures SplitLines(JoinLines(lines)) == lines
  {
    if |lines| == 1 {
      SplitLinesPlain(lines[0]);
    } else {
      SplitJoinLines(lines[1..]);
      SplitLinesAfterLine(lines[0], JoinLines(lines[1..]));
      assert [lines[0]] + lines[1..] == lines;
    }
  }

  // ---------------------------------------------------------------------
  // Storage writes after a reorder

  /** The key write for one item: one write when it has an id, none otherwise. */
  function SortOrderIntent(x: TodoItem): seq<Intent>
  {
    if x.id.Some? then [UpdateSortOrder(x.id.value, x.sortOrder)] else []
  }

  /** The key writes for a whole list, in list order. */
  function SortOrderIntents(items: seq<TodoItem>): seq<Intent>
  {
    if items == [] then []
    else SortOrderIntents(items[..|items| - 1]) + SortOrderIntent(items[|items| - 1])
  }

  /**
   * Every write is a key write carrying the id and key of a listed item, and
   * every listed item with an id gets one; items without an id get none.
   */
  lemma {:induction false} SortOrderIntentsMembers(items: seq<TodoItem>)
    ensures |SortOrderIntents(items)| <= |items|
    ensures forall e :: e in SortOrderIntents(items) ==>
      e.UpdateSortOrder? && exists x :: x in items && x.id == Some(e.id) && x.sortOrder == e.sortOrder
    ensures forall x :: x in items && x.id.Some? ==> UpdateSortOrder(x.id.value, x.sortOrder) in SortOrderIntents(items)
  {
    if items != [] {
      var n := |items| - 1;
      SortOrderIntentsMembers(items[..n]);
      assert forall x :: x in items ==> x in items[..n] || x == items[n];
      assert forall x :: x in items[..n] ==> x in items;
    }
  }

  /**
   * The writes for two lists one after the other are the writes for the
   * first followed by those for the second: with SortOrderIntent, one write
   * per item with an id, in list order.
   */
  lemma {:induction false} SortOrderIntentsAppend(a: seq<TodoItem>, b: seq<TodoItem>)
    ensures SortOrderIntents(a + b) == SortOrderIntents(a) + SortOrderIntents(b)
  {
    if b == [] {
      assert a + b == a;
    } else {
      var n := |b| - 1;
      assert (a + b)[..|a + b| - 1] == a + b[..n];
      assert (a + b)[|a + b| - 1] == b[n];
      SortOrderIntentsAppend(a, b[..n]);
    }
  }

  /** Extending a prefix by one item appends that item's write. */
  lemma SortOrderIntentsStep(items: seq<TodoItem>, i: nat)
    requires i < |items|
    ensures SortOrderIntents(items[..i + 1]) == SortOrderIntents(items[..i]) + SortOrderIntent(items[i])
  {
    assert items[..i + 1][..i] == items[..i];
  }
}
