/**
 * The application state: the pending and the completed list with their
 * cursors, the input mode, the focused list, the editor's lines and the
 * writes handed to storage. Every command updates the state in place and is
 * specified against the value-level operations of module ListOps.
 */
module AppState {
  import opened Models
  import opened SortKey
  import opened Hierarchy
  import opened ListOps

  /** The item shown when storage holds no pending items. */
  function Placeholder(now: Timestamp): (r: TodoItem)
    ensures r.id.None? && r.parentId.None? && r.completedAt.None? && r.sortOrder == 0
    ensures r.todo == "Make a todo item" && r.details == "One's life always has something to do"
    ensures r.date == now
  {
    TodoItem(None, "Make a todo item", "One's life always has something to do", None, now, None, 0)
  }

  /** The editor's contents right after it is cleared: a single empty line. */
  const EmptyEditor: seq<string> := [""]

  class App {
    var uncompleted: TodoList
    var completed: TodoList
    var creatingChild: bool
    var editingIndex: Option<nat>
    var inputMode: InputMode
    var focusedList: WhichList
    /** The editor's lines; cursor movement and typing are not modelled. */
    var textarea: seq<string>
    /** The writes handed to storage so far, oldest first. */
    var outbox: seq<Intent>

    /**
     * Starts on the loaded lists with nothing selected and the pending list
     * focused. An empty pending list is replaced by a single placeholder item.
     */
    constructor (pending: seq<TodoItem>, done: seq<TodoItem>, now: Timestamp)
      ensures uncompleted == TodoList(if pending == [] then [Placeholder(now)] else pending, None)
      ensures completed == TodoList(done, None)
      ensures !creatingChild && editingIndex == None
      ensures inputMode == Normal && focusedList == Uncompleted
      ensures textarea == EmptyEditor && outbox == []
    {
      uncompleted := TodoList(if pending == [] then [Placeholder(now)] else pending, None);
      completed := TodoList(done, None);
      creatingChild := false;
      editingIndex := None;
      inputMode := Normal;
      focusedList := Uncompleted;
      textarea := EmptyEditor;
      outbox := [];
    }

    /** The list the cursor keys act on. */
    function Focused(): (r: TodoList)
      reads this
      ensures focusedList == Uncompleted ==> r == uncompleted
      ensures focusedList == Completed ==> r == completed
    {
      if focusedList == Uncompleted then uncompleted else completed
    }

    /**
     * The list the cursor keys do not act on: together with the focused list
     * it is the two lists, one each.
     */
    function Unfocused(): (r: TodoList)
      reads this
      ensures multiset{Focused(), r} == multiset{uncompleted, completed}
    {
      if focusedList == Uncompleted then completed else uncompleted
    }

    /** Hands a key write for every pending item with an id to storage, in list order. */
    method UpdateSortOrdersInDb()
      modifies this
      ensures outbox == old(outbox) + SortOrderIntents(uncompleted.items)
      ensures uncompleted == old(uncompleted) && completed == old(completed)
      ensures creatingChild == old(creatingChild) && editingIndex == old(editingIndex)
      ensures inputMode == old(inputMode) && focusedList == old(focusedList) && textarea == old(textarea)
    {
      var items := uncompleted.items;
      var writes := [];
      for i := 0 to |items|
        invariant writes == SortOrderIntents(items[..i])
        modifies {}
      {
        var item := items[i];
        SortOrderIntentsStep(items, i);
        if item.id.Some? {
          writes := writes + [UpdateSortOrder(item.id.value, item.sortOrder)];
        }
      }
      assert items[..|items|] == items;
      outbox := outbox + writes;
    }

    /**
     * Moves the selected pending item one place up by trading keys with the
     * item above, and hands the new keys to storage.
     */
    method MoveTodoUp()
      modifies this
      ensures uncompleted == MoveUp(old(uncompleted))
      ensures outbox == old(outbox) + (if CanMoveUp(old(uncompleted)) then SortOrderIntents(uncompleted.items) else [])
      ensures completed == old(completed) && creatingChild == old(creatingChild) && editingIndex == old(editingIndex)
      ensures inputMode == old(inputMode) && focusedList == old(focusedList) && textarea == old(textarea)
    {
      if uncompleted.selected.Some? {
        var index := uncompleted.selected.value;
        if index > 0 && index < |uncompleted.items| {
          var items := uncompleted.items;
          var currentOrder := items[index].sortOrder;
          var prevOrder := items[index - 1].sortOrder;
          items := items[index := items[index].(sortOrder := prevOrder)];
          items := items[index - 1 := items[index - 1].(sortOrder := currentOrder)];
          items := items[index := items[index - 1]][index - 1 := items[index]];
          uncompleted := TodoList(items, Some(index - 1));
          UpdateSortOrdersInDb();
        }
      }
    }

    /**
     * Moves the selected pending item one place down by trading keys with the
     * item below, and hands the new keys to storage. The guard is the
     * corrected `index + 1 < len`.
     */
    method MoveTodoDown()
      modifies this
      ensures uncompleted == MoveDown(old(uncompleted))
      ensures outbox == old(outbox) + (if CanMoveDown(old(uncompleted)) then SortOrderIntents(uncompleted.items) else [])
      ensures completed == old(completed) && creatingChild == old(creatingChild) && editingIndex == old(editingIndex)
      ensures inputMode == old(inputMode) && focusedList == old(focusedList) && textarea == old(textarea)
    {
      if uncompleted.selected.Some? {
        var index := uncompleted.selected.value;
        if index + 1 < |uncompleted.items| {
          var items := uncompleted.items;
          var currentOrder := items[index].sortOrder;
          var nextOrder := items[index + 1].sortOrder;
          items := items[index := items[index].(sortOrder := nextOrder)];
          items := items[index + 1 := items[index + 1].(sortOrder := currentOrder)];
          items := items[index := items[index + 1]][index + 1 := items[index]];
          uncompleted := TodoList(items, Some(index + 1));
          UpdateSortOrdersInDb();
        }
      }
    }

    /** Clears the cursor of the focused list. */
    method SelectNone()
      modifies this
      ensures Focused().selected == None && Focused().items == old(Focused().items)
      ensures Unfocused() == old(Unfocused())
      ensures focusedList == old(focusedList) && creatingChild == old(creatingChild) && editingIndex == old(editingIndex)
      ensures inputMode == old(inputMode) && textarea == old(textarea) && outbox == old(outbox)
    {
      if focusedList == Uncompleted {
        uncompleted := uncompleted.(selected := None);
      } else {
        completed := completed.(selected := None);
      }
    }

    /** Writes the editor's text into the item being edited and leaves insert mode. */
    method SaveEditedTodo()
      modifies this
      ensures old(editingIndex).None? || old(editingIndex).value >= |old(uncompleted.items)| ==>
        uncompleted == old(uncompleted) && editingIndex == old(editingIndex) && inputMode == old(inputMode) &&
        textarea == old(textarea) && outbox == old(outbox)
      ensures old(editingIndex).Some? && old(editingIndex).value < |old(uncompleted.items)| ==>
        var i := old(editingIndex).value;
        var item := old(uncompleted.items)[i];
        var text := JoinLines(old(textarea));
        uncompleted == old(uncompleted).(items := old(uncompleted.items)[i := item.(todo := text)]) &&
        outbox == old(outbox) + (if item.id.Some? then [UpdateText(item.id.value, text)] else []) &&
        editingIndex == None && inputMode == old(inputMode).Toggle() && textarea == EmptyEditor
      ensures completed == old(completed) && creatingChild == old(creatingChild) && focusedList == old(focusedList)
    {
      if editingIndex.None? {
        return;
      }
      var index := editingIndex.value;
      if index >= |uncompleted.items| {
        return;
      }
      var newText := JoinLines(textarea);
      var todoId := uncompleted.items[index].id;
      uncompleted := uncompleted.(items := uncompleted.items[index := uncompleted.items[index].(todo := newText)]);
      if todoId.Some? {
        outbox := outbox + [UpdateText(todoId.value, newText)];
      }
      textarea := EmptyEditor;
      editingIndex := None;
      inputMode := inputMode.Toggle();
    }

    /** Starts composing a new top-level item. */
    method EnterInsertMode()
      modifies this
      ensures !creatingChild && textarea == EmptyEditor && inputMode == old(inputMode).Toggle()
      ensures uncompleted == old(uncompleted) && completed == old(completed) && editingIndex == old(editingIndex)
      ensures focusedList == old(focusedList) && outbox == old(outbox)
    {
      creatingChild := false;
      textarea := EmptyEditor;
      inputMode := inputMode.Toggle();
    }

    /** Starts composing a new child of the selected item. */
    method EnterChildMode()
      modifies this
      ensures creatingChild && textarea == EmptyEditor && inputMode == old(inputMode).Toggle()
      ensures uncompleted == old(uncompleted) && completed == old(completed) && editingIndex == old(editingIndex)
      ensures focusedList == old(focusedList) && outbox == old(outbox)
    {
      creatingChild := true;
      textarea := EmptyEditor;
      inputMode := inputMode.Toggle();
    }

    /**
     * Opens the selected pending item's text in the editor. Without a selected
     * item nothing changes.
     */
    method EnterEditMode()
      modifies this
      ensures !HasSelectedItem(old(uncompleted)) ==>
        editingIndex == old(editingIndex) && inputMode == old(inputMode) && textarea == old(textarea)
      ensures HasSelectedItem(old(uncompleted)) ==>
        var i := old(uncompleted).selected.value;
        editingIndex == Some(i) && inputMode == old(inputMode).Toggle() && textarea == [old(uncompleted).items[i].todo]
      ensures uncompleted == old(uncompleted) && completed == old(completed) && creatingChild == old(creatingChild)
      ensures focusedList == old(focusedList) && outbox == old(outbox)
    {
      if uncompleted.selected.None? {
        return;
      }
      var index := uncompleted.selected.value;
      if index >= |uncompleted.items| {
        return;
      }
      var todo := uncompleted.items[index];
      textarea := [todo.todo];
      editingIndex := Some(index);
      inputMode := inputMode.Toggle();
    }

    /** Hands the keyboard focus to the other list. */
    method ToggleFocusedList()
      modifies this
      ensures focusedList == old(focusedList).Other()
      ensures Focused() == old(Unfocused()) && Unfocused() == old(Focused())
      ensures uncompleted == old(uncompleted) && completed == old(completed) && creatingChild == old(creatingChild)
      ensures editingIndex == old(editingIndex) && inputMode == old(inputMode) && textarea == old(textarea)
      ensures outbox == old(outbox)
    {
      focusedList := focusedList.Other();
    }

    /**
     * The Tab key: the focus moves to the other list, whose cursor is put on
     * its first position, and the list left behind loses its cursor. The
     * first position is selected even when that list is empty.
     */
    method FocusOtherList()
      modifies this
      ensures focusedList == old(focusedList).Other()
      ensures Focused().selected == Some(0) && Unfocused().selected == None
      ensures uncompleted.items == old(uncompleted.items) && completed.items == old(completed.items)
      ensures creatingChild == old(creatingChild) && editingIndex == old(editingIndex)
      ensures inputMode == old(inputMode) && textarea == old(textarea) && outbox == old(outbox)
    {
      ToggleFocusedList();
      if focusedList == Uncompleted {
        completed := completed.(selected := None);
        uncompleted := uncompleted.(selected := Some(0));
      } else {
        uncompleted := uncompleted.(selected := None);
        completed := completed.(selected := Some(0));
      }
    }

    /** The Esc key in insert mode: abandons the input and leaves insert mode. */
    method CancelInput()
      modifies this
      ensures editingIndex == None && inputMode == old(inputMode).Toggle() && textarea == EmptyEditor
      ensures uncompleted == old(uncompleted) && completed == old(completed) && creatingChild == old(creatingChild)
      ensures focusedList == old(focusedList) && outbox == old(outbox)
    {
      editingIndex := None;
      inputMode := inputMode.Toggle();
      textarea := EmptyEditor;
    }

    /**
     * Adds the editor's text as a new pending item with the next free key,
     * as a child of the selected item when a child is being created, hands it
     * to storage and re-orders the pending list.
     */
    method AddInputTodo(now: Timestamp)
      modifies this
      ensures var item := NewInputItem(old(uncompleted), old(creatingChild), JoinLines(old(textarea)), now);
        uncompleted == TodoList(Hierarchical(old(uncompleted.items) + [item]), old(uncompleted.selected)) &&
        outbox == old(outbox) + [InsertTodo(item)]
      ensures textarea == EmptyEditor && inputMode == old(inputMode).Toggle()
      ensures unchanged(`completed, `creatingChild, `editingIndex, `focusedList)
    {
      var nextSortOrder := NextSortOrder(uncompleted.items);
      var parentId := ParentForNew(uncompleted, creatingChild);
      var inputText := JoinLines(textarea);
      var todoItem := NewTodoItem(inputText, "New Status", parentId, now);
      todoItem := todoItem.(sortOrder := nextSortOrder);
      outbox := outbox + [InsertTodo(todoItem)];
      var sorted := SortTodosHierarchically(uncompleted.items + [todoItem]);
      uncompleted := uncompleted.(items := sorted);
      textarea := EmptyEditor;
      inputMode := inputMode.Toggle();
    }

    /** The Enter key in insert mode: saves an edit when one is open, adds a new item otherwise. */
    method CommitInput(now: Timestamp)
      modifies this
      ensures old(editingIndex).None? ==>
        var item := NewInputItem(old(uncompleted), old(creatingChild), JoinLines(old(textarea)), now);
        uncompleted == TodoList(Hierarchical(old(uncompleted.items) + [item]), old(uncompleted.selected)) &&
        outbox == old(outbox) + [InsertTodo(item)] &&
        editingIndex == None && inputMode == old(inputMode).Toggle() && textarea == EmptyEditor
      ensures old(editingIndex).Some? && old(editingIndex).value < |old(uncompleted.items)| ==>
        var i := old(editingIndex).value;
        var item := old(uncompleted.items)[i];
        var text := JoinLines(old(textarea));
        uncompleted == old(uncompleted).(items := old(uncompleted.items)[i := item.(todo := text)]) &&
        outbox == old(outbox) + (if item.id.Some? then [UpdateText(item.id.value, text)] else []) &&
        editingIndex == None && inputMode == old(inputMode).Toggle() && textarea == EmptyEditor
      ensures old(editingIndex).Some? && old(editingIndex).value >= |old(uncompleted.items)| ==>
        uncompleted == old(uncompleted) && editingIndex == old(editingIndex) && inputMode == old(inputMode) &&
        textarea == old(textarea) && outbox == old(outbox)
      ensures completed == old(completed) && creatingChild == old(creatingChild) && focusedList == old(focusedList)
    {
      if editingIndex.Some? {
        SaveEditedTodo();
      } else {
        AddInputTodo(now);
      }
    }

    /**
     * Deletes the selected pending item, hands the deletion to storage when
     * the item has an id, and keeps the cursor on an item when one is left.
     */
    method DeleteSelectedTodo()
      modifies this
      ensures uncompleted == Delete(old(uncompleted))
      ensures outbox == old(outbox) +
        (if HasSelectedItem(old(uncompleted)) && old(uncompleted).items[old(uncompleted).selected.value].id.Some?
         then [DeleteTodo(old(uncompleted).items[old(uncompleted).selected.value].id.value)] else [])
      ensures completed == old(completed) && creatingChild == old(creatingChild) && editingIndex == old(editingIndex)
      ensures inputMode == old(inputMode) && focusedList == old(focusedList) && textarea == old(textarea)
    {
      if uncompleted.selected.Some? {
        var index := uncompleted.selected.value;
        if index < |uncompleted.items| {
          var todoToDelete := uncompleted.items[index];
          if todoToDelete.id.Some? {
            outbox := outbox + [DeleteTodo(todoToDelete.id.value)];
          }
          var items := uncompleted.items[..index] + uncompleted.items[index + 1..];
          uncompleted := uncompleted.(items := items);
          if items == [] {
            uncompleted := uncompleted.(selected := None);
          } else if index >= |items| {
            uncompleted := uncompleted.(selected := Some(|items| - 1));
          }
        }
      }
    }
  }

  /**
   * A cursor on an empty pending list is reachable from a fresh start with
   * nothing stored: Tab twice puts the cursor on the placeholder, delete
   * removes it, and Tab twice more puts a cursor on the empty list. The
   * downward move's guard as written admits this state.
   */
  method EmptyListCursorReachable(now: Timestamp) returns (app: App)
    ensures app.uncompleted == TodoList([], Some(0)) && app.focusedList == Uncompleted
    ensures MoveDownGuardAsWritten(|app.uncompleted.items|, app.uncompleted.selected.value)
  {
    app := new App([], [], now);
    app.FocusOtherList();
    app.FocusOtherList();
    app.DeleteSelectedTodo();
    app.FocusOtherList();
    app.FocusOtherList();
    MoveDownGuardAdmitsEmptyList();
  }
}
