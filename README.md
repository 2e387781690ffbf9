# dodo list-state engine in Dafny

This project models the in-memory core of dodo, a keyboard-driven todo
manager. The core has two parts:

- **Hierarchical ordering.** `sort_todos_hierarchically` takes the pending
  items and lists the top-level items in key order (`sort_order`). Each
  top-level item is followed by its own children, also in key order.
- **Application state.** Two lists (pending and completed), each with an
  optional cursor. On top of these sit the input mode, the focused list, the
  index being edited, the "creating a child" flag and the editor's lines. The
  commands move, add, edit and delete pending items.

The modules are:

- `Models` (`models.dfy`): the item record, the two input modes with their
  toggle, the focus enum, and the constructor for a fresh item.
- `SortKey` (`sort_key.dfy`): the library's stable sort by key. It is given
  as a definition, and its guarantees are proved about it: ordered by key,
  a permutation, stable for equal keys, idempotent, and ids stay distinct.
- `Hierarchy` (`hierarchy.dfy`): the ordering as a specification function
  `Hierarchical`, plus the loop that builds it one parent at a time
  (`SortTodosHierarchically`, proved equal to the function). The ordering's
  properties are lemmas: which items are shown, the order of the top-level
  items, grouping, each parent's children, permutation and idempotence.
- `ListOps` (`list_ops.dfy`): what each command does to a list, written as
  functions on values. This covers trading keys with a neighbour, deleting
  under the cursor, the key and parent of a new item, joining the editor's
  lines, and the key writes sent to storage.
- `AppState` (`app.dfy`): class `App` with the program's fields. Each
  command is a method that updates the fields in place. Its postcondition
  ties the new state to the `ListOps` functions and says which fields it
  leaves alone.

Storage writes are not performed. Each write a command dispatches is appended
to the field `outbox` as an `Intent`. Only writes that reach the database are
recorded:

- an insert is recorded every time;
- a delete, text update or key update is recorded only when the item has an
  id. For a delete the storage call checks for the id (src/db.rs:47); for a
  text or key update the spawned task checks for it before calling storage
  (src/app.rs:244, src/app.rs:180).

Clock reads become a `now` parameter.

One might expect the ordering to be idempotent on every input. The model
follows the code, which guarantees less:

- `HierarchicalIdempotent` proves that ordering is idempotent whenever the
  top-level ids are pairwise distinct.
- `DuplicateIdsBreakIdempotence` shows that a top-level id shared by two items
  and carried by a child breaks it. The child is copied under each of the two,
  because the per-parent filter at src/models.rs:84 matches both.

## Model

| member | source | states |
|---|---|---|
| `Models.InputMode.Toggle` | src/models.rs:9-16 | the mode always changes: Normal becomes Insert and Insert becomes Normal |
| `Models.ToggleTwice` | src/models.rs:10-15 | toggling twice gives back the original mode |
| `Models.NewTodoItem` | src/models.rs:50-60 | a fresh item has no id, is not completed, has key 0, and carries exactly the text, details, parent and timestamp passed in |
| `Models.WhichList.Other` | src/app.rs:344-349 | switching the focus always yields the other list |
| `SortKey.SortByKeySorted` | src/models.rs:71 | the sorted sequence is in non-decreasing key order |
| `SortKey.SortByKeyPermutation` | src/models.rs:71 | sorting is a permutation of its input (equal multisets) |
| `SortKey.SortByKeyMembers` | src/models.rs:71 | sorting keeps the length and exactly the same members |
| `SortKey.SortByKeyStable` | src/models.rs:71 | for every key, the items with that key appear in their input order |
| `SortKey.SortByKeyIdempotent` | src/models.rs:88 | sorting twice equals sorting once |
| `SortKey.SortByKeyDistinct` | src/models.rs:71 | if the input's ids are pairwise distinct, so are the output's |
| `SortKey.SortByKeyAppendLargest` | src/app.rs:353-387 | an item whose key is larger than every other key ends up last after sorting |
| `Hierarchy.SortTodosHierarchically` | src/models.rs:62-94 | the loop over the sorted top-level items produces exactly `Hierarchical(items)` |
| `Hierarchy.HierarchicalMembers` | src/models.rs:65-86 | an input item is shown iff it is top-level or its parent is the id of a top-level input item; orphans, grandchildren and children of an id-less parent never appear |
| `Hierarchy.HierarchicalTopLevel` | src/models.rs:65-80 | the shown top-level items are the input's top-level items sorted by key, in non-decreasing key order, with equal keys in input order |
| `Hierarchy.HierarchicalGrouped` | src/models.rs:79-91 | the output starts with a top-level item, and every item after a top-level item, up to the next one, has that item's id as its parent |
| `Hierarchy.HierarchicalChildren` | src/models.rs:82-90 | with distinct top-level ids, the children shown under a top-level item that has an id are exactly its input children, sorted stably by key |
| `Hierarchy.HierarchicalPermutation` | src/models.rs:79-91 | with distinct top-level ids, the output is a permutation of the top-level items plus the children of top-level items, and is no longer than the input |
| `Hierarchy.HierarchicalIdempotent` | src/models.rs:62-94 | with distinct top-level ids, ordering the output again changes nothing |
| `Hierarchy.DuplicateIdsRepeatChild` | src/models.rs:79-91 | two top-level items with the same id each get a copy of the shared child |
| `Hierarchy.DuplicateIdsBreakIdempotence` | src/models.rs:79-91 | when two top-level items share an id that a child carries, ordering twice differs from ordering once |
| `ListOps.SwapWithNext` | src/app.rs:138-145 | two neighbours trade places, the keys read by position stay the same, each of the two keeps everything but its key, and every other position is untouched |
| `ListOps.SwapWithNextTwice` | src/app.rs:134-172 | trading keys with the same neighbour twice restores the items |
| `ListOps.MoveUp` | src/app.rs:134-152 | with an item above the cursor, it trades keys with that item and the cursor follows it; otherwise the list and cursor are unchanged; keys by position never change |
| `ListOps.MoveDown` | src/app.rs:154-172 | the same for the item below the cursor, with the guard `index + 1 < len` |
| `ListOps.MoveKeepsSelectedItem` | src/app.rs:134-172 | after either move the cursor still rests on the item it was on, whose only change is its key |
| `ListOps.MoveUpThenDown` | src/app.rs:134-172 | moving up and then down restores items, keys and cursor |
| `ListOps.MoveDownThenUp` | src/app.rs:134-172 | moving down and then up restores items, keys and cursor |
| `ListOps.MoveUpCanBreakGrouping` | src/app.rs:134-152 | moving a child above its parent leaves a list that is no longer grouped under its parents |
| `ListOps.MoveDownGuardAsWritten` | src/app.rs:156 | the unsigned guard `index < len - 1` as written; for a non-empty list it agrees with `index + 1 < len` |
| `ListOps.MoveDownGuardAdmitsEmptyList` | src/app.rs:155-159 | on an empty list with the cursor at 0, the guard as written admits the move, although no neighbour exists |
| `AppState.EmptyListCursorReachable` | src/app.rs:103-107 | from a fresh start with nothing stored, Tab twice (which puts the cursor on the placeholder), delete, and Tab twice again leave a cursor at 0 on the empty pending list, which the guard as written admits; only the App's own methods are involved, not the list widget's drawing between keys (src/app.rs:78) |
| `ListOps.Delete` | src/app.rs:393-418 | with the cursor on an item, that item is removed and the others keep their order; the cursor stays put, moves to the new last item, or is cleared when the list is empty; otherwise nothing changes |
| `ListOps.DeleteRemovesSelected` | src/app.rs:407-415 | deleting removes exactly the selected item (multiset), and afterwards the cursor rests on an item unless the list is empty |
| `ListOps.MaxKey` | src/app.rs:353-359 | the largest key is absent iff the list is empty; otherwise it bounds every key and is some item's key |
| `ListOps.NextSortOrder` | src/app.rs:353-360 | the new key is exactly ten more than the largest key (at least ten above every key and ten above some key), and 10 for an empty list |
| `ListOps.ParentForNew` | src/app.rs:362-370 | the parent is the selected item's id when a child is being created and the cursor rests on an item, and none otherwise |
| `ListOps.NewInputItem` | src/app.rs:372-374 | the new item has no id, is not completed, and has the joined text, details "New Status", the chosen parent and the key `NextSortOrder` (ten above the largest key, or 10 on an empty list), which is above every existing key |
| `ListOps.AddedItemShown` | src/app.rs:385-387 | after re-ordering, the new item is shown iff it is top-level or its parent is the id of a top-level item already in the list |
| `ListOps.AddedTopLevelLast` | src/app.rs:353-387 | a new top-level item with the largest key becomes the last top-level item shown |
| `ListOps.AddedChildLast` | src/app.rs:353-387 | with distinct top-level ids, a new child with the largest key is shown last among its parent's children |
| `ListOps.JoinLines` | src/app.rs:237 | joining puts one line feed between neighbouring lines: no lines give the empty text, and otherwise the length is the sum of the line lengths plus one less than the number of lines |
| `ListOps.SplitJoinLines` | src/app.rs:237 | splitting the joined text at line feeds gives back the lines, given at least one line and no line feed inside a line |
| `ListOps.SortOrderIntentsMembers` | src/app.rs:174-189 | the key writes number at most the items; each write carries the id and key of a listed item; every item with an id gets its write |
| `ListOps.SortOrderIntentsAppend` | src/app.rs:179-187 | the writes for two lists in a row are the writes for the first followed by those for the second; together with the one-or-none write per item, that is exactly one write per item with an id, in list order |
| `AppState.Placeholder` | src/app.rs:37-50 | the placeholder item has no id, no parent, is not completed, has key 0, and carries the fixed greeting text |
| `AppState.App.constructor` | src/app.rs:33-73 | the app starts in Normal mode, focused on the pending list, with no cursor, no edit and an empty editor; an empty pending list is replaced by the placeholder |
| `AppState.App.UpdateSortOrdersInDb` | src/app.rs:174-189 | the loop appends exactly the key writes of the pending list, in list order, and changes nothing else |
| `AppState.App.MoveTodoUp` | src/app.rs:134-152 | the pending list becomes `MoveUp` of the old one; the key writes are sent only when a move happened; other fields are unchanged |
| `AppState.App.MoveTodoDown` | src/app.rs:154-172 | the pending list becomes `MoveDown` of the old one, using the corrected guard; key writes only when a move happened; other fields are unchanged |
| `AppState.App.SelectNone` | src/app.rs:206-208 | the focused list loses its cursor; everything else is unchanged |
| `AppState.App.SaveEditedTodo` | src/app.rs:229-254 | with a valid edit index, only that item's text changes, to the joined lines; a text write is sent if the item has an id; the edit closes, the mode toggles and the editor is cleared. Otherwise nothing changes, not even the mode |
| `AppState.App.EnterInsertMode` | src/app.rs:264-270 | clears the child flag and the editor and toggles the mode |
| `AppState.App.EnterChildMode` | src/app.rs:272-279 | sets the child flag, clears the editor and toggles the mode |
| `AppState.App.EnterEditMode` | src/app.rs:281-296 | with the cursor on a pending item, the editor holds that item's text, the edit index is the cursor and the mode toggles; otherwise nothing changes |
| `AppState.App.Focused` | src/app.rs:191-196 | the list the cursor keys act on: the pending list when it has the focus, the completed list otherwise |
| `AppState.App.Unfocused` | src/app.rs:198-203 | the other list: together with the focused list it is the pending and the completed list, one each |
| `AppState.App.ToggleFocusedList` | src/app.rs:344-349 | the focus moves to the other list, so the focused and unfocused lists trade places, and nothing else changes |
| `AppState.App.FocusOtherList` | src/app.rs:103-107 | Tab: the focus moves, the newly focused list's cursor is at 0 (even on an empty list) and the other list's cursor is cleared |
| `AppState.App.CancelInput` | src/app.rs:114-118 | Esc: the edit index is cleared, the mode toggles and the editor is cleared; the lists are unchanged |
| `AppState.App.AddInputTodo` | src/app.rs:352-390 | the pending list becomes the hierarchical ordering of the old items plus `NewInputItem`; an insert is sent; the editor is cleared and the mode toggles; the cursor and the child flag are kept |
| `AppState.App.CommitInput` | src/app.rs:119-125 | Enter: without an open edit, the new item is added exactly as `AddInputTodo` does (insert sent, list re-ordered, cursor and child flag kept, editor cleared, mode toggled); with a valid edit index, exactly as `SaveEditedTodo` does (text replaced, text write for an item with an id, edit closed, editor cleared); with an out-of-range edit index nothing changes; the completed list, the focus and the child flag are always kept |
| `AppState.App.DeleteSelectedTodo` | src/app.rs:393-418 | the pending list becomes `Delete` of the old one; a delete is sent only when an item with an id was removed |

## Left out

- Persistence is not modelled: `src/db.rs` is not part of this model, nor are the spawned and blocking database tasks. Each dispatched write is appended to `outbox`; errors from storage are not modelled.
- `toggle_status` and `refresh_from_database` (src/app.rs:298-342) consist of a database update followed by a reload, so there is no in-memory logic to model.
- Rendering (`src/ui.rs`) and the terminal loop (`run`, `src/main.rs`) are not part of this model.
- The key dispatch of `handle_key` is not modelled as a whole. The Tab, Esc and Enter branches are modelled as `FocusOtherList`, `CancelInput` and `CommitInput`. The Quit key only sets an exit flag, which is not modelled.
- The editor widget is a list of lines. Typing, the cursor within the text, and the editor's title and styling are not modelled.
- The list widget's `select_next`, `select_previous`, `select_first` and `select_last` (src/app.rs:210-224) are library behaviour that the source does not show, so they are left out. Selecting is modelled as plain assignment of the cursor.
- Timestamps are opaque integers, and the clock is a `now` parameter. Date parsing (src/models.rs:45-48) is left out.
- Keys are unbounded integers and ids are unbounded integers, so the 32-bit key and 64-bit id widths are not enforced.
- NextSortOrder: does not model the 32-bit overflow of `max + 10` when the largest key is within 10 of the 32-bit maximum.
- The library sort is modelled by its contract as a functional stable insertion sort on values, not as the in-place algorithm.
- The reordered list is copied into the key-write intent list at once, so the asynchronous order in which storage applies the writes is not modelled.

## Findings

| source | as written | input that shows it | evidently intended | confidence | as-written member | corrected member |
|---|---|---|---|---|---|---|
| src/app.rs:156 | `if index < items.len() - 1` on unsigned integers | empty pending list with the cursor at 0: start with no stored items, press Tab twice (the cursor lands on the placeholder), press d, press Tab twice, then press J; `0 - 1` underflows (a panic in debug builds, a wrap to the largest value in release builds, after which `items[0]` is out of bounds) | move only when a next item exists: `index + 1 < len` | not executed; the model covers the App's own methods only, and the list widget's drawing between keys (src/app.rs:78) is not part of this model and might clear a cursor on an empty list | `ListOps.MoveDownGuardAsWritten` | `ListOps.MoveDown` |
