# DragListView board model

A Dafny model of the data model behind DragListView's `BoardView`: a
horizontally scrolling board of columns. Each column is a
`DragItemRecyclerView` whose `DragItemAdapter` holds the column's mutable item
list. The model covers:

- the guarded list operations of `DragItemAdapter` (remove, add, move within
  the list, swap, the identity and id searches, the drag and drop-target ids);
- the board operations of `BoardView` built on them (remove, add, replace and
  move an item, move by id, the item counts);
- the operations on the column list `mLists` (remove a column, clear the
  board, append or insert a column, swap two columns);
- the integer rules that pick a column: `getColumnOfList`, `getCurrentColumn`,
  `getClosestColumn`, the target of `scrollToColumn`, the fling target of
  `onFling` and the bounds check of `onAutoScrollColumnBy`.

Layout of the project:

- `items.dfy` (module `Items`): items, item lists and the adapter operations
  stated as functions on values, with their properties as lemmas.
- `drag_item_adapter.dfy` (module `Adapter`): the class `DragItemAdapter`. It
  holds the mutable `itemList` and the two ids. Each mutating method is proved
  to leave the list that the matching `Items` function computes.
- `board_items.dfy` (module `BoardItems`): the board's item operations stated
  on the sequence of column lists, with their properties as lemmas
  (cross-column move, same-column move, first match by id, totals).
- `column_rules.dfy` (module `ColumnRules`): Java's truncating `/ 2`,
  `Math.abs`, the `scrollToColumn` clamp and the fling target.
- `board_view.dfy` (module `Board`): the classes `DragItemRecyclerView` and
  `BoardView`. `BoardView.Columns()` is the board's content, the item list of
  each column's adapter in column order. Each item operation is proved to
  produce the content and outcome that the matching `BoardItems` function
  computes.

Modelling choices:

- **Items.** An element of a list is `Null` or an object `Obj(identity, id)`.
  `getItemId` is defined by subclasses of the adapter. The model takes the id
  as carried by the object and reports `NO_ID` for `Null`. Java's `==` on
  elements, used by `getPositionForItem`, is `Items.SameObject`, which compares
  identities only.
- **Exceptions.** `java.util.List` throws `IndexOutOfBoundsException` for a
  negative index. `DragItemAdapter.removeItem` and `BoardView.removeColumn`
  check for `>= 0`. The guards of `addItem`, `changeItemPosition` and
  `swapItems`, and the column checks of the board's `removeItem`, `addItem`,
  `replaceItem`, `moveItem` and `getItemCount(column)`, check only the upper
  bound. The model makes the
  exception an outcome, `Status.IndexOutOfBounds`, that keeps whatever state
  Java has changed by then. For example, `changeItemPosition` with a negative
  `toPos` has already removed the item.
- **Null lists.** A null `mItemList` is `None`.
- **Identity.** Views and adapters are Dafny objects compared by reference,
  as Java compares them.
- **Integers.** Integers are unbounded; Java's `int / 2` is modelled as
  truncating toward zero.
- **Inputs from outside.** Geometry the board only reads, such as the
  outer-parent bounds, the board's widths and the scroll position, is held in
  fields. Touch coordinates and the fling direction are parameters.
- **Scrolling.** `scrollToColumn` returns the scroll it would start rather
  than starting it.

Behaviour of the source that the model states exactly:

- **Same-column move to the end.** `moveItem(c, r, c, count)` passes the
  board's guard, which is checked before the removal. `addItem` then sees the
  shorter list and refuses the insert, so the item is lost.
- **Negative source row.** `moveItem` with a negative `fromRow` passes the
  guard, and `removeItem` returns `null`. When the target list is non-null
  and `0 <= toRow <= count`, that `null` is inserted into the target column.
  When the target list is null nothing is inserted, and a negative `toRow`
  makes `add` throw.
- **Null or negative target.** A move to another column whose list is null
  passes the guard for `toRow <= 0`, since that column's count is 0. The item
  is removed from the source, `addItem` refuses it, and it is lost. A move to
  a negative `toRow` in a non-null column also removes the item, and then
  `List.add` throws.
- **Negative row.** The board's `removeItem`, `addItem` and `replaceItem`
  check the row only against the count. With a negative row, `removeItem` is
  refused by the adapter's own `pos >= 0` check. `addItem` and `replaceItem`
  reach `List.add`, which throws on a non-null list. The board is unchanged
  in every case.
- **Null column.** `addItem` at row 0 of a column whose list is null passes
  the board's guard, since the count is 0. The adapter then refuses it, so
  nothing is added.
- **Headers.** `mHeaders` is keyed by the column index a header was stored
  under. `removeColumn` drops only that key and does not renumber the headers
  of later columns.

## Model

| member | source | states |
|---|---|---|
| Items.InsertAt | library/src/main/java/com/woxthebox/draglistview/DragItemAdapter.java:123 | `List.add(i, x)`: the length grows by one, x is at i, the prefix is kept and the suffix shifts right |
| Items.RemoveAt | library/src/main/java/com/woxthebox/draglistview/DragItemAdapter.java:109 | `List.remove(i)`: the length drops by one, the prefix is kept and the suffix shifts left |
| Items.SwapAt | library/src/main/java/com/woxthebox/draglistview/DragItemAdapter.java:138 | `Collections.swap`: the two entries are exchanged and every other entry is kept |
| Items.Count | library/src/main/java/com/woxthebox/draglistview/DragItemAdapter.java:153-156 | the number of elements, 0 for a null list |
| Items.Removed | library/src/main/java/com/woxthebox/draglistview/DragItemAdapter.java:106-115 | in range the count drops by one and the old element at pos is returned; otherwise the list is unchanged and null is returned; a null list stays null |
| Items.Added | library/src/main/java/com/woxthebox/draglistview/DragItemAdapter.java:117-126 | the count grows by one exactly when the list is non-null and 0 <= pos <= size; it throws exactly for a non-null list and a negative pos; a null list stays null |
| Items.ChangedPosition | library/src/main/java/com/woxthebox/draglistview/DragItemAdapter.java:128-134 | it throws exactly when both indices pass the size checks and one is negative; the count drops by one exactly when the removal ran and toPos is negative; a null list stays null |
| Items.Swapped | library/src/main/java/com/woxthebox/draglistview/DragItemAdapter.java:136-141 | the count is kept; it throws exactly when both indices pass the size checks and one is negative; a null list stays null |
| Items.RemoveThenInsertRestores | library/src/main/java/com/woxthebox/draglistview/DragItemAdapter.java:130-131 | removing at i and re-inserting the removed element at i gives the list back |
| Items.InsertThenRemoveRestores | library/src/main/java/com/woxthebox/draglistview/DragItemAdapter.java:106-126 | inserting at i and removing at i gives the list back |
| Items.RemoveThenInsertReplaces | library/src/main/java/com/woxthebox/draglistview/BoardView.java:552-553 | removing at i and inserting x at i replaces exactly the entry at i |
| Items.RemoveAtElements | library/src/main/java/com/woxthebox/draglistview/DragItemAdapter.java:109 | the removal takes exactly one copy of the removed element out of the multiset |
| Items.InsertAtElements | library/src/main/java/com/woxthebox/draglistview/DragItemAdapter.java:123 | the insertion adds exactly one copy of x to the multiset |
| Items.RemovedSpec | library/src/main/java/com/woxthebox/draglistview/DragItemAdapter.java:106-115 | removeItem within range returns the old element at pos and leaves `old[..pos] + old[pos+1..]`; with a null list or pos out of range it returns null and changes nothing |
| Items.RemovedThenAddedRestores | library/src/main/java/com/woxthebox/draglistview/DragItemAdapter.java:106-126 | adding back what removeItem returned at the same position restores the list |
| Items.AddedSpec | library/src/main/java/com/woxthebox/draglistview/DragItemAdapter.java:117-126 | addItem with 0 <= pos <= size inserts at pos; with pos > size or a null list nothing changes; a negative pos throws and changes nothing |
| Items.ChangedPositionSpec | library/src/main/java/com/woxthebox/draglistview/DragItemAdapter.java:128-134 | with both indices in range, the element from fromPos ends at toPos, and the length and the multiset of elements are kept |
| Items.ChangedPositionSameIsIdentity | library/src/main/java/com/woxthebox/draglistview/DragItemAdapter.java:128-134 | changeItemPosition(p, p) leaves the list as it was |
| Items.ChangedPositionToNegativeLosesItem | library/src/main/java/com/woxthebox/draglistview/DragItemAdapter.java:129-131 | a negative toPos passes the guard; the removal happens and then the add throws |
| Items.SwappedSpec | library/src/main/java/com/woxthebox/draglistview/DragItemAdapter.java:136-141 | swapItems in range exchanges exactly the two entries and keeps all others |
| Items.SwappedTwiceRestores | library/src/main/java/com/woxthebox/draglistview/DragItemAdapter.java:136-141 | swapping the same pair twice restores the list |
| Items.SwappedSameIsIdentity | library/src/main/java/com/woxthebox/draglistview/DragItemAdapter.java:136-141 | swapItems(p, p) is a no-op |
| Items.OperationsKeepNull | library/src/main/java/com/woxthebox/draglistview/DragItemAdapter.java:106-141 | on a null list every operation changes nothing and removeItem returns null |
| Adapter.DragItemAdapter.constructor | library/src/main/java/com/woxthebox/draglistview/DragItemAdapter.java:37-38 | both ids start at NO_ID and no list is set |
| Adapter.DragItemAdapter.SetItemList | library/src/main/java/com/woxthebox/draglistview/DragItemAdapter.java:44-47 | the list becomes the given one |
| Adapter.DragItemAdapter.GetItemCount | library/src/main/java/com/woxthebox/draglistview/DragItemAdapter.java:153-156 | 0 for a null list, the size otherwise |
| Adapter.DragItemAdapter.GetPositionForItem | library/src/main/java/com/woxthebox/draglistview/DragItemAdapter.java:53-61 | the first index holding the same object (by identity, as Java's `==`), or NO_POSITION exactly when no element is that object |
| Adapter.DragItemAdapter.GetPositionForItemId | library/src/main/java/com/woxthebox/draglistview/DragItemAdapter.java:143-151 | the first index whose item has the id, or NO_POSITION exactly when no item has it |
| Adapter.DragItemAdapter.RemoveItem | library/src/main/java/com/woxthebox/draglistview/DragItemAdapter.java:106-115 | the new list and the returned element are those of `Removed` |
| Adapter.DragItemAdapter.AddItem | library/src/main/java/com/woxthebox/draglistview/DragItemAdapter.java:117-126 | the new list and the outcome are those of `Added` |
| Adapter.DragItemAdapter.ChangeItemPosition | library/src/main/java/com/woxthebox/draglistview/DragItemAdapter.java:128-134 | the new list and the outcome are those of `ChangedPosition` |
| Adapter.DragItemAdapter.SwapItems | library/src/main/java/com/woxthebox/draglistview/DragItemAdapter.java:136-141 | the new list and the outcome are those of `Swapped` |
| Adapter.DragItemAdapter.SetDragItemId | library/src/main/java/com/woxthebox/draglistview/DragItemAdapter.java:176-178 | stores the drag item id |
| Adapter.DragItemAdapter.GetDropTargetId | library/src/main/java/com/woxthebox/draglistview/DragItemAdapter.java:184-186 | the stored drop-target id |
| Adapter.DragItemAdapter.SetDropTargetId | library/src/main/java/com/woxthebox/draglistview/DragItemAdapter.java:180-186 | getDropTargetId afterwards reads back the stored value |
| BoardItems.Total | library/src/main/java/com/woxthebox/draglistview/BoardView.java:482-488 | 0 for no columns; never below any column's count |
| BoardItems.RemovedOnBoard | library/src/main/java/com/woxthebox/draglistview/BoardView.java:505-510 | the number of columns is kept, only the given column can change, and it throws exactly when not dragging and the column is negative |
| BoardItems.AddedOnBoard | library/src/main/java/com/woxthebox/draglistview/BoardView.java:512-520 | the number of columns is kept, only the given column can change, and it throws exactly when not dragging and the column is negative, or the column exists with a non-null list and the row is negative |
| BoardItems.ReplacedOnBoard | library/src/main/java/com/woxthebox/draglistview/BoardView.java:549-558 | the number of columns is kept, only the given column can change, and it throws under the same conditions as addItem |
| BoardItems.MovedOnBoard | library/src/main/java/com/woxthebox/draglistview/BoardView.java:522-533 | the number of columns is kept and only the source and target columns can change |
| BoardItems.TotalUpdate | library/src/main/java/com/woxthebox/draglistview/BoardView.java:482-488 | replacing one column changes the board's total by the difference of the two counts |
| BoardItems.WhileDraggingNothingChanges | library/src/main/java/com/woxthebox/draglistview/BoardView.java:505-558 | while dragging, removeItem, addItem, replaceItem and moveItem leave the board alone |
| BoardItems.OutOfRangeNothingChanges | library/src/main/java/com/woxthebox/draglistview/BoardView.java:505-558 | with non-negative indices out of range, removeItem, replaceItem and addItem leave the board alone |
| BoardItems.NegativeRowChangesNothing | library/src/main/java/com/woxthebox/draglistview/BoardView.java:505-558 | a negative row in an existing column passes the board's guards; removeItem is a no-op, and addItem and replaceItem throw on a non-null list (end normally on a null one) with the board unchanged |
| BoardItems.AddedToNullColumnChangesNothing | library/src/main/java/com/woxthebox/draglistview/BoardView.java:512-520 | addItem at row 0 of a column whose list is null passes the guard, and the adapter refuses it: nothing is added |
| BoardItems.NegativeColumnThrows | library/src/main/java/com/woxthebox/draglistview/BoardView.java:505-558 | a negative column passes the size check and throws in `mLists.get`, with nothing changed |
| BoardItems.RemovedOnBoardInRange | library/src/main/java/com/woxthebox/draglistview/BoardView.java:505-510 | removeItem in range removes exactly that entry of that column and lowers the total by one |
| BoardItems.AddedOnBoardInRange | library/src/main/java/com/woxthebox/draglistview/BoardView.java:512-520 | addItem in range on a non-null list inserts at row in that column only and raises the total by one |
| BoardItems.ReplacedOnBoardInRange | library/src/main/java/com/woxthebox/draglistview/BoardView.java:549-558 | replaceItem in range changes only the entry at row; the column's length and the total are kept |
| BoardItems.MovedAcrossColumns | library/src/main/java/com/woxthebox/draglistview/BoardView.java:522-533 | between different columns, with the target list non-null and 0 <= toRow <= its count: the source loses exactly the entry at fromRow, the target gains it at toRow, all other columns are unchanged and the total is preserved |
| BoardItems.MovedToNullColumnDropsItem | library/src/main/java/com/woxthebox/draglistview/BoardView.java:522-533 | to another column whose list is null, with toRow <= 0: the source loses the item, nothing is added anywhere, and the total drops by one |
| BoardItems.MovedToNegativeRowThrows | library/src/main/java/com/woxthebox/draglistview/BoardView.java:522-533 | to a negative toRow in a non-null column: the source loses the item, `add` throws, and the total drops by one |
| BoardItems.MovedWithinColumn | library/src/main/java/com/woxthebox/draglistview/BoardView.java:522-533 | within one column to a row before the end, the move is changeItemPosition: the element lands at toRow and the elements are kept |
| BoardItems.MovedWithinColumnToEndDropsItem | library/src/main/java/com/woxthebox/draglistview/BoardView.java:523-528 | within one column with toRow equal to the count, the item is removed and not re-added, so the total drops by one |
| BoardItems.MovedFromNegativeRowInsertsNull | library/src/main/java/com/woxthebox/draglistview/BoardView.java:523-528 | a negative fromRow passes the guard and removeItem returns null; with the target list non-null and 0 <= toRow <= its count, the null is inserted into the target column |
| BoardItems.FirstMatchUnique | library/src/main/java/com/woxthebox/draglistview/BoardView.java:535-547 | the first item with an id, in column-then-row order, is unique |
| BoardItems.FirstMatchExists | library/src/main/java/com/woxthebox/draglistview/BoardView.java:535-547 | a board holding an item with the id has a first match for it |
| ColumnRules.Half | library/src/main/java/com/woxthebox/draglistview/BoardView.java:578 | Java's `/ 2` on int, also used at lines 266, 439 and 445: the remainder is 0 or 1 for a non-negative operand and 0 or -1 for a negative one |
| ColumnRules.Abs | library/src/main/java/com/woxthebox/draglistview/BoardView.java:445 | `Math.abs`: the result is x or -x, never negative |
| ColumnRules.ScrollTarget | library/src/main/java/com/woxthebox/draglistview/BoardView.java:577-582 | the target is always <= maxScroll and >= 0 whenever maxScroll >= 0; it is the centred position when that lies in range, else the clamp bound |
| ColumnRules.FlingTarget | library/src/main/java/com/woxthebox/draglistview/BoardView.java:885-893 | with at least one column the target is in [0, size-1]; it moves at most one column, in the fling's direction, and only when the scroll has not gone back against it |
| Board.LastIndexOf | library/src/main/java/com/woxthebox/draglistview/BoardView.java:401-410 | the last index holding x and no later one, or 0 when x is absent |
| Board.BoardView.constructor | library/src/main/java/com/woxthebox/draglistview/BoardView.java:77-78 | a board starts with no columns, no headers and no list being dragged |
| Board.BoardView.IsDragging | library/src/main/java/com/woxthebox/draglistview/BoardView.java:464-466 | false while there is no current list; otherwise whether the current list is dragging |
| Board.BoardView.GetHeaderView | library/src/main/java/com/woxthebox/draglistview/BoardView.java:501-503 | the header stored under that column key, or none when no header is stored under it |
| Board.BoardView.GetItemCount | library/src/main/java/com/woxthebox/draglistview/BoardView.java:482-488 | the sum of the item counts of all columns |
| Board.BoardView.GetItemCountInColumn | library/src/main/java/com/woxthebox/draglistview/BoardView.java:490-495 | 0 past the last column; the column's count within range; a negative column throws |
| Board.BoardView.GetNumberOfRows | library/src/main/java/com/woxthebox/draglistview/BoardView.java:423-425 | the column's count within range; any other column throws |
| Board.BoardView.RemoveItem | library/src/main/java/com/woxthebox/draglistview/BoardView.java:505-510 | the new board content and the outcome are those of `RemovedOnBoard` |
| Board.BoardView.AddItem | library/src/main/java/com/woxthebox/draglistview/BoardView.java:512-520 | the new board content and the outcome are those of `AddedOnBoard` |
| Board.BoardView.ReplaceItem | library/src/main/java/com/woxthebox/draglistview/BoardView.java:549-558 | the new board content and the outcome are those of `ReplacedOnBoard` |
| Board.BoardView.MoveItem | library/src/main/java/com/woxthebox/draglistview/BoardView.java:522-533 | the new board content and the outcome are those of `MovedOnBoard` |
| Board.BoardView.MoveItemById | library/src/main/java/com/woxthebox/draglistview/BoardView.java:535-547 | with no item holding the id the board is unchanged; otherwise the call is moveItem from the first match |
| Board.BoardView.RemoveColumn | library/src/main/java/com/woxthebox/draglistview/BoardView.java:602-608 | within range exactly that column goes and later ones shift down, and only the header key equal to the column is dropped; otherwise a no-op |
| Board.BoardView.ClearBoard | library/src/main/java/com/woxthebox/draglistview/BoardView.java:593-600 | no columns remain, and the headers under keys 0 .. size-1 are dropped |
| Board.BoardView.AddColumnList | library/src/main/java/com/woxthebox/draglistview/BoardView.java:685-701 | a new column with the adapter is appended, and a given header is stored under the old column count |
| Board.BoardView.AddColumnListWithContainer | library/src/main/java/com/woxthebox/draglistview/BoardView.java:761-798 | a new column is inserted at position when 0 <= position <= size; any other position throws with nothing changed |
| Board.BoardView.SwapColumn | library/src/main/java/com/woxthebox/draglistview/BoardView.java:338 | exchanges the two columns and keeps all others; an index out of range throws with nothing changed |
| Board.BoardView.GetCurrentRecyclerView | library/src/main/java/com/woxthebox/draglistview/BoardView.java:391-399 | the first list whose outer parent spans x, or the current list when none does |
| Board.BoardView.GetCurrentColumn | library/src/main/java/com/woxthebox/draglistview/BoardView.java:427-436 | the first column whose [left, right) holds x, else 0 |
| Board.BoardView.GetColumnOfList | library/src/main/java/com/woxthebox/draglistview/BoardView.java:401-410 | the last column holding the list, or 0 when it is absent |
| Board.BoardView.GetClosestColumn | library/src/main/java/com/woxthebox/draglistview/BoardView.java:438-452 | the lowest column minimising the distance of its centre from the middle of the view, or 0 when no distance is below Integer.MAX_VALUE (in particular with no columns) |
| Board.BoardView.ScrollToColumn | library/src/main/java/com/woxthebox/draglistview/BoardView.java:572-591 | a no-op past the last column; otherwise the clamped target, which is <= maxScroll and >= 0 when maxScroll >= 0; nothing moves when it equals the current scroll |
| Board.BoardView.OnFling | library/src/main/java/com/woxthebox/draglistview/BoardView.java:883-899 | the fling target of the column under the touch, which is always a column, and the scroll toward it |
| Board.BoardView.OnAutoScrollColumnBy | library/src/main/java/com/woxthebox/draglistview/BoardView.java:264-275 | a scroll happens only while dragging, with columns != 0 and a resulting column in [0, size) |

## Left out

- Touch dispatch and gestures: `handleTouchEvent`, `onInterceptTouchEvent`, `onTouchEvent`, the `GestureDetector` plumbing, `updateScrollPosition` and `handleColumnChange`. They are toolkit callbacks over `MotionEvent`. Touch X reaches `OnFling` as a parameter, and the fling velocity only as its sign.
- Animation: the `ValueAnimator` in `swapColumn`, `moveColumnsByX`, the alpha and scale animations in `addColumnListWithContainer`, `DragItemAdapter.animateHeight` and the `itemAnimation` field that `addItem` cancels. They are time-driven Android animators.
- Scroller physics and layout: the scroll itself, `computeScroll`, `onLayout`, `onFinishInflate` and the float auto-scroll edge. Geometry is taken as given; `ScrollToColumn` returns the target instead of scrolling.
- RecyclerView side effects: the `notifyItem*` calls, the `ViewHolder` listeners and `onBindViewHolder`. They are foreign UI calls, and only their effect on the list is modelled.
- Adapter.DragItemAdapter.RemoveItem: assumes `findViewHolderForAdapterPosition(pos)` finds a view holder. In Java a null result throws before the removal.
- The `scrollToItem` flag of `addItem`, `moveItem` and `replaceItem`, and `scrollToItem` itself. It only scrolls the view.
- The overload of `addColumnListWithContainer` without a position. It calls the modelled one with `mLists.size()`.
- `mTouchEnabled`, `mCanSwapColumn` and the column-drag listener that `addColumnListWithContainer` installs. They gate touch handling only.
- 32-bit overflow of the geometry arithmetic. All integers are unbounded.
- `getItemId`: it is defined by adapter subclasses. It is modelled as the id carried by each item.
- Board.BoardView item operations require `Valid()`, meaning that no two columns share an adapter. Board.BoardView.AddColumnList and Board.BoardView.AddColumnListWithContainer require that the new adapter is not already on the board, so that this holds. The source does not enforce either, and the model does not cover a board on which two columns share one adapter.
- `setItemList` aliasing: the list object is not shared with callers, so outside mutation of the list is not modelled.
- `getColumnOfListOuterParent`: it is the same loop as `getColumnOfList`, over outer parents, and outer parents are not modelled as objects.
- `getColumnCount` and `getItemList`: plain reads of the modelled state.
- `BoardColumnContainerLayout.java` (gesture callbacks and a float hit-test) and the sample `BoardFragment.java` (UI setup). Neither holds library logic on the board's content.
- Board.BoardView.OnFling: requires at least one column. Touch handling returns early when there are none.
