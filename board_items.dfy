/** BoardView's item operations, stated on values: the board's columns are the
    item lists of their adapters, in column order. Each operation checks the
    board's guard, evaluated left to right as Java does (so a negative column
    index throws where the guard first calls mLists.get), and then applies the
    adapter operations of module Items. */
module BoardItems {
  import opened Items

  /** The columns after a board operation and how the call ended. */
  datatype BoardUpdate = BoardUpdate(columns: seq<ItemList>, status: Status)

  /** getItemCount(): the sum of the column counts. */
  function Total(cs: seq<ItemList>): (t: nat)
    ensures cs == [] ==> t == 0
    ensures forall k :: 0 <= k < |cs| ==> Count(cs[k]) <= t
  {
    if cs == [] then 0 else Total(cs[..|cs| - 1]) + Count(cs[|cs| - 1])
  }

  /** Replacing one column changes the total by the difference of the counts. */
  lemma {:induction false} TotalUpdate(cs: seq<ItemList>, k: nat, l: ItemList)
    requires k < |cs|
    ensures Total(cs[k := l]) + Count(cs[k]) == Total(cs) + Count(l)
    decreases |cs|
  {
    var n := |cs| - 1;
    assert cs[k := l][..n] == if k < n then cs[..n][k := l] else cs[..n];
    if k < n {
      TotalUpdate(cs[..n], k, l);
    }
  }

  /** removeItem(column, row) */
  function RemovedOnBoard(dragging: bool, cs: seq<ItemList>, column: int, row: int): (b: BoardUpdate)
    ensures |b.columns| == |cs|
    ensures forall c :: 0 <= c < |cs| && c != column ==> b.columns[c] == cs[c]
    ensures b.status == IndexOutOfBounds <==> !dragging && column < 0
  {
    if dragging || |cs| <= column then BoardUpdate(cs, Ok)
    else if column < 0 then BoardUpdate(cs, IndexOutOfBounds)
    else if Count(cs[column]) <= row then BoardUpdate(cs, Ok)
    else BoardUpdate(cs[column := Removed(cs[column], row).list], Ok)
  }

  /** addItem(column, row, item) */
  function AddedOnBoard(dragging: bool, cs: seq<ItemList>, column: int, row: int, x: Item): (b: BoardUpdate)
    ensures |b.columns| == |cs|
    ensures forall c :: 0 <= c < |cs| && c != column ==> b.columns[c] == cs[c]
    ensures b.status == IndexOutOfBounds <==>
      !dragging && (column < 0 || (column < |cs| && cs[column].Some? && row < 0))
  {
    if dragging || |cs| <= column then BoardUpdate(cs, Ok)
    else if column < 0 then BoardUpdate(cs, IndexOutOfBounds)
    else if Count(cs[column]) < row then BoardUpdate(cs, Ok)
    else
      var u := Added(cs[column], row, x);
      BoardUpdate(cs[column := u.list], u.status)
  }

  /** replaceItem(column, row, item): removeItem(row), then addItem(row, item). */
  function ReplacedOnBoard(dragging: bool, cs: seq<ItemList>, column: int, row: int, x: Item): (b: BoardUpdate)
    ensures |b.columns| == |cs|
    ensures forall c :: 0 <= c < |cs| && c != column ==> b.columns[c] == cs[c]
    ensures b.status == IndexOutOfBounds <==>
      !dragging && (column < 0 || (column < |cs| && cs[column].Some? && row < 0))
  {
    if dragging || |cs| <= column then BoardUpdate(cs, Ok)
    else if column < 0 then BoardUpdate(cs, IndexOutOfBounds)
    else if Count(cs[column]) <= row then BoardUpdate(cs, Ok)
    else
      var u := Added(Removed(cs[column], row).list, row, x);
      BoardUpdate(cs[column := u.list], u.status)
  }

  /** moveItem(fromColumn, fromRow, toColumn, toRow): the guard is checked
      once, before the removal; the insertion then re-checks the target's size
      as it is after the removal. */
  function MovedOnBoard(dragging: bool, cs: seq<ItemList>, fromColumn: int, fromRow: int,
                        toColumn: int, toRow: int): (b: BoardUpdate)
    ensures |b.columns| == |cs|
    ensures forall c :: 0 <= c < |cs| && c != fromColumn && c != toColumn ==> b.columns[c] == cs[c]
  {
    if dragging || |cs| <= fromColumn then BoardUpdate(cs, Ok)
    else if fromColumn < 0 then BoardUpdate(cs, IndexOutOfBounds)
    else if Count(cs[fromColumn]) <= fromRow || |cs| <= toColumn then BoardUpdate(cs, Ok)
    else if toColumn < 0 then BoardUpdate(cs, IndexOutOfBounds)
    else if Count(cs[toColumn]) < toRow then BoardUpdate(cs, Ok)
    else
      var r := Removed(cs[fromColumn], fromRow);
      var cs1 := cs[fromColumn := r.list];
      var u := Added(cs1[toColumn], toRow, r.item);
      BoardUpdate(cs1[toColumn := u.list], u.status)
  }

  /** No item of column l among its first upTo has this id. */
  ghost predicate NoIdBefore(l: ItemList, id: int, upTo: int)
  {
    forall j :: 0 <= j < upTo && j < Count(l) ==> ItemId(Elements(l)[j]) != id
  }

  /** (column, row) is the first match for id, scanning the columns in order
      and the rows within each column. */
  ghost predicate IsFirstMatch(cs: seq<ItemList>, id: int, column: int, row: int)
  {
    && 0 <= column < |cs| && 0 <= row < Count(cs[column])
    && ItemId(Elements(cs[column])[row]) == id
    && (forall c :: 0 <= c < column ==> NoIdBefore(cs[c], id, Count(cs[c])))
    && NoIdBefore(cs[column], id, row)
  }

  /** No item on the board has this id. */
  ghost predicate NoMatch(cs: seq<ItemList>, id: int)
  {
    forall c :: 0 <= c < |cs| ==> NoIdBefore(cs[c], id, Count(cs[c]))
  }

  // ---------------------------------------------------------------------
  // Properties

  /** While dragging, removeItem, addItem, replaceItem and moveItem leave the
      board alone. */
  lemma WhileDraggingNothingChanges(cs: seq<ItemList>, c1: int, r1: int, c2: int, r2: int, x: Item)
    ensures RemovedOnBoard(true, cs, c1, r1) == BoardUpdate(cs, Ok)
    ensures AddedOnBoard(true, cs, c1, r1, x) == BoardUpdate(cs, Ok)
    ensures ReplacedOnBoard(true, cs, c1, r1, x) == BoardUpdate(cs, Ok)
    ensures MovedOnBoard(true, cs, c1, r1, c2, r2) == BoardUpdate(cs, Ok)
  {
  }

  /** With non-negative indices out of range, removeItem, replaceItem and
      addItem leave the board alone. */
  lemma OutOfRangeNothingChanges(dragging: bool, cs: seq<ItemList>, column: nat, row: nat, x: Item)
    requires column >= |cs| || row >= Count(cs[column])
    ensures RemovedOnBoard(dragging, cs, column, row) == BoardUpdate(cs, Ok)
    ensures ReplacedOnBoard(dragging, cs, column, row, x) == BoardUpdate(cs, Ok)
    ensures column >= |cs| || row > Count(cs[column]) ==>
      AddedOnBoard(dragging, cs, column, row, x) == BoardUpdate(cs, Ok)
  {
  }

  /** A negative row in an existing column passes the board's guard, which
      only checks the upper bound: removeItem is then refused by the adapter's
      own pos >= 0 check, while addItem and replaceItem reach List.add, which
      throws on a non-null list. Nothing changes in any case. */
  lemma NegativeRowChangesNothing(cs: seq<ItemList>, column: nat, row: int, x: Item)
    requires column < |cs| && row < 0
    ensures RemovedOnBoard(false, cs, column, row) == BoardUpdate(cs, Ok)
    ensures AddedOnBoard(false, cs, column, row, x) ==
      BoardUpdate(cs, if cs[column].Some? then IndexOutOfBounds else Ok)
    ensures ReplacedOnBoard(false, cs, column, row, x) ==
      BoardUpdate(cs, if cs[column].Some? then IndexOutOfBounds else Ok)
  {
    assert cs[column := cs[column]] == cs;
  }

  /** addItem on a column whose list is null: the count is 0, so row 0 passes
      the board's guard, and the adapter then refuses the insert. */
  lemma AddedToNullColumnChangesNothing(cs: seq<ItemList>, column: nat, x: Item)
    requires column < |cs| && cs[column].None?
    ensures AddedOnBoard(false, cs, column, 0, x) == BoardUpdate(cs, Ok)
  {
    assert cs[column := cs[column]] == cs;
  }

  /** A negative column passes the size check and throws in mLists.get. */
  lemma NegativeColumnThrows(cs: seq<ItemList>, column: int, row: int, x: Item)
    requires column < 0
    ensures RemovedOnBoard(false, cs, column, row) == BoardUpdate(cs, IndexOutOfBounds)
    ensures AddedOnBoard(false, cs, column, row, x) == BoardUpdate(cs, IndexOutOfBounds)
    ensures ReplacedOnBoard(false, cs, column, row, x) == BoardUpdate(cs, IndexOutOfBounds)
  {
  }

  /** removeItem in range drops exactly that item and lowers the total by one. */
  lemma {:induction false} RemovedOnBoardInRange(cs: seq<ItemList>, column: nat, row: nat)
    requires column < |cs| && row < Count(cs[column])
    ensures var b := RemovedOnBoard(false, cs, column, row);
      b.status == Ok && b.columns == cs[column := Some(RemoveAt(cs[column].value, row))] &&
      Total(b.columns) + 1 == Total(cs)
  {
    TotalUpdate(cs, column, Some(RemoveAt(cs[column].value, row)));
  }

  /** addItem in range on a non-null list inserts x at row and raises the total by one. */
  lemma {:induction false} AddedOnBoardInRange(cs: seq<ItemList>, column: nat, row: nat, x: Item)
    requires column < |cs| && cs[column].Some? && row <= Count(cs[column])
    ensures var b := AddedOnBoard(false, cs, column, row, x);
      b.status == Ok && b.columns == cs[column := Some(InsertAt(cs[column].value, row, x))] &&
      Total(b.columns) == Total(cs) + 1
  {
    TotalUpdate(cs, column, Some(InsertAt(cs[column].value, row, x)));
  }

  /** replaceItem in range changes only the entry at row, keeping the column's length. */
  lemma {:induction false} ReplacedOnBoardInRange(cs: seq<ItemList>, column: nat, row: nat, x: Item)
    requires column < |cs| && row < Count(cs[column])
    ensures var b := ReplacedOnBoard(false, cs, column, row, x);
      b.status == Ok && b.columns == cs[column := Some(cs[column].value[row := x])] &&
      Total(b.columns) == Total(cs)
  {
    RemoveThenInsertReplaces(cs[column].value, row, x);
    TotalUpdate(cs, column, Some(cs[column].value[row := x]));
  }

  /** A move between two different columns with the guard satisfied: the
      source loses exactly the element at fromRow, the target gains it at
      toRow, every other column is unchanged and the total is preserved. */
  lemma {:induction false} MovedAcrossColumns(cs: seq<ItemList>, fromColumn: nat, fromRow: nat,
                                           toColumn: nat, toRow: nat)
    requires fromColumn < |cs| && fromRow < Count(cs[fromColumn])
    requires toColumn < |cs| && toRow <= Count(cs[toColumn]) && cs[toColumn].Some?
    requires fromColumn != toColumn
    ensures var b := MovedOnBoard(false, cs, fromColumn, fromRow, toColumn, toRow);
      && b.status == Ok && |b.columns| == |cs|
      && b.columns[fromColumn] == Some(RemoveAt(cs[fromColumn].value, fromRow))
      && b.columns[toColumn] == Some(InsertAt(cs[toColumn].value, toRow, cs[fromColumn].value[fromRow]))
      && (forall c :: 0 <= c < |cs| && c != fromColumn && c != toColumn ==> b.columns[c] == cs[c])
      && Total(b.columns) == Total(cs)
  {
    var s := RemoveAt(cs[fromColumn].value, fromRow);
    var t := InsertAt(cs[toColumn].value, toRow, cs[fromColumn].value[fromRow]);
    var cs1 := cs[fromColumn := Some(s)];
    TotalUpdate(cs, fromColumn, Some(s));
    TotalUpdate(cs1, toColumn, Some(t));
  }

  /** A move to a different column whose list is null: that column's count is
      0, so toRow <= 0 passes the guard; the item is removed from the source,
      addItem refuses it because the target list is null, and it is lost. */
  lemma {:induction false} MovedToNullColumnDropsItem(cs: seq<ItemList>, fromColumn: nat, fromRow: nat,
                                                   toColumn: nat, toRow: int)
    requires fromColumn < |cs| && fromRow < Count(cs[fromColumn])
    requires toColumn < |cs| && toColumn != fromColumn && cs[toColumn].None? && toRow <= 0
    ensures var b := MovedOnBoard(false, cs, fromColumn, fromRow, toColumn, toRow);
      && b == BoardUpdate(cs[fromColumn := Some(RemoveAt(cs[fromColumn].value, fromRow))], Ok)
      && Total(b.columns) + 1 == Total(cs)
  {
    TotalUpdate(cs, fromColumn, Some(RemoveAt(cs[fromColumn].value, fromRow)));
  }

  /** A move to a negative toRow in a non-null column passes the guard; the
      item is removed from the source and then List.add throws, so it is lost. */
  lemma {:induction false} MovedToNegativeRowThrows(cs: seq<ItemList>, fromColumn: nat, fromRow: nat,
                                                 toColumn: nat, toRow: int)
    requires fromColumn < |cs| && fromRow < Count(cs[fromColumn])
    requires toColumn < |cs| && cs[toColumn].Some? && toRow < 0
    ensures var b := MovedOnBoard(false, cs, fromColumn, fromRow, toColumn, toRow);
      && b == BoardUpdate(cs[fromColumn := Some(RemoveAt(cs[fromColumn].value, fromRow))], IndexOutOfBounds)
      && Total(b.columns) + 1 == Total(cs)
  {
    TotalUpdate(cs, fromColumn, Some(RemoveAt(cs[fromColumn].value, fromRow)));
  }

  /** A move within one column to a row before the current end is
      changeItemPosition: the element ends at toRow, the elements are kept. */
  lemma {:induction false} MovedWithinColumn(cs: seq<ItemList>, column: nat, fromRow: nat, toRow: nat)
    requires column < |cs| && fromRow < Count(cs[column]) && toRow < Count(cs[column])
    ensures var b := MovedOnBoard(false, cs, column, fromRow, column, toRow);
      && b == BoardUpdate(cs[column := ChangedPosition(cs[column], fromRow, toRow).list], Ok)
      && b.columns[column].Some?
      && b.columns[column].value[toRow] == cs[column].value[fromRow]
      && multiset(b.columns[column].value) == multiset(cs[column].value)
      && Total(b.columns) == Total(cs)
  {
    var l := cs[column];
    var r := Removed(l, fromRow);
    assert r == Removal(Some(RemoveAt(l.value, fromRow)), l.value[fromRow]);
    var cs1 := cs[column := r.list];
    assert cs1[column] == r.list;
    var u := ChangedPosition(l, fromRow, toRow);
    assert Added(r.list, toRow, r.item) == u;
    assert cs1[column := u.list] == cs[column := u.list];
    ChangedPositionSpec(l, fromRow, toRow);
    TotalUpdate(cs, column, u.list);
  }

  /** A move within one column to toRow == count passes the guard, which was
      checked before the removal; the insertion then finds the column one
      shorter and refuses, so the item is removed and not re-added. */
  lemma {:induction false} MovedWithinColumnToEndDropsItem(cs: seq<ItemList>, column: nat, fromRow: nat)
    requires column < |cs| && fromRow < Count(cs[column])
    ensures var b := MovedOnBoard(false, cs, column, fromRow, column, Count(cs[column]));
      && b == BoardUpdate(cs[column := Some(RemoveAt(cs[column].value, fromRow))], Ok)
      && Total(b.columns) + 1 == Total(cs)
  {
    TotalUpdate(cs, column, Some(RemoveAt(cs[column].value, fromRow)));
  }

  /** A negative fromRow passes the guard; removeItem returns null and that
      null is inserted into the target column. */
  lemma MovedFromNegativeRowInsertsNull(cs: seq<ItemList>, fromColumn: nat, fromRow: int,
                                        toColumn: nat, toRow: nat)
    requires fromColumn < |cs| && fromRow < 0
    requires toColumn < |cs| && cs[toColumn].Some? && toRow <= Count(cs[toColumn])
    ensures MovedOnBoard(false, cs, fromColumn, fromRow, toColumn, toRow) ==
      BoardUpdate(cs[toColumn := Some(InsertAt(cs[toColumn].value, toRow, Null))], Ok)
  {
  }

  /** There is at most one first match. */
  lemma FirstMatchUnique(cs: seq<ItemList>, id: int, c1: int, r1: int, c2: int, r2: int)
    requires IsFirstMatch(cs, id, c1, r1) && IsFirstMatch(cs, id, c2, r2)
    ensures c1 == c2 && r1 == r2
  {
  }

  /** A board with some item of this id has a first match for it. */
  lemma {:induction false} FirstMatchExists(cs: seq<ItemList>, id: int)
    requires !NoMatch(cs, id)
    ensures exists c, r :: IsFirstMatch(cs, id, c, r)
  {
    var c := FirstColumnFrom(cs, id, 0);
    var r := FirstRowWith(cs[c], id, Count(cs[c]));
    assert IsFirstMatch(cs, id, c, r);
  }

  /** The lowest column from k on holding the id, when none before k does. */
  ghost function FirstColumnFrom(cs: seq<ItemList>, id: int, k: nat): (r: nat)
    requires k < |cs| && !NoMatch(cs, id)
    requires forall j :: 0 <= j < k ==> NoIdBefore(cs[j], id, Count(cs[j]))
    ensures k <= r < |cs| && !NoIdBefore(cs[r], id, Count(cs[r]))
    ensures forall j :: 0 <= j < r ==> NoIdBefore(cs[j], id, Count(cs[j]))
    decreases |cs| - k
  {
    if !NoIdBefore(cs[k], id, Count(cs[k])) then k else FirstColumnFrom(cs, id, k + 1)
  }

  /** The lowest row below upTo whose item has the id, when there is one. */
  ghost function FirstRowWith(l: ItemList, id: int, upTo: nat): (r: nat)
    requires upTo <= Count(l) && !NoIdBefore(l, id, upTo)
    ensures r < upTo && ItemId(Elements(l)[r]) == id && NoIdBefore(l, id, r)
    decreases upTo
  {
    if NoIdBefore(l, id, upTo - 1) then upTo - 1 else FirstRowWith(l, id, upTo - 1)
  }
}
