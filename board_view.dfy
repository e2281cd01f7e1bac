/** BoardView: a horizontally scrolling row of columns. mLists holds one
    DragItemRecyclerView per column, in column order; each view owns a
    DragItemAdapter whose item list is the column's content. */
module Board {
  import opened Items
  import opened Adapter
  import opened BoardItems
  import opened ColumnRules

  /** A header View stored in mHeaders, by identity. */
  type HeaderView = nat

  /** The part of a column's DragItemRecyclerView the board uses: its
      adapter, whether it is dragging, and the placement of its outer parent,
      which the board reads and which layout alone changes. */
  class DragItemRecyclerView {
    const adapter: DragItemAdapter
    var dragging: bool
    /** getOuterParent().getLeft(), getRight() and getMeasuredWidth() */
    var left: int
    var right: int
    var measuredWidth: int

    /** A new view, not yet laid out. */
    constructor (adapter: DragItemAdapter)
      ensures this.adapter == adapter && !dragging
      ensures left == 0 && right == 0 && measuredWidth == 0
    {
      this.adapter := adapter;
      dragging := false;
      left, right, measuredWidth := 0, 0, 0;
    }

    /** The outer parent covers x, widened by span on both sides. */
    predicate Spans(x: int, span: int)
      reads this`left, this`right
    {
      left - span <= x && right + span > x
    }
  }

  /** The item lists of the adapters of the given views. */
  ghost function ListsOf(vs: seq<DragItemRecyclerView>): (r: seq<ItemList>)
    reads set v | v in vs :: v.adapter
    ensures |r| == |vs|
    ensures forall i :: 0 <= i < |vs| ==> r[i] == vs[i].adapter.itemList
  {
    if vs == [] then [] else ListsOf(vs[..|vs| - 1]) + [vs[|vs| - 1].adapter.itemList]
  }

  /** The last index holding x, or 0 when there is none. */
  function LastIndexOf<T(==)>(s: seq<T>, x: T): (r: nat)
    ensures x in s ==> r < |s| && s[r] == x && forall j :: r < j < |s| ==> s[j] != x
    ensures x !in s ==> r == 0
  {
    if s == [] then 0
    else if s[|s| - 1] == x then |s| - 1
    else LastIndexOf(s[..|s| - 1], x)
  }

  /** The column indices 0 .. n-1. */
  function Indices(n: nat): (r: set<int>)
    ensures forall k :: k in r <==> 0 <= k < n
  {
    if n == 0 then {} else Indices(n - 1) + {n - 1}
  }

  class BoardView {
    /** mLists */
    var lists: seq<DragItemRecyclerView>
    /** mHeaders, keyed by the column index a header was added at */
    var headers: map<int, HeaderView>
    /** mCurrentRecyclerView: the list being dragged in, if any */
    var currentList: DragItemRecyclerView?
    /** mColumnWidth */
    var columnWidth: int
    /** getScrollX(), getWidth() and getMeasuredWidth() of the board, and
        the measured width of its root layout */
    var scrollX: int
    var width: int
    var measuredWidth: int
    var rootWidth: int

    /** Every column has an adapter of its own. */
    ghost predicate Valid()
      reads this
    {
      forall i, j :: 0 <= i < j < |lists| ==> lists[i].adapter != lists[j].adapter
    }

    ghost function Adapters(): set<DragItemAdapter>
      reads this
    {
      set v | v in lists :: v.adapter
    }

    /** The board's content: the item list of every column, in column order. */
    ghost function Columns(): seq<ItemList>
      reads this, Adapters()
    {
      ListsOf(lists)
    }

    /** isDragging(): false while there is no current list, otherwise whether
        that list is dragging. */
    predicate IsDragging()
      reads this, currentList
      ensures currentList == null ==> !IsDragging()
      ensures currentList != null ==> (IsDragging() <==> currentList.dragging)
    {
      currentList != null && currentList.dragging
    }

    /** A board after inflation, with no columns; the geometry comes from layout. */
    constructor (columnWidth: int, width: int, measuredWidth: int, rootWidth: int)
      ensures Valid() && lists == [] && headers == map[] && currentList == null
      ensures this.columnWidth == columnWidth && scrollX == 0
      ensures this.width == width && this.measuredWidth == measuredWidth && this.rootWidth == rootWidth
    {
      lists := [];
      headers := map[];
      currentList := null;
      this.columnWidth := columnWidth;
      scrollX := 0;
      this.width := width;
      this.measuredWidth := measuredWidth;
      this.rootWidth := rootWidth;
    }

    /** After a call that changed only the item list of column k's adapter,
        the board's content differs from before at k alone. */
    twostate lemma ColumnsAfterUpdate(k: nat)
      requires Valid() && old(lists) == lists && k < |lists|
      requires forall i :: 0 <= i < |lists| && i != k ==>
        lists[i].adapter.itemList == old(lists[i].adapter.itemList)
      ensures Columns() == old(Columns())[k := lists[k].adapter.itemList]
    {
    }

    // -------------------------------------------------------------------
    // Item counts

    /** getItemCount(): the number of items on the whole board. */
    method GetItemCount() returns (count: nat)
      ensures count == Total(Columns())
    {
      count := 0;
      for i := 0 to |lists|
        invariant count == Total(Columns()[..i])
      {
        assert Columns()[..i + 1][..i] == Columns()[..i];
        count := count + lists[i].adapter.GetItemCount();
      }
      assert Columns()[..|lists|] == Columns();
    }

    /** getItemCount(column): 0 past the last column; a negative column
        throws in mLists.get. */
    method GetItemCountInColumn(column: int) returns (status: Status, count: nat)
      ensures column >= |lists| ==> status == Ok && count == 0
      ensures column < 0 ==> status == IndexOutOfBounds
      ensures 0 <= column < |lists| ==> status == Ok && count == Count(Columns()[column])
    {
      if |lists| > column {
        if column < 0 {
          return IndexOutOfBounds, 0;
        }
        count := lists[column].adapter.GetItemCount();
        return Ok, count;
      }
      return Ok, 0;
    }

    /** getNumberOfRows(column): mLists.get throws for any column outside
        [0, size). */
    method GetNumberOfRows(column: int) returns (status: Status, count: nat)
      ensures 0 <= column < |lists| ==> status == Ok && count == Count(Columns()[column])
      ensures !(0 <= column < |lists|) ==> status == IndexOutOfBounds && count == 0
    {
      if column < 0 || column >= |lists| {
        return IndexOutOfBounds, 0;
      }
      count := lists[column].adapter.GetItemCount();
      return Ok, count;
    }

    /** getHeaderView(column): SparseArray.get, the header stored under that
        key, or null when there is none. */
    function GetHeaderView(column: int): (r: Option<HeaderView>)
      reads this
      ensures column !in headers ==> r == None
      ensures column in headers ==> r == Some(headers[column])
    {
      if column in headers then Some(headers[column]) else None
    }

    // -------------------------------------------------------------------
    // Item operations

    /** removeItem(column, row) */
    method RemoveItem(column: int, row: int) returns (status: Status)
      requires Valid()
      modifies Adapters()`itemList
      ensures BoardUpdate(Columns(), status) == RemovedOnBoard(IsDragging(), old(Columns()), column, row)
    {
      if IsDragging() || |lists| <= column {
        return Ok;
      }
      if column < 0 {
        return IndexOutOfBounds;
      }
      var adapter := lists[column].adapter;
      var count := adapter.GetItemCount();
      if count > row {
        var _ := adapter.RemoveItem(row);
        ColumnsAfterUpdate(column);
      }
      return Ok;
    }

    /** addItem(column, row, item) */
    method AddItem(column: int, row: int, item: Item) returns (status: Status)
      requires Valid()
      modifies Adapters()`itemList
      ensures BoardUpdate(Columns(), status) == AddedOnBoard(IsDragging(), old(Columns()), column, row, item)
    {
      if IsDragging() || |lists| <= column {
        return Ok;
      }
      if column < 0 {
        return IndexOutOfBounds;
      }
      var adapter := lists[column].adapter;
      var count := adapter.GetItemCount();
      status := Ok;
      if count >= row {
        status := adapter.AddItem(row, item);
        ColumnsAfterUpdate(column);
      }
    }

    /** replaceItem(column, row, item) */
    method ReplaceItem(column: int, row: int, item: Item) returns (status: Status)
      requires Valid()
      modifies Adapters()`itemList
      ensures BoardUpdate(Columns(), status) == ReplacedOnBoard(IsDragging(), old(Columns()), column, row, item)
    {
      if IsDragging() || |lists| <= column {
        return Ok;
      }
      if column < 0 {
        return IndexOutOfBounds;
      }
      var adapter := lists[column].adapter;
      var count := adapter.GetItemCount();
      status := Ok;
      if count > row {
        var _ := adapter.RemoveItem(row);
        status := adapter.AddItem(row, item);
        ColumnsAfterUpdate(column);
      }
    }

    /** moveItem(fromColumn, fromRow, toColumn, toRow) */
    method MoveItem(fromColumn: int, fromRow: int, toColumn: int, toRow: int) returns (status: Status)
      requires Valid()
      modifies Adapters()`itemList
      ensures BoardUpdate(Columns(), status) ==
        MovedOnBoard(IsDragging(), old(Columns()), fromColumn, fromRow, toColumn, toRow)
    {
      if IsDragging() || |lists| <= fromColumn {
        return Ok;
      }
      if fromColumn < 0 {
        return IndexOutOfBounds;
      }
      var fromCount := lists[fromColumn].adapter.GetItemCount();
      if fromCount <= fromRow || |lists| <= toColumn {
        return Ok;
      }
      if toColumn < 0 {
        return IndexOutOfBounds;
      }
      var toCount := lists[toColumn].adapter.GetItemCount();
      if toCount < toRow {
        return Ok;
      }
      var item := lists[fromColumn].adapter.RemoveItem(fromRow);
      ColumnsAfterUpdate(fromColumn);
      label removed:
      status := lists[toColumn].adapter.AddItem(toRow, item);
      ColumnsAfterUpdate@removed(toColumn);
    }

    /** moveItem(itemId, toColumn, toRow): moves the first item with this id,
        scanning the columns in order and the rows within each column; when no
        item has the id nothing changes. */
    method MoveItemById(itemId: int, toColumn: int, toRow: int) returns (status: Status)
      requires Valid()
      modifies Adapters()`itemList
      ensures NoMatch(old(Columns()), itemId) ==> Columns() == old(Columns()) && status == Ok
      ensures forall c, r :: IsFirstMatch(old(Columns()), itemId, c, r) ==>
        BoardUpdate(Columns(), status) == MovedOnBoard(IsDragging(), old(Columns()), c, r, toColumn, toRow)
    {
      for i := 0 to |lists|
        invariant Columns() == old(Columns())
        invariant forall c :: 0 <= c < i ==> NoIdBefore(Columns()[c], itemId, Count(Columns()[c]))
      {
        var adapter := lists[i].adapter;
        var count := adapter.GetItemCount();
        for j := 0 to count
          invariant NoIdBefore(Columns()[i], itemId, j)
        {
          if ItemId(adapter.itemList.value[j]) == itemId {
            assert IsFirstMatch(old(Columns()), itemId, i, j);
            status := MoveItem(i, j, toColumn, toRow);
            forall c, r | IsFirstMatch(old(Columns()), itemId, c, r)
              ensures c == i && r == j
            {
              FirstMatchUnique(old(Columns()), itemId, c, r, i, j);
            }
            return;
          }
        }
      }
      return Ok;
    }

    // -------------------------------------------------------------------
    // Column operations

    /** removeColumn(column): in range, the column goes, later columns shift
        down and only the header stored under this very index is dropped;
        headers of later columns keep their old keys. Out of range: no-op. */
    method RemoveColumn(column: int)
      requires Valid()
      modifies this`lists, this`headers
      ensures Valid()
      ensures 0 <= column < old(|lists|) ==>
        lists == old(lists[..column] + lists[column + 1..]) && headers == old(headers) - {column}
      ensures !(0 <= column < old(|lists|)) ==> lists == old(lists) && headers == old(headers)
    {
      if column >= 0 && |lists| > column {
        headers := headers - {column};
        lists := lists[..column] + lists[column + 1..];
      }
    }

    /** clearBoard(): removes the columns from last to first, with the header
        stored under each column index. */
    method ClearBoard()
      requires Valid()
      modifies this`lists, this`headers
      ensures Valid() && lists == []
      ensures headers == old(headers) - Indices(old(|lists|))
    {
      var count := |lists|;
      var i := count - 1;
      while i >= 0
        invariant -1 <= i < count
        invariant lists == old(lists)[..i + 1]
        invariant headers == old(headers) - (Indices(count) - Indices(i + 1))
      {
        assert Indices(count) - Indices(i) == (Indices(count) - Indices(i + 1)) + {i};
        headers := headers - {i};
        lists := lists[..i] + lists[i + 1..];
        i := i - 1;
      }
    }

    /** addColumnList(adapter, header): appends a new column and stores the
        header, when there is one, under the new column's index. */
    method AddColumnList(adapter: DragItemAdapter, header: Option<HeaderView>)
      returns (list: DragItemRecyclerView)
      requires Valid() && adapter !in Adapters()
      modifies this`lists, this`headers
      ensures Valid() && fresh(list) && list.adapter == adapter
      ensures lists == old(lists) + [list]
      ensures headers == if header.Some? then old(headers)[old(|lists|) := header.value] else old(headers)
      ensures Columns() == old(Columns()) + [adapter.itemList]
    {
      list := new DragItemRecyclerView(adapter);
      if header.Some? {
        headers := headers[|lists| := header.value];
      }
      lists := lists + [list];
    }

    /** addColumnListWithContainer(adapter, container, position): inserts a
        new column at position with mLists.add, which throws for a position
        outside [0, size]. mHeaders is not touched. */
    method AddColumnListWithContainer(adapter: DragItemAdapter, position: int)
      returns (status: Status, list: DragItemRecyclerView?)
      requires Valid() && adapter !in Adapters()
      modifies this`lists
      ensures Valid()
      ensures 0 <= position <= old(|lists|) ==>
        && status == Ok && list != null && fresh(list) && list.adapter == adapter
        && lists == old(lists[..position]) + [list] + old(lists[position..])
        && Columns() == old(Columns()[..position]) + [adapter.itemList] + old(Columns()[position..])
      ensures !(0 <= position <= old(|lists|)) ==>
        status == IndexOutOfBounds && list == null && lists == old(lists)
    {
      var created := new DragItemRecyclerView(adapter);
      if position < 0 || position > |lists| {
        return IndexOutOfBounds, null;
      }
      lists := lists[..position] + [created] + lists[position..];
      return Ok, created;
    }

    /** swapColumn's Collections.swap(mLists, oldColumn, newColumn), which
        throws for an index outside [0, size) before changing anything.
        mHeaders is not swapped. */
    method SwapColumn(oldColumn: int, newColumn: int) returns (status: Status)
      requires Valid()
      modifies this`lists
      ensures Valid() && |lists| == old(|lists|)
      ensures 0 <= oldColumn < |lists| && 0 <= newColumn < |lists| ==>
        && status == Ok
        && lists[oldColumn] == old(lists[newColumn]) && lists[newColumn] == old(lists[oldColumn])
        && forall k :: 0 <= k < |lists| && k != oldColumn && k != newColumn ==> lists[k] == old(lists[k])
      ensures !(0 <= oldColumn < |lists| && 0 <= newColumn < |lists|) ==>
        status == IndexOutOfBounds && lists == old(lists)
    {
      if oldColumn < 0 || oldColumn >= |lists| || newColumn < 0 || newColumn >= |lists| {
        return IndexOutOfBounds;
      }
      lists := lists[oldColumn := lists[newColumn]][newColumn := lists[oldColumn]];
      return Ok;
    }

    // -------------------------------------------------------------------
    // Choosing a column

    /** The index of the first column from k on whose outer parent spans x,
        or |lists| when there is none. */
    ghost function FirstSpanningFrom(x: int, span: int, k: nat): (r: nat)
      requires k <= |lists|
      reads this, lists
      ensures k <= r <= |lists|
      ensures r < |lists| ==> lists[r].Spans(x, span)
      ensures forall j :: k <= j < r ==> !lists[j].Spans(x, span)
      decreases |lists| - k
    {
      if k == |lists| then k
      else if lists[k].Spans(x, span) then k
      else FirstSpanningFrom(x, span, k + 1)
    }

    /** The first list whose outer parent spans x, or the current list when
        none does. */
    ghost function ListAt(x: int, span: int): DragItemRecyclerView?
      reads this, lists
    {
      var k := FirstSpanningFrom(x, span, 0);
      if k < |lists| then lists[k] else currentList
    }

    /** getCurrentRecyclerView(x, span): the first list whose outer parent
        spans x, or mCurrentRecyclerView when none does. */
    method GetCurrentRecyclerView(x: int, span: int) returns (list: DragItemRecyclerView?)
      ensures list == ListAt(x, span)
    {
      for i := 0 to |lists|
        invariant FirstSpanningFrom(x, span, 0) == FirstSpanningFrom(x, span, i)
      {
        if lists[i].left - span <= x && lists[i].right + span > x {
          return lists[i];
        }
      }
      return currentList;
    }

    /** getCurrentColumn(posX): the first column whose [left, right) holds
        posX, or 0 when none does. */
    method GetCurrentColumn(posX: int) returns (column: nat)
      ensures var k := FirstSpanningFrom(posX, 0, 0);
        column == if k < |lists| then k else 0
    {
      for i := 0 to |lists|
        invariant FirstSpanningFrom(posX, 0, 0) == FirstSpanningFrom(posX, 0, i)
      {
        if lists[i].left <= posX && lists[i].right > posX {
          return i;
        }
      }
      return 0;
    }

    /** getColumnOfList(list): the last column holding list, or 0. */
    method GetColumnOfList(list: DragItemRecyclerView?) returns (column: nat)
      ensures column == LastIndexOf(lists, list)
    {
      column := 0;
      for i := 0 to |lists|
        invariant column == LastIndexOf(lists[..i], list)
      {
        assert lists[..i + 1][..i] == lists[..i];
        if lists[i] == list {
          column := i;
        }
      }
      assert lists[..|lists|] == lists;
    }

    /** How far column i's centre, taken as its left edge plus half the column
        width, lies from x. */
    function DistanceToColumn(i: nat, x: int): nat
      requires i < |lists|
      reads this, lists
    {
      Abs(lists[i].left + Half(columnWidth) - x)
    }

    /** getClosestColumn(): the first column whose centre is nearest the middle
        of the visible area. The running minimum starts at Integer.MAX_VALUE,
        so a column counts only when its distance is below that; with none,
        the answer is 0. */
    method GetClosestColumn() returns (column: nat)
      ensures column < |lists| || column == 0
      ensures var middle := scrollX + Half(measuredWidth);
        (exists i :: 0 <= i < |lists| && DistanceToColumn(i, middle) < INT_MAX) ==>
          && column < |lists|
          && DistanceToColumn(column, middle) < INT_MAX
          && (forall j :: 0 <= j < |lists| ==> DistanceToColumn(column, middle) <= DistanceToColumn(j, middle))
          && (forall j :: 0 <= j < column ==> DistanceToColumn(column, middle) < DistanceToColumn(j, middle))
      ensures var middle := scrollX + Half(measuredWidth);
        (forall i :: 0 <= i < |lists| ==> DistanceToColumn(i, middle) >= INT_MAX) ==> column == 0
    {
      var middle := scrollX + Half(measuredWidth);
      column := 0;
      var minDiff := INT_MAX;
      for i := 0 to |lists|
        invariant column < i || column == 0
        invariant minDiff <= INT_MAX
        invariant minDiff < INT_MAX ==> column < i && minDiff == DistanceToColumn(column, middle)
        invariant minDiff == INT_MAX ==> column == 0
        invariant forall j :: 0 <= j < i ==> minDiff <= DistanceToColumn(j, middle)
        invariant forall j :: 0 <= j < column ==> minDiff < DistanceToColumn(j, middle)
      {
        var diff := DistanceToColumn(i, middle);
        if diff < minDiff {
          minDiff := diff;
          column := i;
        }
      }
    }

    /** The scroll position scrollToColumn aims at for a column. */
    function TargetScrollX(column: nat): int
      requires column < |lists|
      reads this, lists
    {
      ScrollTarget(lists[column].left, measuredWidth, lists[column].measuredWidth, rootWidth - measuredWidth)
    }

    /** scrollToColumn(column): the scroll it starts, if any. Past the last
        column it is a no-op; a negative column throws in mLists.get; nothing
        moves when the target is the current position. */
    method ScrollToColumn(column: int) returns (status: Status, newX: Option<int>)
      ensures column >= |lists| ==> status == Ok && newX == None
      ensures column < 0 ==> status == IndexOutOfBounds && newX == None
      ensures 0 <= column < |lists| ==>
        && status == Ok
        && newX == (if TargetScrollX(column) == scrollX then None else Some(TargetScrollX(column)))
      ensures newX.Some? ==>
        && newX.value != scrollX
        && newX.value <= rootWidth - measuredWidth
        && (rootWidth - measuredWidth >= 0 ==> newX.value >= 0)
    {
      if |lists| <= column {
        return Ok, None;
      }
      if column < 0 {
        return IndexOutOfBounds, None;
      }
      var x := TargetScrollX(column);
      if scrollX != x {
        return Ok, Some(x);
      }
      return Ok, None;
    }

    /** GestureListener.onFling: the column a fling scrolls to and the scroll
        it starts. Touch handling runs only while there is a column. */
    method OnFling(e2X: int, velocityNegative: bool, startScrollX: int)
      returns (column: nat, newX: Option<int>)
      requires |lists| > 0
      ensures column < |lists|
      ensures var k := FirstSpanningFrom(e2X + scrollX, 0, 0);
        column == FlingTarget(if k < |lists| then k else 0, |lists|, velocityNegative, scrollX, startScrollX)
      ensures newX == if TargetScrollX(column) == scrollX then None else Some(TargetScrollX(column))
    {
      var current := GetCurrentColumn(e2X + scrollX);
      var target := FlingTarget(current, |lists|, velocityNegative, scrollX, startScrollX);
      var status;
      status, newX := ScrollToColumn(target);
      column := target;
    }

    /** getWidth() / 2 + getScrollX(): the middle of the visible area. */
    function MiddleX(): int
      reads this
    {
      Half(width) + scrollX
    }

    /** onAutoScrollColumnBy(columns): while dragging, the column the board
        scrolls to: the column of the list under the middle of the view moved
        by columns, provided columns != 0 and the result is a column. */
    method OnAutoScrollColumnBy(columns: int) returns (target: Option<int>)
      ensures target.Some? ==> IsDragging() && columns != 0 && 0 <= target.value < |lists|
      ensures IsDragging() ==>
        var base := LastIndexOf(lists, ListAt(MiddleX(), 0));
        target == if columns != 0 && 0 <= base + columns < |lists| then Some(base + columns) else None
      ensures !IsDragging() ==> target == None
    {
      target := None;
      if IsDragging() {
        var list := GetCurrentRecyclerView(MiddleX(), 0);
        var base := GetColumnOfList(list);
        var newColumn := base + columns;
        if columns != 0 && newColumn >= 0 && newColumn < |lists| {
          target := Some(newColumn);
        }
      }
    }
  }
}
