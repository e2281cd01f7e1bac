/** DragItemAdapter: the adapter behind one list, holding its mutable item list
    and the ids of the item being dragged and of the drop target. */
module Adapter {
  import opened Items

  class DragItemAdapter {
    /** mItemList; None while no list has been set. */
    var itemList: ItemList
    /** mDragItemId */
    var dragItemId: int
    /** mDropTargetId */
    var dropTargetId: int

    /** A new adapter has no list and both ids at NO_ID. */
    constructor ()
      ensures itemList == None
      ensures dragItemId == NO_ID && dropTargetId == NO_ID
    {
      itemList := None;
      dragItemId := NO_ID;
      dropTargetId := NO_ID;
    }

    /** setItemList */
    method SetItemList(list: ItemList)
      modifies this`itemList
      ensures itemList == list
    {
      itemList := list;
    }

    /** getItemCount: 0 for a null list, otherwise its size. */
    function GetItemCount(): (n: nat)
      reads this`itemList
      ensures itemList.None? ==> n == 0
      ensures itemList.Some? ==> n == |itemList.value|
    {
      Count(itemList)
    }

    /** getPositionForItem: the first index holding this very item (the same
        object, or null for null), or NO_POSITION when there is none. */
    method GetPositionForItem(item: Item) returns (pos: int)
      ensures NO_POSITION <= pos < Count(itemList)
      ensures pos != NO_POSITION ==> SameObject(Elements(itemList)[pos], item)
      ensures pos != NO_POSITION ==>
        forall k :: 0 <= k < pos ==> !SameObject(Elements(itemList)[k], item)
      ensures pos == NO_POSITION ==>
        forall k :: 0 <= k < Count(itemList) ==> !SameObject(Elements(itemList)[k], item)
    {
      var count := GetItemCount();
      for i := 0 to count
        invariant forall k :: 0 <= k < i ==> !SameObject(Elements(itemList)[k], item)
      {
        if SameObject(itemList.value[i], item) {
          return i;
        }
      }
      return NO_POSITION;
    }

    /** getPositionForItemId: the first index whose item has this id, or
        NO_POSITION when there is none. */
    method GetPositionForItemId(id: int) returns (pos: int)
      ensures NO_POSITION <= pos < Count(itemList)
      ensures pos != NO_POSITION ==> ItemId(Elements(itemList)[pos]) == id
      ensures pos != NO_POSITION ==>
        forall k :: 0 <= k < pos ==> ItemId(Elements(itemList)[k]) != id
      ensures pos == NO_POSITION ==>
        forall k :: 0 <= k < Count(itemList) ==> ItemId(Elements(itemList)[k]) != id
    {
      var count := GetItemCount();
      for i := 0 to count
        invariant forall k :: 0 <= k < i ==> ItemId(Elements(itemList)[k]) != id
      {
        if id == ItemId(itemList.value[i]) {
          return i;
        }
      }
      return NO_POSITION;
    }

    /** removeItem(pos): returns the removed element, or null when the list is
        null or pos is out of range. */
    method RemoveItem(pos: int) returns (item: Item)
      modifies this`itemList
      ensures Removal(itemList, item) == Removed(old(itemList), pos)
    {
      if itemList.Some? && |itemList.value| > pos && pos >= 0 {
        item := itemList.value[pos];
        itemList := Some(RemoveAt(itemList.value, pos));
        return;
      }
      return Null;
    }

    /** addItem(pos, item) */
    method AddItem(pos: int, item: Item) returns (status: Status)
      modifies this`itemList
      ensures Update(itemList, status) == Added(old(itemList), pos, item)
    {
      status := Ok;
      if itemList.Some? && |itemList.value| >= pos {
        if pos < 0 {
          return IndexOutOfBounds;
        }
        itemList := Some(InsertAt(itemList.value, pos, item));
      }
    }

    /** changeItemPosition(fromPos, toPos) */
    method ChangeItemPosition(fromPos: int, toPos: int) returns (status: Status)
      modifies this`itemList
      ensures Update(itemList, status) == ChangedPosition(old(itemList), fromPos, toPos)
    {
      status := Ok;
      if itemList.Some? && |itemList.value| > fromPos && |itemList.value| > toPos {
        if fromPos < 0 {
          return IndexOutOfBounds;
        }
        var item := itemList.value[fromPos];
        itemList := Some(RemoveAt(itemList.value, fromPos));
        if toPos < 0 {
          return IndexOutOfBounds;
        }
        itemList := Some(InsertAt(itemList.value, toPos, item));
      }
    }

    /** swapItems(pos1, pos2) */
    method SwapItems(pos1: int, pos2: int) returns (status: Status)
      modifies this`itemList
      ensures Update(itemList, status) == Swapped(old(itemList), pos1, pos2)
    {
      status := Ok;
      if itemList.Some? && |itemList.value| > pos1 && |itemList.value| > pos2 {
        if pos1 < 0 || pos2 < 0 {
          return IndexOutOfBounds;
        }
        itemList := Some(SwapAt(itemList.value, pos1, pos2));
      }
    }

    /** setDragItemId */
    method SetDragItemId(id: int)
      modifies this`dragItemId
      ensures dragItemId == id
    {
      dragItemId := id;
    }

    /** setDropTargetId: getDropTargetId reads the stored value back. */
    method SetDropTargetId(id: int)
      modifies this`dropTargetId
      ensures GetDropTargetId() == id
    {
      dropTargetId := id;
    }

    /** getDropTargetId */
    function GetDropTargetId(): (id: int)
      reads this`dropTargetId
      ensures id == dropTargetId
    {
      dropTargetId
    }
  }
}
