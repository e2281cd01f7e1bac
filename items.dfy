/** The items of one board column and the list operations of its adapter,
    stated on values. DragItemAdapter (module Adapter) performs these on its
    mutable item list; the board (modules BoardItems and Board) composes them. */
module Items {

  datatype Option<+T> = None | Some(value: T)

  /** An element of an adapter's item list. Java lists hold references: an
      element is either null or an object, which has an identity and the id
      the adapter reports for it. Java's == on elements is SameObject below,
      which compares identities only. */
  datatype Item = Null | Obj(identity: nat, id: int)

  /** Java's reference comparison: both null, or the same object. */
  predicate SameObject(a: Item, b: Item)
  {
    if a.Obj? && b.Obj? then a.identity == b.identity else a.Null? && b.Null?
  }

  /** RecyclerView.NO_ID and RecyclerView.NO_POSITION. */
  const NO_ID: int := -1
  const NO_POSITION: int := -1

  /** The id getItemId reports for an item. */
  function ItemId(x: Item): int
  {
    if x.Obj? then x.id else NO_ID
  }

  /** How a call ends: normally, or with the IndexOutOfBoundsException that
      java.util.List throws for a negative index. */
  datatype Status = Ok | IndexOutOfBounds

  /** The value of an adapter's mItemList; None stands for null. */
  type ItemList = Option<seq<Item>>

  /** The elements of a list; a null list has none. */
  function Elements(l: ItemList): seq<Item>
  {
    if l.Some? then l.value else []
  }

  /** getItemCount: 0 for a null list, otherwise its size. */
  function Count(l: ItemList): (n: nat)
    ensures n == |Elements(l)|
    ensures l.None? ==> n == 0
  {
    match l
    case None => 0
    case Some(s) => |s|
  }

  // ---------------------------------------------------------------------
  // java.util.List operations, for indices the list accepts

  /** List.add(i, x): x lands at i, the prefix stays, the suffix shifts right. */
  function InsertAt(s: seq<Item>, i: nat, x: Item): (r: seq<Item>)
    requires i <= |s|
    ensures |r| == |s| + 1 && r[i] == x
    ensures forall k :: 0 <= k < i ==> r[k] == s[k]
    ensures forall k :: i < k < |r| ==> r[k] == s[k - 1]
  {
    s[..i] + [x] + s[i..]
  }

  /** List.remove(i): the prefix stays, the suffix shifts left. */
  function RemoveAt(s: seq<Item>, i: nat): (r: seq<Item>)
    requires i < |s|
    ensures |r| == |s| - 1
    ensures forall k :: 0 <= k < i ==> r[k] == s[k]
    ensures forall k :: i <= k < |r| ==> r[k] == s[k + 1]
  {
    s[..i] + s[i + 1..]
  }

  /** Collections.swap(list, i, j). */
  function SwapAt(s: seq<Item>, i: nat, j: nat): (r: seq<Item>)
    requires i < |s| && j < |s|
    ensures |r| == |s| && r[i] == s[j] && r[j] == s[i]
    ensures forall k :: 0 <= k < |s| && k != i && k != j ==> r[k] == s[k]
  {
    s[i := s[j]][j := s[i]]
  }

  /** Removing an element and re-inserting it where it was gives the list back. */
  lemma {:induction false} RemoveThenInsertRestores(s: seq<Item>, i: nat)
    requires i < |s|
    ensures InsertAt(RemoveAt(s, i), i, s[i]) == s
  {
    var r := InsertAt(RemoveAt(s, i), i, s[i]);
    assert forall k :: 0 <= k < |s| ==> r[k] == s[k];
  }

  /** Inserting and then removing at the same index gives the list back. */
  lemma {:induction false} InsertThenRemoveRestores(s: seq<Item>, i: nat, x: Item)
    requires i <= |s|
    ensures RemoveAt(InsertAt(s, i, x), i) == s
  {
    var r := RemoveAt(InsertAt(s, i, x), i);
    assert forall k :: 0 <= k < |s| ==> r[k] == s[k];
  }

  /** Removing at i and inserting x at i replaces the element at i. */
  lemma {:induction false} RemoveThenInsertReplaces(s: seq<Item>, i: nat, x: Item)
    requires i < |s|
    ensures InsertAt(RemoveAt(s, i), i, x) == s[i := x]
  {
    var r := InsertAt(RemoveAt(s, i), i, x);
    assert forall k :: 0 <= k < |s| ==> r[k] == s[i := x][k];
  }

  lemma {:induction false} RemoveAtElements(s: seq<Item>, i: nat)
    requires i < |s|
    ensures multiset(RemoveAt(s, i)) + multiset{s[i]} == multiset(s)
  {
    assert s == s[..i] + [s[i]] + s[i + 1..];
  }

  lemma {:induction false} InsertAtElements(s: seq<Item>, i: nat, x: Item)
    requires i <= |s|
    ensures multiset(InsertAt(s, i, x)) == multiset(s) + multiset{x}
  {
    assert s == s[..i] + s[i..];
  }

  // ---------------------------------------------------------------------
  // DragItemAdapter's guarded operations on a possibly null list

  /** The list after removeItem and the element it returns. */
  datatype Removal = Removal(list: ItemList, item: Item)

  /** The list after a void operation and how the call ended. */
  datatype Update = Update(list: ItemList, status: Status)

  /** removeItem(pos): removes and returns the element at pos when the list
      is not null and 0 <= pos < size; otherwise returns null. */
  function Removed(l: ItemList, pos: int): (r: Removal)
    ensures r.list.Some? <==> l.Some?
    ensures 0 <= pos < Count(l) ==> Count(r.list) + 1 == Count(l) && r.item == Elements(l)[pos]
    ensures !(0 <= pos < Count(l)) ==> r.list == l && r.item == Null
  {
    if l.Some? && |l.value| > pos && pos >= 0 then
      Removal(Some(RemoveAt(l.value, pos)), l.value[pos])
    else
      Removal(l, Null)
  }

  /** addItem(pos, x): the guard is only pos <= size; a negative pos passes it
      and List.add throws before changing anything. */
  function Added(l: ItemList, pos: int, x: Item): (r: Update)
    ensures r.list.Some? <==> l.Some?
    ensures r.status == IndexOutOfBounds <==> l.Some? && pos < 0
    ensures Count(r.list) == Count(l) + (if l.Some? && 0 <= pos <= Count(l) then 1 else 0)
  {
    if l.Some? && |l.value| >= pos then
      if pos < 0 then Update(l, IndexOutOfBounds)
      else Update(Some(InsertAt(l.value, pos, x)), Ok)
    else
      Update(l, Ok)
  }

  /** changeItemPosition(from, to): remove at from, then add at to. The guard
      only checks both against the size: a negative from throws before any
      change, a negative to throws after the removal. */
  function ChangedPosition(l: ItemList, from: int, to: int): (r: Update)
    ensures r.list.Some? <==> l.Some?
    ensures r.status == IndexOutOfBounds <==>
      l.Some? && from < |l.value| && to < |l.value| && (from < 0 || to < 0)
    ensures Count(r.list) == Count(l) - (if l.Some? && 0 <= from < |l.value| && to < 0 then 1 else 0)
  {
    if l.Some? && |l.value| > from && |l.value| > to then
      if from < 0 then Update(l, IndexOutOfBounds)
      else
        var rest := RemoveAt(l.value, from);
        if to < 0 then Update(Some(rest), IndexOutOfBounds)
        else Update(Some(InsertAt(rest, to, l.value[from])), Ok)
    else
      Update(l, Ok)
  }

  /** swapItems(p1, p2): Collections.swap throws on a negative index before
      changing anything. */
  function Swapped(l: ItemList, p1: int, p2: int): (r: Update)
    ensures r.list.Some? <==> l.Some?
    ensures r.status == IndexOutOfBounds <==> l.Some? && p1 < |l.value| && p2 < |l.value| && (p1 < 0 || p2 < 0)
    ensures Count(r.list) == Count(l)
  {
    if l.Some? && |l.value| > p1 && |l.value| > p2 then
      if p1 < 0 || p2 < 0 then Update(l, IndexOutOfBounds)
      else Update(Some(SwapAt(l.value, p1, p2)), Ok)
    else
      Update(l, Ok)
  }

  // ---------------------------------------------------------------------
  // Properties of the adapter operations

  /** removeItem in range returns the old element and closes the gap;
      otherwise it returns null and leaves the list alone. */
  lemma RemovedSpec(l: ItemList, pos: int)
    ensures var r := Removed(l, pos);
      if l.Some? && 0 <= pos < |l.value| then
        r.item == l.value[pos] && r.list == Some(l.value[..pos] + l.value[pos + 1..])
      else
        r.item == Null && r.list == l
  {
  }

  /** Re-adding what removeItem returned, at the same position, restores the list. */
  lemma {:induction false} RemovedThenAddedRestores(l: ItemList, pos: int)
    requires l.Some? && 0 <= pos < |l.value|
    ensures Added(Removed(l, pos).list, pos, Removed(l, pos).item) == Update(l, Ok)
  {
    RemoveThenInsertRestores(l.value, pos);
  }

  /** addItem: with 0 <= pos <= size the list grows by exactly x at pos; with
      pos > size or a null list nothing changes; a negative pos throws. */
  lemma AddedSpec(l: ItemList, pos: int, x: Item)
    ensures var u := Added(l, pos, x);
      if l.Some? && 0 <= pos <= |l.value| then
        u.status == Ok && u.list.Some? && |u.list.value| == |l.value| + 1 &&
        u.list.value[..pos] == l.value[..pos] && u.list.value[pos] == x &&
        u.list.value[pos + 1..] == l.value[pos..]
      else if l.Some? && pos < 0 then
        u == Update(l, IndexOutOfBounds)
      else
        u == Update(l, Ok)
  {
  }

  /** changeItemPosition with both indices in range moves the element at from
      to to, keeping the length and the elements. */
  lemma {:induction false} ChangedPositionSpec(l: ItemList, from: int, to: int)
    requires l.Some? && 0 <= from < |l.value| && 0 <= to < |l.value|
    ensures var u := ChangedPosition(l, from, to);
      u.status == Ok && u.list.Some? &&
      |u.list.value| == |l.value| &&
      u.list.value[to] == l.value[from] &&
      multiset(u.list.value) == multiset(l.value)
  {
    var s := l.value;
    RemoveAtElements(s, from);
    InsertAtElements(RemoveAt(s, from), to, s[from]);
  }

  /** changeItemPosition(p, p) leaves the list as it was. */
  lemma {:induction false} ChangedPositionSameIsIdentity(l: ItemList, pos: int)
    requires l.Some? && 0 <= pos < |l.value|
    ensures ChangedPosition(l, pos, pos) == Update(l, Ok)
  {
    RemoveThenInsertRestores(l.value, pos);
  }

  /** changeItemPosition with a negative target passes the guard, removes the
      element and then throws: the element is lost. */
  lemma ChangedPositionToNegativeLosesItem(l: ItemList, from: int, to: int)
    requires l.Some? && 0 <= from < |l.value| && to < 0
    ensures ChangedPosition(l, from, to) == Update(Some(RemoveAt(l.value, from)), IndexOutOfBounds)
  {
  }

  /** swapItems in range exchanges the two entries and nothing else. */
  lemma SwappedSpec(l: ItemList, p1: int, p2: int)
    requires l.Some? && 0 <= p1 < |l.value| && 0 <= p2 < |l.value|
    ensures var u := Swapped(l, p1, p2);
      u.status == Ok && u.list.Some? && |u.list.value| == |l.value| &&
      u.list.value[p1] == l.value[p2] && u.list.value[p2] == l.value[p1] &&
      (forall k :: 0 <= k < |l.value| && k != p1 && k != p2 ==> u.list.value[k] == l.value[k])
  {
  }

  /** Swapping the same two entries twice restores the list. */
  lemma {:induction false} SwappedTwiceRestores(l: ItemList, p1: int, p2: int)
    requires l.Some? && 0 <= p1 < |l.value| && 0 <= p2 < |l.value|
    ensures Swapped(Swapped(l, p1, p2).list, p1, p2) == Update(l, Ok)
  {
    var s := l.value;
    var t := SwapAt(SwapAt(s, p1, p2), p1, p2);
    assert forall k :: 0 <= k < |s| ==> t[k] == s[k];
    assert t == s;
    assert Swapped(l, p1, p2).list == Some(SwapAt(s, p1, p2));
  }

  /** swapItems(p, p) is a no-op. */
  lemma {:induction false} SwappedSameIsIdentity(l: ItemList, pos: int)
    requires l.Some? && 0 <= pos < |l.value|
    ensures Swapped(l, pos, pos) == Update(l, Ok)
  {
    assert SwapAt(l.value, pos, pos) == l.value;
  }

  /** On a null list every adapter operation changes nothing and ends
      normally, and removeItem returns null. */
  lemma OperationsKeepNull(l: ItemList, i: int, j: int, x: Item)
    requires l.None?
    ensures Removed(l, i) == Removal(None, Null)
    ensures Added(l, i, x) == Update(None, Ok)
    ensures ChangedPosition(l, i, j) == Update(None, Ok)
    ensures Swapped(l, i, j) == Update(None, Ok)
  {
  }
}
