/** The intrusive circular list of class_tasks/task_3_list/list.h. A ring is described by the sequence of its
    nodes in `next` order, starting anywhere; by convention the list head is its first element. */
module PlistRing {
  import opened Basics

  class Node {
    var next: Node?
    var prev: Node?

    constructor ()
      ensures next == null && prev == null
    {
      next, prev := null, null;
    }
  }

  ghost predicate Distinct(s: seq<Node>) {
    forall i, j :: 0 <= i < j < |s| ==> s[i] != s[j]
  }

  /** The nodes of s, in this order, form a closed ring. */
  ghost predicate Ring(s: seq<Node>)
    reads s
  {
    && s != [] && Distinct(s)
    && (forall i {:trigger s[i].next} :: 0 <= i < |s| - 1 ==> s[i].next == s[i + 1])
    && (forall i {:trigger s[i].prev} :: 1 <= i < |s| ==> s[i].prev == s[i - 1])
    && s[|s| - 1].next == s[0] && s[0].prev == s[|s| - 1]
  }

  // ------------------------------------------------- edits of the sequence

  function Swapped<T>(s: seq<T>, i: nat, j: nat): seq<T>
    requires i < |s| && j < |s|
  {
    s[i := s[j]][j := s[i]]
  }

  lemma {:induction false} SwappedAt<T>(s: seq<T>, i: nat, j: nat, k: nat)
    requires i < |s| && j < |s| && k < |s|
    ensures |Swapped(s, i, j)| == |s| && Swapped(s, i, j)[k] == s[if k == i then j else if k == j then i else k]
  {}

  function Successor(s: seq<Node>, i: nat): Node
    requires i < |s|
  {
    if i == |s| - 1 then s[0] else s[i + 1]
  }

  function Predecessor(s: seq<Node>, i: nat): Node
    requires i < |s|
  {
    if i == 0 then s[|s| - 1] else s[i - 1]
  }

  lemma {:induction false} RingLinks(s: seq<Node>, i: nat)
    requires Ring(s) && i < |s|
    ensures s[i].next == Successor(s, i) && s[i].prev == Predecessor(s, i)
  {}

  /** A ring is one as long as its nodes are not touched. */
  twostate lemma RingKept(s: seq<Node>)
    requires old(Ring(s)) && forall x <- s :: unchanged(x)
    ensures Ring(s)
  {
    assert forall k :: 0 <= k < |s| ==> s[k] in s;
  }

  /** A ring may be read from its last node on as well. */
  lemma {:induction false} RotateRing(s: seq<Node>, x: Node)
    requires Ring(s + [x])
    ensures Ring([x] + s)
  {
    var t, u := s + [x], [x] + s;
    forall i, j | 0 <= i < j < |u| ensures u[i] != u[j] {
      assert u[j] == t[j - 1] && u[i] == if i == 0 then t[|s|] else t[i - 1];
    }
    forall i | 0 <= i < |u| ensures u[i].next == Successor(u, i) && u[i].prev == Predecessor(u, i) {
      RingLinks(t, if i == 0 then |s| else i - 1);
    }
  }

  // ---------------------------------------------------------------- the calls

  method InitHead(list: Node)
    modifies list
    ensures Ring([list])
  {
    list.next := list;
    list.prev := list;
  }

  /** plist_add. Between neighbours of a ring it inserts a node from outside. */
  method Add(item: Node, prev: Node, next: Node, ghost s: seq<Node>, ghost i: nat)
    modifies item, prev`next, next`prev
    ensures old(Ring(s)) && i < |s| && item !in s && prev == s[i] && next == Successor(s, i) ==>
              Ring(Inserted(s, i + 1, item))
    ensures prev.next == item && item.prev == prev
    ensures (item != prev ==> item.next == next) && (item != next ==> next.prev == item)
  {
    next.prev := item;
    item.next := next;
    item.prev := prev;
    prev.next := item;
  }

  method AddHead(item: Node, head: Node, ghost s: seq<Node>, ghost i: nat)
    requires head.next != null
    modifies item, head`next, head.next`prev
    ensures old(Ring(s)) && i < |s| && item !in s && head == s[i] ==> Ring(Inserted(s, i + 1, item))
    ensures item.prev == head && head.next == item && (item != head ==> item.next == old(head.next))
  {
    Add(item, head, head.next, s, i);
  }

  method AddTail(item: Node, head: Node, ghost s: seq<Node>)
    requires Ring(s) && item !in s && head == s[0]
    modifies item, head`prev, Predecessor(s, 0)`next
    ensures Ring(s + [item])
  {
    Add(item, head.prev, head, s, |s| - 1);
    assert Inserted(s, |s|, item) == s + [item];
  }

  /** plist_del_entry leaves the links of the removed item as they were. */
  method DelEntry(item: Node, ghost s: seq<Node>, ghost i: nat)
    requires Ring(s) && i < |s| && item == s[i]
    modifies Successor(s, i)`prev, Predecessor(s, i)`next
    ensures |s| > 1 ==> Ring(Removed(s, i)) && item.next == old(item.next) && item.prev == old(item.prev)
    ensures |s| == 1 ==> Ring(s)
  {
    item.next.prev := item.prev;
    item.prev.next := item.next;
  }

  /** plist_del; null stands for the poison addresses. */
  method Del(item: Node, ghost s: seq<Node>, ghost i: nat)
    requires Ring(s) && i < |s| && item == s[i]
    modifies item, Successor(s, i)`prev, Predecessor(s, i)`next
    ensures |s| > 1 ==> Ring(Removed(s, i))
    ensures item.next == null && item.prev == null
  {
    DelEntry(item, s, i);
    item.next := null;
    item.prev := null;
  }

  /** plist_replace. It does what its name says exactly when the replaced node is not alone in its ring: a lone
      node stays linked, and ends up in one ring with the new one. */
  method Replace(oldItem: Node, newItem: Node, ghost s: seq<Node>, ghost i: nat)
    requires Ring(s) && i < |s| && oldItem == s[i] && newItem !in s
    modifies newItem, Successor(s, i)`prev, Predecessor(s, i)`next
    ensures Ring(s[i := newItem]) <==> |s| > 1
    ensures |s| == 1 ==> Ring([oldItem, newItem])
    ensures |s| > 1 ==> oldItem.next == old(oldItem.next) && oldItem.prev == old(oldItem.prev)
  {
    newItem.next := oldItem.next;
    newItem.prev := oldItem.prev;
    newItem.next.prev := newItem;
    newItem.prev.next := newItem;
  }

  method ReplaceInit(oldItem: Node, newItem: Node, ghost s: seq<Node>, ghost i: nat)
    requires Ring(s) && i < |s| && oldItem == s[i] && newItem !in s
    modifies oldItem, newItem, Successor(s, i)`prev, Predecessor(s, i)`next
    ensures Ring([oldItem])
    ensures Ring(s[i := newItem]) <==> |s| > 1
  {
    Replace(oldItem, newItem, s, i);
    InitHead(oldItem);
  }

  method DelInit(item: Node, ghost s: seq<Node>, ghost i: nat)
    requires Ring(s) && i < |s| && item == s[i]
    modifies item, Successor(s, i)`prev, Predecessor(s, i)`next
    ensures Ring([item])
    ensures |s| > 1 ==> Ring(Removed(s, i))
  {
    DelEntry(item, s, i);
    InitHead(item);
  }

  // ------------------------------------------------------------------- swap

  ghost predicate Disjoint(s: seq<Node>, t: seq<Node>) {
    forall x <- s :: x !in t
  }

  lemma {:induction false} NeighboursApart(s: seq<Node>, i: nat, t: seq<Node>)
    requires i < |s|
    ensures Successor(s, i) in s && Predecessor(s, i) in s
    ensures Disjoint(s, t) ==> Successor(s, i) !in t && Predecessor(s, i) !in t && s[i] !in t
  {}

  /** Where s[i] is and t[j] is: two positions of one ring, or of two rings without a common node. */
  ghost predicate TwoPlaces(s: seq<Node>, i: nat, t: seq<Node>, j: nat) {
    i < |s| && j < |t| && if s == t then i != j else Disjoint(s, t)
  }

  /** The ring of s[i] once t[j] has been taken out of its own ring, which may be the same, and the place of s[i]. */
  function Left(s: seq<Node>, t: seq<Node>, j: nat): seq<Node>
    requires j < |t|
  {
    if s == t then Removed(s, j) else s
  }

  ghost function LeftAt(s: seq<Node>, i: nat, t: seq<Node>, j: nat): (k: nat)
    requires TwoPlaces(s, i, t, j)
    ensures k < |Left(s, t, j)| && Left(s, t, j)[k] == s[i]
  {
    if s == t && j < i then i - 1 else i
  }

  /** The ring that s[i] is put into: that of t[j] without t[j], with t[j] in the place of s[i] if it was there. */
  ghost function Halfway(s: seq<Node>, i: nat, t: seq<Node>, j: nat): seq<Node>
    requires TwoPlaces(s, i, t, j)
  {
    if s == t then Left(s, t, j)[LeftAt(s, i, t, j) := t[j]] else Removed(t, j)
  }

  /** Where t[j] was, s[i] stands in the end. */
  ghost function Exchanged(s: seq<Node>, i: nat, t: seq<Node>, j: nat): seq<Node>
    requires TwoPlaces(s, i, t, j)
  {
    if s == t then Swapped(s, i, j) else t[j := s[i]]
  }

  lemma {:induction false} LeftMembers(s: seq<Node>, i: nat, t: seq<Node>, j: nat)
    requires Distinct(s) && Distinct(t) && TwoPlaces(s, i, t, j)
    ensures t[j] !in Left(s, t, j) && t[j] !in Removed(t, j) && s[i] !in Halfway(s, i, t, j)
    ensures forall x <- Left(s, t, j) :: x in s
    ensures forall x <- Halfway(s, i, t, j) :: x in t
    ensures s != t ==> Disjoint(s, Removed(t, j))
  {}

  /** The node behind which s[i] is put: the predecessor of t[j], unless that is s[i] itself. */
  ghost function Place(s: seq<Node>, i: nat, t: seq<Node>, j: nat): Node
    requires TwoPlaces(s, i, t, j)
  {
    if Predecessor(t, j) == s[i] then t[j] else Predecessor(t, j)
  }

  lemma {:induction false} HalfwayPlace(s: seq<Node>, i: nat, t: seq<Node>, j: nat)
    requires Distinct(s) && Distinct(t) && TwoPlaces(s, i, t, j) && |t| > 1
    ensures |Halfway(s, i, t, j)| == |t| - 1
    ensures Halfway(s, i, t, j)[if j == 0 then |t| - 2 else j - 1] == Place(s, i, t, j)
  {
    var k := if j == 0 then |t| - 2 else j - 1;
    assert Removed(t, j)[k] == Predecessor(t, j);
    if s == t {
      assert s[i] == Predecessor(t, j) <==> LeftAt(s, i, t, j) == k;
    } else {
      NeighboursApart(t, j, s);
      assert s[i] in s;
    }
  }

  lemma {:induction false} HalfwayDone(s: seq<Node>, i: nat, t: seq<Node>, j: nat)
    requires TwoPlaces(s, i, t, j) && 0 < j
    ensures Inserted(Halfway(s, i, t, j), j, s[i]) == Exchanged(s, i, t, j)
  {}

  lemma {:induction false} HalfwayDoneAtHead(s: seq<Node>, i: nat, t: seq<Node>)
    requires TwoPlaces(s, i, t, 0)
    ensures [s[i]] + Halfway(s, i, t, 0) == Exchanged(s, i, t, 0)
    ensures Inserted(Halfway(s, i, t, 0), |t| - 1, s[i]) == Halfway(s, i, t, 0) + [s[i]]
  {}

  /** The statements of plist_swap before its last: the second entry is in the place of the first. */
  method TakePlace(entry1: Node, entry2: Node, ghost s: seq<Node>, ghost i: nat, ghost t: seq<Node>, ghost j: nat)
    returns (pos: Node)
    requires Ring(s) && Ring(t) && TwoPlaces(s, i, t, j) && entry1 == s[i] && entry2 == t[j]
    modifies s, t
    ensures var left, at := Left(s, t, j), LeftAt(s, i, t, j);
            if |left| > 1 then Ring(left[at := entry2]) else Ring([entry1, entry2])
    ensures s != t && |t| > 1 ==> Ring(Removed(t, j))
    ensures pos == Place(s, i, t, j)
  {
    LeftMembers(s, i, t, j);
    RingLinks(t, j);
    pos := entry2.prev;
    ghost var left, at := Left(s, t, j), LeftAt(s, i, t, j);
    assert |left| == (if s == t then |t| - 1 else |s|) && (s == t ==> left == Removed(t, j));
    NeighboursApart(t, j, s);
    NeighboursApart(left, at, Removed(t, j));
    hide Left, LeftAt, Distinct, Ring, Removed;
    Del(entry2, t, j);
    if s != t { RingKept(s); }
    label Removal:
    Replace(entry1, entry2, left, at);
    if s != t && |t| > 1 { RingKept@Removal(Removed(t, j)); }
    if pos == entry1 { pos := entry2; }
  }

  /** Where the place leads to before its last statement. */
  lemma {:induction false} PlaceLinks(s: seq<Node>, i: nat, t: seq<Node>, j: nat)
    requires Distinct(s) && Distinct(t) && TwoPlaces(s, i, t, j)
    requires var left, at := Left(s, t, j), LeftAt(s, i, t, j);
             if |left| > 1 then Ring(left[at := t[j]]) else Ring([s[i], t[j]])
    requires s != t && |t| > 1 ==> Ring(Removed(t, j))
    ensures var pos := Place(s, i, t, j);
            && pos in s + t && pos.next != null && pos.next in s + t
            && (s == t && |s| == 2 ==> pos.next == s[i])
            && (s != t && |t| > 1 ==> pos !in s && pos.next !in s && pos != t[j] && pos.next != t[j])
  {
    LeftMembers(s, i, t, j);
    if |t| == 1 {
      NeighboursApart(t, j, s);
      if |s| > 1 { RingLinks(s[i := t[j]], i); NeighboursApart(s[i := t[j]], i, []); }
    } else {
      HalfwayPlace(s, i, t, j);
      var u, k := Halfway(s, i, t, j), if j == 0 then |t| - 2 else j - 1;
      if Ring(u) { RingLinks(u, k); NeighboursApart(u, k, s); }
    }
  }

  /** The last statement: the first entry goes where the second was. */
  method PutBack(entry1: Node, pos: Node, ghost s: seq<Node>, ghost i: nat, ghost t: seq<Node>, ghost j: nat)
    requires Distinct(s) && Distinct(t) && TwoPlaces(s, i, t, j) && entry1 == s[i]
    requires pos.next != null && pos == Place(s, i, t, j)
    modifies entry1, pos`next, pos.next`prev
    ensures old(|t| > 1 && Ring(Halfway(s, i, t, j))) ==> Ring(Exchanged(s, i, t, j))
    ensures entry1.prev == pos && (entry1 != pos ==> entry1.next == old(pos.next)) && pos.next == entry1
  {
    hide Halfway, Exchanged, Left, LeftAt, Place, Ring, Distinct, Inserted;
    LeftMembers(s, i, t, j);
    ghost var u, k := Halfway(s, i, t, j), if j == 0 then |t| - 2 else j - 1;
    ghost var ready := |t| > 1 && Ring(u);
    if |t| > 1 { HalfwayPlace(s, i, t, j); }
    if j == 0 {
      HalfwayDoneAtHead(s, i, t);
    } else {
      HalfwayDone(s, i, t, j);
    }
    AddHead(entry1, pos, u, if k < 0 then 0 else k);
    if ready && j == 0 { RotateRing(u, entry1); }
  }

  /** The swapped ring of two needs a node that is not linked to itself. */
  lemma {:induction false} TwoSwapped(s: seq<Node>, i: nat, j: nat)
    requires i < |s| && j < |s| && i != j && Distinct(s) && |s| == 2
    requires s[i].next == s[i]
    ensures !Ring(s) && !Ring(Swapped(s, i, j))
  {}

  /** A node that is linked to another is no ring of one. */
  lemma {:induction false} NotExchanged(s: seq<Node>, i: nat, t: seq<Node>, j: nat)
    requires i < |s| && j < |t| && s[i] != t[j]
    requires (|t| == 1 && s[i].prev == t[j]) || (|s| == 1 && t[j].next == s[i])
    ensures !Ring(s[i := t[j]]) || !Ring(t[j := s[i]])
  {}

  /** plist_swap exchanges exactly the two positions. In one ring, whichever way the entries are adjacent and whether
      or not one of them is the head, it does so if and only if the ring has a third node; with two nodes the ring is
      broken. Between two rings it does so if and only if neither entry is alone in its ring. */
  method SwapEntries(entry1: Node, entry2: Node, ghost s: seq<Node>, ghost i: nat, ghost t: seq<Node>, ghost j: nat)
    requires Ring(s) && Ring(t) && TwoPlaces(s, i, t, j) && entry1 == s[i] && entry2 == t[j]
    modifies s, t
    ensures s == t ==> (Ring(Swapped(s, i, j)) <==> |s| > 2) && (|s| == 2 ==> entry1.next == entry1 && !Ring(s))
    ensures s != t ==> (Ring(s[i := entry2]) && Ring(t[j := entry1]) <==> |s| > 1 && |t| > 1)
  {
    LeftMembers(s, i, t, j);
    var pos := TakePlace(entry1, entry2, s, i, t, j);
    PlaceLinks(s, i, t, j);
    assert |t| == 1 && s != t ==> pos == entry2;
    assert entry1 != entry2 && entry1 !in s[i := entry2];
    hide Left, LeftAt, Halfway, Place, Ring, Distinct;
    label Emptied:
    PutBack(entry1, pos, s, i, t, j);
    if s == t {
      if |s| == 2 { TwoSwapped(s, i, j); }
    } else if |t| == 1 || |s| == 1 {
      NotExchanged(s, i, t, j);
    } else {
      RingKept@Emptied(s[i := entry2]);
    }
  }

  /** Swapping the same two entries twice puts every link back. */
  method SwapTwice(entry1: Node, entry2: Node, ghost s: seq<Node>, ghost i: nat, ghost j: nat)
    requires Ring(s) && |s| > 2 && i < |s| && j < |s| && i != j && entry1 == s[i] && entry2 == s[j]
    modifies s
    ensures Ring(s) && forall x <- s :: x.next == old(x.next) && x.prev == old(x.prev)
  {
    ghost var t := Swapped(s, i, j);
    SwapEntries(entry1, entry2, s, i, s, j);
    assert forall x <- t :: x in s;
    SwapEntries(entry1, entry2, t, j, t, i);
    assert Swapped(t, j, i) == s;
    forall x <- s ensures x.next == old(x.next) && x.prev == old(x.prev) {
      ghost var k :| 0 <= k < |s| && s[k] == x;
      assert x.next == Successor(s, k) && x.prev == Predecessor(s, k) by { RingLinks(s, k); }
      assert old(Ring(s));
      assert old(s[k].next) == Successor(s, k) && old(s[k].prev) == Predecessor(s, k);
    }
  }

  /** The ring of the head once s[i] has been taken out of s: s itself may be that ring. */
  function Home(s: seq<Node>, i: nat, t: seq<Node>): seq<Node>
    requires i < |s|
  {
    if s == t then Removed(s, i) else t
  }

  lemma {:induction false} HomeMembers(s: seq<Node>, i: nat, t: seq<Node>)
    requires Distinct(s) && i < |s| && t != [] && (if s == t then i > 0 else Disjoint(s, t))
    ensures s[i] !in Home(s, i, t) && s[i] !in Removed(s, i)
    ensures Home(s, i, t) != [] && Home(s, i, t)[0] == t[0]
    ensures forall x <- Home(s, i, t) :: x in t && (s != t ==> x !in s)
  {}

  /** plist_del_entry as the first half of a move. */
  method TakeOut(list: Node, ghost s: seq<Node>, ghost i: nat, ghost t: seq<Node>)
    requires Ring(s) && i < |s| && list == s[i] && Ring(t)
    requires if s == t then i > 0 else Disjoint(s, t)
    modifies Successor(s, i)`prev, Predecessor(s, i)`next
    ensures Ring(Home(s, i, t)) && (|s| > 1 ==> Ring(Removed(s, i)))
  {
    NeighboursApart(s, i, t);
    DelEntry(list, s, i);
  }

  /** plist_move_add, within the ring of the head or from another ring. */
  method MoveAdd(list: Node, head: Node, ghost s: seq<Node>, ghost i: nat, ghost t: seq<Node>)
    requires Ring(s) && i < |s| && list == s[i] && Ring(t) && head == t[0]
    requires if s == t then i > 0 else Disjoint(s, t)
    modifies s, t
    ensures Ring(Inserted(Home(s, i, t), 1, list))
    ensures s != t && |s| > 1 ==> Ring(Removed(s, i))
  {
    HomeMembers(s, i, t);
    hide Ring, Distinct;
    NeighboursApart(s, i, t);
    TakeOut(list, s, i, t);
    RingLinks(Home(s, i, t), 0);
    NeighboursApart(Home(s, i, t), 0, Removed(s, i));
    AddHead(list, head, Home(s, i, t), 0);
  }

  /** plist_move_tail, within the ring of the head or from another ring. */
  method MoveTail(list: Node, head: Node, ghost s: seq<Node>, ghost i: nat, ghost t: seq<Node>)
    requires Ring(s) && i < |s| && list == s[i] && Ring(t) && head == t[0]
    requires if s == t then i > 0 else Disjoint(s, t)
    modifies s, t
    ensures Ring(Home(s, i, t) + [list])
    ensures s != t && |s| > 1 ==> Ring(Removed(s, i))
  {
    HomeMembers(s, i, t);
    NeighboursApart(s, i, t);
    TakeOut(list, s, i, t);
    NeighboursApart(Home(s, i, t), 0, Removed(s, i));
    AddTail(list, head, Home(s, i, t));
  }

  /** The nodes at positions i..j at the end, behind all others. */
  function BulkMoved<T>(s: seq<T>, i: nat, j: nat): (r: seq<T>)
    requires i <= j < |s|
    ensures |r| == |s|
  {
    s[..i] + s[j + 1..] + s[i..j + 1]
  }

  lemma {:induction false} BulkMovedKeeps<T>(s: seq<T>, i: nat, j: nat)
    requires i <= j < |s|
    ensures multiset(BulkMoved(s, i, j)) == multiset(s)
  {
    assert s == s[..i] + s[i..j + 1] + s[j + 1..];
  }

  lemma {:induction false} BulkMovedAt<T>(s: seq<T>, i: nat, j: nat, k: nat)
    requires i <= j < |s| && k < |s|
    ensures s[k] == BulkMoved(s, i, j)[if k < i then k else if k > j then k - (j + 1 - i) else |s| - 1 - (j - k)]
  {}

  /** The nodes of c are linked to each other in this order; nothing is said of the links at its ends. */
  ghost predicate Chain(c: seq<Node>)
    reads c
  {
    && (forall i {:trigger c[i].next} :: 0 <= i < |c| - 1 ==> c[i].next == c[i + 1])
    && (forall i {:trigger c[i].prev} :: 1 <= i < |c| ==> c[i].prev == c[i - 1])
  }

  /** What remains of s without the positions i..j. */
  function Cut<T>(s: seq<T>, i: nat, j: nat): seq<T>
    requires i <= j < |s|
  {
    s[..i] + s[j + 1..]
  }

  lemma {:induction false} CutMembers(s: seq<Node>, i: nat, j: nat)
    requires Distinct(s) && i <= j < |s|
    ensures Distinct(Cut(s, i, j)) && Distinct(s[i..j + 1]) && Disjoint(s[i..j + 1], Cut(s, i, j))
  {}

  lemma {:induction false} CutNeighbours(s: seq<Node>, i: nat, j: nat, k: nat)
    requires i <= j < |s| && k < |Cut(s, i, j)|
    ensures var m := if k < i then k else k + (j + 1 - i);
            && Cut(s, i, j)[k] == s[m]
            && Successor(Cut(s, i, j), k) ==
               (if m == (if i == 0 then |s| - 1 else i - 1) then Successor(s, j) else Successor(s, m))
            && Predecessor(Cut(s, i, j), k) ==
               (if m == (if j == |s| - 1 then 0 else j + 1) then Predecessor(s, i) else Predecessor(s, m))
  {}

  /** The first two assignments of plist_bulk_move_tail close the ring behind the range, if anything is left of it. */
  method CutRange(first: Node, last: Node, ghost s: seq<Node>, ghost i: nat, ghost j: nat)
    requires Ring(s) && i <= j < |s| && first == s[i] && last == s[j]
    modifies Predecessor(s, i)`next, Successor(s, j)`prev
    ensures (Cut(s, i, j) != [] ==> Ring(Cut(s, i, j))) && Chain(s[i..j + 1])
  {
    RingLinks(s, i);
    RingLinks(s, j);
    first.prev.next := last.next;
    last.next.prev := first.prev;
    ghost var rest := Cut(s, i, j);
    CutMembers(s, i, j);
    forall k | 0 <= k < |rest| ensures rest[k].next == Successor(rest, k) && rest[k].prev == Predecessor(rest, k) {
      CutNeighbours(s, i, j, k);
    }
    ghost var range := s[i..j + 1];
    forall k | 0 <= k < |range|
      ensures (k < |range| - 1 ==> range[k].next == range[k + 1]) && (k > 0 ==> range[k].prev == range[k - 1])
    {
      assert range[k] == s[i + k] && (k < |range| - 1 ==> range[k + 1] == s[i + k + 1]);
      assert k < |range| - 1 ==> s[i + k] != Predecessor(s, i);
      assert k > 0 ==> s[i + k] != Successor(s, j) && range[k - 1] == s[i + k - 1];
    }
    assert Chain(range);
  }

  /** The ring of the head once the range has been taken out of s: s itself may be that ring. */
  function CutHome(s: seq<Node>, i: nat, j: nat, t: seq<Node>): seq<Node>
    requires i <= j < |s|
  {
    if s == t then Cut(s, i, j) else t
  }

  lemma {:induction false} CutHomeMembers(s: seq<Node>, i: nat, j: nat, t: seq<Node>)
    requires Distinct(s) && i <= j < |s| && t != [] && if s == t then 0 < i else Disjoint(s, t)
    ensures Distinct(s[i..j + 1]) && Disjoint(s[i..j + 1], CutHome(s, i, j, t)) && Disjoint(Cut(s, i, j), s[i..j + 1])
    ensures CutHome(s, i, j, t) != [] && CutHome(s, i, j, t)[0] == t[0]
    ensures forall x <- CutHome(s, i, j, t) :: x in t && (s != t ==> x !in s)
  {}

  /** The first half of the move, seen from both rings. */
  method CutOut(first: Node, last: Node, ghost s: seq<Node>, ghost i: nat, ghost j: nat, ghost t: seq<Node>)
    requires Ring(s) && i <= j < |s| && first == s[i] && last == s[j]
    requires Ring(t) && if s == t then 0 < i else Disjoint(s, t)
    modifies Predecessor(s, i)`next, Successor(s, j)`prev
    ensures Ring(CutHome(s, i, j, t)) && (Cut(s, i, j) != [] ==> Ring(Cut(s, i, j))) && Chain(s[i..j + 1])
  {
    NeighboursApart(s, i, t);
    NeighboursApart(s, j, t);
    CutRange(first, last, s, i, j);
  }

  /** The other four put the range between the last node of the head's ring and the head. */
  method SpliceTail(head: Node, first: Node, last: Node, ghost home: seq<Node>, ghost range: seq<Node>)
    requires Ring(home) && head == home[0] && Chain(range) && Distinct(range) && Disjoint(range, home)
    requires range != [] && first == range[0] && last == range[|range| - 1]
    modifies Predecessor(home, 0)`next, head`prev, first`prev, last`next
    ensures Ring(home + range)
  {
    assert first !in home && last !in home && head !in range && home[|home| - 1] !in range;
    head.prev.next := first;
    first.prev := head.prev;

    last.next := head;
    head.prev := last;
    assert Chain(range);
    ghost var all := home + range;
    forall p, q | 0 <= p < q < |all| ensures all[p] != all[q] {
      if p < |home| <= q { assert range[q - |home|] !in home; }
    }
    forall k | 0 <= k < |all| ensures all[k].next == Successor(all, k) && all[k].prev == Predecessor(all, k) {
      if k < |home| {
        assert all[k] == home[k];
      } else {
        assert all[k] == range[k - |home|];
      }
    }
  }

  /** plist_bulk_move_tail: the range first..last goes to the end of its own ring, or to the end of another; it may
      be all of another. */
  method BulkMoveTail(head: Node, first: Node, last: Node, ghost s: seq<Node>, ghost i: nat, ghost j: nat,
                      ghost t: seq<Node>)
    requires Ring(s) && i <= j < |s| && first == s[i] && last == s[j]
    requires Ring(t) && head == t[0] && if s == t then 0 < i else Disjoint(s, t)
    modifies s, t
    ensures s == t ==> Ring(BulkMoved(s, i, j))
    ensures s != t ==> Ring(t + s[i..j + 1]) && (Cut(s, i, j) != [] ==> Ring(Cut(s, i, j)))
  {
    ghost var home, rest, range := CutHome(s, i, j, t), Cut(s, i, j), s[i..j + 1];
    CutHomeMembers(s, i, j, t);
    assert s == t ==> rest + range == BulkMoved(s, i, j);
    assert home == if s == t then rest else t;
    hide Ring, Chain, Distinct, CutHome, Cut, BulkMoved;
    NeighboursApart(s, i, t);
    NeighboursApart(s, j, t);
    CutOut(first, last, s, i, j, t);
    NeighboursApart(home, 0, rest);
    label Spliced:
    SpliceTail(head, first, last, home, range);
    if s != t && rest != [] { RingKept@Spliced(rest); }
  }

  // --------------------------------------------------------------- rotation

  /** The items, but not the head, one place to the left. */
  function RotatedLeft<T>(s: seq<T>): (r: seq<T>)
    requires s != []
    ensures |r| == |s|
  {
    if |s| == 1 then s else [s[0]] + s[2..] + [s[1]]
  }

  method RotateLeft(head: Node, ghost s: seq<Node>)
    requires Ring(s) && head == s[0]
    modifies s
    ensures Ring(RotatedLeft(s))
  {
    if !IsEmpty(head) {
      var first := head.next;
      assert |s| > 1;
      MoveTail(first, head, s, 1, s);
      assert Removed(s, 1) + [first] == RotatedLeft(s);
    }
  }

  function RotatedTimes<T>(s: seq<T>, k: nat): (r: seq<T>)
    requires s != []
    ensures |r| == |s|
  {
    if k == 0 then s else RotatedLeft(RotatedTimes(s, k - 1))
  }

  /** k rotations bring the first k items behind the others, and as many as there are items restore the ring. */
  lemma {:induction false} RotateRestores<T>(s: seq<T>, k: nat)
    requires k < |s|
    ensures RotatedTimes(s, k) == [s[0]] + s[k + 1..] + s[1..k + 1]
    ensures k == |s| - 1 ==> RotatedTimes(s, k) == s
  {
    if k > 0 {
      RotateRestores(s, k - 1);
      assert RotatedTimes(s, k - 1) == [s[0]] + [s[k]] + s[k + 1..] + s[1..k];
      assert s[1..k + 1] == s[1..k] + [s[k]];
    }
    assert k == |s| - 1 ==> [s[0]] + s[k + 1..] + s[1..k + 1] == s;
  }

  // -------------------------------------------------------------- predicates

  predicate IsFirst(list: Node, head: Node)
    reads list
  {
    list.prev == head
  }

  predicate IsLast(list: Node, head: Node)
    reads list
  {
    list.next == head
  }

  predicate IsHead(list: Node, head: Node) {
    list == head
  }

  predicate IsEmpty(head: Node)
    reads head
  {
    head.next == head
  }

  predicate IsSingular(head: Node)
    reads head
  {
    !IsEmpty(head) && head.next == head.prev
  }

  /** What the predicates say of the node at position k of the ring of s[0]. */
  lemma {:induction false} PredicatesOfRing(s: seq<Node>, k: nat)
    requires Ring(s) && k < |s|
    ensures IsFirst(s[k], s[0]) <==> k == if |s| == 1 then 0 else 1
    ensures IsLast(s[k], s[0]) <==> k == |s| - 1
    ensures IsHead(s[k], s[0]) <==> k == 0
    ensures IsEmpty(s[0]) <==> |s| == 1
    ensures IsSingular(s[0]) <==> |s| == 2
  {}

  // --------------------------------------------------------------- traversal

  /** plist_for_each ends, having visited every item once and in order. */
  method ForEach(head: Node, ghost s: seq<Node>) returns (visited: seq<Node>)
    requires Ring(s) && head == s[0]
    ensures visited == s[1..]
  {
    visited := [];
    var pos := head.next;
    while !IsHead(pos, head)
      invariant 0 <= |visited| < |s| && visited == s[1..|visited| + 1] && pos == Successor(s, |visited|)
      decreases |s| - |visited|
    {
      visited := visited + [pos];
      pos := pos.next;
    }
  }

  /** plist_for_each_prev ends, having visited every item once and in reverse order. */
  method ForEachPrev(head: Node, ghost s: seq<Node>) returns (visited: seq<Node>)
    requires Ring(s) && head == s[0]
    ensures visited == Reversed(s[1..])
  {
    visited := [];
    var pos := head.prev;
    while !IsHead(pos, head)
      invariant 0 <= |visited| < |s| && visited == Reversed(s[|s| - |visited|..])
      invariant pos == s[|s| - 1 - |visited|]
      decreases |s| - |visited|
    {
      visited := visited + [pos];
      pos := pos.prev;
    }
  }
}
