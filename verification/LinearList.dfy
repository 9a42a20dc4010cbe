/** The doubly linked list with head, tail and size of src/hashtable/list_pointer.hpp, against a sequence.

    A list owns its elements, in order, as the ghost sequence `nodes`; `Valid` ties head, tail, size and both links of
    every element to it, and `Entries` is what a caller sees of it: the pairs of keys and values. Each operation is
    stated on both, so that the hash table can keep track of the elements and of what they hold. Positions are those of
    the C interface, which counts from 1 and clamps. */
module LinearList {
  import opened Basics

  class Element<K, V> {
    var key: K
    var value: V
    var next: Element?<K, V>
    var prev: Element?<K, V>

    /** calloc, and the assignments that follow it. */
    constructor (key: K, value: V, prev: Element?<K, V>, next: Element?<K, V>)
      ensures this.key == key && this.value == value && this.prev == prev && this.next == next
    {
      this.key, this.value, this.prev, this.next := key, value, prev, next;
    }
  }

  /** The position that list_pointer_find_element uses for a number: clamped to 1..size. */
  function Clamp(number: nat, size: nat): (p: nat)
    requires size > 0
    ensures number == 0 ==> p == 1
    ensures 1 <= number <= size ==> p == number
    ensures number > size ==> p == size
  {
    if number == 0 then 1 else if number > size then size else number
  }

  /** The index of the first entry with this key, or the length. */
  function FirstIndex<K(==), V>(entries: seq<(K, V)>, key: K): (i: nat)
    ensures i <= |entries| && (i < |entries| ==> entries[i].0 == key)
    ensures forall j :: 0 <= j < i ==> entries[j].0 != key
  {
    if entries == [] || entries[0].0 == key then 0 else 1 + FirstIndex(entries[1..], key)
  }

  function NextOf<K, V>(nodes: seq<Element<K, V>>, i: nat): Element?<K, V> {
    if i + 1 < |nodes| then nodes[i + 1] else null
  }

  function PrevOf<K, V>(nodes: seq<Element<K, V>>, i: nat): Element?<K, V> {
    if 0 < i <= |nodes| then nodes[i - 1] else null
  }

  ghost predicate Distinct<K, V>(nodes: seq<Element<K, V>>) {
    forall i, j :: 0 <= i < j < |nodes| ==> nodes[i] != nodes[j]
  }

  /** The nodes are pairwise distinct and linked to each other in this order. */
  ghost predicate Linked<K, V>(nodes: seq<Element<K, V>>)
    reads nodes`next, nodes`prev
  {
    && Distinct(nodes)
    && (forall i {:trigger nodes[i].next} :: 0 <= i < |nodes| ==> nodes[i].next == NextOf(nodes, i))
    && (forall i {:trigger nodes[i].prev} :: 0 <= i < |nodes| ==> nodes[i].prev == PrevOf(nodes, i))
  }

  ghost function EntriesOf<K, V>(nodes: seq<Element<K, V>>): (s: seq<(K, V)>)
    reads nodes`key, nodes`value
    ensures |s| == |nodes| && forall i :: 0 <= i < |nodes| ==> s[i] == (nodes[i].key, nodes[i].value)
  {
    if nodes == [] then [] else [(nodes[0].key, nodes[0].value)] + EntriesOf(nodes[1..])
  }

  /** What both insertions into the middle do to the neighbours of the new element. */
  method LinkIn<K, V>(element: Element<K, V>, before: Element<K, V>, after: Element<K, V>,
                      ghost nodes: seq<Element<K, V>>, ghost p: nat)
    requires Linked(nodes) && 0 < p < |nodes| && before == nodes[p - 1] && after == nodes[p]
    requires element !in nodes && element.prev == before && element.next == after
    modifies before`next, after`prev
    ensures Linked(Inserted(nodes, p, element))
  {
    before.next := element;
    after.prev := element;
    ghost var all := Inserted(nodes, p, element);
    forall i, j | 0 <= i < j < |all| ensures all[i] != all[j] {
      assert all[i] == if i < p then nodes[i] else if i == p then element else nodes[i - 1];
      assert all[j] == if j < p then nodes[j] else if j == p then element else nodes[j - 1];
    }
    forall i | 0 <= i < |all| ensures all[i].next == NextOf(all, i) && all[i].prev == PrevOf(all, i) {
      if i != p { assert all[i] == nodes[if i < p then i else i - 1]; }
    }
  }

  /** What a deletion does to the neighbours of the element, wherever it stands. */
  method LinkOut<K, V>(element: Element<K, V>, ghost nodes: seq<Element<K, V>>, ghost p: nat)
    requires Linked(nodes) && 0 < p < |nodes| - 1 && element == nodes[p]
    modifies nodes[p - 1..p]`next, nodes[p + 1..p + 2]`prev
    ensures Linked(Removed(nodes, p))
  {
    element.prev.next := element.next;
    element.next.prev := element.prev;
    ghost var rest := Removed(nodes, p);
    RemovedDistinct(nodes, p);
    forall i | 0 <= i < |rest| ensures rest[i].next == NextOf(rest, i) && rest[i].prev == PrevOf(rest, i) {
      assert rest[i] == nodes[if i < p then i else i + 1];
    }
  }

  /** Two chains whose ends are linked to each other, and to nothing outside, are one. */
  lemma {:induction false} LinkedPair<K, V>(a: seq<Element<K, V>>, b: seq<Element<K, V>>)
    requires a != [] && b != [] && Distinct(a) && Distinct(b) && forall e <- a :: e !in b
    requires forall i {:trigger a[i].next} :: 0 <= i < |a| ==> a[i].next == if i + 1 < |a| then a[i + 1] else b[0]
    requires forall i {:trigger a[i].prev} :: 0 <= i < |a| ==> a[i].prev == PrevOf(a, i)
    requires forall i {:trigger b[i].next} :: 0 <= i < |b| ==> b[i].next == NextOf(b, i)
    requires forall i {:trigger b[i].prev} :: 0 <= i < |b| ==> b[i].prev == if i > 0 then b[i - 1] else a[|a| - 1]
    ensures Linked(a + b)
  {
    var all := a + b;
    forall i, j | 0 <= i < j < |all| ensures all[i] != all[j] {
      if i < |a| <= j { assert all[i] in a && all[j] in b; }
    }
  }

  /** A chain is one as long as its elements are not touched. */
  twostate lemma ChainKept<K, V>(nodes: seq<Element<K, V>>)
    requires old(Linked(nodes)) && forall e <- nodes :: unchanged(e)
    ensures Linked(nodes)
  {
    assert forall k :: 0 <= k < |nodes| ==> nodes[k] in nodes;
  }

  twostate lemma EntriesKept<K, V>(nodes: seq<Element<K, V>>)
    requires forall e <- nodes :: unchanged(e`key) && unchanged(e`value)
    ensures EntriesOf(nodes) == old(EntriesOf(nodes))
  {
    assert forall k :: 0 <= k < |nodes| ==> nodes[k] in nodes;
  }

  lemma {:induction false} LinkedIsDistinct<K, V>(nodes: seq<Element<K, V>>)
    requires Linked(nodes)
    ensures Distinct(nodes)
  {}

  lemma {:induction false} RemovedDistinct<K, V>(nodes: seq<Element<K, V>>, p: nat)
    requires Distinct(nodes) && p < |nodes|
    ensures Distinct(Removed(nodes, p)) && nodes[p] !in Removed(nodes, p) && |Removed(nodes, p)| == |nodes| - 1
    ensures forall e <- Removed(nodes, p) :: e in nodes
  {}

  lemma {:induction false} InsertedEntries<K, V>(nodes: seq<Element<K, V>>, p: nat, e: Element<K, V>)
    requires p <= |nodes|
    ensures EntriesOf(Inserted(nodes, p, e)) == Inserted(EntriesOf(nodes), p, (e.key, e.value))
  {}

  lemma {:induction false} InsertedEnds<T>(s: seq<T>, p: nat, x: T)
    requires 0 < p < |s|
    ensures var r := Inserted(s, p, x); |r| == |s| + 1 && r[0] == s[0] && r[|s|] == s[|s| - 1]
  {}

  lemma {:induction false} RemovedEntries<K, V>(nodes: seq<Element<K, V>>, p: nat)
    requires p < |nodes|
    ensures EntriesOf(Removed(nodes, p)) == Removed(EntriesOf(nodes), p)
  {}

  class List<K(==), V> {
    var head: Element?<K, V>
    var tail: Element?<K, V>
    var size: nat
    ghost var nodes: seq<Element<K, V>>
    const keyPoison: K
    const valuePoison: V

    ghost predicate Valid()
      reads this, nodes
    {
      && size == |nodes| && Linked(nodes)
      && head == (if nodes == [] then null else nodes[0])
      && tail == (if nodes == [] then null else nodes[|nodes| - 1])
    }

    ghost function Entries(): (s: seq<(K, V)>)
      reads this, nodes
      ensures |s| == |nodes|
    {
      EntriesOf(nodes)
    }

    /** A list is as it was when neither it nor its elements have been touched. */
    twostate lemma Kept()
      requires old(Valid()) && unchanged(this) && forall e <- nodes :: unchanged(e)
      ensures Valid() && Entries() == old(Entries())
    {
      hide EntriesOf, Linked;
      assert forall k :: 0 <= k < |nodes| ==> nodes[k] in nodes;
      assert EntriesOf(nodes) == old(EntriesOf(nodes));
      assert Linked(nodes);
    }

    constructor (keyPoison: K, valuePoison: V)
      ensures Valid() && nodes == [] && this.keyPoison == keyPoison && this.valuePoison == valuePoison
    {
      head, tail, size, nodes := null, null, 0, [];
      this.keyPoison, this.valuePoison := keyPoison, valuePoison;
    }

    /** Lookup at the position clamped to 1..size. */
    method FindElement(number: nat) returns (element: Element?<K, V>)
      requires Valid()
      ensures element == if size == 0 then null else nodes[Clamp(number, size) - 1]
    {
      element := head;
      var index := 1;
      while index < number && index < size
        invariant 1 <= index
        invariant size > 0 ==> index <= Clamp(number, size) && element == nodes[index - 1]
        invariant size == 0 ==> element == null
      {
        element := element.next;
        index := index + 1;
      }
    }

    /** The first element with the key, if any. */
    method FindValue(key: K) returns (element: Element?<K, V>)
      requires Valid()
      ensures var i := FirstIndex(Entries(), key);
              element == if i == |nodes| then null else nodes[i]
    {
      var current := head;
      var index := 0;
      while index < size
        invariant 0 <= index <= size
        invariant current == if index < size then nodes[index] else null
        invariant forall j :: 0 <= j < index ==> nodes[j].key != key
      {
        if current.key == key {
          return current;
        }
        current := current.next;
        index := index + 1;
      }
      return null;
    }

    /** Whatever the list held before is dropped. */
    method InsertFirst(key: K, value: V) returns (element: Element<K, V>)
      modifies this
      ensures Valid() && fresh(element) && nodes == [element] && Entries() == [(key, value)]
    {
      element := new Element(key, value, null, null);
      size := 1;
      head := element;
      tail := element;
      nodes := [element];
    }

    method InsertBegin(key: K, value: V) returns (element: Element<K, V>)
      requires Valid()
      modifies this, nodes
      ensures Valid() && fresh(element) && nodes == Inserted(old(nodes), 0, element)
      ensures Entries() == Inserted(old(Entries()), 0, (key, value))
    {
      hide EntriesOf;
      if size == 0 {
        element := InsertFirst(key, value);
        return;
      }
      var current := head;
      element := new Element(key, value, null, current);
      current.prev := element;
      head := element;
      size := size + 1;
      ghost var rest := nodes;
      nodes := Inserted(nodes, 0, element);
      assert nodes == [element] + rest;
      LinkedPair([element], rest);
    }

    method InsertEnd(key: K, value: V) returns (element: Element<K, V>)
      requires Valid()
      modifies this, nodes
      ensures Valid() && fresh(element) && nodes == old(nodes) + [element]
      ensures Entries() == old(Entries()) + [(key, value)]
    {
      hide EntriesOf;
      if size == 0 {
        element := InsertFirst(key, value);
        return;
      }
      var current := tail;
      element := new Element(key, value, current, null);
      current.next := element;
      tail := element;
      size := size + 1;
      LinkedPair(nodes, [element]);
      nodes := nodes + [element];
    }

    /** The middle case of both insertions by number: between two neighbours. */
    method InsertAt(before: Element<K, V>, after: Element<K, V>, key: K, value: V, ghost p: nat)
      returns (element: Element<K, V>)
      requires Valid() && 0 < p < |nodes| && before == nodes[p - 1] && after == nodes[p]
      modifies this, nodes
      ensures Valid() && fresh(element) && nodes == Inserted(old(nodes), p, element)
      ensures Entries() == Inserted(old(Entries()), p, (key, value))
    {
      hide EntriesOf, Linked, Inserted;
      element := new Element(key, value, before, after);
      LinkIn(element, before, after, nodes, p);
      size := size + 1;
      InsertedEntries(nodes, p, element);
      InsertedEnds(nodes, p, element);
      nodes := Inserted(nodes, p, element);
    }

    /** A number beyond the size inserts before the last element; that needs two elements, as the code follows
        the link before the element it found. */
    method InsertBefore(number: nat, key: K, value: V) returns (element: Element<K, V>)
      requires Valid()
      requires size == 0 || number == 1 || (number > 1 && size > 1)
      modifies this, nodes
      ensures var p := if old(size) == 0 then 0 else Clamp(number, old(size)) - 1;
              && Valid() && fresh(element) && nodes == Inserted(old(nodes), p, element)
              && Entries() == Inserted(old(Entries()), p, (key, value))
    {
      hide EntriesOf, Clamp;
      if size == 0 {
        element := InsertFirst(key, value);
        return;
      }
      if number == 1 {
        element := InsertBegin(key, value);
        return;
      }
      var current := FindElement(number);
      element := InsertAt(current.prev, current, key, value, Clamp(number, size) - 1);
    }

    /** A number of 0 counts as 1; the element found must have a successor unless the number is the size. */
    method InsertAfter(number: nat, key: K, value: V) returns (element: Element<K, V>)
      requires Valid()
      requires size == 0 || number == size || (number < size && size > 1)
      modifies this, nodes
      ensures var p := if old(size) == 0 then 0 else Clamp(number, old(size));
              && Valid() && fresh(element) && nodes == Inserted(old(nodes), p, element)
              && Entries() == Inserted(old(Entries()), p, (key, value))
    {
      hide EntriesOf, Clamp;
      if size == 0 {
        element := InsertFirst(key, value);
        return;
      }
      if number == size {
        element := InsertEnd(key, value);
        return;
      }
      var current := FindElement(number);
      element := InsertAt(current, current.next, key, value, Clamp(number, size));
    }

    /** The four cases of a deletion. */
    method Unlink(element: Element<K, V>, ghost p: nat)
      requires Valid() && p < |nodes| && element == nodes[p]
      modifies this`head, this`tail, nodes`next, nodes`prev
      ensures var rest := Removed(nodes, p);
              && Linked(rest)
              && head == (if rest == [] then null else rest[0])
              && tail == (if rest == [] then null else rest[|rest| - 1])
    {
      RemovedDistinct(nodes, p);
      if size == 1 {
        head := null;
        tail := null;
      } else if element == head {
        head := element.next;
        element.next.prev := null;
      } else if element == tail {
        tail := element.prev;
        element.prev.next := null;
      } else {
        LinkOut(element, nodes, p);
      }
    }

    /** list_pointer_delete: unlinks the element and poisons it before it is freed. */
    method Delete(element: Element<K, V>, ghost p: nat)
      requires Valid() && p < |nodes| && element == nodes[p]
      modifies this, nodes
      ensures Valid() && nodes == Removed(old(nodes), p) && Entries() == Removed(old(Entries()), p)
      ensures element.next == null && element.prev == null
      ensures element.key == keyPoison && element.value == valuePoison
    {
      hide EntriesOf, Linked, Removed;
      LinkedIsDistinct(nodes);
      RemovedDistinct(nodes, p);
      RemovedEntries(nodes, p);
      ghost var rest := Removed(nodes, p);
      Unlink(element, p);
      label Unlinked:
      element.next := null;
      element.prev := null;
      element.value := valuePoison;
      element.key := keyPoison;
      size := size - 1;
      nodes := rest;
      ChainKept@Unlinked(rest);
      EntriesKept(rest);
    }

    method DeleteElement(number: nat)
      requires Valid() && size > 0
      modifies this, nodes
      ensures Valid() && nodes == Removed(old(nodes), Clamp(number, old(size)) - 1)
      ensures Entries() == Removed(old(Entries()), Clamp(number, old(size)) - 1)
    {
      var current := FindElement(number);
      Delete(current, Clamp(number, size) - 1);
    }

    /** list_pointer_clear frees every element exactly once, from the tail to the head. */
    method Clear() returns (freed: seq<Element<K, V>>)
      requires Valid()
      modifies this, nodes
      ensures Valid() && nodes == [] && Entries() == []
      ensures freed == Reversed(old(nodes))
      ensures forall e <- freed :: e.next == null && e.prev == null && e.key == keyPoison && e.value == valuePoison
    {
      freed := [];
      var current := tail;
      var index := 0;
      while index < size
        invariant 0 <= index <= size == |nodes| && nodes == old(nodes) && |freed| == index
        invariant current == if index < size then nodes[size - 1 - index] else null
        invariant forall k :: 0 <= k < index ==> freed[k] == nodes[size - 1 - k]
        invariant forall e <- freed ::
                    e.next == null && e.prev == null && e.key == keyPoison && e.value == valuePoison
        invariant Distinct(nodes)
        invariant forall k {:trigger nodes[k].prev} :: 0 <= k < size - index ==> nodes[k].prev == PrevOf(nodes, k)
      {
        var nextElement := current.prev;
        current.prev := null;
        current.next := null;
        current.value := valuePoison;
        current.key := keyPoison;
        freed := freed + [current];
        current := nextElement;
        index := index + 1;
      }
      assert freed == Reversed(nodes);
      size := 0;
      head := null;
      tail := null;
      nodes := [];
    }
  }
}
