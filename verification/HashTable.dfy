/** The chained hash table of src/hashtable/hashtable.hpp over lists of LinearList. It keeps, for every key, a queue
    of values: setting enqueues, looking up peeks, removing dequeues. */
module HashTable {
  import opened Basics
  import opened LinearList
  import Murmur = MurmurHash

  function Remainder(n: nat, size: nat): (i: nat)
    requires size > 0
    ensures i < size
  {
    n % size
  }

  /** The bucket that a hash selects. */
  function Slot(hash: Word, size: nat): (i: nat)
    requires size > 0
    ensures i < size
  {
    Remainder(hash as nat, size)
  }

  lemma {:induction false} SlotIs(hash: Word, size: nat)
    requires size > 0
    ensures Slot(hash, size) == hash as nat % size
  {}

  // ------------------------------------------------------- one bucket's queues

  /** The values stored under a key in a bucket, oldest first. */
  function Queue<K(==), V>(entries: seq<(K, V)>, key: K): seq<V> {
    if entries == [] then []
    else (if entries[0].0 == key then [entries[0].1] else []) + Queue(entries[1..], key)
  }

  lemma {:induction false} QueueAppend<K, V>(a: seq<(K, V)>, b: seq<(K, V)>, key: K)
    ensures Queue(a + b, key) == Queue(a, key) + Queue(b, key)
  {
    if a == [] {
      assert a + b == b;
    } else {
      hide Queue;
      QueueAppend(a[1..], b, key);
      assert (a + b)[1..] == a[1..] + b;
      Associative(if a[0].0 == key then [a[0].1] else [], Queue(a[1..], key), Queue(b, key));
    }
  }

  lemma {:induction false} QueueOne<K, V>(e: (K, V), key: K)
    ensures Queue([e], key) == if e.0 == key then [e.1] else []
  {}

  lemma {:induction false} QueueOfOthers<K, V>(entries: seq<(K, V)>, key: K)
    requires forall e <- entries :: e.0 != key
    ensures Queue(entries, key) == []
  {
    if entries != [] { QueueOfOthers(entries[1..], key); }
  }

  /** The front of a key's queue is the entry that lookup finds. */
  lemma {:induction false} QueueFront<K, V>(entries: seq<(K, V)>, key: K)
    ensures Queue(entries, key) == [] <==> FirstIndex(entries, key) == |entries|
    ensures Queue(entries, key) != [] ==> Queue(entries, key)[0] == entries[FirstIndex(entries, key)].1
  {
    if entries != [] && entries[0].0 != key { QueueFront(entries[1..], key); }
  }

  /** An entry behind others of different keys is at the front of its key's queue. */
  lemma {:induction false} QueueAround<K, V>(a: seq<(K, V)>, e: (K, V), b: seq<(K, V)>, other: K)
    ensures Queue(a + [e] + b, other) ==
            Queue(a, other) + (if e.0 == other then [e.1] else []) + Queue(b, other)
  {
    hide Queue;
    QueueAppend(a + [e], b, other);
    QueueAppend(a, [e], other);
    QueueOne(e, other);
  }

  lemma {:induction false} QueueDrop<K, V>(a: seq<(K, V)>, e: (K, V), b: seq<(K, V)>, other: K)
    requires forall x <- a :: x.0 != e.0
    ensures other == e.0 ==> Queue(a + [e] + b, other) == [e.1] + Queue(a + b, other)
    ensures other != e.0 ==> Queue(a + [e] + b, other) == Queue(a + b, other)
  {
    hide Queue;
    QueueAround(a, e, b, other);
    QueueAppend(a, b, other);
    if other == e.0 {
      QueueOfOthers(a, other);
      assert [] + [e.1] + Queue(b, other) == [e.1] + ([] + Queue(b, other));
    } else {
      assert Queue(a, other) + [] == Queue(a, other);
    }
  }

  lemma {:induction false} SplitAround<T>(s: seq<T>, i: nat)
    requires i < |s|
    ensures s == s[..i] + [s[i]] + s[i + 1..]
  {}

  /** Deleting the first entry of a key dequeues it, and leaves the queues of the other keys alone. */
  lemma {:induction false} QueueRemove<K, V>(entries: seq<(K, V)>, key: K, other: K)
    requires FirstIndex(entries, key) < |entries|
    ensures Queue(entries, key) != []
    ensures var rest := Removed(entries, FirstIndex(entries, key));
            Queue(rest, other) == if other == key then Queue(entries, key)[1..] else Queue(entries, other)
  {
    hide Queue, FirstIndex;
    var i := FirstIndex(entries, key);
    var a, e, b := entries[..i], entries[i], entries[i + 1..];
    assert forall x <- a :: x.0 != key;
    SplitAround(entries, i);
    QueueDrop(a, e, b, key);
    QueueDrop(a, e, b, other);
  }

  // ------------------------------------------------------- the table as a value

  datatype Table<!K(==), V> = Table(buckets: seq<seq<(K, V)>>, hash: K -> Word)
  {
    function Index(key: K): (i: nat)
      requires buckets != []
      ensures i < |buckets|
    {
      Slot(hash(key), |buckets|)
    }

    /** A table without buckets stores nothing. */
    function QueueFor(key: K): seq<V> {
      if buckets == [] then [] else Queue(buckets[Index(key)], key)
    }

    ghost predicate PlacedIn(bucket: seq<(K, V)>, i: nat)
      requires buckets != []
    {
      forall k :: 0 <= k < |bucket| ==> Index(bucket[k].0) == i
    }

    /** Every entry is in the bucket of its key. */
    ghost predicate Placed() {
      forall i {:trigger buckets[i]} :: 0 <= i < |buckets| ==> PlacedIn(buckets[i], i)
    }

    function Set(key: K, value: V): Table<K, V> {
      if buckets == [] then this
      else this.(buckets := buckets[Index(key) := buckets[Index(key)] + [(key, value)]])
    }

    function Remove(key: K): Table<K, V>
      requires QueueFor(key) != []
    {
      var i := Index(key);
      QueueFront(buckets[i], key);
      this.(buckets := buckets[i := Removed(buckets[i], FirstIndex(buckets[i], key))])
    }

    function Cleared(): Table<K, V> {
      this.(buckets := seq(|buckets|, _ => []))
    }

    /** What hashtable_get_value returns when hashing the address of its argument gives `addressHash`. */
    function Get(key: K, addressHash: Word, poison: V): V {
      if buckets == [] then poison
      else
        var bucket := buckets[Slot(addressHash, |buckets|)];
        var i := FirstIndex(bucket, key);
        if i < |bucket| then bucket[i].1 else poison
    }

    /** Set enqueues at the back of its key's queue; other queues are unchanged; placement is kept. */
    lemma {:induction false} SetEnqueues(key: K, value: V, other: K)
      requires buckets != []
      ensures Set(key, value).QueueFor(other) ==
              if other == key then QueueFor(key) + [value] else QueueFor(other)
      ensures Placed() ==> Set(key, value).Placed()
    {
      var i := Index(key);
      QueueAppend(buckets[i], [(key, value)], other);
      QueueOne((key, value), other);
    }

    /** Remove pops the front of its key's queue; other queues are unchanged; placement is kept. */
    lemma {:induction false} RemoveDequeues(key: K, other: K)
      requires QueueFor(key) != []
      ensures Remove(key).QueueFor(other) == if other == key then QueueFor(key)[1..] else QueueFor(other)
      ensures Placed() ==> Remove(key).Placed()
    {
      hide Queue, FirstIndex;
      var i := Index(key);
      QueueFront(buckets[i], key);
      QueueRemove(buckets[i], key, other);
      assert forall e <- Removed(buckets[i], FirstIndex(buckets[i], key)) :: e in buckets[i];
    }

    /** In terms of the remainder: the bucket that set appends to, the one that remove takes the first entry of the key
        from, and where every entry is. */
    lemma {:induction false} ByRemainder(key: K, value: V)
      requires buckets != []
      ensures var i := hash(key) as nat % |buckets|;
              && Set(key, value) == Table(buckets[i := buckets[i] + [(key, value)]], hash)
              && (QueueFor(key) != [] ==>
                    exists p: nat :: p < |buckets[i]| && buckets[i][p].0 == key
                      && (forall q :: 0 <= q < p ==> buckets[i][q].0 != key)
                      && Remove(key) == Table(buckets[i := buckets[i][..p] + buckets[i][p + 1..]], hash))
      ensures Placed() <==> forall i: nat, e :: i < |buckets| && e in buckets[i] ==> hash(e.0) as nat % |buckets| == i
    {
      SlotIs(hash(key), |buckets|);
      QueueFront(buckets[Index(key)], key);
      forall e: (K, V) ensures Index(e.0) == hash(e.0) as nat % |buckets| { SlotIs(hash(e.0), |buckets|); }
      hide Slot, Queue, FirstIndex;
    }

    lemma {:induction false} RemovedIs(key: K, after: Table<K, V>)
      requires QueueFor(key) != [] && Placed() && after.hash == hash
      requires var i := Index(key);
               && FirstIndex(buckets[i], key) < |buckets[i]|
               && after.buckets == buckets[i := Removed(buckets[i], FirstIndex(buckets[i], key))]
      ensures after == Remove(key) && after.Placed()
    {}

    /** hashtable_get_value peeks at the front of the key's queue if and only if hashing the address happens to
        select the bucket of the key, or the key is absent, or its front value is the poison anyway. */
    lemma {:induction false} GetPeeksIff(key: K, addressHash: Word, poison: V)
      requires buckets != [] && Placed()
      ensures Get(key, addressHash, poison) == (if QueueFor(key) == [] then poison else QueueFor(key)[0]) <==>
              Slot(addressHash, |buckets|) == Index(key) || QueueFor(key) == [] || QueueFor(key)[0] == poison
    {
      var i := Slot(addressHash, |buckets|);
      QueueFront(buckets[Index(key)], key);
      if i != Index(key) {
        assert forall k :: 0 <= k < |buckets[i]| ==> buckets[i][k] in buckets[i] && Index(buckets[i][k].0) == i;
      }
    }
  }

  // ----------------------------------------------------- size and hash are moot

  datatype Op<K, V> =
    | SetOp(key: K, value: V)
    | RemoveOp(key: K)
    | ClearOp

  function EmptyTable<K(==), V>(size: nat, hash: K -> Word): Table<K, V> {
    Table(seq(size, _ => []), hash)
  }

  /** The queue of one key after a sequence of calls, told without any table. */
  function QueueAfter<K(==), V>(ops: seq<Op<K, V>>, key: K): seq<V> {
    if ops == [] then []
    else
      var before := QueueAfter(ops[..|ops| - 1], key);
      match ops[|ops| - 1]
      case SetOp(k, v) => if k == key then before + [v] else before
      case RemoveOp(k) => if k == key && before != [] then before[1..] else before
      case ClearOp => []
  }

  /** Removes are made of present keys only. */
  predicate Legal<K(==), V>(ops: seq<Op<K, V>>) {
    ops == [] ||
    (Legal(ops[..|ops| - 1]) &&
     (ops[|ops| - 1].RemoveOp? ==> QueueAfter(ops[..|ops| - 1], ops[|ops| - 1].key) != []))
  }

  ghost predicate Represents<K(!new), V>(t: Table<K, V>, ops: seq<Op<K, V>>) {
    t.buckets != [] && t.Placed() && forall key :: t.QueueFor(key) == QueueAfter(ops, key)
  }

  /** The table after the calls. */
  ghost function TableAfter<K(!new), V>(size: nat, hash: K -> Word, ops: seq<Op<K, V>>): (t: Table<K, V>)
    requires size > 0 && Legal(ops)
    ensures Represents(t, ops) && |t.buckets| == size && t.hash == hash
  {
    if ops == [] then EmptyTable(size, hash)
    else
      var front, last := ops[..|ops| - 1], ops[|ops| - 1];
      var t := TableAfter(size, hash, front);
      assert forall key :: t.QueueFor(key) == QueueAfter(front, key);
      match last
      case SetOp(k, v) =>
        assert forall key :: t.Set(k, v).QueueFor(key) == QueueAfter(ops, key) by {
          forall key ensures t.Set(k, v).QueueFor(key) == QueueAfter(ops, key) { t.SetEnqueues(k, v, key); }
        }
        t.SetEnqueues(k, v, k);
        t.Set(k, v)
      case RemoveOp(k) =>
        assert forall key :: t.Remove(k).QueueFor(key) == QueueAfter(ops, key) by {
          forall key ensures t.Remove(k).QueueFor(key) == QueueAfter(ops, key) { t.RemoveDequeues(k, key); }
        }
        t.RemoveDequeues(k, k);
        t.Remove(k)
      case ClearOp =>
        assert forall key :: t.Cleared().QueueFor(key) == [];
        t.Cleared()
  }

  /** Any two non-empty tables, whatever their sizes and hash functions, hold the same queue for every key after the
      same calls, and so answer every lookup in the key's bucket alike. */
  lemma {:induction false} SizeAndHashAreMoot<K(!new), V>(size: nat, hash: K -> Word, size': nat, hash': K -> Word,
                                       ops: seq<Op<K, V>>, key: K, poison: V)
    requires size > 0 && size' > 0 && Legal(ops)
    ensures var t, u := TableAfter(size, hash, ops), TableAfter(size', hash', ops);
            t.QueueFor(key) == u.QueueFor(key) && t.Get(key, hash(key), poison) == u.Get(key, hash'(key), poison)
  {
    var t, u := TableAfter(size, hash, ops), TableAfter(size', hash', ops);
    assert Represents(t, ops) && Represents(u, ops);
    t.GetPeeksIff(key, hash(key), poison);
    u.GetPeeksIff(key, hash'(key), poison);
  }

  /** In every reachable table an entry is in the bucket that the remainder of its key's hash selects, and a lookup
      answers with the front of the key's queue if and only if the hash of the address has the same remainder as that of
      the key, or the key is absent, or the front of its queue is the poison. */
  lemma {:induction false} ReachableLookup<K(!new), V>(size: nat, hash: K -> Word, ops: seq<Op<K, V>>, key: K,
                                                       addressHash: Word, poison: V)
    requires size > 0 && Legal(ops)
    ensures var t := TableAfter(size, hash, ops);
            && |t.buckets| == size
            && (forall i: nat, e :: i < size && e in t.buckets[i] ==> hash(e.0) as nat % size == i)
    ensures var queue := QueueAfter(ops, key);
            TableAfter(size, hash, ops).Get(key, addressHash, poison) == (if queue == [] then poison else queue[0]) <==>
            addressHash as nat % size == hash(key) as nat % size || queue == [] || queue[0] == poison
  {
    var t := TableAfter(size, hash, ops);
    assert Represents(t, ops) && t.QueueFor(key) == QueueAfter(ops, key);
    t.GetPeeksIff(key, addressHash, poison);
    SlotIs(addressHash, size);
    SlotIs(hash(key), size);
    forall i: nat, e | i < size && e in t.buckets[i] ensures hash(e.0) as nat % size == i {
      assert t.PlacedIn(t.buckets[i], i);
      SlotIs(hash(e.0), size);
    }
  }

  /** With MurmurHash2 as its hash function, a table of any size answers a lookup in the key's bucket with the front of
      the key's queue, and with the poison when the key is absent. */
  lemma {:induction false} MurmurTableServes<V>(size: nat, ops: seq<Op<seq<Byte>, V>>, key: seq<Byte>, poison: V)
    requires size > 0 && Legal(ops)
    ensures var t, queue := TableAfter(size, Murmur.Hash, ops), QueueAfter(ops, key);
            t.Get(key, Murmur.Hash(key), poison) == if queue == [] then poison else queue[0]
  {
    var t := TableAfter(size, Murmur.Hash, ops);
    assert Represents(t, ops) && t.QueueFor(key) == QueueAfter(ops, key);
    hide Slot;
    t.GetPeeksIff(key, Murmur.Hash(key), poison);
  }

  // ------------------------------------------------------------ the calls

  /** Buckets of which the first k have been cleared. */
  function Wiped<T>(buckets: seq<seq<T>>, k: nat): seq<seq<T>> {
    seq(|buckets|, j requires 0 <= j < |buckets| => if j < k then [] else buckets[j])
  }

  ghost predicate Houses<K, V>(nodes: seq<Element<K, V>>, home: map<Element<K, V>, nat>, i: nat) {
    forall e <- nodes :: e in home && home[e] == i
  }

  lemma {:induction false} HousesApart<K, V>(a: seq<Element<K, V>>, i: nat, b: seq<Element<K, V>>, j: nat,
                                             home: map<Element<K, V>, nat>)
    requires Houses(a, home, i) && Houses(b, home, j) && i != j
    ensures forall e <- a :: e !in b
  {}

  lemma {:induction false} HousesAdded<K, V>(nodes: seq<Element<K, V>>, home: map<Element<K, V>, nat>, j: nat,
                                             e: Element<K, V>, i: nat)
    requires Houses(nodes, home, j)
    ensures e !in nodes ==> Houses(nodes, home[e := i], j)
    ensures i == j ==> Houses(nodes + [e], home[e := i], i)
  {}

  class HashTable<K(==), V> {
    var keys: seq<List<K, V>>
    var size: nat
    const hash: K -> Word
    const keyPoison: K
    const valuePoison: V

    /** The bucket of every element: no element serves two buckets. */
    ghost var home: map<Element<K, V>, nat>

    ghost predicate Framed()
      reads this, keys
    {
      && (forall i, j :: 0 <= i < j < |keys| ==> keys[i] != keys[j])
      && (forall i {:trigger keys[i].nodes} :: 0 <= i < |keys| ==> Houses(keys[i].nodes, home, i))
    }

    ghost predicate Shape()
      reads this, keys, home.Keys
    {
      && size == |keys| && Framed()
      && (forall i :: 0 <= i < |keys| ==> keys[i].Valid() && keys[i].valuePoison == valuePoison)
    }

    ghost predicate Valid()
      reads this, keys, home.Keys
    {
      Shape() && Contents().Placed()
    }

    ghost function Contents(): (t: Table<K, V>)
      requires Framed()
      reads this, keys, home.Keys
      ensures |t.buckets| == |keys| && t.hash == hash
      ensures forall i :: 0 <= i < |keys| ==> t.buckets[i] == keys[i].Entries()
    {
      Table(seq(|keys|, i requires 0 <= i < |keys| && Framed() reads this, keys, home.Keys => keys[i].Entries()), hash)
    }

    /** hashtable_ctor with a hash function that is not null. */
    constructor (size: nat, hash: K -> Word, keyPoison: K, valuePoison: V)
      ensures Valid() && this.size == size && this.hash == hash && Contents() == EmptyTable(size, hash)
    {
      this.size := size;
      this.hash := hash;
      this.keyPoison, this.valuePoison := keyPoison, valuePoison;
      keys, home := [], map[];
      new;
      for i := 0 to size
        invariant |keys| == i && this.size == size && this.hash == hash && this.valuePoison == valuePoison
        invariant forall l <- keys :: fresh(l)
        invariant forall j, k :: 0 <= j < k < i ==> keys[j] != keys[k]
        invariant forall j :: 0 <= j < i ==>
                    keys[j].Valid() && keys[j].nodes == [] && keys[j].valuePoison == valuePoison
      {
        var list := new List<K, V>(keyPoison, valuePoison);
        keys := keys + [list];
      }
      assert forall j :: 0 <= j < size ==> keys[j].Entries() == [];
    }

    /** `addressHash` is what the hash function makes of the address of the argument. */
    method GetValue(key: K, addressHash: Word) returns (value: V)
      requires Valid()
      ensures value == Contents().Get(key, addressHash, valuePoison)
    {
      if size == 0 { return valuePoison; }
      var element := keys[Slot(addressHash, size)].FindValue(key);
      value := if element != null then element.value else valuePoison;
    }

    /** The call of list_pointer_insert_end: the other buckets are untouched. */
    method InsertInBucket(i: nat, key: K, data: V)
      requires Shape() && i < size
      modifies this`home, keys[i..i + 1], keys[i].nodes
      ensures Shape()
      ensures Contents().buckets == old(Contents()).buckets[i := old(Contents()).buckets[i] + [(key, data)]]
    {
      hide EntriesOf, Linked, Houses;
      var element := keys[i].InsertEnd(key, data);
      home := home[element := i];
      HousesAdded(old(keys[i].nodes), old(home), i, element, i);
      forall j | 0 <= j < size && j != i
        ensures keys[j].Entries() == old(keys[j].Entries()) && keys[j].Valid() && Houses(keys[j].nodes, home, j)
      {
        HousesApart(old(keys[j].nodes), j, old(keys[i].nodes), i, old(home));
        keys[j].Kept();
        HousesAdded(keys[j].nodes, old(home), j, element, i);
      }
      ShapeFrom();
      BucketUpdated(i, old(Contents()).buckets);
    }

    /** The call of list_pointer_delete. */
    method DeleteInBucket(i: nat, element: Element<K, V>, ghost p: nat)
      requires Shape() && i < size && p < |keys[i].nodes| && element == keys[i].nodes[p]
      modifies keys[i..i + 1], keys[i].nodes
      ensures Shape() && unchanged(this)
      ensures Contents().buckets == old(Contents()).buckets[i := Removed(old(Contents()).buckets[i], p)]
    {
      RemovedDistinct(keys[i].nodes, p);
      hide EntriesOf, Linked, Removed;
      keys[i].Delete(element, p);
      OthersKept(i);
      assert Houses(keys[i].nodes, home, i);
      ShapeFrom();
      BucketUpdated(i, old(Contents()).buckets);
    }

    /** Buckets other than i are as they were when only bucket i has been modified. */
    twostate lemma OthersKept(i: nat)
      requires old(Shape()) && i < size && unchanged(this)
      requires forall j :: 0 <= j < size && j != i ==> unchanged(keys[j])
      requires forall j, e :: 0 <= j < size && e in keys[j].nodes && e !in old(keys[i].nodes) && old(allocated(e)) ==>
                 unchanged(e)
      ensures forall j :: 0 <= j < size && j != i ==>
                keys[j].Entries() == old(keys[j].Entries()) && keys[j].Valid() && Houses(keys[j].nodes, home, j)
    {
      hide EntriesOf, Linked;
      forall j | 0 <= j < size && j != i
        ensures keys[j].Entries() == old(keys[j].Entries()) && keys[j].Valid() && Houses(keys[j].nodes, home, j)
      {
        HousesApart(old(keys[j].nodes), j, old(keys[i].nodes), i, old(home));
        keys[j].Kept();
      }
    }

    lemma {:induction false} InHome(i: nat)
      requires Framed() && i < |keys|
      ensures forall e <- keys[i].nodes :: e in home.Keys
    {}

    lemma {:induction false} ShapeFrom()
      requires size == |keys| && (forall i, j :: 0 <= i < j < |keys| ==> keys[i] != keys[j])
      requires forall j :: 0 <= j < size ==> keys[j].Valid() && keys[j].valuePoison == valuePoison
      requires forall j :: 0 <= j < size ==> Houses(keys[j].nodes, home, j)
      ensures Shape()
    {}

    lemma {:induction false} BucketUpdated(i: nat, before: seq<seq<(K, V)>>)
      requires Framed() && i < |keys| == |before|
      requires forall j :: 0 <= j < |keys| && j != i ==> keys[j].Entries() == before[j]
      ensures Contents().buckets == before[i := keys[i].Entries()]
    {}

    method SetValue(key: K, data: V) returns (hashKey: Word)
      requires Valid()
      modifies this, keys, home.Keys
      ensures Valid() && Contents() == old(Contents()).Set(key, data)
      ensures hashKey == if size == 0 then 0 else hash(key)
      ensures size == old(size) && keys == old(keys)
    {
      hide EntriesOf, Linked, Queue, Houses, Slot, Valid, Framed;
      if size == 0 {
        Unfolded();
        return 0;
      }
      hashKey := hash(key);
      Unfolded();
      ghost var t := Contents();
      InHome(Slot(hashKey, size));
      InsertInBucket(Slot(hashKey, size), key, data);
      Rebuilt(t, key, data);
    }

    lemma {:induction false} Unfolded()
      requires Valid()
      ensures Shape() && Framed() && |Contents().buckets| == size && Contents().hash == hash && Contents().Placed()
    {}

    lemma {:induction false} Rebuilt(t: Table<K, V>, key: K, value: V)
      requires Shape() && t.buckets != [] && t.Placed() && t.hash == hash
      requires Contents().buckets == t.buckets[t.Index(key) := t.buckets[t.Index(key)] + [(key, value)]]
      ensures Valid() && Contents() == t.Set(key, value)
    {}

    method Remove(key: K)
      requires Valid()
      requires size == 0 || Contents().QueueFor(key) != []
      modifies keys, home.Keys
      ensures Valid() && unchanged(this)
      ensures old(size) > 0 ==> Contents() == old(Contents()).Remove(key)
      ensures old(size) == 0 ==> Contents() == old(Contents())
    {
      hide EntriesOf, Linked, FirstIndex, Queue, Removed, Houses;
      if size == 0 { return; }
      var index := Slot(hash(key), size);
      ghost var t := Contents();
      ghost var entries := t.buckets[index];
      QueueFront(entries, key);
      var element := keys[index].FindValue(key);
      InHome(index);
      DeleteInBucket(index, element, FirstIndex(entries, key));
      t.RemovedIs(key, Contents());
    }

    /** The call of list_pointer_clear. */
    method ClearBucket(i: nat)
      requires Shape() && i < size
      modifies keys[i..i + 1], keys[i].nodes
      ensures Shape() && unchanged(this)
      ensures Contents().buckets == old(Contents()).buckets[i := []]
    {
      hide EntriesOf, Linked;
      var _ := keys[i].Clear();
      OthersKept(i);
      assert Houses(keys[i].nodes, home, i);
      ShapeFrom();
      BucketUpdated(i, old(Contents()).buckets);
    }

    method Clear()
      requires Valid()
      modifies keys, home.Keys
      ensures Valid() && unchanged(this)
      ensures Contents() == old(Contents()).Cleared()
    {
      hide EntriesOf, Linked, Queue, Houses;
      ghost var before := Contents().buckets;
      assert before == Wiped(before, 0);
      for index := 0 to size
        invariant unchanged(this) && Shape()
        invariant Contents().buckets == Wiped(before, index)
      {
        InHome(index);
        ClearBucket(index);
      }
      assert Contents().buckets == old(Contents()).Cleared().buckets;
    }
  }

  /** hashtable_ctor: without a hash function there is no table, and the result is 1. */
  method Construct<K(==), V>(size: nat, hash: Option<K -> Word>, keyPoison: K, valuePoison: V)
    returns (result: int, table: HashTable?<K, V>)
    ensures result == if hash.None? then 1 else 0
    ensures hash.None? <==> table == null
    ensures hash.Some? ==> fresh(table) && table.Valid() && table.size == size && table.hash == hash.value &&
                           table.Contents() == EmptyTable(size, hash.value)
  {
    if hash.None? { return 1, null; }
    table := new HashTable(size, hash.value, keyPoison, valuePoison);
    result := 0;
  }
}
