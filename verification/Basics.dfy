/** What several modules need of bytes, sequences and buffers. */
module Basics {

  type Byte = bv8

  /** unsigned int */
  type Word = bv32

  /** The size of the buffers of ssh_client and ssh_server. */
  const MAX_BUFFER: nat := 2 * 0x10_0000

  datatype Option<+T> = None | Some(value: T)

  function Min(a: nat, b: nat): nat {
    if a < b then a else b
  }

  function Last<T>(s: seq<T>): T
    requires s != []
  {
    s[|s| - 1]
  }

  function SetLast<T>(s: seq<T>, x: T): seq<T>
    requires s != []
  {
    s[|s| - 1 := x]
  }

  /** x in front of what was at position i. */
  function Inserted<T>(s: seq<T>, i: nat, x: T): seq<T>
    requires i <= |s|
  {
    s[..i] + [x] + s[i..]
  }

  function Removed<T>(s: seq<T>, i: nat): seq<T>
    requires i < |s|
  {
    s[..i] + s[i + 1..]
  }

  /** Where every element goes. */
  lemma {:induction false} EditedAt<T>(s: seq<T>, i: nat, x: T, k: nat)
    requires i <= |s| && k < |s|
    ensures |Inserted(s, i, x)| == |s| + 1 && Inserted(s, i, x)[i] == x
    ensures Inserted(s, i, x)[if k < i then k else k + 1] == s[k]
    ensures i < |s| ==> |Removed(s, i)| == |s| - 1 && (k != i ==> Removed(s, i)[if k < i then k else k - 1] == s[k])
  {}

  function Reversed<T>(s: seq<T>): (r: seq<T>)
    ensures |r| == |s| && forall k :: 0 <= k < |s| ==> r[k] == s[|s| - 1 - k]
  {
    if s == [] then [] else Reversed(s[1..]) + [s[0]]
  }

  lemma {:induction false} ExistsInRest<T(!new)>(s: seq<T>, p: T -> bool)
    requires s != []
    ensures (exists x <- s :: p(x)) <==> p(s[0]) || exists x <- s[1..] :: p(x)
  {
    assert s == [s[0]] + s[1..];
  }

  lemma Associative<T>(x: seq<T>, y: seq<T>, z: seq<T>)
    ensures x + (y + z) == x + y + z
  {}

  /** A result whose sequence has more in front of it. */
  function Prepend<R, T>(front: seq<T>, rest: (R, seq<T>)): (R, seq<T>) {
    (rest.0, front + rest.1)
  }

  /** read or recvfrom into the front of a buffer. */
  method Fill(buffer: array<Byte>, bytes: seq<Byte>)
    requires |bytes| <= buffer.Length
    modifies buffer
    ensures buffer[..|bytes|] == bytes && buffer[|bytes|..] == old(buffer[|bytes|..])
  {
    forall k | 0 <= k < |bytes| { buffer[k] := bytes[k]; }
  }
}
