/** MurmurHash2 of src/hashtable/hashtable.hpp on 32-bit words. A key is the bytes of its C string; a null key
    hashes like the empty one. */
module MurmurHash {

  import opened Basics

  /** Multiplication by the constant m, which is odd ... */
  function TimesM(x: Word): Word {
    x * 0x5bd1_e995
  }

  /** ... and by its inverse modulo 2^32. */
  function DivideM(x: Word): Word {
    x * 0xe59b_19bd
  }

  function Fold24(x: Word): Word {
    x ^ (x >> 24)
  }

  function Fold13(x: Word): Word {
    x ^ (x >> 13)
  }

  function Fold15(x: Word): Word {
    x ^ (x >> 15)
  }

  function Xor(x: Word, y: Word): Word {
    x ^ y
  }

  function Widen(b: Byte): Word {
    b as Word
  }

  function At8(b: Byte): Word {
    Widen(b) << 8
  }

  function At16(b: Byte): Word {
    Widen(b) << 16
  }

  function At24(b: Byte): Word {
    Widen(b) << 24
  }

  /** Four bytes, the first one lowest. */
  function Pack(a: Byte, b: Byte, c: Byte, d: Byte): Word {
    Widen(a) | At8(b) | At16(c) | At24(d)
  }

  function Block(key: seq<Byte>, at: nat): Word
    requires at + 4 <= |key|
  {
    Pack(key[at], key[at + 1], key[at + 2], key[at + 3])
  }

  function Scramble(k: Word): Word {
    TimesM(Fold24(TimesM(k)))
  }

  function Round(h: Word, k: Word): Word {
    Xor(TimesM(h), Scramble(k))
  }

  function Pack3(a: Byte, b: Byte, c: Byte): Word {
    At16(c) ^ At8(b) ^ Widen(a)
  }

  function ByteOr0(s: seq<Byte>, i: nat): Byte {
    if i < |s| then s[i] else 0
  }

  /** The 1 to 3 bytes that are left are mixed in together; nothing happens when none is left. */
  function MixTail(h: Word, tail: seq<Byte>): Word {
    if |tail| == 0 then h
    else TimesM(Xor(h, Pack3(ByteOr0(tail, 0), ByteOr0(tail, 1), ByteOr0(tail, 2))))
  }

  function Finish(h: Word): Word {
    Fold15(TimesM(Fold13(h)))
  }

  /** From the block at `at` on. */
  function MixFrom(h: Word, key: seq<Byte>, at: nat): Word
    requires at <= |key|
    decreases |key| - at
  {
    if |key| - at >= 4 then MixFrom(Round(h, Block(key, at)), key, at + 4) else MixTail(h, key[at..])
  }

  /** The seed is 0, so that the state starts as the length, cut to 32 bits. */
  function Seeded(length: nat): Word {
    (length % 0x1_0000_0000) as Word
  }

  function Hash(key: seq<Byte>): Word {
    Finish(MixFrom(Seeded(|key|), key, 0))
  }

  lemma {:induction false} TailSteps(h: Word, a: Byte, b: Byte, c: Byte)
    ensures Xor(Xor(Xor(h, At16(c)), At8(b)), Widen(a)) == Xor(h, Pack3(a, b, c))
    ensures Xor(h, At16(0)) == h && Xor(h, At8(0)) == h
  {}

  /** The loop and the fall-through switch of the C function. */
  method MurmurHash2(key: seq<Byte>) returns (hash: Word)
    ensures hash == Hash(key)
  {
    hide TimesM, DivideM, Fold24, Fold13, Fold15, Xor, Widen, At8, At16, At24, Pack3, Seeded;
    var len := |key|;
    var h := Seeded(len);
    var data := 0;
    while len >= 4
      invariant 0 <= data <= |key| && data + len == |key|
      invariant MixFrom(h, key, data) == MixFrom(Seeded(|key|), key, 0)
    {
      var k := Widen(key[data]);
      k := k | At8(key[data + 1]);
      k := k | At16(key[data + 2]);
      k := k | At24(key[data + 3]);
      assert k == Block(key, data);

      k := TimesM(k);
      k := Fold24(k);
      k := TimesM(k);

      h := TimesM(h);
      h := Xor(h, k);

      data := data + 4;
      len := len - 4;
    }
    ghost var tail, before := key[data..], h;
    TailSteps(before, ByteOr0(tail, 0), ByteOr0(tail, 1), ByteOr0(tail, 2));
    if len == 3 { h := Xor(h, At16(key[data + 2])); }
    if len >= 2 {
      TailSteps(h, 0, 0, 0);
      h := Xor(h, At8(key[data + 1]));
    }
    if len >= 1 {
      TailSteps(h, 0, 0, 0);
      h := Xor(h, Widen(key[data]));
      h := TimesM(h);
    }
    assert h == MixTail(before, tail);
    h := Fold13(h);
    h := TimesM(h);
    h := Fold15(h);
    return h;
  }

  // ------------------------------------------------------ every step inverts

  lemma {:induction false} DivideBack(x: Word)
    ensures DivideM(x * 0x5bd1_e995) == x
  {}

  lemma {:induction false} DivideUndoesTimes(x: Word)
    ensures DivideM(TimesM(x)) == x
  {
    hide DivideM;
    DivideBack(x);
  }

  function Unfold24(y: Word): Word {
    y ^ (y >> 24)
  }

  function Unfold13(y: Word): Word {
    y ^ (y >> 13) ^ (y >> 26)
  }

  function Unfold15(y: Word): Word {
    y ^ (y >> 15) ^ (y >> 30)
  }

  lemma {:induction false} ShiftBack(x: Word)
    ensures Unfold24(x ^ (x >> 24)) == x
    ensures Unfold13(x ^ (x >> 13)) == x
    ensures Unfold15(x ^ (x >> 15)) == x
  {}

  lemma {:induction false} UnfoldUndoesFold(x: Word)
    ensures Unfold24(Fold24(x)) == x && Unfold13(Fold13(x)) == x && Unfold15(Fold15(x)) == x
  {
    hide Unfold24, Unfold13, Unfold15;
    ShiftBack(x);
  }

  lemma {:induction false} XorCancels(a: Word, b: Word, c: Word)
    ensures Xor(a, c) == Xor(b, c) ==> a == b
    ensures Xor(c, a) == Xor(c, b) ==> a == b
  {}

  lemma {:induction false} Pack3Injective(a: Byte, b: Byte, c: Byte, p: Byte, q: Byte, r: Byte)
    requires Pack3(a, b, c) == Pack3(p, q, r)
    ensures a == p && b == q && c == r
  {}

  lemma {:induction false} ScrambleBack(k: Word)
    ensures DivideM(Unfold24(DivideM(Scramble(k)))) == k
  {
    hide TimesM, DivideM, Fold24, Unfold24;
    DivideUndoesTimes(Fold24(TimesM(k)));
    UnfoldUndoesFold(TimesM(k));
    DivideUndoesTimes(k);
  }

  lemma {:induction false} FinishBack(h: Word)
    ensures Unfold13(DivideM(Unfold15(Finish(h)))) == h
  {
    hide TimesM, DivideM, Fold13, Fold15, Unfold13, Unfold15;
    UnfoldUndoesFold(TimesM(Fold13(h)));
    DivideUndoesTimes(Fold13(h));
    UnfoldUndoesFold(h);
  }

  lemma {:induction false} FinishInjective(h: Word, g: Word)
    requires Finish(h) == Finish(g)
    ensures h == g
  {
    hide Finish, DivideM, Unfold13, Unfold15;
    FinishBack(h);
    FinishBack(g);
  }

  /** A round is invertible in the state and in the block. */
  lemma {:induction false} RoundInjective(h: Word, g: Word, k: Word, l: Word)
    requires Round(h, k) == Round(g, l)
    ensures h == g <==> k == l
  {
    hide TimesM, DivideM, Unfold24, Scramble, Xor;
    if h == g {
      XorCancels(Scramble(k), Scramble(l), TimesM(h));
      ScrambleBack(k);
      ScrambleBack(l);
    }
    if k == l {
      XorCancels(TimesM(h), TimesM(g), Scramble(k));
      DivideUndoesTimes(h);
      DivideUndoesTimes(g);
    }
  }

  /** The tail is invertible in the state and in the bytes. */
  lemma {:induction false} TailInjective(h: Word, g: Word, s: seq<Byte>, t: seq<Byte>)
    requires |s| == |t| < 4 && MixTail(h, s) == MixTail(g, t)
    ensures h == g <==> s == t
  {
    hide TimesM, DivideM, Xor, Pack3;
    if |s| > 0 {
      var x := Pack3(ByteOr0(s, 0), ByteOr0(s, 1), ByteOr0(s, 2));
      var y := Pack3(ByteOr0(t, 0), ByteOr0(t, 1), ByteOr0(t, 2));
      DivideUndoesTimes(Xor(h, x));
      DivideUndoesTimes(Xor(g, y));
      if h == g {
        XorCancels(x, y, h);
        Pack3Injective(ByteOr0(s, 0), ByteOr0(s, 1), ByteOr0(s, 2), ByteOr0(t, 0), ByteOr0(t, 1), ByteOr0(t, 2));
        assert forall i :: 0 <= i < |s| ==> s[i] == ByteOr0(s, i) && t[i] == ByteOr0(t, i);
      }
      if s == t { XorCancels(h, g, x); }
    }
  }

  // ----------------------------------------------------- near keys are apart

  /** Different states that see the same bytes stay different. */
  lemma {:induction false} MixKeepsApart(h: Word, g: Word, a: seq<Byte>, b: seq<Byte>, at: nat)
    requires at <= |a| == |b| && h != g
    requires forall i :: at <= i < |a| ==> a[i] == b[i]
    ensures MixFrom(h, a, at) != MixFrom(g, b, at)
    decreases |a| - at
  {
    hide Round, MixTail, Pack;
    if |a| - at >= 4 {
      var k := Block(a, at);
      if Round(h, k) == Round(g, k) { RoundInjective(h, g, k, k); }
      MixKeepsApart(Round(h, k), Round(g, k), a, b, at + 4);
    } else if MixTail(h, a[at..]) == MixTail(g, b[at..]) {
      TailInjective(h, g, a[at..], b[at..]);
    }
  }

  /** Where the unit that begins at `start`, an aligned block or the tail, ends. */
  function UnitEnd(length: nat, start: nat): nat {
    if start + 4 <= length then start + 4 else length
  }

  /** The keys have the same length and differ inside one aligned block, or inside the tail, and nowhere else. */
  ghost predicate DifferInUnit(a: seq<Byte>, b: seq<Byte>, start: nat) {
    && |a| == |b| && start % 4 == 0 && start <= |a| && a != b
    && (forall i :: 0 <= i < start || UnitEnd(|a|, start) <= i < |a| ==> a[i] == b[i])
  }

  lemma {:induction false} MixSeparates(h: Word, a: seq<Byte>, b: seq<Byte>, at: nat, start: nat)
    requires DifferInUnit(a, b, start) && at % 4 == 0 && at <= start
    ensures MixFrom(h, a, at) != MixFrom(h, b, at)
    decreases start - at
  {
    hide Round, MixTail, Pack;
    if at < start {
      assert Block(a, at) == Block(b, at);
      MixSeparates(Round(h, Block(a, at)), a, b, at + 4, start);
    } else if |a| - at >= 4 {
      BlocksDiffer(a, b, at);
      var k, l := Block(a, at), Block(b, at);
      if Round(h, k) == Round(h, l) { RoundInjective(h, h, k, l); }
      MixKeepsApart(Round(h, k), Round(h, l), a, b, at + 4);
    } else {
      if MixTail(h, a[at..]) == MixTail(h, b[at..]) { TailInjective(h, h, a[at..], b[at..]); }
    }
  }

  lemma {:induction false} BlocksDiffer(a: seq<Byte>, b: seq<Byte>, at: nat)
    requires DifferInUnit(a, b, at) && at + 4 <= |a|
    ensures Block(a, at) != Block(b, at)
  {}

  /** Two keys of equal length that differ only inside one aligned four-byte block, or only inside the tail, never
      hash alike, for every length and position. */
  lemma {:induction false} NearKeysSeparate(a: seq<Byte>, b: seq<Byte>, start: nat)
    requires DifferInUnit(a, b, start)
    ensures Hash(a) != Hash(b)
  {
    hide Finish, MixFrom, Seeded;
    MixSeparates(Seeded(|a|), a, b, 0, start);
    if Hash(a) == Hash(b) {
      FinishInjective(MixFrom(Seeded(|a|), a, 0), MixFrom(Seeded(|b|), b, 0));
    }
  }

  /** Keys of equal length of at most four bytes collide only if they are equal. */
  lemma {:induction false} ShortKeysNeverCollide(a: seq<Byte>, b: seq<Byte>)
    requires |a| == |b| <= 4
    ensures Hash(a) == Hash(b) <==> a == b
  {
    hide Hash;
    if a != b { NearKeysSeparate(a, b, 0); }
  }

  // ------------------------------------------------------- the way back

  /** Bytes as a number, the first one lowest. */
  function Number(a: Byte, b: Byte, c: Byte, d: Byte): Word {
    a as Word + 0x100 * (b as Word) + 0x1_0000 * (c as Word) + 0x100_0000 * (d as Word)
  }

  /** The state before it was changed by x and multiplied, and before it was multiplied and changed by x. */
  function UnmixedTail(h: Word, x: Word): Word {
    DivideM(h) ^ x
  }

  function UnmixedBlock(h: Word, x: Word): Word {
    DivideM(h ^ x)
  }

  /** The state before the tail, the one to three bytes from `at` on. */
  function WithoutTail(h: Word, key: seq<Byte>, at: nat): Word
    requires at <= |key|
  {
    if at == |key| then h
    else UnmixedTail(h, Number(key[at], if at + 1 < |key| then key[at + 1] else 0,
                               if at + 2 < |key| then key[at + 2] else 0, 0))
  }

  /** The state before the blocks that end at `at`, taken back from the last to the first. */
  function WithoutBlocks(h: Word, key: seq<Byte>, at: nat): Word
    requires at <= |key|
    decreases at
  {
    if at < 4 then h
    else
      var k := Number(key[at - 4], key[at - 3], key[at - 2], key[at - 1]);
      WithoutBlocks(UnmixedBlock(h, TimesM(Fold24(TimesM(k)))), key, at - 4)
  }

  lemma {:induction false} NumberIs(a: Byte, b: Byte, c: Byte, d: Byte)
    ensures Number(a, b, c, d) == Pack(a, b, c, d) && Number(a, b, c, 0) == Pack3(a, b, c)
  {}

  lemma {:induction false} Unmixed(h: Word, x: Word, y: Word)
    ensures UnmixedTail(h, x) == Xor(DivideM(h), x) && UnmixedBlock(h, x) == DivideM(Xor(h, x))
    ensures Xor(Xor(y, x), x) == y
  {
    hide DivideM;
  }

  lemma {:induction false} TailBack(h: Word, key: seq<Byte>, at: nat)
    requires at <= |key| < at + 4
    ensures WithoutTail(MixTail(h, key[at..]), key, at) == h
  {
    hide TimesM, DivideM, Xor, Pack3, Number, UnmixedTail;
    if at < |key| {
      var tail := key[at..];
      var x := Pack3(ByteOr0(tail, 0), ByteOr0(tail, 1), ByteOr0(tail, 2));
      NumberIs(ByteOr0(tail, 0), ByteOr0(tail, 1), ByteOr0(tail, 2), 0);
      DivideUndoesTimes(Xor(h, x));
      Unmixed(TimesM(Xor(h, x)), x, h);
    }
  }

  lemma {:induction false} RoundBack(h: Word, key: seq<Byte>, at: nat)
    requires at + 4 <= |key|
    ensures UnmixedBlock(Round(h, Block(key, at)),
                         TimesM(Fold24(TimesM(Number(key[at], key[at + 1], key[at + 2], key[at + 3]))))) == h
  {
    hide TimesM, DivideM, Fold24, Xor, Pack, Number, UnmixedBlock;
    var k := Block(key, at);
    NumberIs(key[at], key[at + 1], key[at + 2], key[at + 3]);
    Unmixed(Round(h, k), Scramble(k), TimesM(h));
    DivideUndoesTimes(h);
  }

  /** Taking back all blocks from the state that the rest of the key has led to. */
  lemma {:induction false} BlocksBack(h: Word, key: seq<Byte>, at: nat)
    requires at <= |key| && at % 4 == 0
    ensures var end := |key| - |key| % 4;
            WithoutBlocks(WithoutTail(MixFrom(h, key, at), key, end), key, end) == WithoutBlocks(h, key, at)
    decreases |key| - at
  {
    hide Round, MixTail, Pack, Number, TimesM, Fold24, UnmixedTail, UnmixedBlock, WithoutTail;
    if |key| - at >= 4 {
      BlocksBack(Round(h, Block(key, at)), key, at + 4);
      RoundBack(h, key, at);
    } else {
      TailBack(h, key, at);
    }
  }

  /** The hash leads back to where it began: with its last steps taken back, then the tail, then the blocks from the
      last to the first, what is left is the length of the key modulo 2^32, for every key. */
  lemma {:induction false} HashLeadsBack(key: seq<Byte>)
    ensures var end := |key| - |key| % 4;
            var h := Unfold13(DivideM(Unfold15(Hash(key))));
            WithoutBlocks(WithoutTail(h, key, end), key, end) == (|key| % 0x1_0000_0000) as Word
  {
    hide MixFrom, Finish, Unfold13, DivideM, Unfold15, WithoutTail;
    FinishBack(MixFrom(Seeded(|key|), key, 0));
    BlocksBack(Seeded(|key|), key, 0);
  }
}
