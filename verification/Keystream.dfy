/** The encrypted terminal session over a reliable byte stream (src/ssh_client/ssh_client.c,
    src/ssh_server/ssh_server.c). Each side keeps one RC4 state and uses it for both directions; RC4 itself is an
    arbitrary keystream. */
module Keystream {
  import opened Basics

  /** The bytes that RC4 puts out for the shared secret, by position. */
  type Stream = nat -> Byte

  function Xor(a: Byte, b: Byte): Byte {
    a ^ b
  }

  function Crypt(ks: Stream, position: nat, data: seq<Byte>): (r: seq<Byte>)
    ensures |r| == |data| && forall i :: 0 <= i < |data| ==> r[i] == Xor(data[i], ks(position + i))
  {
    seq(|data|, i requires 0 <= i < |data| => Xor(data[i], ks(position + i)))
  }

  lemma {:induction false} XorTwice(a: Byte, b: Byte)
    ensures Xor(Xor(a, b), b) == a
  {}

  /** RC4_KEY: the position in the keystream. */
  class Rc4 {
    const ks: Stream
    var position: nat

    constructor (ks: Stream)
      ensures this.ks == ks && position == 0
    {
      this.ks, position := ks, 0;
    }

    /** RC4(&key, len, in, out) */
    method Apply(len: nat, input: array<Byte>, output: array<Byte>)
      requires len <= input.Length && len <= output.Length && input != output
      modifies this`position, output
      ensures output[..len] == Crypt(ks, old(position), input[..len])
      ensures forall j :: 0 <= j < len ==> output[j] == input[j] ^ ks(old(position) + j)
      ensures output[len..] == old(output[len..])
      ensures position == old(position) + len
    {
      var i := 0;
      while i < len
        invariant 0 <= i <= len && position == old(position) + i
        invariant forall j :: 0 <= j < i ==> output[j] == Xor(input[j], ks(old(position) + j))
        invariant output[len..] == old(output[len..])
      {
        output[i] := Xor(input[i], ks(position));
        position := position + 1;
        i := i + 1;
      }
    }
  }

  // ------------------------------------------------------- the two endpoints

  /** One side: its position, the plaintext it has sent and received, and the keystream position used for each byte. */
  datatype Side = Side(position: nat, sent: seq<Byte>, sentAt: seq<nat>, received: seq<Byte>, receivedAt: seq<nat>)

  /** Left is the client and right the server; the streams hold the encrypted bytes in flight. */
  datatype Session = Session(left: Side, right: Side, toRight: seq<Byte>, toLeft: seq<Byte>)

  datatype Action =
    | Send(plain: seq<Byte>)
    | Receive(n: nat)

  function Fresh(): Session {
    Session(Side(0, [], [], [], []), Side(0, [], [], [], []), [], [])
  }

  function Swap(s: Session): Session {
    Session(s.right, s.left, s.toLeft, s.toRight)
  }

  function Positions(from: nat, n: nat): (r: seq<nat>)
    ensures |r| == n && forall i :: 0 <= i < n ==> r[i] == from + i
  {
    seq(n, i requires 0 <= i < n => from + i)
  }

  /** What the left side may do: the stream delivers any non-empty part of what is in flight. */
  predicate Enabled(s: Session, a: Action) {
    a.Receive? ==> 0 < a.n <= |s.toLeft|
  }

  function Next(ks: Stream, s: Session, a: Action): Session
    requires Enabled(s, a)
  {
    var me := s.left;
    match a
    case Send(plain) =>
      s.(left := me.(position := me.position + |plain|, sent := me.sent + plain,
                     sentAt := me.sentAt + Positions(me.position, |plain|)),
         toRight := s.toRight + Crypt(ks, me.position, plain))
    case Receive(n) =>
      s.(left := me.(position := me.position + n, received := me.received + Crypt(ks, me.position, s.toLeft[..n]),
                     receivedAt := me.receivedAt + Positions(me.position, n)),
         toLeft := s.toLeft[n..])
  }

  predicate CanStep(s: Session, leftMoves: bool, a: Action) {
    Enabled(if leftMoves then s else Swap(s), a)
  }

  function Step(ks: Stream, s: Session, leftMoves: bool, a: Action): Session
    requires CanStep(s, leftMoves, a)
  {
    if leftMoves then Next(ks, s, a) else Swap(Next(ks, Swap(s), a))
  }

  predicate IsRun(ks: Stream, s: Session, run: seq<(bool, Action)>)
    decreases |run|
  {
    run == [] || (CanStep(s, run[0].0, run[0].1) && IsRun(ks, Step(ks, s, run[0].0, run[0].1), run[1..]))
  }

  function After(ks: Stream, s: Session, run: seq<(bool, Action)>): Session
    requires IsRun(ks, s, run)
    decreases |run|
  {
    if run == [] then s else After(ks, Step(ks, s, run[0].0, run[0].1), run[1..])
  }

  // ------------------------------------------------------------ conservation

  predicate Conserved(s: Session) {
    s.left.position + |s.toLeft| == s.right.position + |s.toRight|
  }

  /** One direction, from x to y with `inFlight` between them: every byte was encrypted at one position and, once
      received, decrypted at another. */
  predicate Tracked(ks: Stream, x: Side, y: Side, inFlight: seq<Byte>) {
    && |x.sentAt| == |x.sent| && |y.receivedAt| == |y.received| && |x.sent| == |y.received| + |inFlight|
    && (forall j :: 0 <= j < |y.received| ==>
          y.received[j] == Xor(Xor(x.sent[j], ks(x.sentAt[j])), ks(y.receivedAt[j])))
    && (forall j :: 0 <= j < |inFlight| ==>
          inFlight[j] == Xor(x.sent[|y.received| + j], ks(x.sentAt[|y.received| + j])))
  }

  predicate Inv(ks: Stream, s: Session) {
    Conserved(s) && Tracked(ks, s.left, s.right, s.toRight) && Tracked(ks, s.right, s.left, s.toLeft)
  }

  lemma {:induction false} TrackedSend(ks: Stream, x: Side, y: Side, inFlight: seq<Byte>, plain: seq<Byte>, x': Side)
    requires Tracked(ks, x, y, inFlight)
    requires x'.sent == x.sent + plain && x'.sentAt == x.sentAt + Positions(x.position, |plain|)
    ensures Tracked(ks, x', y, inFlight + Crypt(ks, x.position, plain))
  {}

  lemma {:induction false} TrackedReceive(ks: Stream, x: Side, y: Side, inFlight: seq<Byte>, n: nat, y': Side)
    requires Tracked(ks, x, y, inFlight) && n <= |inFlight|
    requires y'.received == y.received + Crypt(ks, y.position, inFlight[..n])
    requires y'.receivedAt == y.receivedAt + Positions(y.position, n)
    ensures Tracked(ks, x, y', inFlight[n..])
  {
    hide Xor;
    forall j | 0 <= j < |y'.received|
      ensures y'.received[j] == Xor(Xor(x.sent[j], ks(x.sentAt[j])), ks(y'.receivedAt[j]))
    {
      if j >= |y.received| {
        var i := j - |y.received|;
        assert inFlight[i] == Xor(x.sent[|y.received| + i], ks(x.sentAt[|y.received| + i]));
        assert y'.received[j] == Xor(inFlight[..n][i], ks(y.position + i));
      }
    }
    forall j | 0 <= j < |inFlight[n..]|
      ensures inFlight[n..][j] == Xor(x.sent[|y'.received| + j], ks(x.sentAt[|y'.received| + j]))
    {
      assert inFlight[n + j] == Xor(x.sent[|y.received| + (n + j)], ks(x.sentAt[|y.received| + (n + j)]));
    }
  }

  lemma {:induction false} NextInv(ks: Stream, s: Session, a: Action)
    requires Inv(ks, s) && Enabled(s, a)
    ensures Inv(ks, Next(ks, s, a))
  {
    hide Tracked, Xor;
    var t := Next(ks, s, a);
    match a
    case Send(plain) =>
      TrackedSend(ks, s.left, s.right, s.toRight, plain, t.left);
      SameTrack(ks, s.right, s.left, t.left, s.toLeft);
    case Receive(n) =>
      TrackedReceive(ks, s.right, s.left, s.toLeft, n, t.left);
      SameSource(ks, s.left, t.left, s.right, s.toRight);
  }

  lemma {:induction false} SameTrack(ks: Stream, x: Side, y: Side, y': Side, inFlight: seq<Byte>)
    requires Tracked(ks, x, y, inFlight) && y'.received == y.received && y'.receivedAt == y.receivedAt
    ensures Tracked(ks, x, y', inFlight)
  {}

  lemma {:induction false} SameSource(ks: Stream, x: Side, x': Side, y: Side, inFlight: seq<Byte>)
    requires Tracked(ks, x, y, inFlight) && x'.sent == x.sent && x'.sentAt == x.sentAt
    ensures Tracked(ks, x', y, inFlight)
  {}

  lemma {:induction false} RunInv(ks: Stream, s: Session, run: seq<(bool, Action)>)
    requires Inv(ks, s) && IsRun(ks, s, run)
    ensures Inv(ks, After(ks, s, run))
    decreases |run|
  {
    if run != [] {
      NextInv(ks, if run[0].0 then s else Swap(s), run[0].1);
      RunInv(ks, Step(ks, s, run[0].0, run[0].1), run[1..]);
    }
  }

  /** Keystream conservation: in every reachable state, however messages crossed or were chunked, the difference of
      the positions is the difference of the bytes in flight; so they agree whenever both directions are drained. */
  lemma {:induction false} KeystreamConservation(ks: Stream, run: seq<(bool, Action)>)
    requires IsRun(ks, Fresh(), run)
    ensures var s := After(ks, Fresh(), run);
            && s.left.position - s.right.position == |s.toRight| - |s.toLeft|
            && (s.toRight == [] && s.toLeft == [] ==> s.left.position == s.right.position)
  {
    RunInv(ks, Fresh(), run);
  }

  lemma {:induction false} XorBack(a: Byte, k: Byte)
    ensures Xor(a, Xor(a, k)) == k
  {}

  lemma {:induction false} XorAgree(a: Byte, k: Byte, l: Byte)
    ensures Xor(Xor(a, k), l) == a <==> k == l
  {
    hide Xor;
    XorTwice(Xor(a, k), l);
    XorTwice(a, l);
    XorBack(a, k);
    XorBack(a, l);
  }

  /** A byte arrives as it was sent if and only if the keystream agrees at the two positions that were used. */
  lemma {:induction false} ByteArrivesIff(ks: Stream, run: seq<(bool, Action)>, toRight: bool, j: nat)
    requires IsRun(ks, Fresh(), run)
    requires var s := After(ks, Fresh(), run);
             j < |(if toRight then s.right else s.left).received|
    ensures var s := After(ks, Fresh(), run);
            var x, y := if toRight then s.left else s.right, if toRight then s.right else s.left;
            && j < |x.sent| && j < |x.sentAt| && j < |y.receivedAt|
            && (y.received[j] == x.sent[j] <==> ks(x.sentAt[j]) == ks(y.receivedAt[j]))
  {
    hide Xor;
    RunInv(ks, Fresh(), run);
    var s := After(ks, Fresh(), run);
    var x, y := if toRight then s.left else s.right, if toRight then s.right else s.left;
    XorAgree(x.sent[j], ks(x.sentAt[j]), ks(y.receivedAt[j]));
  }

  // -------------------------------------------------------------- turn taking

  /** A side sends something only when nothing is in flight towards it. */
  predicate TakesTurns(ks: Stream, s: Session, run: seq<(bool, Action)>)
    requires IsRun(ks, s, run)
    decreases |run|
  {
    run == [] ||
    ((run[0].1.Send? && run[0].1.plain != [] ==> (if run[0].0 then s.toLeft else s.toRight) == []) &&
     TakesTurns(ks, Step(ks, s, run[0].0, run[0].1), run[1..]))
  }

  predicate Drained(s: Session) {
    s.toRight == [] && s.toLeft == []
  }

  /** Every byte was decrypted where it was encrypted. */
  predicate Agree(s: Session) {
    s.left.sentAt == s.right.receivedAt && s.right.sentAt == s.left.receivedAt
  }

  /** Nothing is in flight to the left, and what is in flight to the right is due where it was encrypted. */
  predicate RightBound(s: Session) {
    && s.toLeft == [] && s.left.receivedAt == s.right.sentAt
    && s.left.position == s.right.position + |s.toRight|
    && s.right.receivedAt + Positions(s.right.position, |s.toRight|) == s.left.sentAt
  }

  predicate TurnInv(s: Session) {
    RightBound(s) || RightBound(Swap(s))
  }

  lemma {:induction false} TurnStep(ks: Stream, s: Session, a: Action)
    requires TurnInv(s) && Enabled(s, a) && (a.Send? && a.plain != [] ==> s.toLeft == [])
    ensures TurnInv(Next(ks, s, a))
  {}

  lemma {:induction false} TurnRun(ks: Stream, s: Session, run: seq<(bool, Action)>)
    requires TurnInv(s) && IsRun(ks, s, run) && TakesTurns(ks, s, run)
    ensures TurnInv(After(ks, s, run))
    decreases |run|
  {
    if run != [] {
      var t := if run[0].0 then s else Swap(s);
      assert Swap(Swap(s)) == s;
      TurnStep(ks, t, run[0].1);
      assert Swap(Swap(Next(ks, t, run[0].1))) == Next(ks, t, run[0].1);
      TurnRun(ks, Step(ks, s, run[0].0, run[0].1), run[1..]);
    }
  }

  /** Every plaintext received is the one that was sent, up to what is in flight. */
  predicate Kept(s: Session) {
    && s.right.received <= s.left.sent && s.left.received <= s.right.sent
    && (s.toRight == [] ==> s.right.received == s.left.sent)
    && (s.toLeft == [] ==> s.left.received == s.right.sent)
  }

  lemma {:induction false} TurnsKeep(ks: Stream, s: Session)
    requires Inv(ks, s) && TurnInv(s)
    ensures Kept(s)
  {}

  /** In a run that takes turns, every plaintext received is the one that was sent, up to what is still in flight. */
  lemma {:induction false} TurnTakingIsFaithful(ks: Stream, run: seq<(bool, Action)>)
    requires IsRun(ks, Fresh(), run) && TakesTurns(ks, Fresh(), run)
    ensures Kept(After(ks, Fresh(), run))
  {
    TurnRun(ks, Fresh(), run);
    RunInv(ks, Fresh(), run);
    TurnsKeep(ks, After(ks, Fresh(), run));
  }

  // ------------------------------------------------ turns are what it takes

  function Sender(s: Session, toRight: bool): Side {
    if toRight then s.left else s.right
  }

  function Receiver(s: Session, toRight: bool): Side {
    if toRight then s.right else s.left
  }

  function Flight(s: Session, toRight: bool): seq<Byte> {
    if toRight then s.toRight else s.toLeft
  }

  predicate CountedWay(s: Session, toRight: bool) {
    var x, y := Sender(s, toRight), Receiver(s, toRight);
    && x.position == |x.sent| + |x.received| && |x.sentAt| == |x.sent| && |y.receivedAt| == |y.received|
    && |x.sent| == |y.received| + |Flight(s, toRight)|
  }

  predicate Counted(s: Session) {
    CountedWay(s, true) && CountedWay(s, false)
  }

  lemma {:induction false} CountedStep(ks: Stream, s: Session, leftMoves: bool, a: Action)
    requires Counted(s) && CanStep(s, leftMoves, a)
    ensures Counted(Step(ks, s, leftMoves, a))
  {}

  /** The histories only grow. */
  predicate Before(s: Session, t: Session, toRight: bool) {
    && Sender(s, toRight).sentAt <= Sender(t, toRight).sentAt
    && Receiver(s, toRight).receivedAt <= Receiver(t, toRight).receivedAt
    && |Sender(s, toRight).sent| <= |Sender(t, toRight).sent|
    && |Receiver(s, toRight).received| <= |Receiver(t, toRight).received|
  }

  lemma {:induction false} RunGrows(ks: Stream, s: Session, run: seq<(bool, Action)>, toRight: bool)
    requires Counted(s) && IsRun(ks, s, run)
    ensures Counted(After(ks, s, run)) && Before(s, After(ks, s, run), toRight)
    decreases |run|
  {
    if run != [] {
      var t := Step(ks, s, run[0].0, run[0].1);
      CountedStep(ks, s, run[0].0, run[0].1);
      assert Before(s, t, toRight) by { hide Xor; }
      hide Xor, Crypt, Step;
      RunGrows(ks, t, run[1..], toRight);
    }
  }

  /** A byte that is still to be received will be decrypted behind all that its receiver has sent by now. */
  lemma {:induction false} LateReceipt(ks: Stream, s: Session, run: seq<(bool, Action)>, toRight: bool, j: nat)
    requires Counted(s) && IsRun(ks, s, run)
    requires |Receiver(s, toRight).received| <= j < |Receiver(After(ks, s, run), toRight).received|
    ensures |Receiver(After(ks, s, run), toRight).receivedAt| == |Receiver(After(ks, s, run), toRight).received|
    ensures Receiver(After(ks, s, run), toRight).receivedAt[j] >= j + |Receiver(s, toRight).sent|
    decreases |run|
  {
    RunGrows(ks, s, run, toRight);
    if run != [] {
      var t := Step(ks, s, run[0].0, run[0].1);
      CountedStep(ks, s, run[0].0, run[0].1);
      var y, z := Receiver(s, toRight), Receiver(t, toRight);
      assert |z.sent| >= |y.sent| && |z.receivedAt| == |z.received| by { hide Xor; }
      if j < |z.received| {
        assert z.receivedAt[j] == y.position + (j - |y.received|) by { hide Xor; }
        RunGrows(ks, t, run[1..], toRight);
      } else {
        LateReceipt(ks, t, run[1..], toRight, j);
      }
    }
  }

  /** Sending out of turn, a side encrypts a byte where its peer will never decrypt it. */
  lemma {:induction false} OutOfTurn(ks: Stream, s: Session, toRight: bool, plain: seq<Byte>, rest: seq<(bool, Action)>)
    requires Counted(s) && plain != [] && Flight(s, !toRight) != []
    requires CanStep(s, toRight, Send(plain)) && IsRun(ks, Step(ks, s, toRight, Send(plain)), rest)
    requires Drained(After(ks, Step(ks, s, toRight, Send(plain)), rest))
    ensures var f := After(ks, Step(ks, s, toRight, Send(plain)), rest);
            var j := |Sender(s, toRight).sent|;
            && j < |Sender(f, toRight).sentAt| && j < |Receiver(f, toRight).receivedAt|
            && Sender(f, toRight).sentAt[j] < Receiver(f, toRight).receivedAt[j]
  {
    var t := Step(ks, s, toRight, Send(plain));
    var j := |Sender(s, toRight).sent|;
    CountedStep(ks, s, toRight, Send(plain));
    assert |Sender(t, toRight).sent| > j && Sender(t, toRight).sentAt[j] == Sender(s, toRight).position &&
           Receiver(t, toRight) == Receiver(s, toRight) by { hide Xor; }
    RunGrows(ks, t, rest, toRight);
    RunGrows(ks, t, rest, !toRight);
    LateReceipt(ks, t, rest, toRight, j);
  }

  lemma {:induction false} TurnsNeeded(ks: Stream, s: Session, run: seq<(bool, Action)>)
    requires Counted(s) && IsRun(ks, s, run) && Drained(After(ks, s, run)) && Agree(After(ks, s, run))
    ensures TakesTurns(ks, s, run)
    decreases |run|
  {
    if run != [] {
      var leftMoves, a := run[0].0, run[0].1;
      hide Next, Step;
      CountedStep(ks, s, leftMoves, a);
      TurnsNeeded(ks, Step(ks, s, leftMoves, a), run[1..]);
      if a.Send? && a.plain != [] && Flight(s, !leftMoves) != [] {
        OutOfTurn(ks, s, leftMoves, a.plain, run[1..]);
      }
    }
  }

  lemma {:induction false} TurnsIffAgreeFrom(ks: Stream, s: Session, run: seq<(bool, Action)>)
    requires TurnInv(s) && Counted(s) && IsRun(ks, s, run) && Drained(After(ks, s, run))
    ensures TakesTurns(ks, s, run) <==> Agree(After(ks, s, run))
  {
    var f := After(ks, s, run);
    if TakesTurns(ks, s, run) {
      TurnRun(ks, s, run);
      assert Positions(f.right.position, 0) == [] && Positions(f.left.position, 0) == [];
    }
    if Agree(f) { TurnsNeeded(ks, s, run); }
  }

  /** A run that ends with nothing in flight takes turns if and only if every byte, in both directions, was decrypted
      where it was encrypted. */
  lemma {:induction false} TurnsIffPositionsAgree(ks: Stream, run: seq<(bool, Action)>)
    requires IsRun(ks, Fresh(), run) && Drained(After(ks, Fresh(), run))
    ensures TakesTurns(ks, Fresh(), run) <==> Agree(After(ks, Fresh(), run))
  {
    assert Positions(0, 0) == [];
    TurnsIffAgreeFrom(ks, Fresh(), run);
  }

  // --------------------------------------------------- whatever the keystream

  predicate AlikeSide(x: Side, y: Side) {
    y == x.(received := y.received) && |x.received| == |y.received|
  }

  /** Two sessions that differ in their bytes only. */
  predicate Alike(s: Session, t: Session) {
    && AlikeSide(s.left, t.left) && AlikeSide(s.right, t.right)
    && |s.toRight| == |t.toRight| && |s.toLeft| == |t.toLeft|
  }

  /** The schedule does not depend on the keystream. */
  lemma {:induction false} AlikeRun(ks: Stream, s: Session, ks': Stream, t: Session, run: seq<(bool, Action)>)
    requires Alike(s, t) && IsRun(ks, s, run)
    ensures IsRun(ks', t, run) && Alike(After(ks, s, run), After(ks', t, run))
    ensures TakesTurns(ks, s, run) <==> TakesTurns(ks', t, run)
    decreases |run|
  {
    if run != [] {
      var leftMoves, a := run[0].0, run[0].1;
      hide Step, CanStep;
      AlikeRun(ks, Step(ks, s, leftMoves, a), ks', Step(ks', t, leftMoves, a), run[1..]);
    }
  }

  /** Both sides have received exactly what the other has sent. */
  predicate Faithful(ks: Stream, run: seq<(bool, Action)>) {
    && IsRun(ks, Fresh(), run)
    && var s := After(ks, Fresh(), run);
       s.right.received == s.left.sent && s.left.received == s.right.sent
  }

  /** A byte that was decrypted elsewhere is garbled by a keystream that tells the two positions apart. */
  lemma {:induction false} GarbledBy(ks: Stream, run: seq<(bool, Action)>, toRight: bool, j: nat) returns (ks': Stream)
    requires IsRun(ks, Fresh(), run) && Drained(After(ks, Fresh(), run))
    requires var f := After(ks, Fresh(), run);
             && j < |Sender(f, toRight).sentAt| && j < |Receiver(f, toRight).receivedAt|
             && Sender(f, toRight).sentAt[j] != Receiver(f, toRight).receivedAt[j]
    ensures !Faithful(ks', run)
  {
    var f := After(ks, Fresh(), run);
    var at := Sender(f, toRight).sentAt[j];
    ks' := p => if p == at then 1 else 0;
    AlikeRun(ks, Fresh(), ks', Fresh(), run);
    RunGrows(ks', Fresh(), run, toRight);
    ByteArrivesIff(ks', run, toRight, j);
  }

  /** A run that ends with nothing in flight is faithful for every keystream if and only if it takes turns: a side sends
      something only when it has received all that was sent to it. */
  lemma {:induction false} FaithfulIffTurns(ks: Stream, run: seq<(bool, Action)>)
    requires IsRun(ks, Fresh(), run) && Drained(After(ks, Fresh(), run))
    ensures TakesTurns(ks, Fresh(), run) <==> forall ks': Stream :: Faithful(ks', run)
  {
    var f := After(ks, Fresh(), run);
    if TakesTurns(ks, Fresh(), run) {
      forall ks': Stream ensures Faithful(ks', run) {
        AlikeRun(ks, Fresh(), ks', Fresh(), run);
        TurnTakingIsFaithful(ks', run);
      }
    } else {
      TurnsIffPositionsAgree(ks, run);
      RunGrows(ks, Fresh(), run, true);
      RunGrows(ks, Fresh(), run, false);
      var toRight := f.left.sentAt != f.right.receivedAt;
      var x, y := Sender(f, toRight), Receiver(f, toRight);
      assert |x.sentAt| == |y.receivedAt| && x.sentAt != y.receivedAt;
      var j :| 0 <= j < |x.sentAt| && x.sentAt[j] != y.receivedAt[j];
      var ks' := GarbledBy(ks, run, toRight, j);
    }
  }

  lemma {:induction false} RunCons(ks: Stream, s: Session, leftMoves: bool, a: Action, rest: seq<(bool, Action)>)
    requires CanStep(s, leftMoves, a) && IsRun(ks, Step(ks, s, leftMoves, a), rest)
    ensures IsRun(ks, s, [(leftMoves, a)] + rest)
    ensures After(ks, s, [(leftMoves, a)] + rest) == After(ks, Step(ks, s, leftMoves, a), rest)
  {}

  /** One byte has been sent each way before either is received. */
  function Crossing(ks: Stream, x: Byte, y: Byte): Session {
    Step(ks, Step(ks, Fresh(), true, Send([x])), false, Send([y]))
  }

  function Crossed(ks: Stream, x: Byte, y: Byte): Session
    requires |Crossing(ks, x, y).toRight| == 1 == |Crossing(ks, x, y).toLeft|
  {
    Step(ks, Step(ks, Crossing(ks, x, y), false, Receive(1)), true, Receive(1))
  }

  lemma {:induction false} CrossedState(ks: Stream, x: Byte, y: Byte)
    ensures |Crossing(ks, x, y).toRight| == 1 == |Crossing(ks, x, y).toLeft|
    ensures var s := Crossed(ks, x, y);
            && s.left.sent == [x] && s.right.sent == [y] && s.toLeft == [] && s.toRight == []
            && s.right.received == [Xor(Xor(x, ks(0)), ks(1))] && s.left.received == [Xor(Xor(y, ks(0)), ks(1))]
  {}

  /** Without turns it may fail: when one byte each way crosses, both arrive intact if and only if the keystream
      has the same byte at its first two positions. */
  lemma {:induction false} CrossingMessages(ks: Stream, x: Byte, y: Byte) returns (run: seq<(bool, Action)>)
    ensures IsRun(ks, Fresh(), run)
    ensures var s := After(ks, Fresh(), run);
            && s.left.sent == [x] && s.right.sent == [y] && s.toLeft == [] && s.toRight == []
            && (s.right.received == [x] <==> ks(0) == ks(1)) && (s.left.received == [y] <==> ks(0) == ks(1))
  {
    hide Xor, Crypt;
    CrossedState(ks, x, y);
    XorAgree(x, ks(0), ks(1));
    XorAgree(y, ks(0), ks(1));
    var s1 := Step(ks, Fresh(), true, Send([x]));
    var s2 := Step(ks, s1, false, Send([y]));
    var s3 := Step(ks, s2, false, Receive(1));
    assert IsRun(ks, Step(ks, s3, true, Receive(1)), []);
    RunCons(ks, s3, true, Receive(1), []);
    RunCons(ks, s2, false, Receive(1), [(true, Receive(1))] + []);
    RunCons(ks, s1, false, Send([y]), [(false, Receive(1))] + ([(true, Receive(1))] + []));
    run := [(true, Send([x]))] + ([(false, Send([y]))] + ([(false, Receive(1))] + ([(true, Receive(1))] + [])));
    RunCons(ks, Fresh(), true, Send([x]), [(false, Send([y]))] + ([(false, Receive(1))] + ([(true, Receive(1))] + [])));
  }
}
