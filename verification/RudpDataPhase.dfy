/** The one-direction data phase of RUDP as a transition system: a sender inside rudp_send or rudp_close,
    a receiver inside rudp_recv, and a network that may lose, duplicate and reorder. */
module RudpDataPhase {
  import opened Basics
  import opened RudpTypes
  import opened RudpCalls

  /** A datagram over which the receiver's acknowledgement number advanced, and by how many bytes. */
  datatype Accept = Accept(d: Datagram, count: nat)

  /** A rudp_recv that returned after sending its acknowledgement: what it received and returned, and whether
      the acknowledgement number advanced over that datagram. */
  datatype Delivery = Delivery(d: Datagram, advanced: bool, result: int, handed: seq<Byte>)

  /** The sender's own address and the one it sends to, and whether a third host can reach the receiver and the
      sender. */
  datatype Link = Link(source: Address, dest: Address, atReceiver: bool, atSender: bool)

  /** No third host can be taken for an endpoint: rudp_recv looks at no address, and rudp_send at none but the port when
      it is given the wildcard address. */
  predicate Shielded(link: Link) {
    !link.atReceiver && (link.atSender ==> link.dest.host != INADDR_ANY)
  }

  datatype State = State(
    // the sender's control block and call
    sendSeq: nat, sendAck: nat, sending: SendPhase,
    // the receiver's control block and call; where the datagram being answered came from and whether it was accepted
    recvSeq: nat, recvAck: nat, receiving: RecvCall, from: Address, advanced: bool,
    // every datagram of either endpoint for the other: delivering any member again is loss, duplication and reordering
    link: Link, forward: set<Datagram>, backward: set<Datagram>,
    // history: packets and results of the calls so far, accepted datagrams, returned rudp_recv calls
    begun: seq<Datagram>, results: seq<int>, accepted: seq<Accept>, log: seq<Delivery>,
    // history: some acknowledgement failed to leave; some datagram was cut to the caller's buffer
    ackFailed: bool, truncated: bool)

  datatype Action =
    | BeginSend(flag: Flag, payload: seq<Byte>, opts: Options)
    | Sendto(sent: SendRet)
    | Answer(answer: RecvRet, restoreOk: bool)
    | BeginRecv(length: nat)
    | Recvfrom(got: RecvRet)
    | Reply(reply: SendRet)

  /** Both counters start at the header size, as the handshake leaves them. The strays and the stale are handshake
      datagrams that the network may still deliver to the receiver and to the sender. */
  function Init(strays: set<Datagram>, stale: set<Datagram>, link: Link): State {
    State(HEADER_SIZE, HEADER_SIZE, Done(0), HEADER_SIZE, HEADER_SIZE, RecvCall(0, Finished(0, [])), NOWHERE, false,
          link, strays, stale, [], [], [], [], false, false)
  }

  predicate IsStray(d: Datagram) {
    d.seqno == HEADER_SIZE && d.payload == [] && (d.flag == Ack || d.flag == SynAck)
  }

  predicate Strays(strays: set<Datagram>) {
    forall d <- strays :: IsStray(d)
  }

  predicate Stale(stale: set<Datagram>) {
    forall a <- stale :: a.ackno <= HEADER_SIZE
  }

  /** What one endpoint may receive: what is in flight to it, and when third hosts can reach it, anything that does not
      come from its peer's address. */
  predicate Arrives(inFlight: set<Datagram>, peer: Address, open: bool, got: RecvRet) {
    got.Received? ==> got.d in inFlight || (open && got.from != peer)
  }

  predicate Enabled(s: State, a: Action) {
    match a
    case BeginSend(flag, payload, opts) =>
      // a rudp_close that fails in its socket options does nothing, and is left out
      s.sending.Done? && (flag == NoFlag || (flag == Fin && payload == [] && opts.getOk && opts.setOk))
    case Sendto(_) => s.sending.Sending? && s.begun != []
    case Answer(answer, _) =>
      s.sending.Awaiting? && s.begun != [] && Arrives(s.backward, s.link.dest, s.link.atSender, answer)
    case BeginRecv(_) => s.receiving.phase.Finished?
    case Recvfrom(got) => s.receiving.phase.Waiting? && Arrives(s.forward, s.link.source, s.link.atReceiver, got)
    case Reply(_) => s.receiving.phase.Replying? && s.receiving.Live()
  }

  /** The call the sender is in; the counter has not moved since the call began. */
  function Call(s: State): SendCall
    requires s.begun != []
  {
    SendCall(Last(s.begun), s.sendSeq, s.link.dest, s.sending)
  }

  function EnterSend(s: State, phase: SendPhase): State {
    if phase.Done? then s.(sending := phase, results := s.results + [phase.result]) else s.(sending := phase)
  }

  function Next(s: State, a: Action): State
    requires Enabled(s, a)
  {
    match a
    case BeginSend(flag, payload, opts) =>
      var packet := Datagram(flag, s.sendSeq, s.sendAck, payload);
      EnterSend(s.(begun := s.begun + [packet], sendSeq := s.sendSeq + packet.Size()), StartSend(opts))
    case Sendto(sent) =>
      var out := if sent.count == Last(s.begun).Size() then {Last(s.begun)} else {};
      EnterSend(s.(forward := s.forward + out), AfterSendto(Call(s), sent))
    case Answer(answer, restoreOk) => EnterSend(s, AfterAnswer(Call(s), answer, restoreOk))
    case BeginRecv(length) => s.(receiving := RecvCall(length, NextRecv(0, false)))
    case Recvfrom(got) =>
      var c := s.receiving;
      var t := s.(receiving := c.(phase := AfterRecvfrom(c, got)), recvAck := AckAfterRecvfrom(c, s.recvAck, got));
      if got.RecvFailed? then t else
        var n, advanced := Taken(c.length, got.d), s.recvAck == got.d.seqno;
        t.(from := got.from, advanced := advanced, truncated := s.truncated || n < got.d.Size(),
           accepted := if advanced then s.accepted + [Accept(got.d, n)] else s.accepted)
    case Reply(reply) =>
      var c := s.receiving;
      var phase := AfterReply(c, reply);
      var out := if reply.count == HEADER_SIZE && s.from == s.link.source
                 then {Datagram(Ack, s.recvSeq, s.recvAck, [])} else {};
      s.(receiving := c.(phase := phase), backward := s.backward + out,
         ackFailed := s.ackFailed || reply.count != HEADER_SIZE,
         log := if phase.Finished? && phase.result >= 0
                then s.log + [Delivery(c.phase.got, s.advanced, phase.result, phase.handed)] else s.log)
  }

  /** Every action of the run is possible where it is taken. */
  predicate IsRun(s: State, run: seq<Action>)
    decreases |run|
  {
    run == [] || (Enabled(s, run[0]) && IsRun(Next(s, run[0]), run[1..]))
  }

  function After(s: State, run: seq<Action>): State
    requires IsRun(s, run)
    decreases |run|
  {
    if run == [] then s else After(Next(s, run[0]), run[1..])
  }

  lemma {:induction false} RunCons(s: State, a: Action, rest: seq<Action>)
    requires Enabled(s, a) && IsRun(Next(s, a), rest)
    ensures IsRun(s, [a] + rest) && After(s, [a] + rest) == After(Next(s, a), rest)
  {}

  // ------------------------------------------------- the sender's byte tiling

  /** Where message k of the byte stream begins. */
  function Boundary(begun: seq<Datagram>, k: nat): nat
    requires k <= |begun|
  {
    if k == 0 then HEADER_SIZE else Boundary(begun, k - 1) + begun[k - 1].Size()
  }

  lemma {:induction false} BoundaryAppend(begun: seq<Datagram>, d: Datagram, k: nat)
    requires k <= |begun|
    ensures Boundary(begun + [d], k) == Boundary(begun, k)
  {
    if k > 0 { BoundaryAppend(begun, d, k - 1); }
  }

  lemma {:induction false} BoundaryGap(begun: seq<Datagram>, j: nat, k: nat)
    requires j < k <= |begun|
    ensures Boundary(begun, j) + begun[j].Size() <= Boundary(begun, k)
    decreases k
  {
    if j < k - 1 { BoundaryGap(begun, j, k - 1); }
  }

  lemma {:induction false} BoundaryRises(begun: seq<Datagram>)
    ensures forall k :: 0 < k <= |begun| ==> Boundary(begun, k) >= HEADER_SIZE + begun[0].Size()
  {
    forall k | 0 < k <= |begun| ensures Boundary(begun, k) >= HEADER_SIZE + begun[0].Size() {
      BoundaryGap(begun, 0, k);
    }
  }

  /** A byte position inside message j is the start of no message, and of message j only if it is its first byte. */
  lemma {:induction false} NoBoundaryInside(begun: seq<Datagram>, j: nat, k: nat, at: nat)
    requires j < |begun| && k <= |begun|
    requires Boundary(begun, j) <= at < Boundary(begun, j) + begun[j].Size()
    requires Boundary(begun, k) == at
    ensures k == j
  {
    if j < k { BoundaryGap(begun, j, k); }
    if k < j { BoundaryGap(begun, k, j); }
  }

  // -------------------------------------------------------------- invariant

  /** The first m accepted datagrams are the first m messages, whole. */
  predicate Whole(accepted: seq<Accept>, begun: seq<Datagram>, m: nat) {
    m <= |accepted| && m <= |begun| && forall j :: 0 <= j < m ==> accepted[j] == Accept(begun[j], begun[j].Size())
  }

  /** Where the receiver stands in the sender's stream. */
  datatype Position = Position(begun: seq<Datagram>, accepted: seq<Accept>, ack: nat, truncated: bool)
  {
    /** At a boundary, having accepted every message before it whole, once and in order. */
    predicate Aligned() {
      Whole(accepted, begun, |accepted|) && ack == Boundary(begun, |accepted|)
    }

    /** Strictly inside a message that was cut to the receiver's buffer. */
    predicate Stuck() {
      var m := |accepted| - 1;
      && 0 <= m < |begun| && Whole(accepted, begun, m)
      && accepted[m].d == begun[m] && HEADER_SIZE <= accepted[m].count < begun[m].Size()
      && ack == Boundary(begun, m) + accepted[m].count && truncated
    }

    /** Past a stray handshake datagram that was taken for data. */
    predicate Astray(strays: set<Datagram>) {
      && |accepted| == 1 && accepted[0].d in strays && ack == 2 * HEADER_SIZE
      && (begun != [] ==> begun[0].payload != [])
    }

    predicate Valid(strays: set<Datagram>) {
      Aligned() || Stuck() || Astray(strays)
    }
  }

  function Place(s: State): Position {
    Position(s.begun, s.accepted, s.recvAck, s.truncated)
  }

  predicate Tile(begun: seq<Datagram>, k: nat)
    requires k < |begun|
  {
    begun[k].seqno == Boundary(begun, k) && (begun[k].flag == NoFlag || begun[k].flag == Fin)
  }

  predicate Tiled(begun: seq<Datagram>) {
    forall k {:trigger Tile(begun, k)} :: 0 <= k < |begun| ==> Tile(begun, k)
  }

  predicate Confirmed(results: seq<int>, accepted: seq<Accept>, begun: seq<Datagram>) {
    forall k :: 0 <= k < |results| && results[k] >= 0 ==>
      Whole(accepted, begun, k + 1) && results[k] == SuccessResult(begun[k])
  }

  /** What holds in every run, whatever the strays are. */
  predicate Books(s: State, strays: set<Datagram>) {
    && Tiled(s.begun)
    && s.sendSeq == Boundary(s.begun, |s.begun|)
    && |s.results| == (if s.sending.Done? then |s.begun| else |s.begun| - 1)
    && (forall d <- s.forward :: d in s.begun || d in strays)
    && s.receiving.Live()
  }

  predicate Core(s: State, strays: set<Datagram>) {
    && Shielded(s.link)
    && Books(s, strays)
    && Place(s).Valid(strays)
    && (forall a <- s.backward :: a.flag == Ack ==> a.ackno <= s.recvAck)
    && Confirmed(s.results, s.accepted, s.begun)
  }

  /** Strays are harmless as long as the first message is not empty. */
  predicate Guarded(strays: set<Datagram>, begun: seq<Datagram>) {
    strays == {} || (begun != [] ==> begun[0].payload != [])
  }

  predicate Inv(s: State, strays: set<Datagram>) {
    Books(s, strays) && (Guarded(strays, s.begun) ==> Core(s, strays))
  }

  lemma {:induction false} InitInv(strays: set<Datagram>, stale: set<Datagram>, link: Link)
    requires Stale(stale) && Shielded(link)
    ensures Inv(Init(strays, stale, link), strays)
  {}

  lemma {:induction false} TiledAppend(begun: seq<Datagram>, d: Datagram)
    requires Tiled(begun) && d.seqno == Boundary(begun, |begun|) && (d.flag == NoFlag || d.flag == Fin)
    ensures Tiled(begun + [d])
    ensures Boundary(begun + [d], |begun| + 1) == d.seqno + d.Size()
  {
    forall k: nat | k < |begun + [d]| ensures Tile(begun + [d], k) {
      BoundaryAppend(begun, d, k);
      if k < |begun| { assert Tile(begun, k); }
    }
    BoundaryAppend(begun, d, |begun|);
  }

  lemma {:induction false} BeginSendBooks(s: State, strays: set<Datagram>, a: Action)
    requires Books(s, strays) && a.BeginSend? && Enabled(s, a)
    ensures Books(Next(s, a), strays)
  {
    TiledAppend(s.begun, Datagram(a.flag, s.sendSeq, s.sendAck, a.payload));
    hide Tiled;
  }

  lemma {:induction false} CallBooks(s: State, strays: set<Datagram>, a: Action)
    requires Books(s, strays) && (a.Sendto? || a.Answer?) && Enabled(s, a)
    ensures Books(Next(s, a), strays)
  {
    hide Tiled;
  }

  /** What the receiver's actions leave alone. */
  lemma {:induction false} ReceiverMoves(s: State, a: Action)
    requires (a.BeginRecv? || a.Recvfrom? || a.Reply?) && Enabled(s, a)
    ensures var t := Next(s, a);
            && t.sending == s.sending && t.sendSeq == s.sendSeq && t.link == s.link && t.begun == s.begun
            && t.results == s.results && t.forward == s.forward
  {}

  /** What the sender's actions leave alone. */
  lemma {:induction false} SenderMoves(s: State, a: Action)
    requires (a.BeginSend? || a.Sendto? || a.Answer?) && Enabled(s, a)
    ensures var t := Next(s, a);
            && t.receiving == s.receiving && t.recvSeq == s.recvSeq && t.recvAck == s.recvAck && t.link == s.link
            && t.from == s.from && t.advanced == s.advanced && t.log == s.log && t.accepted == s.accepted
            && t.backward == s.backward && t.ackFailed == s.ackFailed && t.truncated == s.truncated
  {
    hide AfterSendto, AfterAnswer;
  }

  lemma {:induction false} StepBooks(s: State, strays: set<Datagram>, a: Action)
    requires Books(s, strays) && Enabled(s, a)
    ensures Books(Next(s, a), strays)
  {
    if a.BeginSend? {
      BeginSendBooks(s, strays, a);
    } else if a.Sendto? || a.Answer? {
      CallBooks(s, strays, a);
    } else {
      ReceiverMoves(s, a);
      hide Tiled;
      assert Next(s, a).receiving.Live();
    }
  }

  lemma {:induction false} RunBooks(s: State, strays: set<Datagram>, run: seq<Action>)
    requires Books(s, strays) && IsRun(s, run)
    ensures Books(After(s, run), strays)
    decreases |run|
  {
    if run != [] {
      StepBooks(s, strays, run[0]);
      RunBooks(Next(s, run[0]), strays, run[1..]);
    }
  }

  lemma {:induction false} PlaceAppend(p: Position, strays: set<Datagram>, d: Datagram)
    requires p.Valid(strays) && Guarded(strays, p.begun + [d])
    ensures p.(begun := p.begun + [d]).Valid(strays)
  {
    var q := p.(begun := p.begun + [d]);
    if p.Aligned() {
      BoundaryAppend(p.begun, d, |p.accepted|);
      assert q.Aligned();
    } else if p.Stuck() {
      BoundaryAppend(p.begun, d, |p.accepted| - 1);
      assert q.Stuck();
    } else {
      assert q.Astray(strays);
    }
  }

  lemma {:induction false} ConfirmedAppend(results: seq<int>, accepted: seq<Accept>, begun: seq<Datagram>,
                                           more: seq<Accept>, later: seq<Datagram>)
    requires Confirmed(results, accepted, begun)
    ensures Confirmed(results, accepted + more, begun + later)
  {}

  lemma {:induction false} BeginSendInv(s: State, strays: set<Datagram>, a: Action)
    requires Core(s, strays) && a.BeginSend? && Enabled(s, a)
    requires Guarded(strays, Next(s, a).begun)
    ensures Core(Next(s, a), strays)
  {
    var d := Datagram(a.flag, s.sendSeq, s.sendAck, a.payload);
    StepBooks(s, strays, a);
    SenderMoves(s, a);
    hide Tiled, Books, StartSend;
    PlaceAppend(Place(s), strays, d);
    ConfirmedAppend(s.results, s.accepted, s.begun, [], [d]);
    assert s.accepted + [] == s.accepted;
  }

  /** The heart of safety: an acknowledgement of everything begun can only come from a receiver that stands at
      the end of everything begun. */
  lemma {:induction false} AcknowledgedAll(p: Position, strays: set<Datagram>)
    requires p.Valid(strays) && p.begun != [] && Boundary(p.begun, |p.begun|) <= p.ack
    ensures p.Aligned() && |p.accepted| == |p.begun|
  {
    var n := |p.begun|;
    if p.Stuck() {
      BoundaryGap(p.begun, |p.accepted| - 1, n);
      assert false;
    } else if p.Astray(strays) {
      BoundaryGap(p.begun, 0, n);
      assert false;
    } else if |p.accepted| < n {
      BoundaryGap(p.begun, |p.accepted|, n);
      assert false;
    }
  }

  /** A sendto ends a call only with an error. */
  lemma {:induction false} SendtoFails(s: State, a: Action)
    requires a.Sendto? && Enabled(s, a)
    ensures var t := Next(s, a);
            t.results == s.results || (t.results == s.results + [Last(t.results)] && Last(t.results) < 0)
  {}

  lemma {:induction false} SendtoInv(s: State, strays: set<Datagram>, a: Action)
    requires Core(s, strays) && a.Sendto? && Enabled(s, a)
    ensures Core(Next(s, a), strays)
  {
    var t := Next(s, a);
    StepBooks(s, strays, a);
    SenderMoves(s, a);
    hide Tiled, Books, AfterSendto;
    assert t.begun == s.begun && Place(t) == Place(s);
    SendtoFails(s, a);
    hide Next;
    assert Confirmed(t.results, t.accepted, t.begun);
  }

  lemma {:induction false} ConfirmedMore(results: seq<int>, accepted: seq<Accept>, begun: seq<Datagram>, r: int)
    requires Confirmed(results, accepted, begun) && |results| < |begun|
    requires r >= 0 ==> Whole(accepted, begun, |results| + 1) && r == SuccessResult(begun[|results|])
    ensures Confirmed(results + [r], accepted, begun)
  {}

  lemma {:induction false} AnswerConfirms(s: State, strays: set<Datagram>, a: Action)
    requires Confirmed(s.results, s.accepted, s.begun) && Place(s).Valid(strays)
    requires s.sendSeq == Boundary(s.begun, |s.begun|) && |s.results| == |s.begun| - 1
    requires forall d <- s.backward :: d.flag == Ack ==> d.ackno <= s.recvAck
    requires a.Answer? && Enabled(s, a) && Shielded(s.link)
    ensures Confirmed(Next(s, a).results, s.accepted, s.begun)
  {
    var results := Next(s, a).results;
    if |results| > |s.results| && Last(results) >= 0 {
      assert a.answer.Received? && IsAnswer(Call(s), a.answer.d, a.answer.from) && a.answer.d in s.backward;
      AcknowledgedAll(Place(s), strays);
      assert results == s.results + [SuccessResult(Last(s.begun))];
      hide Confirmed, Whole;
      ConfirmedMore(s.results, s.accepted, s.begun, SuccessResult(Last(s.begun)));
    }
  }

  lemma {:induction false} AnswerInv(s: State, strays: set<Datagram>, a: Action)
    requires Core(s, strays) && a.Answer? && Enabled(s, a)
    ensures Core(Next(s, a), strays)
  {
    var t := Next(s, a);
    AnswerConfirms(s, strays, a);
    StepBooks(s, strays, a);
    hide Tiled, Books, Confirmed;
    assert Place(t) == Place(s) && t.backward == s.backward;
  }

  /** A datagram is accepted only if it is the next message of the tiling, or a stray before the first one. */
  lemma {:induction false} AcceptedIsNext(p: Position, strays: set<Datagram>, d: Datagram)
    requires p.Valid(strays) && Tiled(p.begun) && Strays(strays)
    requires (d in p.begun || d in strays) && d.seqno == p.ack
    ensures p.Aligned()
    ensures (|p.accepted| < |p.begun| && d == p.begun[|p.accepted|]) || (d in strays && p.accepted == [])
  {
    BoundaryRises(p.begun);
    if d !in strays {
      var k :| 0 <= k < |p.begun| && p.begun[k] == d;
      assert Tile(p.begun, k);
      if p.Stuck() {
        NoBoundaryInside(p.begun, |p.accepted| - 1, k, p.ack);
      } else if p.Aligned() && |p.accepted| < |p.begun| {
        NoBoundaryInside(p.begun, |p.accepted|, k, p.ack);
      } else if p.Aligned() {
        BoundaryGap(p.begun, k, |p.begun|);
      }
    }
  }

  /** Accepting the next datagram, whole or cut to n bytes, leads from one position to another. */
  lemma {:induction false} AcceptMoves(p: Position, strays: set<Datagram>, d: Datagram, n: nat)
    requires p.Valid(strays) && Tiled(p.begun) && Strays(strays) && Guarded(strays, p.begun)
    requires (d in p.begun || d in strays) && d.seqno == p.ack && HEADER_SIZE <= n <= d.Size()
    ensures Position(p.begun, p.accepted + [Accept(d, n)], p.ack + n, p.truncated || n < d.Size()).Valid(strays)
  {
    var q := Position(p.begun, p.accepted + [Accept(d, n)], p.ack + n, p.truncated || n < d.Size());
    AcceptedIsNext(p, strays, d);
    if |p.accepted| < |p.begun| && d == p.begun[|p.accepted|] {
      assert if n == d.Size() then q.Aligned() else q.Stuck();
    } else {
      assert q.Astray(strays);
    }
  }

  lemma {:induction false} RecvfromPlace(s: State, strays: set<Datagram>, a: Action)
    requires Place(s).Valid(strays) && Tiled(s.begun) && (forall d <- s.forward :: d in s.begun || d in strays)
    requires Confirmed(s.results, s.accepted, s.begun) && Shielded(s.link)
    requires a.Recvfrom? && a.got.Received? && Enabled(s, a)
    requires Guarded(strays, s.begun) && Strays(strays)
    ensures Place(Next(s, a)).Valid(strays)
    ensures Confirmed(s.results, Next(s, a).accepted, s.begun)
  {
    var p, d, n := Place(s), a.got.d, Taken(s.receiving.length, a.got.d);
    if d.seqno == s.recvAck {
      AcceptMoves(p, strays, d, n);
      ConfirmedAppend(s.results, s.accepted, s.begun, [Accept(d, n)], []);
      assert s.begun + [] == s.begun;
      assert Place(Next(s, a)) ==
             Position(p.begun, p.accepted + [Accept(d, n)], p.ack + n, p.truncated || n < d.Size());
    } else {
      assert Place(Next(s, a)) == p.(truncated := p.truncated || n < d.Size());
    }
  }

  lemma {:induction false} RecvfromInv(s: State, strays: set<Datagram>, a: Action)
    requires Core(s, strays) && a.Recvfrom? && Enabled(s, a)
    requires Guarded(strays, s.begun) && Strays(strays)
    ensures Core(Next(s, a), strays)
  {
    var t := Next(s, a);
    if a.got.Received? { RecvfromPlace(s, strays, a); }
    StepBooks(s, strays, a);
    hide Tiled, Books, Confirmed;
    if a.got.RecvFailed? { assert Place(t) == Place(s); }
  }

  lemma {:induction false} ReplyInv(s: State, strays: set<Datagram>, a: Action)
    requires Core(s, strays) && (a.BeginRecv? || a.Reply?) && Enabled(s, a)
    ensures Core(Next(s, a), strays)
  {}

  lemma {:induction false} StepInv(s: State, strays: set<Datagram>, a: Action)
    requires Inv(s, strays) && Strays(strays) && Enabled(s, a)
    ensures Inv(Next(s, a), strays)
  {
    var t := Next(s, a);
    StepBooks(s, strays, a);
    hide Books, Core;
    if Guarded(strays, t.begun) {
      assert Guarded(strays, s.begun) by {
        if s.begun != [] { assert t.begun[0] == s.begun[0]; }
      }
      if a.BeginSend? {
        BeginSendInv(s, strays, a);
      } else if a.Sendto? {
        SendtoInv(s, strays, a);
      } else if a.Answer? {
        AnswerInv(s, strays, a);
      } else if a.Recvfrom? {
        RecvfromInv(s, strays, a);
      } else {
        ReplyInv(s, strays, a);
      }
    }
  }

  lemma {:induction false} RunInv(s: State, strays: set<Datagram>, run: seq<Action>)
    requires Inv(s, strays) && Strays(strays) && IsRun(s, run)
    ensures Inv(After(s, run), strays)
    decreases |run|
  {
    if run != [] {
      StepInv(s, strays, run[0]);
      RunInv(Next(s, run[0]), strays, run[1..]);
    }
  }

  // ----------------------------------------------------------- main theorem

  /** No false success: whenever a rudp_send or rudp_close reported success for message k, the receiver has advanced
      over messages 0..k, all of them, whole, once each and in order, whatever was lost, duplicated, reordered or
      truncated and whichever earlier calls reported failure. No third host reaches the receiver, and none the sender
      when it sends to the wildcard address: RudpSession.FalseSuccessIff shows that it takes that. */
  lemma {:induction false} NoFalseSuccess(strays: set<Datagram>, stale: set<Datagram>, link: Link,
                                          run: seq<Action>, k: nat)
    requires Strays(strays) && Stale(stale) && Shielded(link) && IsRun(Init(strays, stale, link), run)
    requires var s := After(Init(strays, stale, link), run);
             Guarded(strays, s.begun) && k < |s.results| && s.results[k] >= 0
    ensures var s := After(Init(strays, stale, link), run);
            && k < |s.begun| && k < |s.accepted| && s.results[k] == SuccessResult(s.begun[k])
            && forall j :: 0 <= j <= k ==> s.accepted[j] == Accept(s.begun[j], s.begun[j].Size())
  {
    InitInv(strays, stale, link);
    RunInv(Init(strays, stale, link), strays, run);
    var s := After(Init(strays, stale, link), run);
    assert Whole(s.accepted, s.begun, k + 1);
  }
}
