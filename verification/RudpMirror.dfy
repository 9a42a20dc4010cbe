/** Two RUDP endpoints, either of which may send, over a channel that neither loses nor reorders, with no failing
    system call and one transfer at a time: from the handshake through both FINs the counters mirror each other. */
module RudpMirror {
  import opened Basics
  import opened RudpTypes
  import opened RudpCalls

  datatype Proc =
    | Idle
    | InSend(send: SendCall)
    | InRecv(recv: RecvCall)

  /** A call that sent a packet: in which attempt it was acknowledged and what it returned. */
  datatype SendRecord = SendRecord(packet: Datagram, attempt: nat, result: int)

  /** A rudp_recv that returned. */
  datatype RecvRecord = RecvRecord(packet: Datagram, result: int, handed: seq<Byte>)

  datatype Endpoint = Endpoint(address: Address, control: Counters, proc: Proc,
                               sends: seq<SendRecord>, recvs: seq<RecvRecord>)

  /** Each queue holds what is on its way, oldest first. */
  datatype Duplex = Duplex(left: Endpoint, right: Endpoint, toRight: seq<Datagram>, toLeft: seq<Datagram>)

  datatype Action =
    | BeginSend(flag: Flag, payload: seq<Byte>)
    | Sendto
    | Answer
    | BeginRecv(length: nat)
    | Recvfrom
    | Reply

  function Swap(p: Duplex): Duplex {
    Duplex(p.right, p.left, p.toLeft, p.toRight)
  }

  /** What the left endpoint may do. */
  predicate Enabled(p: Duplex, a: Action) {
    var me := p.left;
    match a
    case BeginSend(flag, payload) =>
      && me.proc.Idle? && !p.right.proc.InSend?  // one transfer at a time
      && (flag == NoFlag || (flag == Fin && payload == []))
    case Sendto => me.proc.InSend? && me.proc.send.phase.Sending?
    case Answer => me.proc.InSend? && me.proc.send.phase.Awaiting? && p.toLeft != []
    case BeginRecv(_) => me.proc.Idle?
    case Recvfrom =>
      && me.proc.InRecv? && me.proc.recv.phase.Waiting? && p.toLeft != []
      && |p.toLeft[0].payload| <= me.proc.recv.length  // the buffer is large enough
    case Reply => me.proc.InRecv? && me.proc.recv.phase.Replying? && me.proc.recv.Live()
  }

  function Next(p: Duplex, a: Action): Duplex
    requires Enabled(p, a)
  {
    var me := p.left;
    var c := me.control;
    match a
    case BeginSend(flag, payload) =>
      var packet := Datagram(flag, c.seqno, c.ackno, payload);
      var control := c.(seqno := c.seqno + packet.Size());
      var call := SendCall(packet, control.seqno, p.right.address, StartSend(Options(true, true, true)));
      p.(left := me.(control := control, proc := InSend(call)))
    case Sendto =>
      var call := me.proc.send;
      p.(left := EndSend(me, AfterSendto(call, SendRet(call.packet.Size(), false)), call.phase.attempt),
         toRight := p.toRight + [call.packet])
    case Answer =>
      var call := me.proc.send;
      p.(left := EndSend(me, AfterAnswer(call, Received(p.toLeft[0], p.right.address), true), call.phase.attempt),
         toLeft := p.toLeft[1..])
    case BeginRecv(length) => p.(left := me.(proc := InRecv(RecvCall(length, NextRecv(0, false)))))
    case Recvfrom =>
      var got := Received(p.toLeft[0], p.right.address);
      var call := me.proc.recv;
      p.(left := me.(control := c.(ackno := AckAfterRecvfrom(call, c.ackno, got)),
                     proc := InRecv(call.(phase := AfterRecvfrom(call, got)))),
         toLeft := p.toLeft[1..])
    case Reply =>
      var call := me.proc.recv;
      p.(left := EndRecv(me, AfterReply(call, SendRet(HEADER_SIZE, false))),
         toRight := p.toRight + [Datagram(Ack, c.seqno, c.ackno, [])])
  }

  function EndSend(me: Endpoint, phase: SendPhase, attempt: nat): Endpoint
    requires me.proc.InSend?
  {
    if phase.Done?
    then me.(proc := Idle, sends := me.sends + [SendRecord(me.proc.send.packet, attempt, phase.result)])
    else me.(proc := InSend(me.proc.send.(phase := phase)))
  }

  function EndRecv(me: Endpoint, phase: RecvPhase): Endpoint
    requires me.proc.InRecv? && me.proc.recv.phase.Replying?
  {
    if phase.Finished?
    then me.(proc := Idle, recvs := me.recvs + [RecvRecord(me.proc.recv.phase.got, phase.result, phase.handed)])
    else me.(proc := InRecv(me.proc.recv.(phase := phase)))
  }

  /** A move of the left (true) or of the right endpoint. */
  predicate CanStep(p: Duplex, leftMoves: bool, a: Action) {
    Enabled(if leftMoves then p else Swap(p), a)
  }

  function Step(p: Duplex, leftMoves: bool, a: Action): Duplex
    requires CanStep(p, leftMoves, a)
  {
    if leftMoves then Next(p, a) else Swap(Next(Swap(p), a))
  }

  predicate IsRun(p: Duplex, run: seq<(bool, Action)>)
    decreases |run|
  {
    run == [] || (CanStep(p, run[0].0, run[0].1) && IsRun(Step(p, run[0].0, run[0].1), run[1..]))
  }

  function After(p: Duplex, run: seq<(bool, Action)>): Duplex
    requires IsRun(p, run)
    decreases |run|
  {
    if run == [] then p else After(Step(p, run[0].0, run[0].1), run[1..])
  }

  /** As the handshake leaves two endpoints when nothing is lost. */
  function Init(left: Address, right: Address): Duplex {
    var control := Counters(HEADER_SIZE, HEADER_SIZE);
    Duplex(Endpoint(left, control, Idle, [], []), Endpoint(right, control, Idle, [], []), [], [])
  }

  // --------------------------------------------------------------- invariant

  /** The call that receives a packet hands up its payload whole, or 0 for a FIN. */
  function Handled(packet: Datagram): RecvRecord {
    if packet.flag == Fin then RecvRecord(packet, 0, []) else RecvRecord(packet, |packet.payload|, packet.payload)
  }

  function FirstTry(packet: Datagram): SendRecord {
    SendRecord(packet, 0, SuccessResult(packet))
  }

  /** The records of one direction agree: every send succeeded at its first attempt, and the receiving endpoint
      handled exactly the sent packets, with `extra` handled but not yet confirmed. */
  predicate Matched(sends: seq<SendRecord>, recvs: seq<RecvRecord>, extra: seq<Datagram>) {
    && |recvs| == |sends| + |extra|
    && (forall i :: 0 <= i < |sends| ==> sends[i] == FirstTry(sends[i].packet) && recvs[i] == Handled(sends[i].packet))
    && (forall i :: 0 <= i < |extra| ==> recvs[|sends| + i] == Handled(extra[i]))
  }

  predicate Mirrored(p: Duplex) {
    p.left.control.seqno == p.right.control.ackno && p.right.control.seqno == p.left.control.ackno
  }

  predicate AtRest(e: Endpoint) {
    e.proc.Idle? || (e.proc.InRecv? && e.proc.recv.phase == Waiting(0, false))
  }

  predicate Quiet(p: Duplex) {
    && AtRest(p.left) && AtRest(p.right) && p.toLeft == [] && p.toRight == [] && Mirrored(p)
    && Matched(p.left.sends, p.right.recvs, []) && Matched(p.right.sends, p.left.recvs, [])
  }

  /** A transfer from left to right has been begun; the three disjuncts follow the packet on its way. */
  predicate Busy(p: Duplex) {
    && p.left.proc.InSend?
    && var call := p.left.proc.send;
       && call.counter == p.left.control.seqno && call.dest == p.right.address
       && (call.packet.flag == NoFlag || call.packet.flag == Fin)
       && call.counter == call.packet.seqno + call.packet.Size()
       && p.right.control.seqno == p.left.control.ackno
       && Matched(p.right.sends, p.left.recvs, [])
       && (OnTheWay(p, call) || Arrived(p, call) || Answered(p, call))
  }

  predicate OnTheWay(p: Duplex, call: SendCall) {
    && p.toLeft == [] && AtRest(p.right) && p.right.control.ackno == call.packet.seqno
    && Matched(p.left.sends, p.right.recvs, [])
    && ((call.phase == Sending(0) && p.toRight == []) || (call.phase == Awaiting(0) && p.toRight == [call.packet]))
  }

  predicate Arrived(p: Duplex, call: SendCall) {
    && call.phase == Awaiting(0) && p.toLeft == [] && p.toRight == []
    && p.right.proc.InRecv?
    && p.right.proc.recv.phase == Replying(0, call.packet.flag == Fin, call.packet, call.packet.Size())
    && p.right.control.ackno == call.counter
    && Matched(p.left.sends, p.right.recvs, [])
  }

  predicate Answered(p: Duplex, call: SendCall) {
    && call.phase == Awaiting(0) && p.toRight == [] && AtRest(p.right)
    && p.right.control.ackno == call.counter
    && p.toLeft == [Datagram(Ack, p.right.control.seqno, p.right.control.ackno, [])]
    && Matched(p.left.sends, p.right.recvs, [call.packet])
  }

  predicate Inv(p: Duplex) {
    Quiet(p) || Busy(p) || Busy(Swap(p))
  }

  lemma {:induction false} QuietSteps(p: Duplex, a: Action)
    requires Quiet(p) && Enabled(p, a)
    ensures Inv(Next(p, a))
  {}

  lemma {:induction false} SenderSteps(p: Duplex, a: Action)
    requires Busy(p) && Enabled(p, a)
    ensures Inv(Next(p, a))
  {
    var call, q := p.left.proc.send, Next(p, a);
    if OnTheWay(p, call) {
      assert a.Sendto?;
      assert OnTheWay(q, q.left.proc.send);
      assert Busy(q);
    } else {
      assert a.Answer? && Answered(p, call);
      assert IsAnswer(call, p.toLeft[0], p.right.address);
      assert q.left.sends == p.left.sends + [FirstTry(call.packet)];
      assert q.right.recvs[|p.left.sends| + 0] == Handled([call.packet][0]);
      assert Quiet(q);
    }
  }

  /** The receiving endpoint is on the left here, so that the sender is the right one. */
  lemma {:induction false} ReceiverSteps(p: Duplex, a: Action)
    requires Busy(Swap(p)) && Enabled(p, a)
    ensures Inv(Next(p, a))
  {}

  lemma {:induction false} StepInv(p: Duplex, leftMoves: bool, a: Action)
    requires Inv(p) && CanStep(p, leftMoves, a)
    ensures Inv(Step(p, leftMoves, a))
  {
    var q := if leftMoves then p else Swap(p);
    assert Swap(Swap(p)) == p;
    if Quiet(p) {
      QuietSteps(q, a);
    } else if Busy(q) {
      SenderSteps(q, a);
    } else {
      ReceiverSteps(q, a);
    }
    assert Inv(Next(q, a)) ==> Inv(Swap(Next(q, a))) by {
      assert Swap(Swap(Next(q, a))) == Next(q, a);
    }
  }

  lemma {:induction false} RunInv(p: Duplex, run: seq<(bool, Action)>)
    requires Inv(p) && IsRun(p, run)
    ensures Inv(After(p, run))
    decreases |run|
  {
    if run != [] {
      StepInv(p, run[0].0, run[0].1);
      RunInv(Step(p, run[0].0, run[0].1), run[1..]);
    }
  }

  /** Everything one endpoint has sent with success so far, it sent at its first attempt, and the other handled it. */
  predicate Served(sends: seq<SendRecord>, recvs: seq<RecvRecord>) {
    |sends| <= |recvs| && forall i :: 0 <= i < |sends| ==>
                            sends[i] == FirstTry(sends[i].packet) && recvs[i] == Handled(sends[i].packet)
  }

  /** Whenever no transfer is under way, the counters mirror each other and each endpoint has handled exactly what
      the other sent; and every completed call, in either direction, succeeded at its first attempt. */
  predicate Mirroring(p: Duplex) {
    && (!p.left.proc.InSend? && !p.right.proc.InSend? ==>
          Mirrored(p) && |p.right.recvs| == |p.left.sends| && |p.left.recvs| == |p.right.sends|)
    && Served(p.left.sends, p.right.recvs) && Served(p.right.sends, p.left.recvs)
  }

  lemma {:induction false} MirrorInvariant(left: Address, right: Address, run: seq<(bool, Action)>)
    requires IsRun(Init(left, right), run)
    ensures Mirroring(After(Init(left, right), run))
  {
    RunInv(Init(left, right), run);
  }
}
