/** The datagram branches of rudp_send, rudp_recv and rudp_close (src/rudp/rudp.c).
    Each call is given twice: as a small-step machine that the protocol theorems interleave with the
    network, and as the C loop over the outcomes of its system calls. The loops are proved to do exactly
    what the machines do. */
module RudpCalls {
  import opened Basics
  import opened RudpTypes

  // ---------------------------------------------------------------- sending

  datatype SendPhase =
    | Sending(attempt: nat)   // about to call sendto
    | Awaiting(attempt: nat)  // about to call recvfrom for the answer
    | Done(result: int)

  /** A rudp_send, or the loop of rudp_close when the packet is a FIN. The counter has been advanced. */
  datatype SendCall = SendCall(packet: Datagram, counter: nat, dest: Address, phase: SendPhase)
  {
    predicate Live() {
      match phase
      case Sending(i) => i < N_ATTEMPT
      case Awaiting(i) => i < N_ATTEMPT
      case Done(_) => true
    }
  }

  function NextSend(attempt: nat): SendPhase {
    if attempt < N_ATTEMPT then Sending(attempt) else Done(RUDP_EXCEEDED_N_ATTEMPTS)
  }

  function StartSend(opts: Options): SendPhase {
    if !opts.getOk then Done(RUDP_GETSOCKOPT)
    else if !opts.setOk then Done(RUDP_SETSOCKOPT)
    else NextSend(0)
  }

  function AfterSendto(c: SendCall, ret: SendRet): SendPhase
    requires c.phase.Sending?
  {
    if ret.count == -1 || ret.again then Done(RUDP_CLOSE_CONNECTION)
    else if ret.count != c.packet.Size() then NextSend(c.phase.attempt + 1)
    else Awaiting(c.phase.attempt)
  }

  /** rudp_send accepts any host when it was given INADDR_ANY; rudp_close does not. */
  predicate AddressMatches(flag: Flag, dest: Address, from: Address) {
    && (dest.host == from.host || (flag != Fin && dest.host == INADDR_ANY))
    && dest.port == from.port
  }

  predicate IsAnswer(c: SendCall, d: Datagram, from: Address) {
    d.flag == Ack && d.ackno == c.counter && AddressMatches(c.packet.flag, c.dest, from)
  }

  function SuccessResult(packet: Datagram): int {
    if packet.flag == Fin then 0 else packet.Size()
  }

  function AfterAnswer(c: SendCall, ret: RecvRet, restoreOk: bool): SendPhase
    requires c.phase.Awaiting?
  {
    match ret
    case RecvFailed(again) => if again then Done(RUDP_CLOSE_CONNECTION) else NextSend(c.phase.attempt + 1)
    case Received(d, from) =>
      if !IsAnswer(c, d, from) then NextSend(c.phase.attempt + 1)
      else if restoreOk then Done(SuccessResult(c.packet))
      else Done(RUDP_SETSOCKOPT)
  }

  function SendRank(phase: SendPhase): nat {
    match phase
    case Sending(i) => if i < N_ATTEMPT then 2 * (N_ATTEMPT - i) else 0
    case Awaiting(i) => if i < N_ATTEMPT then 2 * (N_ATTEMPT - i) - 1 else 0
    case Done(_) => 0
  }

  /** The result of a call, and the copies of its packet put on the wire, when attempt i sees tries[i]. */
  function RunSend(c: SendCall, tries: seq<Try>, restoreOk: bool): (r: (int, seq<Datagram>))
    requires |tries| == N_ATTEMPT && c.Live()
    decreases SendRank(c.phase)
  {
    match c.phase
    case Done(result) => (result, [])
    case Sending(i) =>
      var rest := RunSend(c.(phase := AfterSendto(c, tries[i].sent)), tries, restoreOk);
      (rest.0, if tries[i].sent.count == c.packet.Size() then [c.packet] + rest.1 else rest.1)
    case Awaiting(i) => RunSend(c.(phase := AfterAnswer(c, tries[i].got, restoreOk)), tries, restoreOk)
  }

  /** An attempt that makes the loop go round again. */
  predicate Retries(c: SendCall, t: Try) {
    && t.sent.count != -1 && !t.sent.again
    && (t.sent.count == c.packet.Size() ==>
          match t.got
          case RecvFailed(again) => !again
          case Received(d, from) => !IsAnswer(c, d, from))
  }

  /** An attempt whose packet went out and whose answer acknowledges it. */
  predicate Acknowledged(c: SendCall, t: Try) {
    && t.sent == SendRet(c.packet.Size(), false)
    && t.got.Received? && IsAnswer(c, t.got.d, t.got.from)
  }

  /** A call reports success exactly when some attempt is acknowledged after attempts that all retry,
      and the socket option is restored. */
  lemma {:induction false} SendSucceedsIff(c: SendCall, tries: seq<Try>, restoreOk: bool)
    requires |tries| == N_ATTEMPT && c.Live() && c.phase.Sending?
    ensures RunSend(c, tries, restoreOk).0 >= 0 <==>
              restoreOk && exists k :: c.phase.attempt <= k < N_ATTEMPT && Acknowledged(c, tries[k]) &&
                                       forall j :: c.phase.attempt <= j < k ==> Retries(c, tries[j])
    ensures RunSend(c, tries, restoreOk).0 >= 0 ==>
              RunSend(c, tries, restoreOk).0 == SuccessResult(c.packet) && c.packet in RunSend(c, tries, restoreOk).1
    decreases N_ATTEMPT - c.phase.attempt
  {
    var i := c.phase.attempt;
    var t := tries[i];
    var sent := c.(phase := AfterSendto(c, t.sent));
    if Retries(c, t) {
      var next := c.(phase := NextSend(i + 1));
      assert RunSend(c, tries, restoreOk).0 == RunSend(next, tries, restoreOk).0 by {
        if t.sent.count == c.packet.Size() {
          assert sent.phase == Awaiting(i);
          assert RunSend(sent, tries, restoreOk) == RunSend(next, tries, restoreOk);
        }
      }
      if i + 1 < N_ATTEMPT {
        SendSucceedsIff(next, tries, restoreOk);
        assert forall u :: Retries(next, u) <==> Retries(c, u);
        assert forall u :: Acknowledged(next, u) <==> Acknowledged(c, u);
      }
    } else if Acknowledged(c, t) {
      assert sent.phase == Awaiting(i);
      assert RunSend(sent, tries, restoreOk).0 == if restoreOk then SuccessResult(c.packet) else RUDP_SETSOCKOPT;
    } else if sent.phase.Awaiting? {
      assert RunSend(sent, tries, restoreOk).0 == RUDP_CLOSE_CONNECTION;
    }
  }

  /** One attempt from its sendto on: what it puts on the wire, and how the call goes on. */
  lemma {:induction false} AttemptOnce(c: SendCall, tries: seq<Try>, restoreOk: bool)
    requires |tries| == N_ATTEMPT && c.phase.Sending? && c.phase.attempt < N_ATTEMPT
    ensures var t := tries[c.phase.attempt];
            RunSend(c, tries, restoreOk) ==
            Prepend(if t.sent.count == c.packet.Size() then [c.packet] else [],
                        if Retries(c, t)
                        then RunSend(c.(phase := NextSend(c.phase.attempt + 1)), tries, restoreOk)
                        else if Acknowledged(c, t)
                        then (if restoreOk then SuccessResult(c.packet) else RUDP_SETSOCKOPT, [])
                        else (RUDP_CLOSE_CONNECTION, []))
  {
    var i := c.phase.attempt;
    var sent := c.(phase := AfterSendto(c, tries[i].sent));
    var r := RunSend(sent, tries, restoreOk);
    assert [] + r.1 == r.1;
    if sent.phase.Awaiting? {
      var answered := sent.(phase := AfterAnswer(sent, tries[i].got, restoreOk));
      assert r == RunSend(answered, tries, restoreOk);
    }
  }

  // -------------------------------------------------------------- receiving

  datatype RecvPhase =
    | Waiting(attempt: nat, sawFin: bool)                                    // about to call recvfrom
    | Replying(attempt: nat, sawFin: bool, got: Datagram, count: nat)        // about to send the ACK
    | Finished(result: int, handed: seq<Byte>)

  datatype RecvCall = RecvCall(length: nat, phase: RecvPhase)
  {
    predicate Live() {
      match phase
      case Waiting(i, _) => i < N_ATTEMPT
      case Replying(i, _, d, n) => i < N_ATTEMPT && n == Min(d.Size(), length + HEADER_SIZE)
      case Finished(_, _) => true
    }
  }

  function NextRecv(attempt: nat, sawFin: bool): RecvPhase {
    if attempt < N_ATTEMPT then Waiting(attempt, sawFin) else Finished(RUDP_EXCEEDED_N_ATTEMPTS, [])
  }

  /** The bytes of d that fit the caller's buffer, header included: what recvfrom returns. */
  function Taken(length: nat, d: Datagram): (n: nat)
    ensures HEADER_SIZE <= n <= d.Size() && n <= length + HEADER_SIZE
  {
    Min(d.Size(), length + HEADER_SIZE)
  }

  function Acknowledge(ackno: nat, d: Datagram, count: nat): nat {
    if ackno == d.seqno then ackno + count else ackno
  }

  function AfterRecvfrom(c: RecvCall, ret: RecvRet): RecvPhase
    requires c.phase.Waiting?
  {
    match ret
    case RecvFailed(again) =>
      if again then Finished(RUDP_CLOSE_CONNECTION, []) else NextRecv(c.phase.attempt + 1, c.phase.sawFin)
    case Received(d, _) => Replying(c.phase.attempt, c.phase.sawFin || d.flag == Fin, d, Taken(c.length, d))
  }

  function AckAfterRecvfrom(c: RecvCall, ackno: nat, ret: RecvRet): nat {
    if ret.Received? then Acknowledge(ackno, ret.d, Taken(c.length, ret.d)) else ackno
  }

  function AfterReply(c: RecvCall, ret: SendRet): RecvPhase
    requires c.Live() && c.phase.Replying?
  {
    if ret.count == -1 && ret.again then Finished(RUDP_CLOSE_CONNECTION, [])
    else if ret.count != HEADER_SIZE then NextRecv(c.phase.attempt + 1, c.phase.sawFin)
    else if c.phase.sawFin then Finished(0, [])
    else Finished(c.phase.count - HEADER_SIZE, c.phase.got.payload[..c.phase.count - HEADER_SIZE])
  }

  function RecvRank(phase: RecvPhase): nat {
    match phase
    case Waiting(i, _) => if i < N_ATTEMPT then 2 * (N_ATTEMPT - i) else 0
    case Replying(i, _, _, _) => if i < N_ATTEMPT then 2 * (N_ATTEMPT - i) - 1 else 0
    case Finished(_, _) => 0
  }

  datatype RecvOutcome = RecvOutcome(result: int, handed: seq<Byte>, ackno: nat, replies: seq<(Address, Datagram)>)

  /** A whole call from one of its phases; `from` is the source of the datagram being answered. */
  function RunRecv(c: RecvCall, seqno: nat, ackno: nat, from: Address, tries: seq<Try>): (r: RecvOutcome)
    requires |tries| == N_ATTEMPT && c.Live()
    decreases RecvRank(c.phase)
  {
    match c.phase
    case Finished(result, handed) => RecvOutcome(result, handed, ackno, [])
    case Waiting(i, _) =>
      var got := tries[i].got;
      RunRecv(c.(phase := AfterRecvfrom(c, got)), seqno, AckAfterRecvfrom(c, ackno, got),
              if got.Received? then got.from else from, tries)
    case Replying(i, _, _, _) =>
      var rest := RunRecv(c.(phase := AfterReply(c, tries[i].sent)), seqno, ackno, from, tries);
      if tries[i].sent.count == HEADER_SIZE
      then rest.(replies := [(from, Datagram(Ack, seqno, ackno, []))] + rest.replies)
      else rest
  }

  function PrependReplies(sent: seq<(Address, Datagram)>, rest: RecvOutcome): RecvOutcome {
    rest.(replies := sent + rest.replies)
  }

  /** One attempt from its recvfrom on. */
  lemma {:induction false} RecvOnce(c: RecvCall, seqno: nat, ackno: nat, from: Address, tries: seq<Try>)
    requires |tries| == N_ATTEMPT && c.phase.Waiting? && c.phase.attempt < N_ATTEMPT
    ensures var i, t := c.phase.attempt, tries[c.phase.attempt];
            RunRecv(c, seqno, ackno, from, tries) ==
            match t.got
            case RecvFailed(again) =>
              if again then RecvOutcome(RUDP_CLOSE_CONNECTION, [], ackno, [])
              else RunRecv(c.(phase := NextRecv(i + 1, c.phase.sawFin)), seqno, ackno, from, tries)
            case Received(d, source) =>
              var n := Taken(c.length, d);
              var fin := c.phase.sawFin || d.flag == Fin;
              var ack := Acknowledge(ackno, d, n);
              PrependReplies(if t.sent.count == HEADER_SIZE then [(source, Datagram(Ack, seqno, ack, []))] else [],
                if t.sent.count == HEADER_SIZE
                then if fin then RecvOutcome(0, [], ack, [])
                     else RecvOutcome(n - HEADER_SIZE, d.payload[..n - HEADER_SIZE], ack, [])
                else if t.sent.count == -1 && t.sent.again then RecvOutcome(RUDP_CLOSE_CONNECTION, [], ack, [])
                else RunRecv(c.(phase := NextRecv(i + 1, fin)), seqno, ack, source, tries))
  {
    var t := tries[c.phase.attempt];
    if t.got.Received? {
      var replying := c.(phase := AfterRecvfrom(c, t.got));
      var ack := AckAfterRecvfrom(c, ackno, t.got);
      var after := replying.(phase := AfterReply(replying, t.sent));
      var rest := RunRecv(after, seqno, ack, t.got.from, tries);
      assert [] + rest.replies == rest.replies;
      assert RunRecv(c, seqno, ackno, from, tries) == RunRecv(replying, seqno, ack, t.got.from, tries);
    }
  }

  /** An attempt that makes the receiving loop go round again. */
  predicate RecvRetries(t: Try) {
    match t.got
    case RecvFailed(again) => !again
    case Received(_, _) => t.sent.count != HEADER_SIZE && !(t.sent.count == -1 && t.sent.again)
  }

  predicate RecvReplied(t: Try) {
    t.got.Received? && t.sent.count == HEADER_SIZE
  }

  /** A FIN is among what attempts first..last received. */
  predicate SawFin(tries: seq<Try>, first: nat, last: nat) {
    last < |tries| && exists j :: first <= j <= last && tries[j].got.Received? && tries[j].got.d.flag == Fin
  }

  /** A receiving call returns without an error exactly when some attempt receives and acknowledges a datagram after
      attempts that all retry. It returns 0 if it has seen a FIN in any of them, and otherwise hands up as much of
      that datagram as fits. */
  lemma {:induction false} RecvSucceedsIff(c: RecvCall, seqno: nat, ackno: nat, from: Address, tries: seq<Try>)
    requires |tries| == N_ATTEMPT && c.phase.Waiting? && c.phase.attempt < N_ATTEMPT
    ensures RunRecv(c, seqno, ackno, from, tries).result >= 0 <==>
              exists k :: c.phase.attempt <= k < N_ATTEMPT && RecvReplied(tries[k]) &&
                          forall j :: c.phase.attempt <= j < k ==> RecvRetries(tries[j])
    ensures forall k :: c.phase.attempt <= k < N_ATTEMPT && RecvReplied(tries[k]) &&
                        (forall j :: c.phase.attempt <= j < k ==> RecvRetries(tries[j])) ==>
              var r := RunRecv(c, seqno, ackno, from, tries);
              var n := Taken(c.length, tries[k].got.d) - HEADER_SIZE;
              if c.phase.sawFin || SawFin(tries, c.phase.attempt, k) then r.result == 0 && r.handed == []
              else r.result == n && r.handed == tries[k].got.d.payload[..n]
    decreases N_ATTEMPT - c.phase.attempt
  {
    RecvOnce(c, seqno, ackno, from, tries);
    hide RunRecv;
    var i, t := c.phase.attempt, tries[c.phase.attempt];
    var fin := c.phase.sawFin || (t.got.Received? && t.got.d.flag == Fin);
    var ack := if t.got.Received? then Acknowledge(ackno, t.got.d, Taken(c.length, t.got.d)) else ackno;
    var source := if t.got.Received? then t.got.from else from;
    var next := c.(phase := NextRecv(i + 1, fin));
    if RecvRetries(t) && i + 1 < N_ATTEMPT {
      RecvSucceedsIff(next, seqno, ack, source, tries);
      assert forall k :: i + 1 <= k < N_ATTEMPT ==>
          (fin || SawFin(tries, i + 1, k) <==> c.phase.sawFin || SawFin(tries, i, k));
    } else if RecvRetries(t) {
      RunRecvOver(next, seqno, ack, source, tries);
    }
  }

  lemma {:induction false} RunRecvOver(c: RecvCall, seqno: nat, ackno: nat, from: Address, tries: seq<Try>)
    requires |tries| == N_ATTEMPT && c.phase.Finished?
    ensures RunRecv(c, seqno, ackno, from, tries) == RecvOutcome(c.phase.result, c.phase.handed, ackno, [])
  {}

  // ------------------------------------------------------------ the C calls

  const NOWHERE := Address(0, 0)

  /** One round of the sending loop, behind the copies that have left already. */
  lemma {:induction false} SendRound(c: SendCall, tries: seq<Try>, restoreOk: bool, emitted: seq<Datagram>)
    requires |tries| == N_ATTEMPT && c.phase.Sending? && c.phase.attempt < N_ATTEMPT
    ensures var i, t := c.phase.attempt, tries[c.phase.attempt];
            var all := if t.sent.count == c.packet.Size() then emitted + [c.packet] else emitted;
            Prepend(emitted, RunSend(c, tries, restoreOk)) ==
            if Retries(c, t) then Prepend(all, RunSend(c.(phase := NextSend(i + 1)), tries, restoreOk))
            else if Acknowledged(c, t) then (if restoreOk then SuccessResult(c.packet) else RUDP_SETSOCKOPT, all)
            else (RUDP_CLOSE_CONNECTION, all)
  {
    AttemptOnce(c, tries, restoreOk);
    hide RunSend, Retries, Acknowledged;
    var t := tries[c.phase.attempt];
    var out := if t.sent.count == c.packet.Size() then [c.packet] else [];
    var rest := RunSend(c.(phase := NextSend(c.phase.attempt + 1)), tries, restoreOk);
    assert emitted + (out + rest.1) == emitted + out + rest.1;
    assert out + [] == out && emitted + [] == emitted;
  }

  /** The retry loop that rudp_send and rudp_close share: `acknowledged` when it was left by its break,
      and otherwise the error code; `emitted` are the datagrams that left the host. */
  method SendLoop(buffer: Datagram, counter: nat, dest: Address, tries: seq<Try>, ghost restoreOk: bool)
    returns (acknowledged: bool, error: int, emitted: seq<Datagram>)
    requires |tries| == N_ATTEMPT
    ensures RunSend(SendCall(buffer, counter, dest, NextSend(0)), tries, restoreOk) ==
              (if !acknowledged then error else if restoreOk then SuccessResult(buffer) else RUDP_SETSOCKOPT, emitted)
    ensures error < 0
  {
    ghost var call := SendCall(buffer, counter, dest, NextSend(0));
    ghost var goal := RunSend(call, tries, restoreOk);
    emitted, acknowledged, error := [], false, RUDP_EXCEEDED_N_ATTEMPTS;
    assert emitted + goal.1 == goal.1;
    hide RunSend, SuccessResult;
    var i := 0;
    while i < N_ATTEMPT
      invariant 0 <= i <= N_ATTEMPT && !acknowledged && error == RUDP_EXCEEDED_N_ATTEMPTS
      invariant goal == Prepend(emitted, RunSend(call.(phase := NextSend(i)), tries, restoreOk))
    {
      ghost var here := call.(phase := Sending(i));
      assert here.(phase := NextSend(i + 1)) == call.(phase := NextSend(i + 1));
      SendRound(here, tries, restoreOk, emitted);
      var sentBytes, again := tries[i].sent.count, tries[i].sent.again;
      if sentBytes == buffer.Size() { emitted := emitted + [buffer]; }
      if sentBytes == -1 || again {
        error := RUDP_CLOSE_CONNECTION;
        return;
      } else if sentBytes == buffer.Size() {
        var got := tries[i].got;
        if got.RecvFailed? {
          if got.again { error := RUDP_CLOSE_CONNECTION; return; }
        } else if got.d.flag == Ack && got.d.ackno == counter && AddressMatches(buffer.flag, dest, got.from) {
          acknowledged := true;
          return;
        }
      }
      i := i + 1;
    }
    RunSendOver(call.(phase := NextSend(i)), tries, restoreOk);
    assert emitted + [] == emitted;
  }

  lemma {:induction false} RunSendOver(c: SendCall, tries: seq<Try>, restoreOk: bool)
    requires |tries| == N_ATTEMPT && c.phase.Done?
    ensures RunSend(c, tries, restoreOk) == (c.phase.result, [])
  {}

  /** The first attempt from i on that does not make the loop go round, or the number of attempts. */
  function LastTry(tries: seq<Try>, i: nat): (k: nat)
    requires i <= |tries|
    ensures i <= k <= |tries| && (k < |tries| ==> !RecvRetries(tries[k]))
    ensures forall j :: i <= j < k ==> RecvRetries(tries[j])
    decreases |tries| - i
  {
    if i == |tries| || !RecvRetries(tries[i]) then i else LastTry(tries, i + 1)
  }

  /** The scratch buffer of a call after k attempts: it is zeroed once and overwritten by every datagram, so that
      behind the received bytes it keeps those of earlier attempts. */
  function Scratch(length: nat, tries: seq<Try>, k: nat): (b: seq<Byte>)
    requires k <= |tries|
    ensures |b| == length
  {
    if k == 0 then seq(length, _ => 0)
    else
      var before := Scratch(length, tries, k - 1);
      match tries[k - 1].got
      case RecvFailed(_) => before
      case Received(d, _) =>
        var n := Taken(length, d) - HEADER_SIZE;
        d.payload[..n] + before[n..]
  }

  predicate Reaches(t: Try, j: nat) {
    t.got.Received? && j < |t.got.d.payload|
  }

  /** Attempt i is the last of them whose datagram is long enough for position j. */
  ghost predicate LastToReach(tries: seq<Try>, i: nat, j: nat) {
    i < |tries| && Reaches(tries[i], j) && forall m :: i < m < |tries| ==> !Reaches(tries[m], j)
  }

  /** Byte b at position j of a buffer as these attempts leave it: the last datagram that reaches the position has put
      it there, and it is 0 when none does. */
  ghost predicate LeftBy(b: Byte, tries: seq<Try>, j: nat) {
    || (b == 0 && forall t <- tries :: !Reaches(t, j))
    || exists i: nat :: LastToReach(tries, i, j) && b == tries[i].got.d.payload[j]
  }

  lemma {:induction false} LeftAlone(b: Byte, tries: seq<Try>, t: Try, j: nat)
    requires LeftBy(b, tries, j) && !Reaches(t, j)
    ensures LeftBy(b, tries + [t], j)
  {
    if i: nat :| LastToReach(tries, i, j) && b == tries[i].got.d.payload[j] {
      assert LastToReach(tries + [t], i, j);
    }
  }

  lemma {:induction false} ScratchBytes(length: nat, tries: seq<Try>, k: nat, j: nat)
    requires k <= |tries| && j < length
    ensures LeftBy(Scratch(length, tries, k)[j], tries[..k], j)
  {
    if k > 0 {
      ScratchBytes(length, tries, k - 1, j);
      ScratchNext(length, tries, k - 1);
      var now, before, t := Scratch(length, tries, k), Scratch(length, tries, k - 1), tries[k - 1];
      assert tries[..k] == tries[..k - 1] + [t];
      if Reaches(t, j) {
        var n := Taken(length, t.got.d) - HEADER_SIZE;
        assert now[j] == now[..n][j] == t.got.d.payload[..n][j];
        assert LastToReach(tries[..k], k - 1, j);
      } else {
        if t.got.Received? {
          var n := Taken(length, t.got.d) - HEADER_SIZE;
          assert now[j] == now[n..][j - n] == before[n..][j - n];
        }
        LeftAlone(before[j], tries[..k - 1], t, j);
      }
    }
  }

  /** Whether the loop ends by handing up data, and not by a FIN or an error. */
  predicate HandsUp(tries: seq<Try>) {
    var k := LastTry(tries, 0);
    k < |tries| && RecvReplied(tries[k]) && !SawFin(tries, 0, k)
  }

  /** recvfrom into the scratch buffer: as many payload bytes as fit. */
  method Take(buffer: array<Byte>, d: Datagram, ghost tries: seq<Try>, ghost i: nat) returns (received: nat)
    requires i < |tries| && tries[i].got.Received? && tries[i].got.d == d
    requires buffer[..] == Scratch(buffer.Length, tries, i)
    modifies buffer
    ensures received == Taken(buffer.Length, d)
    ensures buffer[..] == Scratch(buffer.Length, tries, i + 1)
    ensures buffer[..received - HEADER_SIZE] == d.payload[..received - HEADER_SIZE]
  {
    hide Scratch, Taken;
    received := Taken(buffer.Length, d);
    ScratchNext(buffer.Length, tries, i);
    Fill(buffer, d.payload[..received - HEADER_SIZE]);
  }

  lemma {:induction false} ScratchNext(length: nat, tries: seq<Try>, i: nat)
    requires i < |tries|
    ensures match tries[i].got
            case RecvFailed(_) => Scratch(length, tries, i + 1) == Scratch(length, tries, i)
            case Received(d, _) =>
              var n := Taken(length, d) - HEADER_SIZE;
              && Scratch(length, tries, i + 1)[..n] == d.payload[..n]
              && Scratch(length, tries, i + 1)[n..] == Scratch(length, tries, i)[n..]
  {}

  /** What the attempts before i amount to when all of them have made the loop go round. */
  predicate WentRound(tries: seq<Try>, i: nat, sawFin: bool) {
    i <= |tries| && LastTry(tries, 0) == LastTry(tries, i) && sawFin == (i > 0 && SawFin(tries, 0, i - 1))
  }

  lemma {:induction false} GoesRound(tries: seq<Try>, i: nat, sawFin: bool)
    requires i < |tries| && WentRound(tries, i, sawFin)
    ensures var fin := sawFin || (tries[i].got.Received? && tries[i].got.d.flag == Fin);
            && SawFin(tries, 0, i) == fin
            && if RecvRetries(tries[i]) then WentRound(tries, i + 1, fin)
               else LastTry(tries, 0) == i && HandsUp(tries) == (RecvReplied(tries[i]) && !fin)
  {}

  lemma {:induction false} PrependTwice(sent: seq<(Address, Datagram)>, out: seq<(Address, Datagram)>,
                                        rest: RecvOutcome)
    ensures PrependReplies(sent, PrependReplies(out, rest)) == PrependReplies(sent + out, rest)
    ensures sent + (out + []) == sent + out && sent + [] == sent
  {}

  /** What is left of a call that is about to make attempt i, behind the acknowledgements that have left already. */
  function Resumed(length: nat, i: nat, sawFin: bool, seqno: nat, ackno: nat, from: Address, tries: seq<Try>,
                   replies: seq<(Address, Datagram)>): RecvOutcome
    requires |tries| == N_ATTEMPT
  {
    PrependReplies(replies, RunRecv(RecvCall(length, NextRecv(i, sawFin)), seqno, ackno, from, tries))
  }

  /** The outcome that the loop leaves to rudp_recv. */
  function Left(buffer: seq<Byte>, acked: bool, error: int, received: nat, sawFin: bool, ackno: nat,
                replies: seq<(Address, Datagram)>): RecvOutcome
    requires acked ==> HEADER_SIZE <= received <= |buffer| + HEADER_SIZE
  {
    if !acked then RecvOutcome(error, [], ackno, replies)
    else if sawFin then RecvOutcome(0, [], ackno, replies)
    else RecvOutcome(received - HEADER_SIZE, buffer[..received - HEADER_SIZE], ackno, replies)
  }

  /** The loop has been left with this outcome; after an acknowledgement the buffer is that of the last attempt. */
  predicate Ended(goal: RecvOutcome, tries: seq<Try>, buffer: seq<Byte>, acked: bool, error: int, received: nat,
                  sawFin: bool, ackno: nat, replies: seq<(Address, Datagram)>)
  {
    var k := LastTry(tries, 0);
    && error < 0 && (acked ==> HEADER_SIZE <= received <= |buffer| + HEADER_SIZE)
    && goal == Left(buffer, acked, error, received, sawFin, ackno, replies)
    && (acked && !sawFin <==> HandsUp(tries))
    && (acked ==> k < |tries| && buffer == Scratch(|buffer|, tries, k + 1))
  }

  lemma {:induction false} AckedEnd(goal: RecvOutcome, tries: seq<Try>, buffer: seq<Byte>, i: nat, n: nat, fin: bool)
    requires i < |tries| && LastTry(tries, 0) == i && HandsUp(tries) == !fin
    requires buffer == Scratch(|buffer|, tries, i + 1) && HEADER_SIZE <= n <= |buffer| + HEADER_SIZE
    requires goal.result == (if fin then 0 else n - HEADER_SIZE)
    requires goal.handed == if fin then [] else buffer[..n - HEADER_SIZE]
    ensures Ended(goal, tries, buffer, true, RUDP_EXCEEDED_N_ATTEMPTS, n, fin, goal.ackno, goal.replies)
  {}

  lemma {:induction false} FailedEnd(goal: RecvOutcome, tries: seq<Try>, buffer: seq<Byte>, n: nat, fin: bool)
    requires !HandsUp(tries) && goal.result == RUDP_CLOSE_CONNECTION && goal.handed == []
    ensures Ended(goal, tries, buffer, false, RUDP_CLOSE_CONNECTION, n, fin, goal.ackno, goal.replies)
  {}

  /** The loop that leads to this outcome is about to make attempt i. */
  predicate Pending(goal: RecvOutcome, length: nat, i: nat, sawFin: bool, seqno: nat, ackno: nat, from: Address,
                    tries: seq<Try>, replies: seq<(Address, Datagram)>)
    requires |tries| == N_ATTEMPT
  {
    goal == Resumed(length, i, sawFin, seqno, ackno, from, tries, replies) && WentRound(tries, i, sawFin)
  }

  /** A round of the loop that receives nothing. */
  lemma {:induction false} FailedRound(goal: RecvOutcome, buffer: seq<Byte>, i: nat, received: nat, sawFin: bool,
                                       seqno: nat, ackno: nat, from: Address, tries: seq<Try>,
                                       replies: seq<(Address, Datagram)>)
    requires |tries| == N_ATTEMPT && i < N_ATTEMPT && tries[i].got.RecvFailed?
    requires Pending(goal, |buffer|, i, sawFin, seqno, ackno, from, tries, replies)
    ensures if tries[i].got.again
            then Ended(goal, tries, buffer, false, RUDP_CLOSE_CONNECTION, received, sawFin, ackno, replies)
            else Pending(goal, |buffer|, i + 1, sawFin, seqno, ackno, from, tries, replies)
    ensures Scratch(|buffer|, tries, i + 1) == Scratch(|buffer|, tries, i)
  {
    RecvOnce(RecvCall(|buffer|, Waiting(i, sawFin)), seqno, ackno, from, tries);
    GoesRound(tries, i, sawFin);
    hide RunRecv, HandsUp, WentRound;
    assert replies + [] == replies;
  }

  /** What a round that receives a datagram makes of the acknowledgement number. */
  function RoundAck(length: nat, ackno: nat, t: Try): nat {
    if t.got.Received? then Acknowledge(ackno, t.got.d, Taken(length, t.got.d)) else ackno
  }

  /** The acknowledgements that have left when such a round is over. */
  function RoundReplies(seqno: nat, ack: nat, t: Try, replies: seq<(Address, Datagram)>): seq<(Address, Datagram)> {
    if RecvReplied(t) then replies + [(t.got.from, Datagram(Ack, seqno, ack, []))] else replies
  }

  lemma {:induction false} ReceivedResumed(length: nat, i: nat, sawFin: bool, seqno: nat, ackno: nat, from: Address,
                                           tries: seq<Try>, replies: seq<(Address, Datagram)>)
    requires |tries| == N_ATTEMPT && i < N_ATTEMPT && tries[i].got.Received?
    ensures var t, ack := tries[i], RoundAck(length, ackno, tries[i]);
            var n, fin := Taken(length, t.got.d) - HEADER_SIZE, sawFin || t.got.d.flag == Fin;
            var all := RoundReplies(seqno, ack, t, replies);
            Resumed(length, i, sawFin, seqno, ackno, from, tries, replies) ==
            if RecvReplied(t) then RecvOutcome(if fin then 0 else n, if fin then [] else t.got.d.payload[..n], ack, all)
            else if RecvRetries(t) then Resumed(length, i + 1, fin, seqno, ack, t.got.from, tries, all)
            else RecvOutcome(RUDP_CLOSE_CONNECTION, [], ack, all)
  {
    var t := tries[i];
    var d, n := t.got.d, Taken(length, t.got.d);
    var fin, ack := sawFin || d.flag == Fin, Acknowledge(ackno, d, n);
    var out := if t.sent.count == HEADER_SIZE then [(t.got.from, Datagram(Ack, seqno, ack, []))] else [];
    RecvOnce(RecvCall(length, Waiting(i, sawFin)), seqno, ackno, from, tries);
    hide RunRecv, Acknowledge, Taken;
    PrependTwice(replies, out, RunRecv(RecvCall(length, NextRecv(i + 1, fin)), seqno, ack, t.got.from, tries));
  }

  /** A round that receives a datagram and goes on. */
  lemma {:induction false} RetriedRound(length: nat, i: nat, sawFin: bool, seqno: nat, ackno: nat, from: Address,
                                        tries: seq<Try>, replies: seq<(Address, Datagram)>)
    requires |tries| == N_ATTEMPT && i < N_ATTEMPT && tries[i].got.Received? && WentRound(tries, i, sawFin)
    requires RecvRetries(tries[i])
    ensures var t, ack := tries[i], RoundAck(length, ackno, tries[i]);
            var fin := sawFin || t.got.d.flag == Fin;
            && Resumed(length, i, sawFin, seqno, ackno, from, tries, replies) ==
               Resumed(length, i + 1, fin, seqno, ack, t.got.from, tries, RoundReplies(seqno, ack, t, replies))
            && WentRound(tries, i + 1, fin)
  {
    ReceivedResumed(length, i, sawFin, seqno, ackno, from, tries, replies);
    GoesRound(tries, i, sawFin);
  }

  /** A round that receives a datagram and whose acknowledgement ends the call. */
  lemma {:induction false} LastRound(buffer: seq<Byte>, i: nat, sawFin: bool, seqno: nat, ackno: nat, from: Address,
                                     tries: seq<Try>, replies: seq<(Address, Datagram)>)
    requires |tries| == N_ATTEMPT && i < N_ATTEMPT && tries[i].got.Received? && WentRound(tries, i, sawFin)
    requires !RecvRetries(tries[i]) && buffer == Scratch(|buffer|, tries, i + 1)
    requires var n := Taken(|buffer|, tries[i].got.d) - HEADER_SIZE; buffer[..n] == tries[i].got.d.payload[..n]
    ensures var t, ack := tries[i], RoundAck(|buffer|, ackno, tries[i]);
            Ended(Resumed(|buffer|, i, sawFin, seqno, ackno, from, tries, replies), tries, buffer, RecvReplied(t),
                  if RecvReplied(t) then RUDP_EXCEEDED_N_ATTEMPTS else RUDP_CLOSE_CONNECTION,
                  Taken(|buffer|, t.got.d), sawFin || t.got.d.flag == Fin, ack, RoundReplies(seqno, ack, t, replies))
  {
    hide *;
    var t := tries[i];
    var n, fin := Taken(|buffer|, t.got.d), sawFin || t.got.d.flag == Fin;
    var goal := Resumed(|buffer|, i, sawFin, seqno, ackno, from, tries, replies);
    ReceivedResumed(|buffer|, i, sawFin, seqno, ackno, from, tries, replies);
    GoesRound(tries, i, sawFin);
    if RecvReplied(t) {
      AckedEnd(goal, tries, buffer, i, n, fin);
    } else {
      FailedEnd(goal, tries, buffer, n, fin);
    }
  }

  /** Either of these, in terms of what the loop makes of its variables. */
  lemma {:induction false} ReceivedRound(goal: RecvOutcome, buffer: seq<Byte>, i: nat, sawFin: bool, fin: bool,
                                         seqno: nat, ackno: nat, ack: nat, from: Address, tries: seq<Try>,
                                         replies: seq<(Address, Datagram)>, all: seq<(Address, Datagram)>)
    requires |tries| == N_ATTEMPT && i < N_ATTEMPT && tries[i].got.Received?
    requires Pending(goal, |buffer|, i, sawFin, seqno, ackno, from, tries, replies)
    requires buffer == Scratch(|buffer|, tries, i + 1)
    requires var n := Taken(|buffer|, tries[i].got.d) - HEADER_SIZE; buffer[..n] == tries[i].got.d.payload[..n]
    requires var t := tries[i];
             && fin == (sawFin || t.got.d.flag == Fin)
             && ack == (if ackno == t.got.d.seqno then ackno + Taken(|buffer|, t.got.d) else ackno)
             && all == if t.sent.count == HEADER_SIZE
                       then replies + [(t.got.from, Datagram(Ack, seqno, ack, []))] else replies
    ensures var t, n := tries[i], Taken(|buffer|, tries[i].got.d);
            if t.sent.count == HEADER_SIZE
            then Ended(goal, tries, buffer, true, RUDP_EXCEEDED_N_ATTEMPTS, n, fin, ack, all)
            else if t.sent.count == -1 && t.sent.again
            then Ended(goal, tries, buffer, false, RUDP_CLOSE_CONNECTION, n, fin, ack, all)
            else Pending(goal, |buffer|, i + 1, fin, seqno, ack, t.got.from, tries, all)
  {
    if RecvRetries(tries[i]) {
      RetriedRound(|buffer|, i, sawFin, seqno, ackno, from, tries, replies);
    } else {
      LastRound(buffer, i, sawFin, seqno, ackno, from, tries, replies);
    }
    hide *;
  }

  /** The retry loop of rudp_recv. */
  method RecvLoop(buffer: array<Byte>, seqno: nat, ackno: nat, tries: seq<Try>)
    returns (acked: bool, error: int, received: nat, sawFin: bool, newAck: nat, replies: seq<(Address, Datagram)>)
    requires |tries| == N_ATTEMPT && buffer[..] == Scratch(buffer.Length, tries, 0)
    modifies buffer
    ensures Ended(RunRecv(RecvCall(buffer.Length, NextRecv(0, false)), seqno, ackno, NOWHERE, tries),
                  tries, buffer[..], acked, error, received, sawFin, newAck, replies)
  {
    ghost var from := NOWHERE;
    ghost var goal := RunRecv(RecvCall(buffer.Length, NextRecv(0, false)), seqno, ackno, from, tries);
    acked, error, received, sawFin, newAck, replies := false, RUDP_EXCEEDED_N_ATTEMPTS, 0, false, ackno, [];
    assert Pending(goal, buffer.Length, 0, false, seqno, ackno, from, tries, replies) by {
      assert replies + goal.replies == goal.replies;
    }
    hide *;
    var i := 0;
    while i < N_ATTEMPT
      invariant 0 <= i <= N_ATTEMPT && !acked && error == RUDP_EXCEEDED_N_ATTEMPTS
      invariant Pending(goal, buffer.Length, i, sawFin, seqno, newAck, from, tries, replies)
      invariant buffer[..] == Scratch(buffer.Length, tries, i)
      decreases N_ATTEMPT - i
    {
      var got := tries[i].got;
      if got.RecvFailed? {
        FailedRound(goal, buffer[..], i, received, sawFin, seqno, newAck, from, tries, replies);
        if got.again { error := RUDP_CLOSE_CONNECTION; return; }
      } else {
        var datagram, address := got.d, got.from;
        received := Take(buffer, datagram, tries, i);
        ghost var before := (sawFin, newAck, replies);
        if newAck == datagram.seqno { newAck := newAck + received; }
        if datagram.flag == Fin { sawFin := true; }
        var answer := Datagram(Ack, seqno, newAck, []);
        var sent := tries[i].sent;
        if sent.count == HEADER_SIZE { replies := replies + [(address, answer)]; }
        ReceivedRound(goal, buffer[..], i, before.0, sawFin, seqno, before.1, newAck, from, tries, before.2, replies);
        from := address;
        if sent.count == -1 && sent.again {
          error := RUDP_CLOSE_CONNECTION;
          return;
        } else if !(sent.count == -1 || sent.count != HEADER_SIZE) {
          acked := true;
          return;
        }
      }
      i := i + 1;
    }
  }

  /** struct rudp_header as the control block of one endpoint. */
  class Control {
    var sequenceNumber: nat
    var acknowledgementNumber: nat

    constructor (seqno: nat, ackno: nat)
      ensures sequenceNumber == seqno && acknowledgementNumber == ackno
    {
      sequenceNumber, acknowledgementNumber := seqno, ackno;
    }

    function Value(): Counters
      reads this
    {
      Counters(sequenceNumber, acknowledgementNumber)
    }

    /** rudp_send: `emitted` are the datagrams that left the host. */
    method Send(message: seq<Byte>, dest: Address, allocOk: bool, opts: Options, tries: seq<Try>)
      returns (result: int, emitted: seq<Datagram>)
      requires |tries| == N_ATTEMPT
      modifies this`sequenceNumber
      ensures !allocOk ==> result == RUDP_CALLOC && emitted == [] && sequenceNumber == old(sequenceNumber)
      ensures allocOk ==> sequenceNumber == old(sequenceNumber) + |message| + HEADER_SIZE
      ensures allocOk ==>
                var packet := Datagram(NoFlag, old(sequenceNumber), acknowledgementNumber, message);
                (result, emitted) ==
                RunSend(SendCall(packet, sequenceNumber, dest, StartSend(opts)), tries, opts.restoreOk)
    {
      if !allocOk { return RUDP_CALLOC, []; }
      var buffer := Datagram(NoFlag, sequenceNumber, acknowledgementNumber, message);
      sequenceNumber := sequenceNumber + |message| + HEADER_SIZE;
      if !opts.getOk { return RUDP_GETSOCKOPT, []; }
      if !opts.setOk { return RUDP_SETSOCKOPT, []; }
      var acknowledged, error, sent := SendLoop(buffer, sequenceNumber, dest, tries, opts.restoreOk);
      if !acknowledged { return error, sent; }
      if !opts.restoreOk { return RUDP_SETSOCKOPT, sent; }
      return buffer.Size(), sent;
    }

    /** rudp_recv. `message` is the caller's buffer: all of it is overwritten when data is handed up, and none of it
        otherwise. `replies` are the acknowledgements that left the host, each with its destination. */
    method Recv(message: array<Byte>, allocOk: bool, tries: seq<Try>)
      returns (result: int, replies: seq<(Address, Datagram)>)
      requires |tries| == N_ATTEMPT
      modifies this`acknowledgementNumber, message
      ensures !allocOk ==> result == RUDP_CALLOC && replies == [] &&
                           acknowledgementNumber == old(acknowledgementNumber)
      ensures allocOk ==>
                var r := RunRecv(RecvCall(message.Length, NextRecv(0, false)), sequenceNumber,
                                 old(acknowledgementNumber), NOWHERE, tries);
                && result == r.result && acknowledgementNumber == r.ackno && replies == r.replies
                && |r.handed| <= message.Length && message[..|r.handed|] == r.handed
      ensures message[..] == if allocOk && HandsUp(tries)
                             then Scratch(message.Length, tries, LastTry(tries, 0) + 1) else old(message[..])
      ensures allocOk && HandsUp(tries) ==>
                forall j :: 0 <= j < message.Length ==> LeftBy(message[j], tries[..LastTry(tries, 0) + 1], j)
    {
      if !allocOk { return RUDP_CALLOC, []; }
      var buffer := new Byte[message.Length](_ => 0);
      hide RunRecv;
      assert buffer[..] == Scratch(message.Length, tries, 0);
      var acked, error, received, sawFin, ackno, sent := RecvLoop(buffer, sequenceNumber, acknowledgementNumber, tries);
      acknowledgementNumber := ackno;
      if !acked { return error, sent; }
      if sawFin { return 0, sent; }
      forall k | 0 <= k < message.Length { message[k] := buffer[k]; }
      assert message[..] == buffer[..];
      forall j | 0 <= j < message.Length ensures LeftBy(message[j], tries[..LastTry(tries, 0) + 1], j) {
        ScratchBytes(message.Length, tries, LastTry(tries, 0) + 1, j);
        assert message[j] == message[..][j];
      }
      return received - HEADER_SIZE, sent;
    }

    /** rudp_close. Step 1 or 2 sends the FIN and returns before the descriptor is closed; step 3 closes it. Unlike
        rudp_send it advances the counter only behind the socket options. */
    method Close(step: int, dest: Address, opts: Options, closeOk: bool, tries: seq<Try>)
      returns (result: int, emitted: seq<Datagram>, closed: bool)
      requires |tries| == N_ATTEMPT
      modifies this`sequenceNumber
      ensures step == 1 || step == 2 ==>
                var packet := Datagram(Fin, old(sequenceNumber), acknowledgementNumber, []);
                && !closed
                && sequenceNumber == old(sequenceNumber) + (if opts.getOk && opts.setOk then HEADER_SIZE else 0)
                && (result, emitted) ==
                   RunSend(SendCall(packet, sequenceNumber, dest, StartSend(opts)), tries, opts.restoreOk)
      ensures step != 1 && step != 2 ==>
                && sequenceNumber == old(sequenceNumber) && emitted == []
                && closed == (step == 3 && closeOk) && result == if step == 3 && !closeOk then RUDP_CLOSE else 0
    {
      emitted, closed := [], false;
      if step == 1 || step == 2 {
        if !opts.getOk { return RUDP_GETSOCKOPT, emitted, closed; }
        if !opts.setOk { return RUDP_SETSOCKOPT, emitted, closed; }
        var buffer := Datagram(Fin, sequenceNumber, acknowledgementNumber, []);
        sequenceNumber := sequenceNumber + HEADER_SIZE;
        var acknowledged, error, sent := SendLoop(buffer, sequenceNumber, dest, tries, opts.restoreOk);
        if !acknowledged { return error, sent, closed; }
        if !opts.restoreOk { return RUDP_SETSOCKOPT, sent, closed; }
        return 0, sent, closed;
      }
      if step == 2 || step == 3 {
        if !closeOk { return RUDP_CLOSE, emitted, closed; }
        closed := true;
      }
      return 0, emitted, closed;
    }
  }
}
