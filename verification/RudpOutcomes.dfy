/** How rudp_send, rudp_close and rudp_recv (src/rudp/rudp.c) end over datagrams, told from the outcomes of their
    system calls alone: which attempt is the first that does not make the loop go round, and what it amounts to. */
module RudpOutcomes {
  import opened Basics
  import opened RudpTypes
  import opened RudpCalls

  // None of the steps of the machines is named here. Attempts, sizes and result codes are the numbers of
  // src/rudp/rudp.h: 3 attempts, a header of 24 bytes, and -2 RUDP_SOCKET, -10 RUDP_GETSOCKOPT, -11 RUDP_SETSOCKOPT,
  // -12 RUDP_EXCEEDED_N_ATTEMPTS and -14 RUDP_CLOSE_CONNECTION.

  // ------------------------------------------------- rudp_send and rudp_close

  /** An acknowledgement of exactly this counter from the port that was sent to, and from its host, unless rudp_send
      was given the wildcard host 0. */
  predicate Confirms(fin: bool, counter: nat, dest: Address, got: RecvRet) {
    && got.Received? && got.d.flag == Ack && got.d.ackno == counter && got.from.port == dest.port
    && (got.from.host == dest.host || (!fin && dest.host == 0))
  }

  /** The packet left in part, or nothing of use came back. */
  predicate SendsAgain(packet: Datagram, counter: nat, dest: Address, t: Try) {
    && t.sent.count != -1 && !t.sent.again
    && (t.sent.count == 24 + |packet.payload| ==>
          if t.got.RecvFailed? then !t.got.again else !Confirms(packet.flag == Fin, counter, dest, t.got))
  }

  function Copies(packet: Datagram, tries: seq<Try>): seq<Datagram> {
    if tries == [] then []
    else (if tries[0].sent.count == 24 + |packet.payload| then [packet] else []) + Copies(packet, tries[1..])
  }

  /** The result of the loop whose last attempt is t. */
  function SendResult(packet: Datagram, counter: nat, dest: Address, t: Try, restoreOk: bool): int {
    if t.sent == SendRet(24 + |packet.payload|, false) && Confirms(packet.flag == Fin, counter, dest, t.got)
    then if !restoreOk then -11 else if packet.flag == Fin then 0 else 24 + |packet.payload|
    else -14
  }

  lemma {:induction false} SendOnce(packet: Datagram, counter: nat, dest: Address, i: nat, tries: seq<Try>,
                                    restoreOk: bool)
    requires |tries| == 3 && i < 3
    ensures RunSend(SendCall(packet, counter, dest, NextSend(i)), tries, restoreOk) ==
            Prepend(Copies(packet, [tries[i]]),
                    if SendsAgain(packet, counter, dest, tries[i])
                    then RunSend(SendCall(packet, counter, dest, NextSend(i + 1)), tries, restoreOk)
                    else (SendResult(packet, counter, dest, tries[i], restoreOk), []))
  {
    AttemptOnce(SendCall(packet, counter, dest, NextSend(i)), tries, restoreOk);
    hide RunSend;
    assert [tries[i]][1..] == [];
    assert Copies(packet, [tries[i]]) == if tries[i].sent.count == 24 + |packet.payload| then [packet] else [];
  }

  lemma {:induction false} CopiesOneByOne(packet: Datagram, t: Try, rest: seq<Try>)
    ensures Copies(packet, [t] + rest) == Copies(packet, [t]) + Copies(packet, rest)
  {
    assert ([t] + rest)[1..] == rest && [t][1..] == [];
  }

  lemma {:induction false} SendEndsFrom(packet: Datagram, counter: nat, dest: Address, i: nat, tries: seq<Try>,
                                        restoreOk: bool, k: nat)
    requires |tries| == 3 && i <= k <= 3
    requires forall j :: i <= j < k ==> SendsAgain(packet, counter, dest, tries[j])
    requires k < 3 ==> !SendsAgain(packet, counter, dest, tries[k])
    ensures RunSend(SendCall(packet, counter, dest, NextSend(i)), tries, restoreOk) ==
            (if k == 3 then -12 else SendResult(packet, counter, dest, tries[k], restoreOk),
             Copies(packet, Made(tries[i..], k - i)))
    decreases 3 - i
  {
    var c := SendCall(packet, counter, dest, NextSend(i));
    if i == 3 {
      RunSendOver(c, tries, restoreOk);
    } else {
      hide RunSend, SendsAgain, SendResult, Made, NextSend;
      SendOnce(packet, counter, dest, i, tries, restoreOk);
      MadeFrom(tries, i, k);
      CopiesOneByOne(packet, tries[i], Made(tries[i..], k - i)[1..]);
      if i < k { SendEndsFrom(packet, counter, dest, i + 1, tries, restoreOk, k); }
    }
  }

  /** rudp_send and the loop of rudp_close: without their socket options they do nothing but fail. Otherwise the first
      attempt that does not go round decides, and a copy of the packet leaves at each attempt that sends all of it. */
  lemma {:induction false} SendEnds(packet: Datagram, counter: nat, dest: Address, opts: Options, tries: seq<Try>,
                                    k: nat)
    requires |tries| == 3 && k <= 3
    requires forall j :: 0 <= j < k ==> SendsAgain(packet, counter, dest, tries[j])
    requires k < 3 ==> !SendsAgain(packet, counter, dest, tries[k])
    ensures RunSend(SendCall(packet, counter, dest, StartSend(opts)), tries, opts.restoreOk) ==
            if !opts.getOk then (-10, [])
            else if !opts.setOk then (-11, [])
            else (if k == 3 then -12 else SendResult(packet, counter, dest, tries[k], opts.restoreOk),
                  Copies(packet, Made(tries, k)))
  {
    if opts.getOk && opts.setOk {
      assert tries[0..] == tries;
      SendEndsFrom(packet, counter, dest, 0, tries, opts.restoreOk, k);
    }
  }

  // ---------------------------------------------------------------- rudp_recv

  /** Nothing came, or its acknowledgement did not leave as a whole, and neither because of a timeout. */
  predicate ReceivesAgain(t: Try) {
    if t.got.RecvFailed? then !t.got.again
    else t.sent.count != 24 && !(t.sent.count == -1 && t.sent.again)
  }

  /** The acknowledgement number once these datagrams have come in: those it waits for advance it. */
  function Awaited(length: nat, ackno: nat, tries: seq<Try>): nat
    decreases |tries|
  {
    if tries == [] then ackno
    else
      var got := tries[0].got;
      Awaited(length,
              if got.Received? && got.d.seqno == ackno
              then ackno + 24 + (if |got.d.payload| < length then |got.d.payload| else length) else ackno,
              tries[1..])
  }

  predicate BringsFin(t: Try) {
    t.got.Received? && t.got.d.flag == Fin
  }

  /** What is left behind by the attempts that have been made: `decided` when the last of them did not go round. The
      datagram that it received is handed up, as much of it as fits, unless one of them has brought a FIN; no other
      acknowledgement has left. */
  predicate RecvLeaves(r: RecvOutcome, length: nat, seqno: nat, ackno: nat, sawFin: bool, made: seq<Try>,
                       decided: bool)
  {
    && r.ackno == Awaited(length, ackno, made)
    && if decided && made != [] && Last(made).got.Received? && Last(made).sent.count == 24 then
         var got := Last(made).got;
         && r.replies == [(got.from, Datagram(Ack, seqno, r.ackno, []))]
         && if sawFin || exists t <- made :: BringsFin(t) then r.result == 0 && r.handed == []
            else |r.handed| == r.result <= length && r.handed <= got.d.payload
                 && (r.result < length ==> r.handed == got.d.payload)
       else r.replies == [] && r.handed == [] && r.result == if decided then -14 else -12
  }

  function AckAfter(length: nat, ackno: nat, t: Try): nat {
    if t.got.Received? then Acknowledge(ackno, t.got.d, Taken(length, t.got.d)) else ackno
  }

  lemma {:induction false} AwaitedStep(length: nat, ackno: nat, made: seq<Try>)
    requires made != []
    ensures Awaited(length, ackno, made) == Awaited(length, AckAfter(length, ackno, made[0]), made[1..])
  {}

  lemma {:induction false} RecvDecided(c: RecvCall, seqno: nat, ackno: nat, from: Address, tries: seq<Try>)
    requires |tries| == 3 && c.phase.Waiting? && c.phase.attempt < 3
    requires !ReceivesAgain(tries[c.phase.attempt])
    ensures RecvLeaves(RunRecv(c, seqno, ackno, from, tries), c.length, seqno, ackno, c.phase.sawFin,
                       [tries[c.phase.attempt]], true)
  {
    RecvOnce(c, seqno, ackno, from, tries);
    hide RunRecv;
    var t := tries[c.phase.attempt];
    AwaitedStep(c.length, ackno, [t]);
    assert [t][1..] == [];
    ExistsInRest([t], t => BringsFin(t));
  }

  lemma {:induction false} RecvLeavesMore(r: RecvOutcome, length: nat, seqno: nat, ackno: nat, sawFin: bool,
                                          made: seq<Try>, decided: bool)
    requires made != [] && (decided ==> |made| > 1)
    requires RecvLeaves(r, length, seqno, AckAfter(length, ackno, made[0]), sawFin || BringsFin(made[0]), made[1..],
                        decided)
    ensures RecvLeaves(r, length, seqno, ackno, sawFin, made, decided)
  {
    AwaitedStep(length, ackno, made);
    ExistsInRest(made, t => BringsFin(t));
  }

  lemma {:induction false} RecvGoesOn(c: RecvCall, seqno: nat, ackno: nat, from: Address, tries: seq<Try>)
    requires |tries| == 3 && c.phase.Waiting? && c.phase.attempt < 3
    requires ReceivesAgain(tries[c.phase.attempt])
    ensures var i, t := c.phase.attempt, tries[c.phase.attempt];
            RunRecv(c, seqno, ackno, from, tries) ==
            RunRecv(c.(phase := NextRecv(i + 1, c.phase.sawFin || BringsFin(t))), seqno, AckAfter(c.length, ackno, t),
                    if t.got.Received? then t.got.from else from, tries)
  {
    RecvOnce(c, seqno, ackno, from, tries);
    hide RunRecv;
  }

  lemma {:induction false} RecvEndsFrom(length: nat, seqno: nat, ackno: nat, from: Address, sawFin: bool, i: nat,
                                        tries: seq<Try>, k: nat)
    requires |tries| == 3 && i <= k <= 3
    requires forall j :: i <= j < k ==> ReceivesAgain(tries[j])
    requires k < 3 ==> !ReceivesAgain(tries[k])
    ensures RecvLeaves(RunRecv(RecvCall(length, NextRecv(i, sawFin)), seqno, ackno, from, tries),
                       length, seqno, ackno, sawFin, Made(tries[i..], k - i), k < 3)
    decreases 3 - i
  {
    var c := RecvCall(length, NextRecv(i, sawFin));
    if i == 3 {
      RunRecvOver(c, seqno, ackno, from, tries);
    } else {
      hide RunRecv, RecvLeaves, ReceivesAgain, AckAfter, BringsFin, Made;
      MadeFrom(tries, i, k);
      if i < k {
        var t := tries[i];
        RecvGoesOn(c, seqno, ackno, from, tries);
        var ack, fin := AckAfter(length, ackno, t), sawFin || BringsFin(t);
        var source := if t.got.Received? then t.got.from else from;
        RecvEndsFrom(length, seqno, ack, source, fin, i + 1, tries, k);
        RecvLeavesMore(RunRecv(RecvCall(length, NextRecv(i + 1, fin)), seqno, ack, source, tries),
                       length, seqno, ackno, sawFin, Made(tries[i..], k - i), k < 3);
      } else {
        RecvDecided(c, seqno, ackno, from, tries);
      }
    }
  }

  /** rudp_recv: the first attempt that does not go round decides. */
  lemma {:induction false} RecvEnds(length: nat, seqno: nat, ackno: nat, tries: seq<Try>, k: nat)
    requires |tries| == 3 && k <= 3
    requires forall j :: 0 <= j < k ==> ReceivesAgain(tries[j])
    requires k < 3 ==> !ReceivesAgain(tries[k])
    ensures RecvLeaves(RunRecv(RecvCall(length, NextRecv(0, false)), seqno, ackno, NOWHERE, tries),
                       length, seqno, ackno, false, Made(tries, k), k < 3)
    ensures LastTry(tries, 0) == k
    ensures HandsUp(tries) <==>
              k < 3 && tries[k].got.Received? && tries[k].sent.count == 24 &&
              forall t <- Made(tries, k) :: !BringsFin(t)
  {
    assert tries[0..] == tries;
    RecvEndsFrom(length, seqno, ackno, NOWHERE, false, 0, tries, k);
    assert LastTry(tries, 0) == k by {
      assert forall t :: RecvRetries(t) <==> ReceivesAgain(t);
    }
    if k < 3 {
      var made := Made(tries, k);
      if t :| t in made && BringsFin(t) {
        var j :| 0 <= j <= k && made[j] == t;
        assert tries[j] == t;
      }
      if SawFin(tries, 0, k) {
        var j :| 0 <= j <= k && tries[j].got.Received? && tries[j].got.d.flag == Fin;
        assert made[j] == tries[j] && made[j] in made;
      }
      assert SawFin(tries, 0, k) <==> exists t <- made :: BringsFin(t);
    }
  }
}
