/** How rudp_connect and rudp_accept (src/rudp/rudp.c) end over datagrams, told in the manner of RudpOutcomes. */
module RudpHandshakeOutcomes {
  import opened Basics
  import opened RudpTypes
  import opened RudpCalls
  import opened RudpHandshake

  // ------------------------------------------------------------ rudp_connect

  /** As in the code, the host is looked at only when the flag is wrong: one that is not SYN|ACK is refused from the
      host that was dialled, and from any host when that was the wildcard 0. */
  predicate Offers(address: Address, got: RecvRet) {
    got.Received? && (got.d.flag == SynAck || (address.host != 0 && address.host != got.from.host))
  }

  predicate TakesOffer(address: Address, t: ConnectTry) {
    t.dial == SendRet(24, false) && Offers(address, t.offer)
  }

  predicate DialsAgain(address: Address, t: ConnectTry) {
    && t.dial.count != -1 && !t.dial.again
    && (t.dial.count == 24 ==>
          if t.offer.RecvFailed? then !t.offer.again
          else Offers(address, t.offer) ==> t.confirm.count != 24 && !(t.confirm.count == -1 && t.confirm.again))
  }

  /** What leaves for the listening address: the SYN, until an offer has been taken, and from then on the ACK. */
  function Dials(address: Address, taken: bool, tries: seq<ConnectTry>): Sent
    decreases |tries|
  {
    if tries == [] then []
    else (if tries[0].dial.count != 24 then []
          else [(address, if taken then Datagram(Ack, 24, 24, []) else Datagram(Syn, 24, 0, []))]) +
         Dials(address, taken || TakesOffer(address, tries[0]), tries[1..])
  }

  predicate TakenIn(address: Address, tries: seq<ConnectTry>) {
    exists t <- tries :: TakesOffer(address, t)
  }

  /** Where the last offer that was taken came from. */
  function Peer(address: Address, peer: Address, tries: seq<ConnectTry>): Address
    decreases |tries|
  {
    if tries == [] then peer
    else Peer(address, if TakesOffer(address, tries[0]) then tries[0].offer.from else peer, tries[1..])
  }

  /** The attempt whose confirmation leaves, which is the last one. */
  predicate Connects(address: Address, t: ConnectTry) {
    TakesOffer(address, t) && t.confirm.count == 24
  }

  /** The call after its return, and what it has put on the wire behind `sent`. */
  function ConnectOutcome(address: Address, peer: Address, taken: bool, made: seq<ConnectTry>, result: int,
                          sent: Sent): (ConnectCall, Sent)
  {
    var any := taken || TakenIn(address, made);
    var last := Peer(address, peer, made);
    (ConnectCall(address, Counters(24, if any then 24 else 0),
                 if any then Datagram(Ack, 24, 24, []) else Datagram(Syn, 24, 0, []), last, any, Connected(result)),
     sent + Dials(address, taken, made) +
     if made != [] && Connects(address, Last(made)) then [(last, Datagram(Ack, 24, 24, []))] else [])
  }

  function ConnectResult(address: Address, t: ConnectTry, restoreOk: bool): int {
    if !Connects(address, t) then -14 else if restoreOk then 0 else -11
  }

  lemma {:induction false} OutcomeOver(address: Address, peer: Address, taken: bool, result: int, sent: Sent)
    ensures ConnectOutcome(address, peer, taken, [], result, sent) ==
            (Dialer(address, peer, taken, Connected(result)), sent)
  {
    assert sent + [] == sent && !TakenIn(address, []);
  }

  /** What has left for the listening address once attempt t has dialled, and what t makes of the offer. */
  function AlsoDialled(address: Address, taken: bool, t: ConnectTry, sent: Sent): Sent {
    if t.dial.count != 24 then sent
    else sent + [(address, if taken then Datagram(Ack, 24, 24, []) else Datagram(Syn, 24, 0, []))]
  }

  function PeerAfter(address: Address, peer: Address, t: ConnectTry): Address {
    if TakesOffer(address, t) then t.offer.from else peer
  }

  lemma {:induction false} OutcomeStep(address: Address, peer: Address, taken: bool, made: seq<ConnectTry>,
                                       result: int, sent: Sent)
    requires made != []
    requires |made| > 1 ==> !Connects(address, made[0])
    ensures var t := made[0];
            var next := ConnectOutcome(address, PeerAfter(address, peer, t), taken || TakesOffer(address, t), made[1..],
                                       result, AlsoDialled(address, taken, t, sent));
            ConnectOutcome(address, peer, taken, made, result, sent) ==
            if |made| == 1 && Connects(address, t)
            then (next.0, next.1 + [(t.offer.from, Datagram(Ack, 24, 24, []))]) else next
  {
    var t, rest := made[0], made[1..];
    ExistsInRest(made, t => TakesOffer(address, t));
    var first := if t.dial.count != 24 then []
                 else [(address, if taken then Datagram(Ack, 24, 24, []) else Datagram(Syn, 24, 0, []))];
    var dials := Dials(address, taken || TakesOffer(address, t), rest);
    assert Dials(address, taken, made) == first + dials;
    assert sent + (first + dials) == sent + first + dials && sent + [] == sent;
    assert TakenIn(address, made) <==> TakesOffer(address, t) || TakenIn(address, rest);
    if |made| == 1 {
      assert rest == [] && dials == [] && forall s: Sent :: s + [] == s;
    } else {
      assert Last(made) == Last(rest);
    }
  }

  lemma {:induction false} DialOnce(address: Address, peer: Address, taken: bool, i: nat, tries: seq<ConnectTry>,
                                    restoreOk: bool, sent: Sent)
    requires |tries| == 3 && i < 3
    ensures var t, all := tries[i], AlsoDialled(address, taken, tries[i], sent);
            var from, any := PeerAfter(address, peer, t), taken || TakesOffer(address, t);
            Redial(address, peer, taken, i, tries, restoreOk, sent) ==
            if DialsAgain(address, t) then Redial(address, from, any, i + 1, tries, restoreOk, all)
            else (Dialer(address, from, any, Connected(ConnectResult(address, t, restoreOk))),
                  if Connects(address, t) then all + [(t.offer.from, Datagram(Ack, 24, 24, []))] else all)
    ensures DialsAgain(address, tries[i]) ==> !Connects(address, tries[i])
  {
    var t := tries[i];
    assert t.offer.Received? ==> (Offers(address, t.offer) <==> !Rejects(address, t.offer.d, t.offer.from));
    if TakesOffer(address, t) {
      TakingRound(address, peer, taken, i, tries, restoreOk, sent);
    } else {
      VainRound(address, peer, taken, i, tries, restoreOk, sent);
    }
    hide Redial, RunConnect, Rejects;
  }

  lemma {:induction false} ConnectEndsFrom(address: Address, peer: Address, taken: bool, i: nat, tries: seq<ConnectTry>,
                                           restoreOk: bool, sent: Sent, k: nat)
    requires |tries| == 3 && i <= k <= 3
    requires forall j :: i <= j < k ==> DialsAgain(address, tries[j])
    requires k < 3 ==> !DialsAgain(address, tries[k])
    ensures Redial(address, peer, taken, i, tries, restoreOk, sent) ==
            ConnectOutcome(address, peer, taken, Made(tries[i..], k - i),
                           if k == 3 then -12 else ConnectResult(address, tries[k], restoreOk), sent)
    decreases 3 - i
  {
    if i == 3 {
      DialedOut(address, peer, taken, tries, restoreOk, sent);
      OutcomeOver(address, peer, taken, -12, sent);
    } else {
      hide Redial, ConnectOutcome, ConnectResult, AlsoDialled, PeerAfter, TakesOffer, Connects, DialsAgain, Made;
      hide Dialer;
      var t := tries[i];
      var result := if k == 3 then -12 else ConnectResult(address, tries[k], restoreOk);
      DialOnce(address, peer, taken, i, tries, restoreOk, sent);
      MadeFrom(tries, i, k);
      OutcomeStep(address, peer, taken, Made(tries[i..], k - i), result, sent);
      var all := AlsoDialled(address, taken, t, sent);
      var from, any := PeerAfter(address, peer, t), taken || TakesOffer(address, t);
      if i < k {
        ConnectEndsFrom(address, from, any, i + 1, tries, restoreOk, all, k);
      } else {
        OutcomeOver(address, from, any, result, all);
      }
    }
  }

  /** rudp_connect behind its socket options: the first attempt that does not go round decides, but an offer taken by
      an earlier one stays in the control block, in the recorded address and in what is dialled next. */
  lemma {:induction false} ConnectEnds(address: Address, tries: seq<ConnectTry>, restoreOk: bool, k: nat)
    requires |tries| == 3 && k <= 3
    requires forall j :: 0 <= j < k ==> DialsAgain(address, tries[j])
    requires k < 3 ==> !DialsAgain(address, tries[k])
    ensures RunConnect(StartConnect(address), tries, restoreOk) ==
            ConnectOutcome(address, NOWHERE, false, Made(tries, k),
                           if k == 3 then -12 else ConnectResult(address, tries[k], restoreOk), [])
  {
    assert tries[0..] == tries;
    ConnectEndsFrom(address, NOWHERE, false, 0, tries, restoreOk, [], k);
    var r := RunConnect(StartConnect(address), tries, restoreOk);
    assert [] + r.1 == r.1;
  }

  // ------------------------------------------------------------- rudp_accept

  predicate HearsSyn(t: AcceptTry) {
    t.syn.Received? && t.syn.d.flag == Syn
  }

  /** A SYN for which the fresh socket is ready. */
  predicate Answers(t: AcceptTry) {
    HearsSyn(t) && t.picked.socketOk && t.picked.getOk && t.picked.setOk
  }

  predicate ListensAgain(t: AcceptTry) {
    if t.syn.RecvFailed? then !t.syn.again
    else t.syn.d.flag == Syn ==>
      && t.picked.socketOk && t.picked.getOk && t.picked.setOk
      && if t.offer.count != 24 then !(t.offer.count == -1 && t.offer.again)
         else if t.confirmation.RecvFailed? then !t.confirmation.again
         else t.restoreOk && t.confirmation.from != t.syn.from
  }

  predicate Accepts(t: AcceptTry) {
    && Answers(t) && t.offer.count == 24
    && t.confirmation.Received? && t.restoreOk && t.confirmation.from == t.syn.from
  }

  /** Why an attempt that does not go round is the end of a call that accepts nobody. */
  function Refusal(t: AcceptTry): int {
    if t.syn.RecvFailed? then -14
    else if !t.picked.socketOk then -2
    else if !t.picked.getOk then -10
    else if !t.picked.setOk then -11
    else if t.offer.count != 24 || t.confirmation.RecvFailed? then -14
    else -11
  }

  function OffersMade(tries: seq<AcceptTry>): Sent {
    if tries == [] then []
    else (if Answers(tries[0]) && tries[0].offer.count == 24
          then [(tries[0].syn.from, Datagram(SynAck, 24, 24, []))] else []) + OffersMade(tries[1..])
  }

  /** One pass through the loop. */
  lemma {:induction false} AcceptOnce(before: Counters, client: Address, i: nat, t: AcceptTry)
    requires i < 3
    ensures var once := AcceptAttempt(AcceptCall(before, client, NextListen(i)), t);
            && once.0.control == (if HearsSyn(t) then Counters(24, 24) else before)
            && once.1 == OffersMade([t])
            && (Accepts(t) ==> !ListensAgain(t) && once.0.client == t.syn.from)
            && once.0.phase == if ListensAgain(t) then NextListen(i + 1)
                               else if Accepts(t) then Accepted(t.picked.port) else Refused(Refusal(t))
  {}

  lemma {:induction false} OffersOneByOne(t: AcceptTry, rest: seq<AcceptTry>)
    ensures OffersMade([t] + rest) == OffersMade([t]) + OffersMade(rest)
  {}

  lemma {:induction false} AcceptEndsFrom(before: Counters, client: Address, i: nat, tries: seq<AcceptTry>, k: nat)
    requires |tries| == 3 && i <= k <= 3
    requires forall j :: i <= j < k ==> ListensAgain(tries[j])
    requires k < 3 ==> !ListensAgain(tries[k])
    ensures var r := RunAccept(AcceptCall(before, client, NextListen(i)), tries);
            var made := Made(tries[i..], k - i);
            && r.0.control == (if exists t <- made :: HearsSyn(t) then Counters(24, 24) else before)
            && r.1 == OffersMade(made)
            && if k < 3 && Accepts(tries[k])
               then r.0.client == tries[k].syn.from && r.0.phase == Accepted(tries[k].picked.port)
               else r.0.phase == Refused(if k == 3 then -12 else Refusal(tries[k]))
    decreases 3 - i
  {
    var c := AcceptCall(before, client, NextListen(i));
    if i == 3 {
      RunAcceptOver(c, tries);
    } else {
      var once := AcceptAttempt(c, tries[i]);
      AcceptOnce(before, client, i, tries[i]);
      RunAcceptOnce(c, tries, []);
      var made := Made(tries[i..], k - i);
      MadeFrom(tries, i, k);
      OffersOneByOne(tries[i], made[1..]);
      ExistsInRest(made, t => HearsSyn(t));
      hide RunAccept, AcceptAttempt, ListensAgain, Accepts, Refusal, OffersMade, HearsSyn, Made;
      if i < k {
        AcceptEndsFrom(once.0.control, once.0.client, i + 1, tries, k);
      } else {
        RunAcceptOver(once.0, tries);
      }
    }
  }

  /** rudp_accept up to its fork: the first attempt that does not go round decides. */
  lemma {:induction false} AcceptEnds(before: Counters, tries: seq<AcceptTry>, k: nat)
    requires |tries| == 3 && k <= 3
    requires forall j :: 0 <= j < k ==> ListensAgain(tries[j])
    requires k < 3 ==> !ListensAgain(tries[k])
    ensures var r := RunAccept(AcceptCall(before, NOWHERE, NextListen(0)), tries);
            var made := Made(tries, k);
            && r.0.control == (if exists t <- made :: HearsSyn(t) then Counters(24, 24) else before)
            && r.1 == OffersMade(made)
            && if k < 3 && Accepts(tries[k])
               then r.0.client == tries[k].syn.from && r.0.phase == Accepted(tries[k].picked.port)
               else r.0.phase == Refused(if k == 3 then -12 else Refusal(tries[k]))
  {
    assert tries[0..] == tries;
    AcceptEndsFrom(before, NOWHERE, 0, tries, k);
  }
}
