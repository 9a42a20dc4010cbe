/** From the handshake into the data phase: what the network still holds when a connection is established, that sessions
    are safe nevertheless, and exactly when a left-over handshake datagram does harm. */
module RudpSession {
  import opened Basics
  import opened RudpTypes
  import opened RudpCalls
  import opened RudpDataPhase
  import opened RudpDelivery
  import H = RudpHandshake

  function ChildAddress(n: H.Net, s: H.Session): Address {
    Address(n.server.host, s.port)
  }

  /** What may still arrive at an address, from any of the sockets of the handshake. */
  function Toward(n: H.Net, dst: Address): set<Datagram> {
    set k <- n.packets | k.dst == dst :: k.d
  }

  /** The data phase in which the client sends to the child process, from the control blocks as they are. */
  function ClientSends(n: H.Net, s: H.Session, atReceiver: bool, atSender: bool): State {
    State(n.connect.control.seqno, n.connect.control.ackno, Done(0),
          s.control.seqno, s.control.ackno, RecvCall(0, Finished(0, [])), NOWHERE, false,
          Link(n.client, n.connect.peer, atReceiver, atSender), Toward(n, ChildAddress(n, s)), Toward(n, n.client),
          [], [], [], [], false, false)
  }

  /** The data phase in which the child process sends to the client. */
  function ServerSends(n: H.Net, s: H.Session, atReceiver: bool, atSender: bool): State {
    State(s.control.seqno, s.control.ackno, Done(0),
          n.connect.control.seqno, n.connect.control.ackno, RecvCall(0, Finished(0, [])), NOWHERE, false,
          Link(ChildAddress(n, s), s.client, atReceiver, atSender), Toward(n, n.client), Toward(n, ChildAddress(n, s)),
          [], [], [], [], false, false)
  }

  /** A connection that a play of the handshake has established between two real hosts. */
  predicate Established(client: Address, server: Address, play: seq<H.Move>, s: H.Session) {
    && client.host != server.host && client.host != INADDR_ANY && server.host != INADDR_ANY
    && H.IsPlay(H.Start(client, server), play)
    && s in H.Outcome(H.Start(client, server), play).sessions
  }

  /** The data phase of the session, in either direction, with third hosts that reach the receiver or the sender
      or not. */
  function SessionStart(client: Address, server: Address, play: seq<H.Move>, s: H.Session, byClient: bool,
                        atReceiver: bool, atSender: bool): State
    requires Established(client, server, play, s)
  {
    var n := H.Outcome(H.Start(client, server), play);
    if byClient then ClientSends(n, s, atReceiver, atSender) else ServerSends(n, s, atReceiver, atSender)
  }

  /** What is in flight to the receiver when the client, or when the child, sends. */
  function Leftover(byClient: bool): set<Datagram> {
    if byClient then {H.CONFIRMATION} else {H.OFFER}
  }

  function SessionLink(client: Address, server: Address, s: H.Session, byClient: bool, atReceiver: bool,
                       atSender: bool): Link
  {
    var child := Address(server.host, s.port);
    if byClient then Link(client, child, atReceiver, atSender) else Link(child, client, atReceiver, atSender)
  }

  /** The handshake establishes the start of the data phase in either direction, with exactly the confirmation or
      exactly the offer in flight. */
  lemma {:induction false} HandshakeEstablishes(client: Address, server: Address, play: seq<H.Move>, s: H.Session,
                                                byClient: bool, atReceiver: bool, atSender: bool)
    requires Established(client, server, play, s)
    ensures SessionStart(client, server, play, s, byClient, atReceiver, atSender) ==
            Init(Leftover(byClient), Leftover(!byClient),
                 SessionLink(client, server, s, byClient, atReceiver, atSender))
  {
    H.PlayInv(H.Start(client, server), play);
    H.SetupFixed(H.Start(client, server), play);
    var n := H.Outcome(H.Start(client, server), play);
    assert H.SessionInv(n, s);
    forall k <- n.packets ensures H.PacketInv(n, k) {}
    var child := Address(server.host, s.port);
    var offer, confirmation := H.Packet(child, client, H.OFFER), H.Packet(client, child, H.CONFIRMATION);
    assert offer in n.packets && confirmation in n.packets;
    assert H.OFFER in Toward(n, client) && H.CONFIRMATION in Toward(n, child);
    assert Toward(n, client) == {H.OFFER} && Toward(n, child) == {H.CONFIRMATION};
  }

  lemma {:induction false} LeftoverIsStray(client: Address, server: Address, play: seq<H.Move>, s: H.Session,
                                           byClient: bool, atSender: bool)
    requires Established(client, server, play, s)
    ensures Strays(Leftover(byClient)) && Stale(Leftover(!byClient)) && Leftover(byClient) != {}
    ensures Shielded(SessionLink(client, server, s, byClient, false, atSender))
  {}

  /** As long as no third host reaches its receiver, every established session is safe in the direction that sends first
      if its first message is not empty: a call that reported success had its message, and all before it, accepted whole
      and in order. */
  lemma {:induction false} SessionSafety(client: Address, server: Address, play: seq<H.Move>, s: H.Session,
                                         byClient: bool, atSender: bool, run: seq<Action>, k: nat)
    requires Established(client, server, play, s)
    requires var start := SessionStart(client, server, play, s, byClient, false, atSender);
             && IsRun(start, run) && k < |After(start, run).results| && After(start, run).results[k] >= 0
             && (After(start, run).begun != [] ==> After(start, run).begun[0].payload != [])
    ensures var end := After(SessionStart(client, server, play, s, byClient, false, atSender), run);
            && k < |end.begun| && k < |end.accepted|
            && forall j :: 0 <= j <= k ==> end.accepted[j] == Accept(end.begun[j], end.begun[j].Size())
  {
    HandshakeEstablishes(client, server, play, s, byClient, false, atSender);
    LeftoverIsStray(client, server, play, s, byClient, atSender);
    NoFalseSuccess(Leftover(byClient), Leftover(!byClient), SessionLink(client, server, s, byClient, false, atSender),
                   run, k);
  }

  /** What such a session hands up: a prefix of what was sent, or the left-over handshake datagram alone; and every
      delivery is a whole copy of something sent or of that datagram. */
  lemma {:induction false} SessionDelivery(client: Address, server: Address, play: seq<H.Move>, s: H.Session,
                                           byClient: bool, atSender: bool, run: seq<Action>)
    requires Established(client, server, play, s)
    requires var start := SessionStart(client, server, play, s, byClient, false, atSender);
             && IsRun(start, run) && Tidy(After(start, run))
             && (After(start, run).begun != [] ==> After(start, run).begun[0].payload != [])
    ensures var end := After(SessionStart(client, server, play, s, byClient, false, atSender), run);
            var stray := if byClient then H.CONFIRMATION else H.OFFER;
            && (Advanced(end.log) <= end.begun || Advanced(end.log) == [stray])
            && forall e <- end.log :: (e.d in end.begun || e.d == stray) && WellHandled(e)
  {
    HandshakeEstablishes(client, server, play, s, byClient, false, atSender);
    LeftoverIsStray(client, server, play, s, byClient, atSender);
    FreshDeliveriesArePrefix(Leftover(byClient), Leftover(!byClient),
                             SessionLink(client, server, s, byClient, false, atSender), run);
  }

  // -------------------------------------- exactly when a success can be false

  /** A run whose first message is `first` and in which some call reported success although the receiver had
      not accepted its message. */
  predicate FalseSuccess(s: State, first: seq<Byte>, run: seq<Action>) {
    && IsRun(s, run)
    && var t := After(s, run);
       && t.begun != [] && t.begun[0].payload == first
       && exists k :: 0 <= k < |t.results| && t.results[k] >= 0 && !Whole(t.accepted, t.begun, k + 1)
  }

  /** Some datagram has been taken for the first one, and the datagram that was sent first is as long. */
  function Misled(strays: set<Datagram>, stale: set<Datagram>, link: Link, d: Datagram, from: Address): State {
    var s := Init(strays, stale, link);
    s.(recvAck := HEADER_SIZE + d.Size(), from := from, advanced := true, accepted := [Accept(d, d.Size())],
       receiving := RecvCall(|d.payload|, Finished(if d.flag == Fin then 0 else |d.payload|,
                                                   if d.flag == Fin then [] else d.payload)),
       log := [Delivery(d, true, if d.flag == Fin then 0 else |d.payload|, if d.flag == Fin then [] else d.payload)],
       backward := stale + if from == link.source then {Datagram(Ack, HEADER_SIZE, HEADER_SIZE + d.Size(), [])} else {})
  }

  /** Any datagram with the first sequence number that reaches the receiver leads there. */
  lemma {:induction false} MisleadRun(strays: set<Datagram>, stale: set<Datagram>, link: Link, d: Datagram,
                                      from: Address, rest: seq<Action>) returns (run: seq<Action>)
    requires d.seqno == HEADER_SIZE && (d in strays || (link.atReceiver && from != link.source))
    requires IsRun(Misled(strays, stale, link, d, from), rest)
    ensures IsRun(Init(strays, stale, link), run)
    ensures After(Init(strays, stale, link), run) == After(Misled(strays, stale, link, d, from), rest)
  {
    var a0, a1, a2 := BeginRecv(|d.payload|), Recvfrom(Received(d, from)), Reply(SendRet(HEADER_SIZE, false));
    var s0 := Init(strays, stale, link);
    var s1 := Next(s0, a0);
    var s2 := Next(s1, a1);
    assert d.payload[..|d.payload|] == d.payload;
    assert Next(s2, a2) == Misled(strays, stale, link, d, from);
    run := rest;
    RunCons(s2, a2, run); run := [a2] + run;
    RunCons(s1, a1, run); run := [a1] + run;
    RunCons(s0, a0, run); run := [a0] + run;
  }

  /** Where the answers to the sender come from; for the wildcard address that is some host. */
  function Answerer(link: Link): Address {
    if link.dest.host == INADDR_ANY then Address(INADDR_ANY + 1, link.dest.port) else link.dest
  }

  /** The first message has left, and its answer is awaited. */
  function OnItsWay(s: State, first: Datagram): State {
    s.(begun := [first], sendSeq := HEADER_SIZE + first.Size(), sending := Awaiting(0), forward := s.forward + {first})
  }

  lemma {:induction false} SendFirst(s: State, first: seq<Byte>, rest: seq<Action>) returns (run: seq<Action>)
    requires s.sending.Done? && s.begun == [] && s.sendSeq == HEADER_SIZE == s.sendAck
    requires IsRun(OnItsWay(s, Datagram(NoFlag, HEADER_SIZE, HEADER_SIZE, first)), rest)
    ensures IsRun(s, run)
    ensures After(s, run) == After(OnItsWay(s, Datagram(NoFlag, HEADER_SIZE, HEADER_SIZE, first)), rest)
  {
    var d := Datagram(NoFlag, HEADER_SIZE, HEADER_SIZE, first);
    var a0, a1 := BeginSend(NoFlag, first, Options(true, true, true)), Sendto(SendRet(d.Size(), false));
    var s1 := Next(s, a0);
    assert Next(s1, a1) == OnItsWay(s, d);
    run := rest;
    RunCons(s1, a1, run); run := [a1] + run;
    RunCons(s, a0, run); run := [a0] + run;
  }

  /** The sender has sent a first message, and has been told that it has arrived. */
  function Deceived(s: State, first: Datagram): State {
    s.(begun := [first], sendSeq := HEADER_SIZE + first.Size(), sending := Done(first.Size()),
       results := [first.Size()], forward := s.forward + {first})
  }

  /** An acknowledgement of the first message, from before it was sent or from a stranger, is taken for its own. */
  lemma {:induction false} DeceiveRun(s: State, first: seq<Byte>, ack: Datagram, from: Address)
    returns (run: seq<Action>)
    requires s.sending.Done? && s.begun == [] && s.results == [] && s.sendSeq == HEADER_SIZE == s.sendAck
    requires ack.flag == Ack && ack.ackno == 2 * HEADER_SIZE + |first| && AddressMatches(NoFlag, s.link.dest, from)
    requires ack in s.backward || (s.link.atSender && from != s.link.dest)
    ensures IsRun(s, run) && After(s, run) == Deceived(s, Datagram(NoFlag, HEADER_SIZE, HEADER_SIZE, first))
  {
    var d := Datagram(NoFlag, HEADER_SIZE, HEADER_SIZE, first);
    var s1, a := OnItsWay(s, d), Answer(Received(ack, from), true);
    assert IsAnswer(Call(s1), ack, from);
    assert Next(s1, a) == Deceived(s, d);
    RunCons(s1, a, []);
    run := SendFirst(s, first, [a] + []);
  }

  /** The receiver takes the stray for data, and its acknowledgement is the one the empty first message waits for: the
      sender succeeds although the receiver never saw the message. */
  lemma {:induction false} StrayFakesSuccess(strays: set<Datagram>, stale: set<Datagram>, link: Link, d: Datagram)
    returns (run: seq<Action>)
    requires IsStray(d) && d in strays
    ensures FalseSuccess(Init(strays, stale, link), [], run)
  {
    var s := Misled(strays, stale, link, d, link.source);
    var ack := Datagram(Ack, HEADER_SIZE, 2 * HEADER_SIZE, []);
    var rest := DeceiveRun(s, [], ack, Answerer(link));
    run := MisleadRun(strays, stale, link, d, link.source, rest);
    var first := Datagram(NoFlag, HEADER_SIZE, HEADER_SIZE, []);
    FakeShown(After(Init(strays, stale, link), run), d, first);
  }

  /** What was accepted is not what was reported. */
  lemma {:induction false} FakeShown(t: State, d: Datagram, first: Datagram)
    requires t.begun == [first] && t.results == [first.Size()] && first != d
    requires t.accepted == [] || t.accepted[0].d == d
    ensures t.results[0] >= 0 && !Whole(t.accepted, t.begun, 0 + 1)
  {}

  /** To the wildcard address any host at the port can acknowledge what the receiver never saw. */
  lemma {:induction false} StrangerFakesSuccess(strays: set<Datagram>, stale: set<Datagram>, link: Link,
                                                first: seq<Byte>) returns (run: seq<Action>)
    requires link.atSender && link.dest.host == INADDR_ANY
    ensures FalseSuccess(Init(strays, stale, link), first, run)
  {
    var ack := Datagram(Ack, 0, 2 * HEADER_SIZE + |first|, []);
    run := DeceiveRun(Init(strays, stale, link), first, ack, Answerer(link));
    var d := Datagram(NoFlag, HEADER_SIZE, HEADER_SIZE, first);
    FakeShown(After(Init(strays, stale, link), run), d.(seqno := 0), d);
  }

  /** Another message of the same length. */
  function Forged(first: seq<Byte>): Datagram {
    Datagram(NoFlag, HEADER_SIZE, 0, if first == [] then [] else first[0 := first[0] + 1])
  }

  /** A third host's datagram has been accepted, and the real first message is now refused but acknowledged. */
  function Refused(s: State, first: Datagram): State {
    OnItsWay(s, first).(
      receiving := RecvCall(|first.payload|, Finished(|first.payload|, first.payload)),
      from := s.link.source, advanced := false, log := s.log + [Delivery(first, false, |first.payload|, first.payload)],
      backward := s.backward + {Datagram(Ack, HEADER_SIZE, s.recvAck, [])})
  }

  lemma {:induction false} RefuseRun(s: State, first: seq<Byte>) returns (run: seq<Action>, last: Action)
    requires s.sending.Done? && s.receiving.phase.Finished? && s.begun == [] && s.results == [] && Tidy(s)
    requires s.sendSeq == HEADER_SIZE == s.sendAck == s.recvSeq && s.recvAck == 2 * HEADER_SIZE + |first|
    ensures var d := Datagram(NoFlag, HEADER_SIZE, HEADER_SIZE, first);
            && last == Answer(Received(Datagram(Ack, HEADER_SIZE, s.recvAck, []), Answerer(s.link)), true)
            && Enabled(Refused(s, d), last) && IsRun(s, run)
            && After(s, run) == Next(Refused(s, d), last)
  {
    var d := Datagram(NoFlag, HEADER_SIZE, HEADER_SIZE, first);
    var a2, a3 := BeginRecv(|first|), Recvfrom(Received(d, s.link.source));
    var a4 := Reply(SendRet(HEADER_SIZE, false));
    last := Answer(Received(Datagram(Ack, HEADER_SIZE, s.recvAck, []), Answerer(s.link)), true);
    var s2 := OnItsWay(s, d);
    var s3 := Next(s2, a2);
    var s4 := Next(s3, a3);
    assert first[..|first|] == first;
    var s5 := Next(s4, a4);
    assert s5 == Refused(s, d);
    assert Datagram(Ack, HEADER_SIZE, s.recvAck, []) in s5.backward;
    RunCons(s5, last, []); run := [last] + [];
    RunCons(s4, a4, run); run := [a4] + run;
    RunCons(s3, a3, run); run := [a3] + run;
    RunCons(s2, a2, run); run := [a2] + run;
    run := SendFirst(s, first, run);
  }

  /** A third host that reaches the receiver slips it a message of the same length: rudp_recv takes it, refuses the real
      one and acknowledges it all the same. */
  lemma {:induction false} ForgerFakesSuccess(strays: set<Datagram>, stale: set<Datagram>, link: Link,
                                              first: seq<Byte>) returns (run: seq<Action>)
    requires link.atReceiver
    ensures FalseSuccess(Init(strays, stale, link), first, run)
  {
    var d := Datagram(NoFlag, HEADER_SIZE, HEADER_SIZE, first);
    var forged, stranger := Forged(first), Address(link.source.host + 1, 0);
    var s := Misled(strays, stale, link, forged, stranger);
    var rest, last := RefuseRun(s, first);
    run := MisleadRun(strays, stale, link, forged, stranger, rest);
    assert IsAnswer(Call(Refused(s, d)), last.answer.d, last.answer.from);
    FakeShown(Next(Refused(s, d), last), forged, d);
  }

  /** A false success is possible exactly when a third host reaches the receiver, or one reaches the sender that uses
      the wildcard address, or a handshake datagram is still in flight to the receiver and the first message is
      empty. */
  lemma {:induction false} FalseSuccessIff(strays: set<Datagram>, stale: set<Datagram>, link: Link, first: seq<Byte>)
    requires Strays(strays) && Stale(stale)
    ensures (exists run :: FalseSuccess(Init(strays, stale, link), first, run)) <==>
            || link.atReceiver
            || (link.atSender && link.dest.host == INADDR_ANY)
            || (strays != {} && first == [])
  {
    if link.atReceiver {
      var run := ForgerFakesSuccess(strays, stale, link, first);
    } else if link.atSender && link.dest.host == INADDR_ANY {
      var run := StrangerFakesSuccess(strays, stale, link, first);
    } else if strays != {} && first == [] {
      var d :| d in strays;
      var run := StrayFakesSuccess(strays, stale, link, d);
    } else {
      forall run ensures !FalseSuccess(Init(strays, stale, link), first, run) {
        if IsRun(Init(strays, stale, link), run) { NoFakeIn(strays, stale, link, first, run); }
      }
    }
  }

  lemma {:induction false} NoFakeIn(strays: set<Datagram>, stale: set<Datagram>, link: Link, first: seq<Byte>,
                                    run: seq<Action>)
    requires Strays(strays) && Stale(stale) && Shielded(link) && (strays == {} || first != [])
    requires IsRun(Init(strays, stale, link), run)
    ensures !FalseSuccess(Init(strays, stale, link), first, run)
  {
    var t := After(Init(strays, stale, link), run);
    if t.begun != [] && t.begun[0].payload == first {
      forall k | 0 <= k < |t.results| && t.results[k] >= 0 ensures Whole(t.accepted, t.begun, k + 1) {
        NoFalseSuccess(strays, stale, link, run, k);
      }
    }
  }

  /** In every established session, and in either direction, a false success is possible if and only if a third host
      reaches the receiver or the first message is empty. */
  lemma {:induction false} SessionExactness(client: Address, server: Address, play: seq<H.Move>, s: H.Session,
                                            byClient: bool, atReceiver: bool, atSender: bool, first: seq<Byte>)
    requires Established(client, server, play, s)
    ensures (exists run ::
               FalseSuccess(SessionStart(client, server, play, s, byClient, atReceiver, atSender), first, run)) <==>
            atReceiver || first == []
  {
    HandshakeEstablishes(client, server, play, s, byClient, atReceiver, atSender);
    LeftoverIsStray(client, server, play, s, byClient, atSender);
    FalseSuccessIff(Leftover(byClient), Leftover(!byClient),
                    SessionLink(client, server, s, byClient, atReceiver, atSender), first);
  }

  /** In every established session, and in either direction, rudp_recv can return the 0 that its callers take for the
      end of the connection although nothing has been sent. */
  lemma {:induction false} SessionFalseEnd(client: Address, server: Address, play: seq<H.Move>, s: H.Session,
                                           byClient: bool, atReceiver: bool, atSender: bool)
    returns (run: seq<Action>)
    requires Established(client, server, play, s)
    ensures FalseEnd(SessionStart(client, server, play, s, byClient, atReceiver, atSender), run)
    ensures After(SessionStart(client, server, play, s, byClient, atReceiver, atSender), run).begun == []
  {
    HandshakeEstablishes(client, server, play, s, byClient, atReceiver, atSender);
    LeftoverIsStray(client, server, play, s, byClient, atSender);
    var d :| d in Leftover(byClient);
    run := StrayEnds(Leftover(byClient), Leftover(!byClient),
                     SessionLink(client, server, s, byClient, atReceiver, atSender), d);
  }

  // ---------------------------------------- exactly when a FIN can come early

  /** A run, all in order, in which rudp_recv hands up the 0 of a FIN before some earlier message has been accepted; the
      call for the message before the FIN reported success or not. */
  predicate FinOvertakes(s: State, first: seq<Byte>, confirmed: bool, run: seq<Action>) {
    && IsRun(s, run)
    && var t := After(s, run);
       && Tidy(t) && t.begun != [] && t.begun[0].payload == first
       && exists p, k :: 0 <= p < |t.log| && 0 < k < |t.begun| && Overtakes(t, confirmed, p, k)
  }

  /** The p-th returned call has received message k, a FIN, too early. */
  predicate Overtakes(t: State, confirmed: bool, p: nat, k: nat)
    requires p < |t.log| && 0 < k < |t.begun|
  {
    && k - 1 < |t.results| && (t.results[k - 1] >= 0 <==> confirmed)
    && t.begun[k].flag == Fin && t.log[p].d == t.begun[k] && t.log[p].result == 0
    && !(t.begun[..k] <= Advanced(t.log[..p]))
  }

  lemma {:induction false} UnconfirmedOvertaken(strays: set<Datagram>, stale: set<Datagram>, link: Link,
                                                first: seq<Byte>) returns (run: seq<Action>)
    ensures FinOvertakes(Init(strays, stale, link), first, false, run)
  {
    run := EarlyFin(strays, stale, link, first);
    var t := After(Init(strays, stale, link), run);
    assert t.log[..0] == [];
    assert Overtakes(t, false, 0, 1);
  }

  /** When a stray has faked the success of an empty first message, the FIN behind it is taken too early. */
  lemma {:induction false} StrayOvertaken(strays: set<Datagram>, stale: set<Datagram>, link: Link, d: Datagram)
    returns (run: seq<Action>)
    requires IsStray(d) && d in strays
    ensures FinOvertakes(Init(strays, stale, link), [], true, run)
  {
    var s := Misled(strays, stale, link, d, link.source);
    var first := Datagram(NoFlag, HEADER_SIZE, HEADER_SIZE, []);
    var ack := Datagram(Ack, HEADER_SIZE, 2 * HEADER_SIZE, []);
    var fake := DeceiveRun(s, [], ack, Answerer(link));
    var fin := FinFirst(Deceived(s, first));
    RunJoin(s, fake, fin);
    hide After, IsRun, Enabled, Overtakes;
    run := MisleadRun(strays, stale, link, d, link.source, fake + fin);
    StrayFirst(After(Init(strays, stale, link), run), s.log[0], first);
  }

  lemma {:induction false} StrayFirst(t: State, e: Delivery, first: Datagram)
    requires |t.begun| == 2 && |t.log| == 2 && |t.results| == 1 && t.results[0] >= 0
    requires t.begun[0] == first && t.log[0] == e && e.advanced && e.d != first
    requires t.begun[1].flag == Fin && t.log[1].d == t.begun[1] && t.log[1].result == 0
    ensures Overtakes(t, true, 1, 1)
  {}

  lemma {:induction false} RunJoin(s: State, run: seq<Action>, more: seq<Action>)
    requires IsRun(s, run) && IsRun(After(s, run), more)
    ensures IsRun(s, run + more) && After(s, run + more) == After(After(s, run), more)
    decreases |run|
  {
    hide Next, Enabled;
    if run == [] {
      assert run + more == more;
    } else {
      RunJoin(Next(s, run[0]), run[1..], more);
      assert (run + more)[0] == run[0] && (run + more)[1..] == run[1..] + more;
    }
  }

  lemma {:induction false} NotOvertaken(strays: set<Datagram>, stale: set<Datagram>, link: Link, first: seq<Byte>,
                                        run: seq<Action>)
    requires Strays(strays) && Stale(stale) && Shielded(link) && (strays == {} || first != [])
    requires IsRun(Init(strays, stale, link), run)
    ensures !FinOvertakes(Init(strays, stale, link), first, true, run)
  {
    var t := After(Init(strays, stale, link), run);
    if Tidy(t) && t.begun != [] && t.begun[0].payload == first {
      forall p: nat, k: nat | p < |t.log| && 0 < k < |t.begun| ensures !Overtakes(t, true, p, k) {
        if k - 1 < |t.results| && t.results[k - 1] >= 0 && t.log[p].d == t.begun[k] {
          ConfirmedComesFirst(strays, stale, link, run, p, k);
        }
      }
    }
  }

  /** A FIN can be handed up before all earlier messages have been accepted exactly when the call before rudp_close
      did not report success, or its success can have been faked by a left-over handshake datagram. A caller that
      closes only after a success, with a first message that is not empty, is safe. */
  lemma {:induction false} FinOvertakesIff(strays: set<Datagram>, stale: set<Datagram>, link: Link, first: seq<Byte>,
                                           confirmed: bool)
    requires Strays(strays) && Stale(stale) && Shielded(link)
    ensures (exists run :: FinOvertakes(Init(strays, stale, link), first, confirmed, run)) <==>
            !confirmed || (strays != {} && first == [])
  {
    if !confirmed {
      var run := UnconfirmedOvertaken(strays, stale, link, first);
    } else if strays != {} && first == [] {
      var d :| d in strays;
      var run := StrayOvertaken(strays, stale, link, d);
    } else {
      forall run ensures !FinOvertakes(Init(strays, stale, link), first, confirmed, run) {
        if IsRun(Init(strays, stale, link), run) { NotOvertaken(strays, stale, link, first, run); }
      }
    }
  }

  /** In every established session that no third host disturbs: a FIN can be handed up too early exactly when the call
      before rudp_close did not report success, or the first message is empty. */
  lemma {:induction false} SessionFinOrder(client: Address, server: Address, play: seq<H.Move>, s: H.Session,
                                           byClient: bool, atSender: bool, first: seq<Byte>, confirmed: bool)
    requires Established(client, server, play, s)
    ensures (exists run ::
               FinOvertakes(SessionStart(client, server, play, s, byClient, false, atSender),
                            first, confirmed, run)) <==>
            !confirmed || first == []
  {
    HandshakeEstablishes(client, server, play, s, byClient, false, atSender);
    LeftoverIsStray(client, server, play, s, byClient, atSender);
    FinOvertakesIff(Leftover(byClient), Leftover(!byClient),
                    SessionLink(client, server, s, byClient, false, atSender), first, confirmed);
  }
}
