/** rudp_connect and rudp_accept over a channel that neither loses nor reorders, with no failing system call and no
    timeout, and the transfers between the two endpoints that follow, some of them while rudp_accept is still waiting
    for the confirmation. */
module RudpLossFree {
  import opened Basics
  import opened RudpTypes
  import opened RudpCalls
  import H = RudpHandshake
  import M = RudpMirror

  /** Left is the client and right the child process, whose address is known once its socket is bound. */
  datatype Joint = Joint(connect: H.ConnectCall, accept: H.AcceptCall, toListener: seq<Datagram>, duplex: M.Duplex)

  datatype Event =
    | Dial
    | TakeOffer
    | Confirm
    | TakeSyn(port: nat)
    | SendOffer
    | TakeConfirmation
    | Transfer(leftMoves: bool, a: M.Action)

  const FULL := SendRet(HEADER_SIZE, false)

  function Idler(address: Address, control: Counters): M.Endpoint {
    M.Endpoint(address, control, M.Idle, [], [])
  }

  function Start(client: Address, server: Address): Joint {
    Joint(H.StartConnect(server), H.AcceptCall(Counters(0, 0), NOWHERE, H.NextListen(0)), [],
          M.Duplex(Idler(client, Counters(HEADER_SIZE, 0)), Idler(server, Counters(0, 0)), [], []))
  }

  predicate Possible(j: Joint, e: Event) {
    match e
    case Dial => j.connect.phase.Dialing?
    case TakeOffer => j.connect.phase.AwaitingOffer? && j.duplex.toLeft != []
    case Confirm => j.connect.phase.Confirming?
    case TakeSyn(port) => j.accept.phase.Listening? && j.toListener != [] && port != j.connect.address.port
    case SendOffer => j.accept.phase.Offering?
    case TakeConfirmation => j.accept.phase.AwaitingConfirm? && j.duplex.toRight != []
    case Transfer(leftMoves, a) =>
      && M.CanStep(j.duplex, leftMoves, a)
      && if leftMoves then j.connect.phase.Connected? else j.accept.phase.Accepted?
  }

  function Step(j: Joint, e: Event): Joint
    requires Possible(j, e)
  {
    var d := j.duplex;
    match e
    case Dial =>
      var connect := H.AfterDial(j.connect, FULL);
      j.(connect := connect, toListener := j.toListener + [j.connect.buffer])
    case TakeOffer =>
      var connect := H.AfterOffer(j.connect, Received(d.toLeft[0], d.right.address));
      j.(connect := connect, duplex := d.(left := d.left.(control := connect.control), toLeft := d.toLeft[1..]))
    case Confirm =>
      var out := if j.connect.peer == d.right.address then [j.connect.buffer] else [];
      j.(connect := H.AfterConfirm(j.connect, FULL, true), duplex := d.(toRight := d.toRight + out))
    case TakeSyn(port) =>
      var accept := H.AfterSyn(j.accept, Received(j.toListener[0], d.left.address), H.Fresh(port, true, true, true));
      var right := d.right.(address := Address(j.connect.address.host, port), control := accept.control);
      j.(accept := accept, toListener := j.toListener[1..],
         duplex := if accept.phase.Offering? then d.(right := right) else d)
    case SendOffer =>
      var offer := Datagram(SynAck, j.accept.control.seqno, j.accept.control.ackno, []);
      var out := if j.accept.client == d.left.address then [offer] else [];
      j.(accept := H.AfterOfferSent(j.accept, FULL), duplex := d.(toLeft := d.toLeft + out))
    case TakeConfirmation =>
      j.(accept := H.AfterConfirmation(j.accept, Received(d.toRight[0], d.left.address), true),
         duplex := d.(toRight := d.toRight[1..]))
    case Transfer(leftMoves, a) => j.(duplex := M.Step(d, leftMoves, a))
  }

  predicate IsRun(j: Joint, run: seq<Event>)
    decreases |run|
  {
    run == [] || (Possible(j, run[0]) && IsRun(Step(j, run[0]), run[1..]))
  }

  function After(j: Joint, run: seq<Event>): Joint
    requires IsRun(j, run)
    decreases |run|
  {
    if run == [] then j else After(Step(j, run[0]), run[1..])
  }

  /** What a run does behind the handshake. */
  function Transfers(run: seq<Event>): seq<(bool, M.Action)> {
    if run == [] then []
    else if run[0].Transfer? then [(run[0].leftMoves, run[0].a)] + Transfers(run[1..])
    else Transfers(run[1..])
  }

  /** Both calls have returned. */
  predicate Returned(j: Joint) {
    j.connect.phase.Connected? && (j.accept.phase.Accepted? || j.accept.phase.Refused?)
  }

  // --------------------------------------------------------------- invariant

  /** How far the handshake has come: the number of its events so far. */
  function Stage(j: Joint): nat {
    match j.connect.phase
    case Dialing(_) => 0
    case AwaitingOffer(_) =>
      if j.accept.phase.Listening? then 1 else if j.accept.phase.Offering? then 2 else 3
    case Confirming(_) => 4
    case Connected(_) => if j.accept.phase.AwaitingConfirm? then 5 else 6
  }

  function Child(server: Address, port: nat): Address {
    Address(server.host, port)
  }

  /** The endpoints as if the confirmation, when it is in front of the queue, had been taken already. */
  function Stripped(j: Joint): M.Duplex {
    if j.accept.phase.AwaitingConfirm? && j.duplex.toRight != []
    then j.duplex.(toRight := j.duplex.toRight[1..]) else j.duplex
  }

  function Taken(server: Address, port: nat, phase: H.ConnectPhase): H.ConnectCall {
    H.ConnectCall(server, H.ESTABLISHED, H.CONFIRMATION, Child(server, port), true, phase)
  }

  function Quiet(client: Address, control: Counters, child: Address, toLeft: seq<Datagram>): M.Duplex {
    M.Duplex(Idler(client, control), Idler(child, H.ESTABLISHED), [], toLeft)
  }

  /** The six events come in one order only, and transfers behind the fifth. */
  predicate AtStage(j: Joint, client: Address, server: Address, port: nat) {
    var waiting := H.StartConnect(server).(phase := H.AwaitingOffer(0));
    var accept := H.AcceptCall(H.ESTABLISHED, client, H.AwaitingConfirm(0, port));
    match Stage(j)
    case 0 => j == Start(client, server)
    case 1 => j == Start(client, server).(connect := waiting, toListener := [H.SYN_PACKET])
    case 2 => j == Joint(waiting, accept.(phase := H.Offering(0, port)), [],
                         Quiet(client, Counters(HEADER_SIZE, 0), Child(server, port), []))
    case 3 => j == Joint(waiting, accept, [], Quiet(client, Counters(HEADER_SIZE, 0), Child(server, port), [H.OFFER]))
    case 4 => j == Joint(Taken(server, port, H.Confirming(0)), accept, [],
                         Quiet(client, H.ESTABLISHED, Child(server, port), []))
    case 5 => && j.connect == Taken(server, port, H.Connected(0)) && j.accept == accept && j.toListener == []
              && j.duplex.toRight != [] && j.duplex.toRight[0] == H.CONFIRMATION
              && j.duplex.left.address == client
    case _ => && j.connect == Taken(server, port, H.Connected(0)) && j.toListener == []
              && j.accept == accept.(phase := H.Accepted(port))
  }

  /** An event of the handshake leads to its next stage. */
  lemma {:induction false} HandshakeStep(j: Joint, client: Address, server: Address, port: nat, e: Event)
    returns (port': nat)
    requires AtStage(j, client, server, port) && Possible(j, e) && !e.Transfer?
    ensures AtStage(Step(j, e), client, server, port') && Stage(Step(j, e)) == Stage(j) + 1
    ensures Stage(j) == 4 ==> Stripped(Step(j, e)) == M.Init(client, Child(server, port'))
    ensures Stage(j) == 5 ==> Stripped(Step(j, e)) == Stripped(j)
    ensures Stage(j) >= 2 ==> port' == port
  {
    port' := if e.TakeSyn? then e.port else port;
  }

  lemma {:induction false} TransferStep(j: Joint, client: Address, server: Address, port: nat, e: Event)
    requires AtStage(j, client, server, port) && Possible(j, e) && e.Transfer?
    ensures Stage(j) >= 5 && Stage(Step(j, e)) == Stage(j) && AtStage(Step(j, e), client, server, port)
    ensures M.CanStep(Stripped(j), e.leftMoves, e.a)
    ensures Stripped(Step(j, e)) == M.Step(Stripped(j), e.leftMoves, e.a)
  {}

  lemma {:induction false} TransferCons(j: Joint, e: Event, rest: seq<Event>)
    requires e.Transfer? && M.CanStep(Stripped(j), e.leftMoves, e.a)
    requires M.IsRun(M.Step(Stripped(j), e.leftMoves, e.a), Transfers(rest))
    ensures var ts := Transfers([e] + rest);
            && M.IsRun(Stripped(j), ts)
            && M.After(Stripped(j), ts) == M.After(M.Step(Stripped(j), e.leftMoves, e.a), Transfers(rest))
  {}

  lemma {:induction false} RunStages(j: Joint, client: Address, server: Address, port: nat, run: seq<Event>)
    returns (port': nat)
    requires AtStage(j, client, server, port) && IsRun(j, run)
    ensures AtStage(After(j, run), client, server, port') && (Stage(j) >= 2 ==> port' == port)
    ensures Stage(After(j, run)) == Stage(j) + |run| - |Transfers(run)|
    ensures Stage(After(j, run)) < 5 ==> Transfers(run) == []
    ensures Stage(After(j, run)) >= 5 ==>
              var from := if Stage(j) >= 5 then Stripped(j) else M.Init(client, Child(server, port'));
              M.IsRun(from, Transfers(run)) && Stripped(After(j, run)) == M.After(from, Transfers(run))
    decreases |run|
  {
    port' := port;
    if run != [] {
      var e, t := run[0], Step(j, run[0]);
      hide AtStage;
      if e.Transfer? {
        TransferStep(j, client, server, port, e);
        port' := RunStages(t, client, server, port, run[1..]);
        TransferCons(j, e, run[1..]);
        assert [e] + run[1..] == run;
      } else {
        var p := HandshakeStep(j, client, server, port, e);
        port' := RunStages(t, client, server, p, run[1..]);
      }
    }
  }

  // ------------------------------------------------------------ main theorems

  /** Without losses, whatever the interleaving, rudp_connect and rudp_accept succeed when they return, and agree on the
      child's address. They have both returned exactly after six events of the handshake. From then on the two endpoints
      are where their transfers lead from the start of the mirrored system, which is where they are when there have been
      none. */
  lemma {:induction false} LossFreeHandshake(client: Address, server: Address, run: seq<Event>)
    requires IsRun(Start(client, server), run)
    ensures var f := After(Start(client, server), run);
            && (Returned(f) <==> |run| - |Transfers(run)| == 6)
            && (Returned(f) ==>
                  && f.connect.phase == H.Connected(0) && f.accept.phase.Accepted?
                  && f.connect.peer == Child(server, f.accept.phase.port)
                  && f.connect.control == H.ESTABLISHED == f.accept.control && f.accept.client == client
                  && M.IsRun(M.Init(client, f.connect.peer), Transfers(run))
                  && f.duplex == M.After(M.Init(client, f.connect.peer), Transfers(run))
                  && (Transfers(run) == [] ==> f.duplex == M.Init(client, f.connect.peer)))
  {
    var port := RunStages(Start(client, server), client, server, 0, run);
  }

  /** Until both calls have returned, the handshake can go on. */
  lemma {:induction false} HandshakeGoesOn(client: Address, server: Address, run: seq<Event>) returns (e: Event)
    requires IsRun(Start(client, server), run) && !Returned(After(Start(client, server), run))
    ensures Possible(After(Start(client, server), run), e) && !e.Transfer?
  {
    var port := RunStages(Start(client, server), client, server, 0, run);
    match Stage(After(Start(client, server), run))
    case 0 => e := Dial;
    case 1 => e := TakeSyn(server.port + 1);
    case 2 => e := SendOffer;
    case 3 => e := TakeOffer;
    case 4 => e := Confirm;
    case _ => e := TakeConfirmation;
  }

  /** From the handshake through both FINs: once both calls have returned, whenever no transfer is under way the
      counters mirror each other and each endpoint has handled exactly what the other sent, every call at its first
      attempt. */
  lemma {:induction false} MirroredFromHandshake(client: Address, server: Address, run: seq<Event>)
    requires IsRun(Start(client, server), run) && Returned(After(Start(client, server), run))
    ensures M.Mirroring(After(Start(client, server), run).duplex)
  {
    LossFreeHandshake(client, server, run);
    M.MirrorInvariant(client, After(Start(client, server), run).connect.peer, Transfers(run));
  }
}
