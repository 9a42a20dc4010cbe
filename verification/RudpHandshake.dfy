/** The datagram branches of rudp_connect and rudp_accept (src/rudp/rudp.c): the calls as small-step machines
    and as the C loops that follow them, and the handshake as a transition system over a two-host network. */
module RudpHandshake {
  import opened Basics
  import opened RudpTypes
  import opened RudpCalls

  const ESTABLISHED := Counters(HEADER_SIZE, HEADER_SIZE)
  const SYN_PACKET := Datagram(Syn, HEADER_SIZE, 0, [])
  const CONFIRMATION := Datagram(Ack, HEADER_SIZE, HEADER_SIZE, [])
  const OFFER := Datagram(SynAck, HEADER_SIZE, HEADER_SIZE, [])

  type Sent = seq<(Address, Datagram)>

  // ------------------------------------------------------------ rudp_connect

  datatype ConnectPhase =
    | Dialing(attempt: nat)        // about to send the buffer to the listening address
    | AwaitingOffer(attempt: nat)  // about to call recvfrom
    | Confirming(attempt: nat)     // about to send the ACK to the address the offer came from
    | Connected(result: int)       // returned

  /** The buffer is the SYN until an offer has been taken, and from then on the ACK, also when dialling again. */
  datatype ConnectCall = ConnectCall(
    address: Address, control: Counters, buffer: Datagram, peer: Address, taken: bool, phase: ConnectPhase)
  {
    predicate Live() {
      match phase
      case Dialing(i) => i < N_ATTEMPT
      case AwaitingOffer(i) => i < N_ATTEMPT
      case Confirming(i) => i < N_ATTEMPT
      case Connected(_) => true
    }
  }

  function NextDial(attempt: nat): ConnectPhase {
    if attempt < N_ATTEMPT then Dialing(attempt) else Connected(RUDP_EXCEEDED_N_ATTEMPTS)
  }

  function StartConnect(address: Address): ConnectCall {
    ConnectCall(address, Counters(HEADER_SIZE, 0), SYN_PACKET, NOWHERE, false, NextDial(0))
  }

  function AfterDial(c: ConnectCall, ret: SendRet): ConnectCall
    requires c.phase.Dialing?
  {
    c.(phase := if ret.count == -1 || ret.again then Connected(RUDP_CLOSE_CONNECTION)
                else if ret.count != HEADER_SIZE then NextDial(c.phase.attempt + 1)
                else AwaitingOffer(c.phase.attempt))
  }

  /** As in the code, the host is looked at only when the flag is wrong. */
  predicate Rejects(address: Address, d: Datagram, from: Address) {
    d.flag != SynAck && (address.host == from.host || address.host == INADDR_ANY)
  }

  function AfterOffer(c: ConnectCall, ret: RecvRet): ConnectCall
    requires c.phase.AwaitingOffer?
  {
    var i := c.phase.attempt;
    match ret
    case RecvFailed(again) => c.(phase := if again then Connected(RUDP_CLOSE_CONNECTION) else NextDial(i + 1))
    case Received(d, from) =>
      if Rejects(c.address, d, from) then c.(phase := NextDial(i + 1))
      else
        var control := c.control.(ackno := HEADER_SIZE);
        c.(peer := from, taken := true, control := control,
           buffer := Datagram(Ack, control.seqno, control.ackno, []), phase := Confirming(i))
  }

  function AfterConfirm(c: ConnectCall, ret: SendRet, restoreOk: bool): ConnectCall
    requires c.phase.Confirming?
  {
    c.(phase := if ret.count == -1 && ret.again then Connected(RUDP_CLOSE_CONNECTION)
                else if ret.count != HEADER_SIZE then NextDial(c.phase.attempt + 1)
                else Connected(if restoreOk then 0 else RUDP_SETSOCKOPT))
  }

  /** The system calls of one attempt of rudp_connect. */
  datatype ConnectTry = ConnectTry(dial: SendRet, offer: RecvRet, confirm: SendRet)

  /** One pass through the loop: the call where it goes round or returns, and what the pass put on the wire. */
  function ConnectAttempt(c: ConnectCall, t: ConnectTry, restoreOk: bool): (r: (ConnectCall, Sent))
    requires c.phase.Dialing? && c.Live()
    ensures r.0.phase.Connected? || (r.0.Live() && r.0.phase == Dialing(c.phase.attempt + 1))
  {
    var out := if t.dial.count == HEADER_SIZE then [(c.address, c.buffer)] else [];
    var dialled := AfterDial(c, t.dial);
    if !dialled.phase.AwaitingOffer? then (dialled, out) else
      var offered := AfterOffer(dialled, t.offer);
      if !offered.phase.Confirming? then (offered, out) else
        (AfterConfirm(offered, t.confirm, restoreOk),
         if t.confirm.count == HEADER_SIZE then out + [(offered.peer, offered.buffer)] else out)
  }

  /** The call after its return, and the datagrams it put on the wire. */
  function RunConnect(c: ConnectCall, tries: seq<ConnectTry>, restoreOk: bool): (r: (ConnectCall, Sent))
    requires |tries| == N_ATTEMPT && c.Live() && (c.phase.Dialing? || c.phase.Connected?)
    decreases if c.phase.Dialing? then N_ATTEMPT - c.phase.attempt else 0
  {
    if c.phase.Connected? then (c, []) else
      var once := ConnectAttempt(c, tries[c.phase.attempt], restoreOk);
      var rest := RunConnect(once.0, tries, restoreOk);
      (rest.0, once.1 + rest.1)
  }

  lemma {:induction false} RunConnectOnce(c: ConnectCall, tries: seq<ConnectTry>, restoreOk: bool, sent: Sent)
    requires |tries| == N_ATTEMPT && c.Live() && c.phase.Dialing?
    ensures var once := ConnectAttempt(c, tries[c.phase.attempt], restoreOk);
            Prepend(sent, RunConnect(c, tries, restoreOk)) ==
            Prepend(sent + once.1, RunConnect(once.0, tries, restoreOk))
  {
    var once := ConnectAttempt(c, tries[c.phase.attempt], restoreOk);
    var rest := RunConnect(once.0, tries, restoreOk);
    assert sent + (once.1 + rest.1) == sent + once.1 + rest.1;
  }

  /** The call in terms of whether an offer has been taken, and the last one from where. */
  function Dialer(address: Address, peer: Address, taken: bool, phase: ConnectPhase): ConnectCall {
    ConnectCall(address, Counters(HEADER_SIZE, if taken then HEADER_SIZE else 0),
                if taken then CONFIRMATION else SYN_PACKET, peer, taken, phase)
  }

  /** What is left of the call that is about to dial for the i-th time, behind what has left the host already. */
  function Redial(address: Address, peer: Address, taken: bool, i: nat, tries: seq<ConnectTry>, restoreOk: bool,
                  sent: Sent): (ConnectCall, Sent)
    requires |tries| == N_ATTEMPT
  {
    Prepend(sent, RunConnect(Dialer(address, peer, taken, NextDial(i)), tries, restoreOk))
  }

  /** One pass through the loop that takes no offer. */
  lemma {:induction false} VainRound(address: Address, peer: Address, taken: bool, i: nat, tries: seq<ConnectTry>,
                                     restoreOk: bool, sent: Sent)
    requires |tries| == N_ATTEMPT && i < N_ATTEMPT
    ensures var t, c := tries[i], Dialer(address, peer, taken, Dialing(i));
            var all := if t.dial.count == HEADER_SIZE then sent + [(address, c.buffer)] else sent;
            var goal := Redial(address, peer, taken, i, tries, restoreOk, sent);
            && (t.dial.count == -1 || t.dial.again ||
                (t.dial.count == HEADER_SIZE && t.offer.RecvFailed? && t.offer.again) ==>
                  goal == (Dialer(address, peer, taken, Connected(RUDP_CLOSE_CONNECTION)), all))
            && (t.dial.count != -1 && !t.dial.again &&
                (t.dial.count != HEADER_SIZE || (t.offer.RecvFailed? && !t.offer.again) ||
                 (t.offer.Received? && Rejects(address, t.offer.d, t.offer.from))) ==>
                  goal == Redial(address, peer, taken, i + 1, tries, restoreOk, all))
  {
    var c := Dialer(address, peer, taken, Dialing(i));
    RunConnectOnce(c, tries, restoreOk, sent);
    var once := ConnectAttempt(c, tries[i], restoreOk);
    hide RunConnect;
    assert sent + [] == sent && forall out: Sent :: out + [] == out;
  }

  /** One pass that takes an offer. */
  lemma {:induction false} TakingRound(address: Address, peer: Address, taken: bool, i: nat, tries: seq<ConnectTry>,
                                       restoreOk: bool, sent: Sent)
    requires |tries| == N_ATTEMPT && i < N_ATTEMPT && tries[i].dial == SendRet(HEADER_SIZE, false)
    requires tries[i].offer.Received? && !Rejects(address, tries[i].offer.d, tries[i].offer.from)
    ensures var t, from := tries[i], tries[i].offer.from;
            var dialled := sent + [(address, Dialer(address, peer, taken, Dialing(i)).buffer)];
            var all := if t.confirm.count == HEADER_SIZE then dialled + [(from, CONFIRMATION)] else dialled;
            Redial(address, peer, taken, i, tries, restoreOk, sent) ==
            if t.confirm.count == -1 && t.confirm.again
            then (Dialer(address, from, true, Connected(RUDP_CLOSE_CONNECTION)), all)
            else if t.confirm.count != HEADER_SIZE then Redial(address, from, true, i + 1, tries, restoreOk, all)
            else (Dialer(address, from, true, Connected(if restoreOk then 0 else RUDP_SETSOCKOPT)), all)
  {
    var c := Dialer(address, peer, taken, Dialing(i));
    RunConnectOnce(c, tries, restoreOk, sent);
    var once := ConnectAttempt(c, tries[i], restoreOk);
    hide RunConnect;
    var out := [(address, c.buffer)];
    var confirmed := [(tries[i].offer.from, CONFIRMATION)];
    assert sent + (out + confirmed) == sent + out + confirmed;
    assert sent + out + [] == sent + out && sent + out + confirmed + [] == sent + out + confirmed;
  }

  /** rudp_connect. When an offer was taken, `peer` is what was last copied to connected_address. */
  method Connect(control: Control, address: Address, opts: Options, tries: seq<ConnectTry>)
    returns (result: int, taken: bool, peer: Address, emitted: Sent)
    requires |tries| == N_ATTEMPT
    modifies control
    ensures !opts.getOk || !opts.setOk ==>
              && result == (if opts.getOk then RUDP_SETSOCKOPT else RUDP_GETSOCKOPT)
              && !taken && emitted == [] && unchanged(control)
    ensures opts.getOk && opts.setOk ==>
              RunConnect(StartConnect(address), tries, opts.restoreOk) ==
              (ConnectCall(address, control.Value(), if taken then CONFIRMATION else SYN_PACKET,
                           peer, taken, Connected(result)), emitted)
  {
    taken, peer, emitted := false, NOWHERE, [];
    if !opts.getOk { return RUDP_GETSOCKOPT, taken, peer, emitted; }
    if !opts.setOk { return RUDP_SETSOCKOPT, taken, peer, emitted; }
    control.sequenceNumber, control.acknowledgementNumber := HEADER_SIZE, 0;
    var buffer := Datagram(Syn, control.sequenceNumber, control.acknowledgementNumber, []);
    ghost var goal := RunConnect(StartConnect(address), tries, opts.restoreOk);
    assert goal == Redial(address, peer, taken, 0, tries, opts.restoreOk, emitted) by {
      assert [] + goal.1 == goal.1;
    }
    result := RUDP_EXCEEDED_N_ATTEMPTS;
    hide RunConnect, Redial;
    var i := 0;
    while i < N_ATTEMPT
      invariant 0 <= i <= N_ATTEMPT && result == RUDP_EXCEEDED_N_ATTEMPTS
      invariant control.Value() == Counters(HEADER_SIZE, if taken then HEADER_SIZE else 0)
      invariant buffer == if taken then CONFIRMATION else SYN_PACKET
      invariant goal == Redial(address, peer, taken, i, tries, opts.restoreOk, emitted)
    {
      var t := tries[i];
      VainRound(address, peer, taken, i, tries, opts.restoreOk, emitted);
      ghost var before := emitted;
      if t.dial.count == HEADER_SIZE { emitted := emitted + [(address, buffer)]; }
      if t.dial.count == -1 || t.dial.again { result := RUDP_CLOSE_CONNECTION; return; }
      if t.dial.count == HEADER_SIZE {
        if t.offer.RecvFailed? {
          if t.offer.again { result := RUDP_CLOSE_CONNECTION; return; }
        } else if !(t.offer.d.flag != SynAck &&
                    ((address.host != INADDR_ANY && address.host == t.offer.from.host) || address.host == INADDR_ANY)) {
          TakingRound(address, peer, taken, i, tries, opts.restoreOk, before);
          taken, peer := true, t.offer.from;
          control.acknowledgementNumber := HEADER_SIZE;
          buffer := Datagram(Ack, control.sequenceNumber, control.acknowledgementNumber, []);
          if t.confirm.count == HEADER_SIZE { emitted := emitted + [(peer, buffer)]; }
          if t.confirm.count == -1 && t.confirm.again { result := RUDP_CLOSE_CONNECTION; return; }
          if t.confirm.count == HEADER_SIZE {
            result := if opts.restoreOk then 0 else RUDP_SETSOCKOPT;
            return;
          }
        }
      }
      i := i + 1;
    }
    DialedOut(address, peer, taken, tries, opts.restoreOk, emitted);
  }

  lemma {:induction false} DialedOut(address: Address, peer: Address, taken: bool, tries: seq<ConnectTry>,
                                     restoreOk: bool, sent: Sent)
    requires |tries| == N_ATTEMPT
    ensures Redial(address, peer, taken, N_ATTEMPT, tries, restoreOk, sent) ==
            (Dialer(address, peer, taken, Connected(RUDP_EXCEEDED_N_ATTEMPTS)), sent)
  {
    assert sent + [] == sent;
  }

  // ------------------------------------------------------------- rudp_accept

  datatype AcceptPhase =
    | Listening(attempt: nat)                    // about to call recvfrom on the listening socket
    | Offering(attempt: nat, port: nat)          // about to send SYN|ACK from the fresh socket
    | AwaitingConfirm(attempt: nat, port: nat)   // about to call recvfrom on the fresh socket
    | Accepted(port: nat)                        // left the loop by its success break
    | Refused(result: int)

  datatype AcceptCall = AcceptCall(control: Counters, client: Address, phase: AcceptPhase)
  {
    predicate Live() {
      match phase
      case Listening(i) => i < N_ATTEMPT
      case Offering(i, _) => i < N_ATTEMPT
      case AwaitingConfirm(i, _) => i < N_ATTEMPT
      case Accepted(_) => true
      case Refused(_) => true
    }
  }

  function NextListen(attempt: nat): AcceptPhase {
    if attempt < N_ATTEMPT then Listening(attempt) else Refused(RUDP_EXCEEDED_N_ATTEMPTS)
  }

  /** What rudp_socket and the socket options report after a SYN: the port the kernel picked, if any. */
  datatype Fresh = Fresh(port: nat, socketOk: bool, getOk: bool, setOk: bool)

  function AfterSyn(c: AcceptCall, ret: RecvRet, f: Fresh): AcceptCall
    requires c.phase.Listening?
  {
    var i := c.phase.attempt;
    match ret
    case RecvFailed(again) => c.(phase := if again then Refused(RUDP_CLOSE_CONNECTION) else NextListen(i + 1))
    case Received(d, from) =>
      if d.flag != Syn then c.(client := from, phase := NextListen(i + 1))
      else AcceptCall(ESTABLISHED, from,
                      if !f.socketOk then Refused(RUDP_SOCKET)
                      else if !f.getOk then Refused(RUDP_GETSOCKOPT)
                      else if !f.setOk then Refused(RUDP_SETSOCKOPT)
                      else Offering(i, f.port))
  }

  function AfterOfferSent(c: AcceptCall, ret: SendRet): AcceptCall
    requires c.phase.Offering?
  {
    c.(phase := if ret.count == -1 && ret.again then Refused(RUDP_CLOSE_CONNECTION)
                else if ret.count != HEADER_SIZE then NextListen(c.phase.attempt + 1)
                else AwaitingConfirm(c.phase.attempt, c.phase.port))
  }

  /** The flag of what arrives on the fresh socket is not looked at, only where it comes from. */
  function AfterConfirmation(c: AcceptCall, ret: RecvRet, restoreOk: bool): AcceptCall
    requires c.phase.AwaitingConfirm?
  {
    var i := c.phase.attempt;
    c.(phase := match ret
                case RecvFailed(again) => if again then Refused(RUDP_CLOSE_CONNECTION) else NextListen(i + 1)
                case Received(_, from) =>
                  if !restoreOk then Refused(RUDP_SETSOCKOPT)
                  else if from != c.client then NextListen(i + 1)
                  else Accepted(c.phase.port))
  }

  /** The system calls of one attempt of rudp_accept. */
  datatype AcceptTry = AcceptTry(syn: RecvRet, picked: Fresh, offer: SendRet, confirmation: RecvRet, restoreOk: bool)

  /** One pass through the loop of rudp_accept. */
  function AcceptAttempt(c: AcceptCall, t: AcceptTry): (r: (AcceptCall, Sent))
    requires c.phase.Listening? && c.Live()
    ensures r.0.phase.Accepted? || r.0.phase.Refused? || (r.0.Live() && r.0.phase == Listening(c.phase.attempt + 1))
  {
    var heard := AfterSyn(c, t.syn, t.picked);
    if !heard.phase.Offering? then (heard, []) else
      var offer := (heard.client, Datagram(SynAck, heard.control.seqno, heard.control.ackno, []));
      var out := if t.offer.count == HEADER_SIZE then [offer] else [];
      var offered := AfterOfferSent(heard, t.offer);
      if !offered.phase.AwaitingConfirm? then (offered, out) else
        (AfterConfirmation(offered, t.confirmation, t.restoreOk), out)
  }

  predicate Over(c: AcceptCall) {
    c.phase.Accepted? || c.phase.Refused?
  }

  function RunAccept(c: AcceptCall, tries: seq<AcceptTry>): (r: (AcceptCall, Sent))
    requires |tries| == N_ATTEMPT && c.Live() && (c.phase.Listening? || Over(c))
    ensures Over(r.0)
    decreases if c.phase.Listening? then N_ATTEMPT - c.phase.attempt else 0
  {
    if Over(c) then (c, []) else
      var once := AcceptAttempt(c, tries[c.phase.attempt]);
      var rest := RunAccept(once.0, tries);
      (rest.0, once.1 + rest.1)
  }

  lemma {:induction false} RunAcceptOnce(c: AcceptCall, tries: seq<AcceptTry>, sent: Sent)
    requires |tries| == N_ATTEMPT && c.Live() && c.phase.Listening?
    ensures var once := AcceptAttempt(c, tries[c.phase.attempt]);
            Prepend(sent, RunAccept(c, tries)) == Prepend(sent + once.1, RunAccept(once.0, tries))
  {
    var once := AcceptAttempt(c, tries[c.phase.attempt]);
    var rest := RunAccept(once.0, tries);
    assert sent + (once.1 + rest.1) == sent + once.1 + rest.1;
  }

  lemma {:induction false} RunAcceptOver(c: AcceptCall, tries: seq<AcceptTry>)
    requires |tries| == N_ATTEMPT && Over(c)
    ensures RunAccept(c, tries) == (c, [])
  {}

  /** rudp_accept up to its fork: `port` is that of the accepted socket when the loop was left by its break. */
  method Accept(control: Control, tries: seq<AcceptTry>)
    returns (accepted: bool, error: int, port: nat, client: Address, emitted: Sent)
    requires |tries| == N_ATTEMPT
    modifies control
    ensures RunAccept(AcceptCall(old(control.Value()), NOWHERE, NextListen(0)), tries) ==
            (AcceptCall(control.Value(), client, if accepted then Accepted(port) else Refused(error)), emitted)
  {
    accepted, error, port, client, emitted := false, RUDP_EXCEEDED_N_ATTEMPTS, 0, NOWHERE, [];
    ghost var call := AcceptCall(control.Value(), NOWHERE, NextListen(0));
    ghost var goal := RunAccept(call, tries);
    assert [] + goal.1 == goal.1;
    hide RunAccept;
    var i := 0;
    while i < N_ATTEMPT
      invariant 0 <= i <= N_ATTEMPT && !accepted && error == RUDP_EXCEEDED_N_ATTEMPTS
      invariant call == AcceptCall(control.Value(), client, NextListen(i))
      invariant goal == Prepend(emitted, RunAccept(call, tries))
    {
      RunAcceptOnce(call, tries, emitted);
      var t := tries[i];
      ghost var once := AcceptAttempt(call, t);
      ghost var after := emitted + once.1;
      assert emitted + [] == emitted && after + [] == after;
      call := once.0;
      if Over(call) { RunAcceptOver(call, tries); }
      if t.syn.RecvFailed? {
        if t.syn.again { error := RUDP_CLOSE_CONNECTION; return; }
      } else {
        client := t.syn.from;
        if t.syn.d.flag == Syn {
          control.sequenceNumber, control.acknowledgementNumber := HEADER_SIZE, HEADER_SIZE;
          var answer := Datagram(SynAck, control.sequenceNumber, control.acknowledgementNumber, []);
          if !t.picked.socketOk { error := RUDP_SOCKET; return; }
          if !t.picked.getOk { error := RUDP_GETSOCKOPT; return; }
          if !t.picked.setOk { error := RUDP_SETSOCKOPT; return; }
          if t.offer.count == HEADER_SIZE { emitted := emitted + [(client, answer)]; }
          if t.offer.count == -1 && t.offer.again { error := RUDP_CLOSE_CONNECTION; return; }
          if t.offer.count == HEADER_SIZE {
            match t.confirmation
            case RecvFailed(again) =>
              if again { error := RUDP_CLOSE_CONNECTION; return; }
            case Received(_, from) =>
              if !t.restoreOk { error := RUDP_SETSOCKOPT; return; }
              if from == client {
                accepted, port := true, t.picked.port;
                return;
              }
          }
        }
      }
      i := i + 1;
    }
    assert emitted + [] == emitted;
  }

  // ------------------------------------------------------------- the network

  /** A datagram with its addresses; the network keeps everything ever sent. */
  datatype Packet = Packet(src: Address, dst: Address, d: Datagram)

  /** A child process: the port it serves and its copy of the control block. */
  datatype Session = Session(port: nat, control: Counters, client: Address)

  datatype Net = Net(
    client: Address, server: Address,       // the client's socket and the listening socket
    connect: ConnectCall, accept: AcceptCall,
    packets: set<Packet>, used: set<nat>,   // ports of the server host that have been bound
    sessions: seq<Session>)

  datatype Move =
    | Dial(ret: SendRet)
    | TakeOffer(got: RecvRet)
    | Confirm(ret: SendRet, restoreOk: bool)
    | BeginAccept
    | TakeSyn(got: RecvRet, f: Fresh)
    | SendOffer(ret: SendRet)
    | TakeConfirmation(got: RecvRet, restoreOk: bool)

  function Start(client: Address, server: Address): Net {
    Net(client, server, StartConnect(server), AcceptCall(Counters(0, 0), NOWHERE, NextListen(0)),
        {}, {server.port}, [])
  }

  predicate Arrives(n: Net, at: Address, got: RecvRet) {
    got.Received? ==> Packet(got.from, at, got.d) in n.packets
  }

  predicate CanMove(n: Net, m: Move) {
    match m
    case Dial(_) => n.connect.phase.Dialing?
    case TakeOffer(got) => n.connect.phase.AwaitingOffer? && Arrives(n, n.client, got)
    case Confirm(_, _) => n.connect.phase.Confirming?
    case BeginAccept => n.accept.phase.Accepted? || n.accept.phase.Refused?
    case TakeSyn(got, f) => n.accept.phase.Listening? && Arrives(n, n.server, got) && f.port !in n.used
    case SendOffer(_) => n.accept.phase.Offering?
    case TakeConfirmation(got, _) =>
      n.accept.phase.AwaitingConfirm? && Arrives(n, Address(n.server.host, n.accept.phase.port), got)
  }

  function Emit(n: Net, ret: SendRet, src: Address, dst: Address, d: Datagram): set<Packet> {
    if ret.count == HEADER_SIZE then n.packets + {Packet(src, dst, d)} else n.packets
  }

  function Moved(n: Net, m: Move): Net
    requires CanMove(n, m)
  {
    match m
    case Dial(ret) =>
      n.(connect := AfterDial(n.connect, ret),
         packets := Emit(n, ret, n.client, n.connect.address, n.connect.buffer))
    case TakeOffer(got) => n.(connect := AfterOffer(n.connect, got))
    case Confirm(ret, restoreOk) =>
      n.(connect := AfterConfirm(n.connect, ret, restoreOk),
         packets := Emit(n, ret, n.client, n.connect.peer, n.connect.buffer))
    case BeginAccept => n.(accept := AcceptCall(n.accept.control, NOWHERE, NextListen(0)))
    case TakeSyn(got, f) =>
      var accept := AfterSyn(n.accept, got, f);
      n.(accept := accept, used := if accept.phase.Offering? then n.used + {f.port} else n.used)
    case SendOffer(ret) =>
      var c := n.accept;
      n.(accept := AfterOfferSent(c, ret),
         packets := Emit(n, ret, Address(n.server.host, c.phase.port), c.client,
                         Datagram(SynAck, c.control.seqno, c.control.ackno, [])))
    case TakeConfirmation(got, restoreOk) =>
      var accept := AfterConfirmation(n.accept, got, restoreOk);
      n.(accept := accept,
         sessions := if accept.phase.Accepted?
                     then n.sessions + [Session(accept.phase.port, accept.control, accept.client)] else n.sessions)
  }

  predicate IsPlay(n: Net, play: seq<Move>)
    decreases |play|
  {
    play == [] || (CanMove(n, play[0]) && IsPlay(Moved(n, play[0]), play[1..]))
  }

  function Outcome(n: Net, play: seq<Move>): Net
    requires IsPlay(n, play)
    decreases |play|
  {
    if play == [] then n else Outcome(Moved(n, play[0]), play[1..])
  }

  // --------------------------------------------------------------- agreement

  predicate ServerPort(n: Net, p: nat) {
    p in n.used && p != n.server.port
  }

  /** The client has confirmed the offer from port p, which ends its call. */
  predicate ConfirmedTo(n: Net, p: nat) {
    && n.connect.phase.Connected? && n.connect.taken
    && n.connect.peer == Address(n.server.host, p) && n.connect.control == ESTABLISHED
  }

  predicate PacketInv(n: Net, k: Packet) {
    || (k.src == n.client && k.dst == n.server && k.d.payload == [])
    || (k.src.host == n.server.host && ServerPort(n, k.src.port) && k.dst == n.client && k.d == OFFER)
    || (k.src == n.client && k.dst.host == n.server.host && ServerPort(n, k.dst.port) && k.d == CONFIRMATION
        && ConfirmedTo(n, k.dst.port))
  }

  predicate ClientInv(n: Net) {
    var c := n.connect;
    && c.address == n.server && c.control.seqno == HEADER_SIZE && c.buffer.payload == []
    && (c.taken ==> c.control == ESTABLISHED && c.buffer == CONFIRMATION && c.peer.host == n.server.host
                    && ServerPort(n, c.peer.port))
    && (c.phase.Confirming? ==> c.taken)
  }

  predicate AcceptInv(n: Net) {
    match n.accept.phase
    case Offering(_, p) => n.accept.control == ESTABLISHED && n.accept.client == n.client && ServerPort(n, p)
    case AwaitingConfirm(_, p) => n.accept.control == ESTABLISHED && n.accept.client == n.client && ServerPort(n, p)
                                  && Packet(Address(n.server.host, p), n.client, OFFER) in n.packets
    case _ => true
  }

  predicate SessionInv(n: Net, s: Session) {
    && s.control == ESTABLISHED && s.client == n.client && ServerPort(n, s.port) && ConfirmedTo(n, s.port)
    && Packet(Address(n.server.host, s.port), n.client, OFFER) in n.packets
    && Packet(n.client, Address(n.server.host, s.port), CONFIRMATION) in n.packets
  }

  predicate HandshakeInv(n: Net) {
    && n.client.host != n.server.host && n.server.port in n.used
    && ClientInv(n) && AcceptInv(n)
    && (forall k <- n.packets :: PacketInv(n, k))
    && (forall s <- n.sessions :: SessionInv(n, s))
  }

  lemma {:induction false} ClientMoveInv(n: Net, m: Move)
    requires HandshakeInv(n) && CanMove(n, m) && (m.Dial? || m.TakeOffer? || m.Confirm?)
    ensures HandshakeInv(Moved(n, m))
  {}

  lemma {:induction false} ServerMoveInv(n: Net, m: Move)
    requires HandshakeInv(n) && CanMove(n, m) && (m.BeginAccept? || m.TakeSyn? || m.SendOffer?)
    ensures HandshakeInv(Moved(n, m))
  {}

  lemma {:induction false} ConfirmationMoveInv(n: Net, m: Move)
    requires HandshakeInv(n) && CanMove(n, m) && m.TakeConfirmation?
    ensures HandshakeInv(Moved(n, m))
  {}

  lemma {:induction false} PlayInv(n: Net, play: seq<Move>)
    requires HandshakeInv(n) && IsPlay(n, play)
    ensures HandshakeInv(Outcome(n, play))
    decreases |play|
  {
    if play != [] {
      var m := play[0];
      if m.Dial? || m.TakeOffer? || m.Confirm? {
        ClientMoveInv(n, m);
      } else if m.TakeConfirmation? {
        ConfirmationMoveInv(n, m);
      } else {
        ServerMoveInv(n, m);
      }
      PlayInv(Moved(n, m), play[1..]);
    }
  }

  /** Handshake agreement: whatever is lost, duplicated or reordered and whichever sends fail, if rudp_accept
      reaches its success break on a port, that port is the address the client recorded, both control blocks
      hold the header size twice, and no other port is ever accepted. */
  lemma {:induction false} HandshakeAgreement(client: Address, server: Address, play: seq<Move>)
    requires client.host != server.host && IsPlay(Start(client, server), play)
    ensures var n := Outcome(Start(client, server), play);
            forall s <- n.sessions ::
              && n.connect.taken && n.connect.peer == Address(server.host, s.port)
              && s.control == ESTABLISHED && n.connect.control == ESTABLISHED
              && s.client == client && s.port != server.port
    ensures var n := Outcome(Start(client, server), play);
            forall s, t :: s in n.sessions && t in n.sessions ==> s == t
  {
    PlayInv(Start(client, server), play);
    var n := Outcome(Start(client, server), play);
    forall s <- n.sessions ensures SessionInv(n, s) {}
    SetupFixed(Start(client, server), play);
  }

  lemma {:induction false} SetupFixed(n: Net, play: seq<Move>)
    requires IsPlay(n, play)
    ensures Outcome(n, play).client == n.client && Outcome(n, play).server == n.server
    decreases |play|
  {
    if play != [] { SetupFixed(Moved(n, play[0]), play[1..]); }
  }
}
