/** Every play of the handshake is one rudp_connect and a sequence of rudp_accept calls, which do with the system calls
    of the play what is proved of the C loops. */
module RudpHandshakeRefinement {
  import opened Basics
  import opened RudpTypes
  import opened RudpCalls
  import opened RudpHandshake

  datatype ConnectTrace = ConnectTrace(tries: seq<ConnectTry>, restoreOk: bool, emitted: Sent)

  datatype AcceptTrace = AcceptTrace(before: Counters, tries: seq<AcceptTry>, emitted: Sent)

  datatype Traces = Traces(connect: ConnectTrace, accepts: seq<AcceptTrace>)

  /** At the start both calls have been made. */
  const STARTED := Traces(ConnectTrace([], true, []), [AcceptTrace(Counters(0, 0), [], [])])

  function Out(ret: SendRet, dst: Address, d: Datagram): Sent {
    if ret.count == HEADER_SIZE then [(dst, d)] else []
  }

  function RecordConnect(n: Net, m: Move, r: ConnectTrace): ConnectTrace {
    match m
    case Dial(ret) =>
      r.(tries := r.tries + [ConnectTry(ret, UNHEARD, UNSENT)],
         emitted := r.emitted + Out(ret, n.connect.address, n.connect.buffer))
    case TakeOffer(got) => if r.tries == [] then r else r.(tries := SetLast(r.tries, Last(r.tries).(offer := got)))
    case Confirm(ret, restoreOk) =>
      if r.tries == [] then r
      else r.(tries := SetLast(r.tries, Last(r.tries).(confirm := ret)), restoreOk := restoreOk,
              emitted := r.emitted + Out(ret, n.connect.peer, n.connect.buffer))
    case _ => r
  }

  function RecordAccept(n: Net, m: Move, h: seq<AcceptTrace>): seq<AcceptTrace> {
    if m.BeginAccept? then h + [AcceptTrace(n.accept.control, [], [])]
    else if h == [] then h
    else
      var r := Last(h);
      match m
      case TakeSyn(got, f) => SetLast(h, r.(tries := r.tries + [AcceptTry(got, f, UNSENT, UNHEARD, true)]))
      case SendOffer(ret) =>
        var offer := Datagram(SynAck, n.accept.control.seqno, n.accept.control.ackno, []);
        if r.tries == [] then h
        else SetLast(h, r.(tries := SetLast(r.tries, Last(r.tries).(offer := ret)),
                           emitted := r.emitted + Out(ret, n.accept.client, offer)))
      case TakeConfirmation(got, restoreOk) =>
        if r.tries == [] then h
        else SetLast(h, r.(tries := SetLast(r.tries, Last(r.tries).(confirmation := got, restoreOk := restoreOk))))
      case _ => h
  }

  function Recorded(n: Net, play: seq<Move>, h: Traces): Traces
    requires IsPlay(n, play)
    decreases |play|
  {
    if play == [] then h
    else Recorded(Moved(n, play[0]), play[1..],
                  Traces(RecordConnect(n, play[0], h.connect), RecordAccept(n, play[0], h.accepts)))
  }

  const NO_CONNECT := ConnectTry(UNSENT, UNHEARD, UNSENT)
  const NO_ACCEPT := AcceptTry(UNHEARD, Fresh(0, false, false, false), UNSENT, UNHEARD, true)

  // ----------------------------------------------------------- rudp_connect

  function ConnectRank(phase: ConnectPhase): nat {
    match phase
    case Dialing(i) => if i < N_ATTEMPT then 3 * (N_ATTEMPT - i) else 0
    case AwaitingOffer(i) => if i < N_ATTEMPT then 3 * (N_ATTEMPT - i) - 1 else 0
    case Confirming(i) => if i < N_ATTEMPT then 3 * (N_ATTEMPT - i) - 2 else 0
    case Connected(_) => 0
  }

  /** The rest of a call from any of its phases. */
  function ConnectFrom(c: ConnectCall, t: seq<ConnectTry>, ok: bool): (ConnectCall, Sent)
    requires |t| == N_ATTEMPT && c.Live()
    decreases ConnectRank(c.phase)
  {
    match c.phase
    case Dialing(i) => Prepend(Out(t[i].dial, c.address, c.buffer), ConnectFrom(AfterDial(c, t[i].dial), t, ok))
    case AwaitingOffer(i) => ConnectFrom(AfterOffer(c, t[i].offer), t, ok)
    case Confirming(i) =>
      Prepend(Out(t[i].confirm, c.peer, c.buffer), ConnectFrom(AfterConfirm(c, t[i].confirm, ok), t, ok))
    case Connected(_) => (c, [])
  }

  /** Phase by phase or attempt by attempt, it is the same call. */
  lemma {:induction false} ConnectFromIsRun(c: ConnectCall, t: seq<ConnectTry>, ok: bool)
    requires |t| == N_ATTEMPT && c.Live() && (c.phase.Dialing? || c.phase.Connected?)
    ensures ConnectFrom(c, t, ok) == RunConnect(c, t, ok)
    decreases ConnectRank(c.phase)
  {
    if c.phase.Dialing? {
      var i := c.phase.attempt;
      var once := ConnectAttempt(c, t[i], ok);
      ConnectFromIsRun(once.0, t, ok);
      hide RunConnect, Rejects;
      ConnectAttemptFrom(c, t, ok);
      RunConnectOnce(c, t, ok, []);
      assert [] + once.1 == once.1;
      assert [] + RunConnect(c, t, ok).1 == RunConnect(c, t, ok).1;
    }
  }

  lemma {:induction false} ConnectAttemptFrom(c: ConnectCall, t: seq<ConnectTry>, ok: bool)
    requires |t| == N_ATTEMPT && c.Live() && c.phase.Dialing?
    ensures var once := ConnectAttempt(c, t[c.phase.attempt], ok);
            ConnectFrom(c, t, ok) == Prepend(once.1, ConnectFrom(once.0, t, ok))
  {
    hide Rejects;
    var i := c.phase.attempt;
    var dialled := AfterDial(c, t[i].dial);
    var out := Out(t[i].dial, c.address, c.buffer);
    assert ConnectFrom(c, t, ok) == Prepend(out, ConnectFrom(dialled, t, ok));
    if dialled.phase.AwaitingOffer? {
      var offered := AfterOffer(dialled, t[i].offer);
      assert ConnectFrom(dialled, t, ok) == ConnectFrom(offered, t, ok);
      if offered.phase.Confirming? {
        var confirmed := AfterConfirm(offered, t[i].confirm, ok);
        var out' := Out(t[i].confirm, offered.peer, offered.buffer);
        var rest := ConnectFrom(confirmed, t, ok);
        assert out + (out' + rest.1) == out + out' + rest.1;
        assert out + [] == out;
      }
    }
  }

  predicate ConnectAgrees(now: ConnectPhase, tries: seq<ConnectTry>, t: seq<ConnectTry>) {
    match now
    case Dialing(i) => i < N_ATTEMPT == |t| && |tries| == i && t[..i] == tries
    case AwaitingOffer(i) =>
      i < N_ATTEMPT == |t| && |tries| == i + 1 && t[..i] == tries[..i] && t[i].dial == tries[i].dial
    case Confirming(i) =>
      && i < N_ATTEMPT == |t| && |tries| == i + 1 && t[..i] == tries[..i] && t[i].dial == tries[i].dial
      && t[i].offer == tries[i].offer
    case Connected(_) => false
  }

  /** However the attempts go on, the call that began as `start` is now c and has put this on the wire; or it is
      over. */
  ghost predicate ConnectIs(start: ConnectCall, c: ConnectCall, r: ConnectTrace) {
    && start.Live() && c.Live()
    && if c.phase.Connected? then ConnectFrom(start, Padded(r.tries, NO_CONNECT), r.restoreOk) == (c, r.emitted)
       else ConnectAgrees(c.phase, r.tries, Padded(r.tries, NO_CONNECT)) &&
            forall t: seq<ConnectTry>, ok: bool :: ConnectAgrees(c.phase, r.tries, t) ==>
              ConnectFrom(start, t, ok) == Prepend(r.emitted, ConnectFrom(c, t, ok))
  }

  /** The attempts t begin with those recorded up to attempt i, as far as the phase has looked at them. */
  predicate ConnectExtends(now: ConnectPhase, i: nat, r: ConnectTrace, t: seq<ConnectTry>, ok: bool)
    requires i < |r.tries|
  {
    && i < |t| == N_ATTEMPT && t[..i] == r.tries[..i] && t[i].dial == r.tries[i].dial
    && (now.AwaitingOffer? || t[i].offer == r.tries[i].offer)
    && (now.AwaitingOffer? || now.Confirming? || t[i].confirm == r.tries[i].confirm)
    && (now.Connected? ==> ok == r.restoreOk)
  }

  lemma {:induction false} ConnectGoesOn(start: ConnectCall, c: ConnectCall, r: ConnectTrace, i: nat)
    requires start.Live() && c.Live() && i < N_ATTEMPT && |r.tries| == i + 1
    requires match c.phase
             case Dialing(k) => k == i + 1
             case AwaitingOffer(k) => k == i
             case Confirming(k) => k == i
             case Connected(_) => true
    requires forall t: seq<ConnectTry>, ok: bool :: ConnectExtends(c.phase, i, r, t, ok) ==>
               ConnectFrom(start, t, ok) == Prepend(r.emitted, ConnectFrom(c, t, ok))
    ensures ConnectIs(start, c, r)
  {
    var w := Padded(r.tries, NO_CONNECT);
    assert w[..i] == w[..i + 1][..i] == r.tries[..i] && w[i] == w[..i + 1][i] == r.tries[i];
    if c.phase.Connected? {
      assert ConnectExtends(c.phase, i, r, w, r.restoreOk);
      assert ConnectFrom(c, w, r.restoreOk) == (c, []);
      hide ConnectFrom;
      assert r.emitted + [] == r.emitted;
    } else {
      hide ConnectFrom;
      forall t: seq<ConnectTry>, ok: bool | ConnectAgrees(c.phase, r.tries, t)
        ensures ConnectFrom(start, t, ok) == Prepend(r.emitted, ConnectFrom(c, t, ok))
      {
        if c.phase.Dialing? {
          assert t[..i] == t[..i + 1][..i] && t[i] == t[..i + 1][i];
        }
        assert ConnectExtends(c.phase, i, r, t, ok);
      }
    }
  }

  lemma {:induction false} PrependTwice<R>(a: Sent, b: Sent, rest: (R, Sent))
    ensures Prepend(a, Prepend(b, rest)) == Prepend(a + b, rest) && a + [] == a
  {
    assert a + (b + rest.1) == a + b + rest.1;
  }

  lemma {:induction false} DialKeeps(start: ConnectCall, n: Net, ret: SendRet, r: ConnectTrace)
    requires ConnectIs(start, n.connect, r) && n.connect.phase.Dialing?
    ensures ConnectIs(start, AfterDial(n.connect, ret), RecordConnect(n, Dial(ret), r))
  {
    var c, i := n.connect, n.connect.phase.attempt;
    var next, r' := AfterDial(c, ret), RecordConnect(n, Dial(ret), r);
    assert r'.tries[..i] == r.tries;
    forall t: seq<ConnectTry>, ok: bool | ConnectExtends(next.phase, i, r', t, ok)
      ensures ConnectFrom(start, t, ok) == Prepend(r'.emitted, ConnectFrom(next, t, ok))
    {
      assert ConnectAgrees(c.phase, r.tries, t);
      assert ConnectFrom(c, t, ok) == Prepend(Out(ret, c.address, c.buffer), ConnectFrom(next, t, ok));
      hide ConnectFrom;
      PrependTwice(r.emitted, Out(ret, c.address, c.buffer), ConnectFrom(next, t, ok));
    }
    ConnectGoesOn(start, next, r', i);
  }

  lemma {:induction false} OfferKeeps(start: ConnectCall, n: Net, got: RecvRet, r: ConnectTrace)
    requires ConnectIs(start, n.connect, r) && n.connect.phase.AwaitingOffer?
    ensures ConnectIs(start, AfterOffer(n.connect, got), RecordConnect(n, TakeOffer(got), r))
  {
    hide Rejects;
    var c, i := n.connect, n.connect.phase.attempt;
    var next, r' := AfterOffer(c, got), RecordConnect(n, TakeOffer(got), r);
    assert r'.tries[..i] == r.tries[..i];
    forall t: seq<ConnectTry>, ok: bool | ConnectExtends(next.phase, i, r', t, ok)
      ensures ConnectFrom(start, t, ok) == Prepend(r'.emitted, ConnectFrom(next, t, ok))
    {
      assert ConnectAgrees(c.phase, r.tries, t);
      assert ConnectFrom(c, t, ok) == ConnectFrom(next, t, ok);
    }
    ConnectGoesOn(start, next, r', i);
  }

  lemma {:induction false} ConfirmKeeps(start: ConnectCall, n: Net, ret: SendRet, restoreOk: bool, r: ConnectTrace)
    requires ConnectIs(start, n.connect, r) && n.connect.phase.Confirming?
    ensures ConnectIs(start, AfterConfirm(n.connect, ret, restoreOk), RecordConnect(n, Confirm(ret, restoreOk), r))
  {
    var c, i := n.connect, n.connect.phase.attempt;
    var next, r' := AfterConfirm(c, ret, restoreOk), RecordConnect(n, Confirm(ret, restoreOk), r);
    assert r'.tries[..i] == r.tries[..i];
    forall t: seq<ConnectTry>, ok: bool | ConnectExtends(next.phase, i, r', t, ok)
      ensures ConnectFrom(start, t, ok) == Prepend(r'.emitted, ConnectFrom(next, t, ok))
    {
      assert ConnectAgrees(c.phase, r.tries, t);
      assert AfterConfirm(c, ret, ok) == next;
      assert ConnectFrom(c, t, ok) == Prepend(Out(ret, c.peer, c.buffer), ConnectFrom(next, t, ok));
      hide ConnectFrom;
      PrependTwice(r.emitted, Out(ret, c.peer, c.buffer), ConnectFrom(next, t, ok));
    }
    ConnectGoesOn(start, next, r', i);
  }

  lemma {:induction false} ConnectStep(start: ConnectCall, n: Net, m: Move, r: ConnectTrace)
    requires ConnectIs(start, n.connect, r) && CanMove(n, m)
    ensures ConnectIs(start, Moved(n, m).connect, RecordConnect(n, m, r))
  {
    if m.Dial? {
      DialKeeps(start, n, m.ret, r);
    } else if m.TakeOffer? {
      OfferKeeps(start, n, m.got, r);
    } else if m.Confirm? {
      ConfirmKeeps(start, n, m.ret, m.restoreOk, r);
    } else {
      hide ConnectIs;
      assert RecordConnect(n, m, r) == r && Moved(n, m).connect == n.connect;
    }
  }

  // ------------------------------------------------------------ rudp_accept

  function AcceptRank(phase: AcceptPhase): nat {
    match phase
    case Listening(i) => if i < N_ATTEMPT then 3 * (N_ATTEMPT - i) else 0
    case Offering(i, _) => if i < N_ATTEMPT then 3 * (N_ATTEMPT - i) - 1 else 0
    case AwaitingConfirm(i, _) => if i < N_ATTEMPT then 3 * (N_ATTEMPT - i) - 2 else 0
    case Accepted(_) => 0
    case Refused(_) => 0
  }

  function Offer(c: AcceptCall): Datagram {
    Datagram(SynAck, c.control.seqno, c.control.ackno, [])
  }

  /** The rest of a call from any of its phases. */
  function AcceptFrom(c: AcceptCall, t: seq<AcceptTry>): (AcceptCall, Sent)
    requires |t| == N_ATTEMPT && c.Live()
    decreases AcceptRank(c.phase)
  {
    match c.phase
    case Listening(i) => AcceptFrom(AfterSyn(c, t[i].syn, t[i].picked), t)
    case Offering(i, _) => Prepend(Out(t[i].offer, c.client, Offer(c)), AcceptFrom(AfterOfferSent(c, t[i].offer), t))
    case AwaitingConfirm(i, _) => AcceptFrom(AfterConfirmation(c, t[i].confirmation, t[i].restoreOk), t)
    case _ => (c, [])
  }

  lemma {:induction false} AcceptFromIsRun(c: AcceptCall, t: seq<AcceptTry>)
    requires |t| == N_ATTEMPT && c.Live() && (c.phase.Listening? || Over(c))
    ensures AcceptFrom(c, t) == RunAccept(c, t)
    decreases AcceptRank(c.phase)
  {
    if c.phase.Listening? {
      var once := AcceptAttempt(c, t[c.phase.attempt]);
      AcceptFromIsRun(once.0, t);
      hide RunAccept;
      AcceptAttemptFrom(c, t);
      RunAcceptOnce(c, t, []);
      assert [] + once.1 == once.1;
      assert [] + RunAccept(c, t).1 == RunAccept(c, t).1;
    }
  }

  lemma {:induction false} AcceptAttemptFrom(c: AcceptCall, t: seq<AcceptTry>)
    requires |t| == N_ATTEMPT && c.Live() && c.phase.Listening?
    ensures var once := AcceptAttempt(c, t[c.phase.attempt]);
            AcceptFrom(c, t) == Prepend(once.1, AcceptFrom(once.0, t))
  {
    var i := c.phase.attempt;
    var heard := AfterSyn(c, t[i].syn, t[i].picked);
    var rest := AcceptFrom(heard, t);
    assert [] + rest.1 == rest.1;
    assert AcceptFrom(c, t) == rest;
    if heard.phase.Offering? {
      var offered := AfterOfferSent(heard, t[i].offer);
      assert rest == Prepend(Out(t[i].offer, heard.client, Offer(heard)), AcceptFrom(offered, t));
      if offered.phase.AwaitingConfirm? {
        assert AcceptFrom(offered, t) == AcceptFrom(AfterConfirmation(offered, t[i].confirmation, t[i].restoreOk), t);
      }
    }
  }

  predicate AcceptAgrees(now: AcceptPhase, tries: seq<AcceptTry>, t: seq<AcceptTry>) {
    match now
    case Listening(i) => i < N_ATTEMPT == |t| && |tries| == i && t[..i] == tries
    case Offering(i, _) =>
      && i < N_ATTEMPT == |t| && |tries| == i + 1 && t[..i] == tries[..i] && t[i].syn == tries[i].syn
      && t[i].picked == tries[i].picked
    case AwaitingConfirm(i, _) =>
      && i < N_ATTEMPT == |t| && |tries| == i + 1 && t[..i] == tries[..i] && t[i].syn == tries[i].syn
      && t[i].picked == tries[i].picked && t[i].offer == tries[i].offer
    case _ => false
  }

  function Begun(before: Counters): (c: AcceptCall)
    ensures c.Live() && c.phase.Listening?
  {
    AcceptCall(before, NOWHERE, NextListen(0))
  }

  ghost predicate AcceptIs(c: AcceptCall, r: AcceptTrace) {
    && c.Live()
    && if Over(c) then AcceptFrom(Begun(r.before), Padded(r.tries, NO_ACCEPT)) == (c, r.emitted)
       else AcceptAgrees(c.phase, r.tries, Padded(r.tries, NO_ACCEPT)) &&
            forall t: seq<AcceptTry> :: AcceptAgrees(c.phase, r.tries, t) ==>
              AcceptFrom(Begun(r.before), t) == Prepend(r.emitted, AcceptFrom(c, t))
  }

  predicate AcceptExtends(now: AcceptPhase, i: nat, r: AcceptTrace, t: seq<AcceptTry>)
    requires i < |r.tries|
  {
    && i < |t| == N_ATTEMPT && t[..i] == r.tries[..i] && t[i].syn == r.tries[i].syn && t[i].picked == r.tries[i].picked
    && (now.Offering? || t[i].offer == r.tries[i].offer)
    && (now.Offering? || now.AwaitingConfirm? || t[i] == r.tries[i])
  }

  lemma {:induction false} AcceptGoesOn(c: AcceptCall, r: AcceptTrace, i: nat)
    requires c.Live() && i < N_ATTEMPT && |r.tries| == i + 1
    requires match c.phase
             case Listening(k) => k == i + 1
             case Offering(k, _) => k == i
             case AwaitingConfirm(k, _) => k == i
             case _ => true
    requires forall t: seq<AcceptTry> :: AcceptExtends(c.phase, i, r, t) ==>
               AcceptFrom(Begun(r.before), t) == Prepend(r.emitted, AcceptFrom(c, t))
    ensures AcceptIs(c, r)
  {
    var w := Padded(r.tries, NO_ACCEPT);
    assert w[..i] == w[..i + 1][..i] == r.tries[..i] && w[i] == w[..i + 1][i] == r.tries[i];
    if Over(c) {
      assert AcceptExtends(c.phase, i, r, w);
      assert AcceptFrom(c, w) == (c, []);
      hide AcceptFrom;
      assert r.emitted + [] == r.emitted;
    } else {
      hide AcceptFrom;
      forall t: seq<AcceptTry> | AcceptAgrees(c.phase, r.tries, t)
        ensures AcceptFrom(Begun(r.before), t) == Prepend(r.emitted, AcceptFrom(c, t))
      {
        if c.phase.Listening? {
          assert t[..i] == t[..i + 1][..i] && t[i] == t[..i + 1][i];
        }
        assert AcceptExtends(c.phase, i, r, t);
      }
    }
  }

  lemma {:induction false} AcceptBegins(before: Counters)
    ensures AcceptIs(Begun(before), AcceptTrace(before, [], []))
  {
    forall t: seq<AcceptTry> | |t| == N_ATTEMPT
      ensures Prepend([], AcceptFrom(Begun(before), t)) == AcceptFrom(Begun(before), t)
    {
      assert [] + AcceptFrom(Begun(before), t).1 == AcceptFrom(Begun(before), t).1;
    }
  }

  lemma {:induction false} SynKeeps(n: Net, got: RecvRet, f: Fresh, r: AcceptTrace)
    requires AcceptIs(n.accept, r) && n.accept.phase.Listening?
    ensures AcceptIs(AfterSyn(n.accept, got, f), r.(tries := r.tries + [AcceptTry(got, f, UNSENT, UNHEARD, true)]))
  {
    var c, i := n.accept, n.accept.phase.attempt;
    var next, r' := AfterSyn(c, got, f), r.(tries := r.tries + [AcceptTry(got, f, UNSENT, UNHEARD, true)]);
    assert r'.tries[..i] == r.tries;
    forall t: seq<AcceptTry> | AcceptExtends(next.phase, i, r', t)
      ensures AcceptFrom(Begun(r.before), t) == Prepend(r'.emitted, AcceptFrom(next, t))
    {
      assert AcceptAgrees(c.phase, r.tries, t);
      assert AcceptFrom(c, t) == AcceptFrom(next, t);
    }
    AcceptGoesOn(next, r', i);
  }

  lemma {:induction false} OfferSentKeeps(n: Net, ret: SendRet, r: AcceptTrace)
    requires AcceptIs(n.accept, r) && n.accept.phase.Offering?
    ensures r.tries != []
    ensures AcceptIs(AfterOfferSent(n.accept, ret),
                     r.(tries := SetLast(r.tries, Last(r.tries).(offer := ret)),
                        emitted := r.emitted + Out(ret, n.accept.client, Offer(n.accept))))
  {
    var c, i := n.accept, n.accept.phase.attempt;
    var next, out := AfterOfferSent(c, ret), Out(ret, c.client, Offer(c));
    var r' := r.(tries := SetLast(r.tries, Last(r.tries).(offer := ret)), emitted := r.emitted + out);
    assert r'.tries[..i] == r.tries[..i];
    forall t: seq<AcceptTry> | AcceptExtends(next.phase, i, r', t)
      ensures AcceptFrom(Begun(r.before), t) == Prepend(r'.emitted, AcceptFrom(next, t))
    {
      assert AcceptAgrees(c.phase, r.tries, t);
      assert AcceptFrom(c, t) == Prepend(out, AcceptFrom(next, t));
      hide AcceptFrom;
      PrependTwice(r.emitted, out, AcceptFrom(next, t));
    }
    AcceptGoesOn(next, r', i);
  }

  lemma {:induction false} ConfirmationKeeps(n: Net, got: RecvRet, restoreOk: bool, r: AcceptTrace)
    requires AcceptIs(n.accept, r) && n.accept.phase.AwaitingConfirm?
    ensures r.tries != []
    ensures AcceptIs(AfterConfirmation(n.accept, got, restoreOk),
                     r.(tries := SetLast(r.tries, Last(r.tries).(confirmation := got, restoreOk := restoreOk))))
  {
    var c, i := n.accept, n.accept.phase.attempt;
    var next := AfterConfirmation(c, got, restoreOk);
    var r' := r.(tries := SetLast(r.tries, Last(r.tries).(confirmation := got, restoreOk := restoreOk)));
    assert r'.tries[..i] == r.tries[..i];
    forall t: seq<AcceptTry> | AcceptExtends(next.phase, i, r', t)
      ensures AcceptFrom(Begun(r.before), t) == Prepend(r'.emitted, AcceptFrom(next, t))
    {
      assert AcceptAgrees(c.phase, r.tries, t);
      assert AcceptFrom(c, t) == AcceptFrom(next, t);
    }
    AcceptGoesOn(next, r', i);
  }

  /** How a returned call ended, by the function that is proved of the loop. */
  function Ending(r: AcceptTrace): (AcceptCall, Sent) {
    RunAccept(Begun(r.before), Padded(r.tries, NO_ACCEPT))
  }

  /** The calls took the control block from one value to another, each where the one before had left it, and put the
      recorded offers on the wire. */
  predicate Chained(h: seq<AcceptTrace>, first: Counters, last: Counters) {
    if h == [] then first == last
    else
      var r := Last(h);
      Chained(h[..|h| - 1], first, r.before) && Ending(r).0.control == last && Ending(r).1 == r.emitted
  }

  /** The sessions of the calls that reached their success break. */
  function SessionsOf(h: seq<AcceptTrace>): seq<Session> {
    if h == [] then []
    else
      var c := Ending(Last(h)).0;
      SessionsOf(h[..|h| - 1]) + if c.phase.Accepted? then [Session(c.phase.port, c.control, c.client)] else []
  }

  /** The calls that have returned. */
  function Done(n: Net, h: seq<AcceptTrace>): seq<AcceptTrace> {
    if h == [] || Over(n.accept) then h else h[..|h| - 1]
  }

  ghost predicate AcceptsMatch(n: Net, h: seq<AcceptTrace>) {
    && h != [] && AcceptIs(n.accept, Last(h))
    && Chained(Done(n, h), Counters(0, 0), if Over(n.accept) then n.accept.control else Last(h).before)
    && n.sessions == SessionsOf(Done(n, h))
  }

  lemma {:induction false} EndingIs(c: AcceptCall, r: AcceptTrace)
    requires AcceptIs(c, r) && Over(c)
    ensures Ending(r) == (c, r.emitted)
  {
    AcceptFromIsRun(Begun(r.before), Padded(r.tries, NO_ACCEPT));
  }

  lemma {:induction false} LastAccepts(n: Net, h: seq<AcceptTrace>, t: Net, r: AcceptTrace)
    requires AcceptsMatch(n, h) && !Over(n.accept) && AcceptIs(t.accept, r) && r.before == Last(h).before
    requires t.sessions == n.sessions + if t.accept.phase.Accepted?
                                        then [Session(t.accept.phase.port, t.accept.control, t.accept.client)] else []
    ensures AcceptsMatch(t, SetLast(h, r))
  {
    hide AcceptIs, Ending;
    var h' := SetLast(h, r);
    assert h'[..|h| - 1] == h[..|h| - 1];
    if Over(t.accept) { EndingIs(t.accept, r); }
  }

  lemma {:induction false} AcceptStep(n: Net, m: Move, h: seq<AcceptTrace>)
    requires AcceptsMatch(n, h) && CanMove(n, m)
    ensures AcceptsMatch(Moved(n, m), RecordAccept(n, m, h))
  {
    var t, h' := Moved(n, m), RecordAccept(n, m, h);
    if m.BeginAccept? {
      AcceptBegins(n.accept.control);
      hide AcceptIs, Ending;
      assert h'[..|h|] == h;
    } else if m.TakeSyn? {
      SynKeeps(n, m.got, m.f, Last(h));
      hide AcceptIs, AcceptsMatch, AfterSyn;
      assert n.sessions + [] == n.sessions;
      AfterSynGoesOn(n.accept, m.got, m.f);
      LastAccepts(n, h, t, Last(h'));
    } else if m.SendOffer? {
      OfferSentKeeps(n, m.ret, Last(h));
      hide AcceptIs, AcceptsMatch;
      assert n.sessions + [] == n.sessions;
      LastAccepts(n, h, t, Last(h'));
    } else if m.TakeConfirmation? {
      ConfirmationKeeps(n, m.got, m.restoreOk, Last(h));
      hide AcceptIs, AcceptsMatch;
      assert n.sessions + [] == n.sessions;
      LastAccepts(n, h, t, Last(h'));
    } else {
      hide AcceptIs, Ending;
      assert h' == h && t.accept == n.accept && t.sessions == n.sessions;
    }
  }

  lemma {:induction false} AfterSynGoesOn(c: AcceptCall, got: RecvRet, f: Fresh)
    requires c.phase.Listening?
    ensures !AfterSyn(c, got, f).phase.Accepted?
  {}

  // --------------------------------------------------------------- the wire

  /** What one host has sent, as seen on the wire. */
  function WireOf(n: Net, fromClient: bool): set<(Address, Datagram)> {
    set k <- n.packets | (k.src.host == n.client.host) == fromClient :: (k.dst, k.d)
  }

  function Wire(sent: Sent): set<(Address, Datagram)> {
    set p <- sent
  }

  function Offers(h: seq<AcceptTrace>): set<(Address, Datagram)> {
    if h == [] then {} else Offers(h[..|h| - 1]) + Wire(Last(h).emitted)
  }

  predicate WireMatches(n: Net, h: Traces) {
    && n.client.host != n.server.host
    && WireOf(n, true) == Wire(h.connect.emitted) && WireOf(n, false) == Offers(h.accepts)
  }

  lemma {:induction false} EmitWire(n: Net, t: Net, ret: SendRet, src: Address, dst: Address, d: Datagram)
    requires t.packets == Emit(n, ret, src, dst, d) && t.client == n.client
    ensures var mine := src.host == n.client.host;
            WireOf(t, mine) == WireOf(n, mine) + Wire(Out(ret, dst, d)) && WireOf(t, !mine) == WireOf(n, !mine)
  {
    var mine, k := src.host == n.client.host, Packet(src, dst, d);
    assert Wire([(dst, d)]) == {(dst, d)} by {
      assert (dst, d) in [(dst, d)];
    }
    if ret.count == HEADER_SIZE {
      assert k in t.packets;
      assert forall x <- n.packets :: x in t.packets;
      assert forall x <- t.packets :: x in n.packets || x == k;
      assert (dst, d) in WireOf(t, mine);
    }
  }

  lemma {:induction false} WireAppend(a: Sent, b: Sent)
    ensures Wire(a + b) == Wire(a) + Wire(b)
  {
    assert forall p <- a + b :: p in a || p in b;
    assert forall p <- a :: p in a + b;
    assert forall p <- b :: p in a + b;
  }

  lemma {:induction false} OffersSetLast(h: seq<AcceptTrace>, r: AcceptTrace, out: Sent)
    requires h != [] && r.emitted == Last(h).emitted + out
    ensures Offers(SetLast(h, r)) == Offers(h) + Wire(out)
  {
    assert SetLast(h, r)[..|h| - 1] == h[..|h| - 1];
    WireAppend(Last(h).emitted, out);
  }

  lemma {:induction false} WireStep(n: Net, m: Move, h: Traces)
    requires WireMatches(n, h) && CanMove(n, m) && h.accepts != []
    requires m.TakeOffer? || m.Confirm? ==> h.connect.tries != []
    requires m.SendOffer? || m.TakeConfirmation? ==> Last(h.accepts).tries != []
    ensures WireMatches(Moved(n, m), Traces(RecordConnect(n, m, h.connect), RecordAccept(n, m, h.accepts)))
  {
    hide WireOf, Wire, Offers, AfterDial, AfterOffer, AfterConfirm, AfterSyn, AfterOfferSent, AfterConfirmation;
    var t := Moved(n, m);
    var c := n.accept;
    match m
    case Dial(ret) =>
      EmitWire(n, t, ret, n.client, n.connect.address, n.connect.buffer);
      WireAppend(h.connect.emitted, Out(ret, n.connect.address, n.connect.buffer));
    case Confirm(ret, _) =>
      EmitWire(n, t, ret, n.client, n.connect.peer, n.connect.buffer);
      WireAppend(h.connect.emitted, Out(ret, n.connect.peer, n.connect.buffer));
    case TakeOffer(_) => SameWire(n, t);
    case BeginAccept =>
      SameWire(n, t);
      NewOffers(h.accepts, AcceptTrace(c.control, [], []));
    case TakeSyn(_, _) =>
      SameWire(n, t);
      NoOffers(h.accepts, Last(RecordAccept(n, m, h.accepts)));
    case TakeConfirmation(_, _) =>
      SameWire(n, t);
      NoOffers(h.accepts, Last(RecordAccept(n, m, h.accepts)));
    case SendOffer(ret) =>
      EmitWire(n, t, ret, Address(n.server.host, c.phase.port), c.client, Offer(c));
      OffersSetLast(h.accepts, Last(RecordAccept(n, m, h.accepts)), Out(ret, c.client, Offer(c)));
  }

  lemma {:induction false} SameWire(n: Net, t: Net)
    requires t.packets == n.packets && t.client == n.client
    ensures WireOf(t, true) == WireOf(n, true) && WireOf(t, false) == WireOf(n, false)
  {}

  lemma {:induction false} NewOffers(h: seq<AcceptTrace>, r: AcceptTrace)
    requires r.emitted == []
    ensures Offers(h + [r]) == Offers(h)
  {
    assert (h + [r])[..|h|] == h;
  }

  lemma {:induction false} NoOffers(h: seq<AcceptTrace>, r: AcceptTrace)
    requires h != [] && r.emitted == Last(h).emitted
    ensures Offers(SetLast(h, r)) == Offers(h)
  {
    assert Last(h).emitted + [] == Last(h).emitted;
    OffersSetLast(h, r, []);
  }

  // --------------------------------------------------------------- whole plays

  ghost predicate PlayMatches(start: ConnectCall, n: Net, h: Traces) {
    ConnectIs(start, n.connect, h.connect) && AcceptsMatch(n, h.accepts) && WireMatches(n, h)
  }

  lemma {:induction false} RecordedMatches(start: ConnectCall, n: Net, play: seq<Move>, h: Traces)
    requires PlayMatches(start, n, h) && IsPlay(n, play)
    ensures PlayMatches(start, Outcome(n, play), Recorded(n, play, h))
    decreases |play|
  {
    if play != [] {
      var m := play[0];
      ConnectStep(start, n, m, h.connect);
      AcceptStep(n, m, h.accepts);
      WireStep(n, m, h);
      hide ConnectIs, AcceptsMatch, WireMatches, RecordConnect, RecordAccept;
      RecordedMatches(start, Moved(n, m), play[1..],
                      Traces(RecordConnect(n, m, h.connect), RecordAccept(n, m, h.accepts)));
    }
  }

  lemma {:induction false} StartMatches(client: Address, server: Address)
    requires client.host != server.host
    ensures PlayMatches(StartConnect(server), Start(client, server), STARTED)
  {
    var c := StartConnect(server);
    AcceptBegins(Counters(0, 0));
    forall t: seq<ConnectTry>, ok: bool | |t| == N_ATTEMPT
      ensures Prepend([], ConnectFrom(c, t, ok)) == ConnectFrom(c, t, ok)
    {
      assert [] + ConnectFrom(c, t, ok).1 == ConnectFrom(c, t, ok).1;
    }
    hide AcceptIs, ConnectFrom;
    assert STARTED.accepts[..0] == [];
    assert Offers(STARTED.accepts) == {};
  }

  /** In every play, whatever the server does in between, a client that has returned from rudp_connect has the result,
      the control block, the recorded address and the datagrams that RunConnect gives for its system calls. */
  lemma {:induction false} PlayIsConnect(client: Address, server: Address, play: seq<Move>)
    requires client.host != server.host && IsPlay(Start(client, server), play)
    ensures var n := Outcome(Start(client, server), play);
            var r := Recorded(Start(client, server), play, STARTED).connect;
            && WireOf(n, true) == Wire(r.emitted)
            && (n.connect.phase.Connected? ==>
                  RunConnect(StartConnect(server), Padded(r.tries, NO_CONNECT), r.restoreOk) == (n.connect, r.emitted))
  {
    StartMatches(client, server);
    RecordedMatches(StartConnect(server), Start(client, server), play, STARTED);
    var r := Recorded(Start(client, server), play, STARTED).connect;
    ConnectFromIsRun(StartConnect(server), Padded(r.tries, NO_CONNECT), r.restoreOk);
  }

  /** ... and the server's moves are calls of rudp_accept, each with the control block that the one before it left: the
      sessions are those of the calls that RunAccept lets reach their success break, and the offers on the wire are
      theirs. */
  lemma {:induction false} PlayIsAccepts(client: Address, server: Address, play: seq<Move>)
    requires client.host != server.host && IsPlay(Start(client, server), play)
    ensures var n := Outcome(Start(client, server), play);
            var h := Recorded(Start(client, server), play, STARTED).accepts;
            && h != [] && n.sessions == SessionsOf(Done(n, h)) && WireOf(n, false) == Offers(h)
            && Chained(Done(n, h), Counters(0, 0), if Over(n.accept) then n.accept.control else Last(h).before)
  {
    StartMatches(client, server);
    RecordedMatches(StartConnect(server), Start(client, server), play, STARTED);
  }
}
