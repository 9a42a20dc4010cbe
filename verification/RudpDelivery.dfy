/** What rudp_recv hands up over the arbitrary network, when no buffer is too small and no acknowledgement fails to
    leave: fresh deliveries are a prefix of what was sent, or one handshake datagram that was still in flight, and a
    confirmed FIN comes after everything before it. */
module RudpDelivery {
  import opened Basics
  import opened RudpTypes
  import opened RudpCalls
  import opened RudpDataPhase

  predicate Tidy(s: State) {
    !s.ackFailed && !s.truncated
  }

  /** The datagrams of the calls at which the acknowledgement number advanced, in order. */
  function Advanced(log: seq<Delivery>): seq<Datagram> {
    if log == [] then []
    else Advanced(log[..|log| - 1]) + if Last(log).advanced then [Last(log).d] else []
  }

  /** The datagram that has been accepted but whose call has not returned. */
  function Pending(s: State): seq<Datagram> {
    if s.receiving.phase.Replying? && s.advanced then [s.receiving.phase.got] else []
  }

  function Datagrams(accepted: seq<Accept>): (ds: seq<Datagram>)
    ensures |ds| == |accepted| && forall i :: 0 <= i < |ds| ==> ds[i] == accepted[i].d
  {
    seq(|accepted|, i requires 0 <= i < |accepted| => accepted[i].d)
  }

  /** Where a stream of these datagrams ends. */
  function End(ds: seq<Datagram>): nat {
    Boundary(ds, |ds|)
  }

  /** The call returned what it should: nothing for a FIN, and otherwise the whole payload. */
  predicate WellHandled(e: Delivery) {
    if e.d.flag == Fin then e.result == 0 && e.handed == [] else e.result == |e.d.payload| && e.handed == e.d.payload
  }

  predicate CallTidy(c: RecvCall) {
    match c.phase
    case Waiting(_, sawFin) => !sawFin
    case Replying(_, sawFin, got, count) => sawFin == (got.flag == Fin) && count == got.Size()
    case Finished(_, _) => true
  }

  predicate LogMatches(s: State) {
    Advanced(s.log) + Pending(s) == Datagrams(s.accepted)
  }

  predicate AcksLogged(s: State) {
    && (forall a <- s.backward :: a.flag == Ack ==> a.ackno <= End(Advanced(s.log)))
    && (forall k :: 0 <= k < |s.results| && s.results[k] >= 0 ==> k < |Advanced(s.log)|)
  }

  predicate Orderly(s: State) {
    && CallTidy(s.receiving)
    && LogMatches(s)
    && AcksLogged(s)
    && (forall e <- s.log :: WellHandled(e))
  }

  /** An entry is fresh exactly when its datagram begins where the fresh ones before it end. */
  predicate FreshAt(before: seq<Delivery>, d: Datagram, advanced: bool) {
    advanced <==> d.seqno == End(Advanced(before))
  }

  predicate FreshLog(s: State) {
    && (forall p {:trigger s.log[..p]} :: 0 <= p < |s.log| ==> FreshAt(s.log[..p], s.log[p].d, s.log[p].advanced))
    && (s.receiving.phase.Replying? ==> FreshAt(s.log, s.receiving.phase.got, s.advanced))
  }

  /** Whatever fails: what was received had been sent, or was in flight from the start. */
  predicate Copies(s: State) {
    && !s.link.atReceiver
    && (s.receiving.phase.Replying? ==> s.receiving.phase.got in s.forward)
    && (forall e <- s.log :: e.d in s.forward && e.handed <= e.d.payload)
  }

  predicate DeliveryInv(s: State, strays: set<Datagram>) {
    Inv(s, strays) && (Guarded(strays, s.begun) && Tidy(s) ==> Orderly(s) && FreshLog(s))
  }

  lemma {:induction false} BoundaryPrefix(begun: seq<Datagram>, m: nat, k: nat)
    requires k <= m <= |begun|
    ensures Boundary(begun[..m], k) == Boundary(begun, k)
  {
    if k > 0 { BoundaryPrefix(begun, m, k - 1); }
  }

  lemma {:induction false} EndAppend(ds: seq<Datagram>, d: Datagram)
    ensures End(ds + [d]) == End(ds) + d.Size()
  {
    BoundaryAppend(ds, d, |ds|);
  }

  /** The fresh deliveries are a prefix of what was sent, or one stray in front of a first message that is not empty. */
  predicate FreshShape(ds: seq<Datagram>, begun: seq<Datagram>, strays: set<Datagram>) {
    ds <= begun || (|ds| == 1 && ds[0] in strays && (begun != [] ==> begun[0].payload != []))
  }

  /** Without truncation the receiver stands at the end of what it has accepted. */
  lemma {:induction false} TidyEnd(s: State, strays: set<Datagram>)
    requires Place(s).Valid(strays) && !s.truncated && Strays(strays)
    ensures s.recvAck == End(Datagrams(s.accepted)) && FreshShape(Datagrams(s.accepted), s.begun, strays)
  {
    var ds, m := Datagrams(s.accepted), |s.accepted|;
    if Place(s).Aligned() {
      assert ds == s.begun[..m];
      BoundaryPrefix(s.begun, m, m);
    } else {
      assert ds == [] + [s.accepted[0].d];
      EndAppend([], s.accepted[0].d);
    }
  }

  lemma {:induction false} AdvancedAppend(log: seq<Delivery>, e: Delivery)
    ensures Advanced(log + [e]) == Advanced(log) + if e.advanced then [e.d] else []
  {}

  // ------------------------------------------------------------------- steps

  /** A step of the sender other than an answer, or the begin of a rudp_recv. */
  lemma {:induction false} QuietOrderly(s: State, a: Action)
    requires Orderly(s) && (a.BeginSend? || a.Sendto? || a.BeginRecv?) && Enabled(s, a)
    ensures Orderly(Next(s, a))
  {
    hide WellHandled, End, Advanced, Boundary;
    var t := Next(s, a);
    assert t.log == s.log && t.accepted == s.accepted && t.backward == s.backward && Pending(t) == Pending(s);
    assert forall k :: 0 <= k < |t.results| && t.results[k] >= 0 ==> k < |s.results| && s.results[k] >= 0;
  }

  /** A confirmed packet has been delivered. */
  lemma {:induction false} ConfirmedIsDelivered(s: State, strays: set<Datagram>, ackno: nat)
    requires s.begun != [] && Boundary(s.begun, |s.begun|) == ackno <= End(Advanced(s.log))
    requires FreshShape(Datagrams(s.accepted), s.begun, strays) && Strays(strays)
    requires Advanced(s.log) <= Datagrams(s.accepted)
    ensures |Advanced(s.log)| == |s.begun|
  {
    var ds, n := Advanced(s.log), |s.begun|;
    if ds <= s.begun {
      assert ds == s.begun[..|ds|];
      BoundaryPrefix(s.begun, |ds|, |ds|);
      if |ds| < n { BoundaryGap(s.begun, |ds|, n); }
    } else {
      assert ds == [] + [ds[0]];
      EndAppend([], ds[0]);
      BoundaryGap(s.begun, 0, n);
      assert false;
    }
  }

  lemma {:induction false} AnswerOrderly(s: State, strays: set<Datagram>, a: Action)
    requires Core(s, strays) && Orderly(s) && Tidy(s) && Strays(strays) && a.Answer? && Enabled(s, a)
    requires s.sendSeq == Boundary(s.begun, |s.begun|) && |s.results| == |s.begun| - 1
    ensures Orderly(Next(s, a))
  {
    hide WellHandled, End, Advanced, Boundary, Confirmed, Books;
    var t := Next(s, a);
    assert t.log == s.log && t.accepted == s.accepted && t.backward == s.backward && Pending(t) == Pending(s);
    if a.answer.Received? && IsAnswer(Call(s), a.answer.d, a.answer.from) {
      TidyEnd(s, strays);
      ConfirmedIsDelivered(s, strays, a.answer.d.ackno);
    }
  }

  lemma {:induction false} RecvfromOrderly(s: State, a: Action)
    requires Orderly(s) && a.Recvfrom? && Enabled(s, a) && Tidy(Next(s, a))
    ensures Orderly(Next(s, a))
  {}

  lemma {:induction false} ReplyOrderly(s: State, strays: set<Datagram>, a: Action)
    requires Place(s).Valid(strays) && Orderly(s) && Strays(strays) && a.Reply? && Enabled(s, a)
    requires Tidy(s) && Tidy(Next(s, a))
    ensures Orderly(Next(s, a))
  {
    var t := Next(s, a);
    var e := ReplyLogs(s, a);
    TidyEnd(s, strays);
    hide Advanced, End, Boundary, WellHandled, Datagrams;
    AdvancedAppend(s.log, e);
    assert Advanced(t.log) == Advanced(s.log) + Pending(s) == Datagrams(s.accepted);
    EndRises(Advanced(s.log), Pending(s));
    assert Pending(t) == [] && Advanced(t.log) + [] == Advanced(t.log);
  }

  /** The entry that a tidy reply makes in the log. */
  lemma {:induction false} ReplyLogs(s: State, a: Action) returns (e: Delivery)
    requires a.Reply? && Enabled(s, a) && CallTidy(s.receiving) && Tidy(Next(s, a))
    ensures Next(s, a).log == s.log + [e] && WellHandled(e)
    ensures (if e.advanced then [e.d] else []) == Pending(s)
  {
    var c, phase := s.receiving.phase, Next(s, a).receiving.phase;
    e := Delivery(c.got, s.advanced, phase.result, phase.handed);
    assert c.got.payload[..|c.got.payload|] == c.got.payload;
  }

  lemma {:induction false} EndRises(ds: seq<Datagram>, more: seq<Datagram>)
    requires |more| <= 1
    ensures End(ds) <= End(ds + more)
  {
    if more == [] {
      assert ds + more == ds;
    } else {
      assert more == [more[0]];
      EndAppend(ds, more[0]);
    }
  }

  lemma {:induction false} StepOrderly(s: State, strays: set<Datagram>, a: Action)
    requires Core(s, strays) && Orderly(s) && Strays(strays) && Enabled(s, a) && Tidy(s) && Tidy(Next(s, a))
    ensures Orderly(Next(s, a))
  {
    hide Confirmed;
    match a
    case BeginSend(_, _, _) => QuietOrderly(s, a);
    case Sendto(_) => QuietOrderly(s, a);
    case Answer(_, _) => AnswerOrderly(s, strays, a);
    case BeginRecv(_) => QuietOrderly(s, a);
    case Recvfrom(_) => RecvfromOrderly(s, a);
    case Reply(_) => ReplyOrderly(s, strays, a);
  }

  lemma {:induction false} RecvfromFresh(s: State, strays: set<Datagram>, a: Action)
    requires FreshLog(s) && a.Recvfrom? && Enabled(s, a)
    requires Place(s).Valid(strays) && Strays(strays) && !s.truncated && LogMatches(s)
    ensures FreshLog(Next(s, a))
  {
    var t := Next(s, a);
    TidyEnd(s, strays);
    assert t.log == s.log && Pending(s) == [] && Advanced(s.log) == Datagrams(s.accepted);
  }

  lemma {:induction false} ReplyFresh(s: State, a: Action)
    requires FreshLog(s) && a.Reply? && Enabled(s, a)
    ensures FreshLog(Next(s, a))
  {
    hide FreshAt;
    var t := Next(s, a);
    assert !t.receiving.phase.Replying?;
    if t.log != s.log {
      assert t.log[..|s.log|] == s.log;
      assert forall p :: 0 <= p < |s.log| ==> t.log[..p] == s.log[..p];
    }
  }

  lemma {:induction false} StepFresh(s: State, strays: set<Datagram>, a: Action)
    requires Core(s, strays) && Orderly(s) && FreshLog(s) && Strays(strays) && Tidy(s) && Enabled(s, a)
    ensures FreshLog(Next(s, a))
  {
    hide Books, Confirmed, FreshAt;
    if a.Recvfrom? {
      RecvfromFresh(s, strays, a);
    } else if a.Reply? {
      ReplyFresh(s, a);
    } else {
      assert Next(s, a).log == s.log;
    }
  }

  lemma {:induction false} OtherCopies(s: State, a: Action)
    requires Copies(s) && !a.Recvfrom? && !a.Reply? && Enabled(s, a)
    ensures Copies(Next(s, a))
  {
    assert Next(s, a).log == s.log && s.forward <= Next(s, a).forward;
  }

  lemma {:induction false} CopiesStep(s: State, a: Action)
    requires Copies(s) && Enabled(s, a)
    ensures Copies(Next(s, a))
  {
    if !a.Recvfrom? && !a.Reply? { OtherCopies(s, a); }
  }

  lemma {:induction false} RunCopies(s: State, run: seq<Action>)
    requires Copies(s) && IsRun(s, run)
    ensures Copies(After(s, run))
    decreases |run|
  {
    if run != [] {
      CopiesStep(s, run[0]);
      hide Copies;
      RunCopies(Next(s, run[0]), run[1..]);
    }
  }

  lemma {:induction false} StepDelivery(s: State, strays: set<Datagram>, a: Action)
    requires DeliveryInv(s, strays) && Strays(strays) && Enabled(s, a)
    ensures DeliveryInv(Next(s, a), strays)
  {
    hide Orderly, FreshLog, Core, Books;
    var t := Next(s, a);
    StepInv(s, strays, a);
    if Guarded(strays, t.begun) && Tidy(t) {
      assert Guarded(strays, s.begun) && Tidy(s) by { EarlierStates(s, strays, a); }
      StepOrderly(s, strays, a);
      StepFresh(s, strays, a);
    }
  }

  lemma {:induction false} EarlierStates(s: State, strays: set<Datagram>, a: Action)
    requires Enabled(s, a) && Guarded(strays, Next(s, a).begun) && Tidy(Next(s, a))
    ensures Guarded(strays, s.begun) && Tidy(s)
  {}

  lemma {:induction false} InitDelivery(strays: set<Datagram>, stale: set<Datagram>, link: Link)
    requires Stale(stale) && Shielded(link)
    ensures DeliveryInv(Init(strays, stale, link), strays) && Copies(Init(strays, stale, link))
  {}

  lemma {:induction false} RunDelivery(s: State, strays: set<Datagram>, run: seq<Action>)
    requires DeliveryInv(s, strays) && Strays(strays) && IsRun(s, run)
    ensures DeliveryInv(After(s, run), strays)
    decreases |run|
  {
    if run != [] {
      hide DeliveryInv;
      StepDelivery(s, strays, run[0]);
      RunDelivery(Next(s, run[0]), strays, run[1..]);
    }
  }

  // ------------------------------------------------------------ main theorems

  lemma {:induction false} FreshPrefix(s: State, strays: set<Datagram>)
    requires DeliveryInv(s, strays) && Guarded(strays, s.begun) && Tidy(s) && Strays(strays)
    ensures FreshShape(Advanced(s.log), s.begun, strays)
    ensures forall e <- s.log :: WellHandled(e)
  {}

  /** Fresh deliveries are a prefix of what was sent, unless the first and only one is a handshake datagram that was
      still in flight; every delivery hands up a copy of something sent or of such a datagram, whole, and a FIN is
      answered with 0. */
  lemma {:induction false} FreshDeliveriesArePrefix(strays: set<Datagram>, stale: set<Datagram>, link: Link,
                                                    run: seq<Action>)
    requires Strays(strays) && Stale(stale) && Shielded(link) && IsRun(Init(strays, stale, link), run)
    requires var s := After(Init(strays, stale, link), run); Tidy(s) && Guarded(strays, s.begun)
    ensures var s := After(Init(strays, stale, link), run);
            && (Advanced(s.log) <= s.begun || exists d <- strays :: Advanced(s.log) == [d])
            && forall e <- s.log :: (e.d in s.begun || e.d in strays) && e.d in s.forward && WellHandled(e)
  {
    InitDelivery(strays, stale, link);
    RunDelivery(Init(strays, stale, link), strays, run);
    RunCopies(Init(strays, stale, link), run);
    var s := After(Init(strays, stale, link), run);
    FreshPrefix(s, strays);
    if !(Advanced(s.log) <= s.begun) {
      assert Advanced(s.log)[0] in strays && Advanced(s.log) == [Advanced(s.log)[0]];
    }
  }

  /** The p-th returned call is fresh exactly when the fresh deliveries before it are all the messages before its
      own; in particular a FIN ends the stream where the sender ended it if and only if it is fresh. */
  lemma {:induction false} FreshIffNext(strays: set<Datagram>, stale: set<Datagram>, link: Link, run: seq<Action>,
                                        p: nat, k: nat)
    requires Strays(strays) && Stale(stale) && Shielded(link) && IsRun(Init(strays, stale, link), run)
    requires var s := After(Init(strays, stale, link), run);
             Tidy(s) && Guarded(strays, s.begun) && p < |s.log| && k < |s.begun| && s.log[p].d == s.begun[k]
    ensures var s := After(Init(strays, stale, link), run);
            s.log[p].advanced <==> Advanced(s.log[..p]) == s.begun[..k]
  {
    InitDelivery(strays, stale, link);
    RunDelivery(Init(strays, stale, link), strays, run);
    FreshIffNextState(After(Init(strays, stale, link), run), strays, p, k);
  }

  lemma {:induction false} FreshIffNextState(s: State, strays: set<Datagram>, p: nat, k: nat)
    requires DeliveryInv(s, strays) && Guarded(strays, s.begun) && Tidy(s) && Strays(strays)
    requires p < |s.log| && k < |s.begun| && s.log[p].d == s.begun[k]
    ensures s.log[p].advanced <==> Advanced(s.log[..p]) == s.begun[..k]
  {
    hide WellHandled, AcksLogged;
    var ds := Advanced(s.log[..p]);
    FreshPrefix(s, strays);
    AdvancedPrefix(s.log, p);
    assert FreshAt(s.log[..p], s.log[p].d, s.log[p].advanced);
    assert Tile(s.begun, k);
    NextBegins(ds, s.begun, strays, k);
  }

  /** Message k begins where the fresh deliveries end if and only if they are the messages before it. */
  lemma {:induction false} NextBegins(ds: seq<Datagram>, begun: seq<Datagram>, strays: set<Datagram>, k: nat)
    requires FreshShape(ds, begun, strays) && Strays(strays) && Tiled(begun) && k < |begun|
    ensures Boundary(begun, k) == End(ds) <==> ds == begun[..k]
  {
    var m := |ds|;
    BoundaryPrefix(begun, k, k);
    if ds <= begun {
      assert ds == begun[..m];
      BoundaryPrefix(begun, m, m);
      if m < k { BoundaryGap(begun, m, k); }
      if k < m { BoundaryGap(begun, k, m); }
    } else {
      assert ds == [] + [ds[0]];
      EndAppend([], ds[0]);
      if k > 0 {
        BoundaryGap(begun, 0, k);
        assert Tile(begun, 0);
        assert begun[..k][0] == begun[0];
      }
    }
  }

  lemma {:induction false} AdvancedPrefix(log: seq<Delivery>, p: nat)
    requires p <= |log|
    ensures Advanced(log[..p]) <= Advanced(log)
  {
    if p < |log| {
      AdvancedPrefix(log[..|log| - 1], p);
      assert log[..|log| - 1][..p] == log[..p];
    } else {
      assert log[..p] == log;
    }
  }

  // --------------------------------------------------- what a FIN overtakes

  /** Wherever d is message k and the call for message k - 1 reported success, the fresh deliveries so far are at least
      k. */
  predicate Behind(s: State, before: seq<Delivery>, d: Datagram) {
    forall k {:trigger s.begun[k]} ::
      0 < k < |s.begun| && k - 1 < |s.results| && s.results[k - 1] >= 0 && s.begun[k] == d ==> k <= |Advanced(before)|
  }

  predicate BehindLog(s: State) {
    && (forall p {:trigger s.log[..p]} :: 0 <= p < |s.log| ==> Behind(s, s.log[..p], s.log[p].d))
    && (s.receiving.phase.Replying? ==> Behind(s, s.log, s.receiving.phase.got))
  }

  /** Calls and results that a step adds say nothing of a datagram that was there before. */
  lemma {:induction false} BehindStays(s: State, t: State, before: seq<Delivery>, d: Datagram)
    requires Behind(s, before, d) && s.begun <= t.begun && s.results <= t.results
    requires |t.results| <= |s.results| + 1 && (|t.results| > |s.results| ==> |t.results| == |t.begun|)
    requires forall k :: |s.begun| <= k < |t.begun| ==> t.begun[k] != d
    ensures Behind(t, before, d)
  {}

  /** The next message begins where no datagram in flight does. */
  lemma {:induction false} NextIsNew(s: State, strays: set<Datagram>, flag: Flag, payload: seq<Byte>, d: Datagram)
    requires Books(s, strays) && Strays(strays) && (flag == NoFlag || flag == Fin) && d in s.forward
    ensures d != Datagram(flag, s.sendSeq, s.sendAck, payload)
  {
    if d in s.begun {
      var k :| 0 <= k < |s.begun| && s.begun[k] == d;
      assert Tile(s.begun, k);
      BoundaryGap(s.begun, k, |s.begun|);
    }
  }

  lemma {:induction false} SenderBehind(s: State, strays: set<Datagram>, a: Action)
    requires BehindLog(s) && Books(s, strays) && Strays(strays) && Copies(s)
    requires (a.BeginSend? || a.Sendto? || a.Answer?) && Enabled(s, a)
    ensures BehindLog(Next(s, a))
  {
    var t := Next(s, a);
    SenderMoves(s, a);
    assert s.begun <= t.begun && s.results <= t.results && |t.results| <= |s.results| + 1;
    assert |t.results| > |s.results| ==> |t.results| == |t.begun|;
    hide Behind, Books, AfterSendto, AfterAnswer;
    forall d | d in s.forward ensures forall k :: |s.begun| <= k < |t.begun| ==> t.begun[k] != d {
      if a.BeginSend? { NextIsNew(s, strays, a.flag, a.payload, d); }
    }
    hide Next;
    forall p | 0 <= p < |t.log| ensures Behind(t, t.log[..p], t.log[p].d) {
      assert s.log[p] in s.log;
      BehindStays(s, t, s.log[..p], s.log[p].d);
    }
    if s.receiving.phase.Replying? { BehindStays(s, t, s.log, s.receiving.phase.got); }
  }

  lemma {:induction false} SameBehind(s: State, t: State, before: seq<Delivery>, d: Datagram)
    requires Behind(s, before, d) && t.begun == s.begun && t.results == s.results
    ensures Behind(t, before, d)
  {}

  lemma {:induction false} ReceiverBehind(s: State, a: Action)
    requires BehindLog(s) && AcksLogged(s) && (a.BeginRecv? || a.Recvfrom? || a.Reply?) && Enabled(s, a)
    ensures BehindLog(Next(s, a))
  {
    var t := Next(s, a);
    ReceiverMoves(s, a);
    assert a.Recvfrom? && a.got.Received? ==> Behind(t, s.log, a.got.d);
    hide Behind;
    assert s.log <= t.log && |t.log| <= |s.log| + 1;
    forall p | 0 <= p < |t.log| ensures Behind(t, t.log[..p], t.log[p].d) {
      if p < |s.log| {
        assert t.log[..p] == s.log[..p] && t.log[p] == s.log[p];
        SameBehind(s, t, s.log[..p], s.log[p].d);
      } else {
        assert t.log[..p] == s.log;
        SameBehind(s, t, s.log, s.receiving.phase.got);
      }
    }
    assert a.BeginRecv? || a.Reply? ==> !t.receiving.phase.Replying?;
    assert a.Recvfrom? ==> t.log == s.log;
  }

  lemma {:induction false} RunBehind(s: State, strays: set<Datagram>, run: seq<Action>)
    requires DeliveryInv(s, strays) && Strays(strays) && Copies(s) && IsRun(s, run)
    requires Guarded(strays, s.begun) && Tidy(s) ==> BehindLog(s)
    ensures Guarded(strays, After(s, run).begun) && Tidy(After(s, run)) ==> BehindLog(After(s, run))
    decreases |run|
  {
    if run != [] {
      var a := run[0];
      var t := Next(s, a);
      StepDelivery(s, strays, a);
      CopiesStep(s, a);
      hide BehindLog;
      if Guarded(strays, t.begun) && Tidy(t) {
        EarlierStates(s, strays, a);
        if a.BeginSend? || a.Sendto? || a.Answer? {
          SenderBehind(s, strays, a);
        } else {
          ReceiverBehind(s, a);
        }
      }
      hide DeliveryInv, Copies;
      RunBehind(t, strays, run[1..]);
    }
  }

  /** When the call before it reported success, a message is handed up only behind all messages before it. */
  lemma {:induction false} ConfirmedComesFirst(strays: set<Datagram>, stale: set<Datagram>, link: Link,
                                               run: seq<Action>, p: nat, k: nat)
    requires Strays(strays) && Stale(stale) && Shielded(link) && IsRun(Init(strays, stale, link), run)
    requires var s := After(Init(strays, stale, link), run);
             && Tidy(s) && Guarded(strays, s.begun) && p < |s.log| && 0 < k < |s.begun| && s.log[p].d == s.begun[k]
             && k - 1 < |s.results| && s.results[k - 1] >= 0
    ensures var s := After(Init(strays, stale, link), run);
            s.begun[..k] <= Advanced(s.log[..p])
  {
    InitDelivery(strays, stale, link);
    RunBehind(Init(strays, stale, link), strays, run);
    RunDelivery(Init(strays, stale, link), strays, run);
    BehindInState(After(Init(strays, stale, link), run), strays, p, k);
  }

  lemma {:induction false} BehindInState(s: State, strays: set<Datagram>, p: nat, k: nat)
    requires DeliveryInv(s, strays) && Guarded(strays, s.begun) && Tidy(s) && Strays(strays) && BehindLog(s)
    requires p < |s.log| && 0 < k < |s.begun| && s.log[p].d == s.begun[k]
    requires k - 1 < |s.results| && s.results[k - 1] >= 0
    ensures s.begun[..k] <= Advanced(s.log[..p])
  {
    assert Behind(s, s.log[..p], s.log[p].d);
    NotAstray(s, strays, k - 1);
    hide DeliveryInv, BehindLog, Behind, Advanced;
    AdvancedPrefix(s.log, p);
    assert Advanced(s.log[..p]) <= s.begun;
  }

  /** After a success the fresh deliveries are a prefix of what was sent, whatever was in flight at the start. */
  lemma {:induction false} NotAstray(s: State, strays: set<Datagram>, k: nat)
    requires DeliveryInv(s, strays) && Guarded(strays, s.begun) && Tidy(s) && Strays(strays)
    requires k < |s.results| && s.results[k] >= 0
    ensures Advanced(s.log) <= s.begun && k < |Advanced(s.log)|
  {}

  /** From a state between two calls on either side: rudp_close sends its FIN, and the network delivers it. */
  lemma {:induction false} FinFirst(s: State) returns (run: seq<Action>)
    requires s.sending.Done? && s.receiving.phase.Finished? && Tidy(s)
    ensures IsRun(s, run)
    ensures var t, fin := After(s, run), Datagram(Fin, s.sendSeq, s.sendAck, []);
            && t.begun == s.begun + [fin] && t.results == s.results && s.forward <= t.forward && Tidy(t)
            && t.log == s.log + [Delivery(fin, s.recvAck == s.sendSeq, 0, [])]
            && (s.recvAck != s.sendSeq ==> t.accepted == s.accepted)
  {
    var fin := Datagram(Fin, s.sendSeq, s.sendAck, []);
    var full := SendRet(HEADER_SIZE, false);
    var a0, a1, a2 := BeginSend(Fin, [], Options(true, true, true)), Sendto(full), BeginRecv(0);
    var a3, a4 := Recvfrom(Received(fin, s.link.source)), Reply(full);
    var s1 := Next(s, a0);
    var s2 := Next(s1, a1);
    assert fin in s2.forward;
    var s3 := Next(s2, a2);
    var s4 := Next(s3, a3);
    var s5 := Next(s4, a4);
    run := [];
    assert IsRun(s5, run);
    RunCons(s4, a4, run); run := [a4] + run;
    RunCons(s3, a3, run); run := [a3] + run;
    RunCons(s2, a2, run); run := [a2] + run;
    RunCons(s1, a1, run); run := [a1] + run;
    RunCons(s, a0, run); run := [a0] + run;
  }

  /** A datagram has been sent, and its answer has timed out. */
  function TimedOut(strays: set<Datagram>, stale: set<Datagram>, link: Link, d: Datagram): State {
    var s := Init(strays, stale, link);
    s.(begun := [d], sendSeq := HEADER_SIZE + d.Size(), forward := strays + {d}, sending := Done(RUDP_CLOSE_CONNECTION),
       results := [RUDP_CLOSE_CONNECTION])
  }

  /** A FIN that overtakes a datagram ends a receiving call with 0 although nothing before it has been accepted. */
  lemma {:induction false} EarlyFin(strays: set<Datagram>, stale: set<Datagram>, link: Link, late: seq<Byte>)
    returns (run: seq<Action>)
    ensures IsRun(Init(strays, stale, link), run)
    ensures var s := After(Init(strays, stale, link), run);
            && |s.begun| == 2 && s.begun[0].payload == late && s.begun[1].flag == Fin && s.begun[0] in s.forward
            && |s.log| == 1 && s.log[0].d == s.begun[1] && s.log[0].result == 0 && !s.log[0].advanced
            && s.accepted == [] && s.results == [RUDP_CLOSE_CONNECTION] && Tidy(s)
  {
    var d := Datagram(NoFlag, HEADER_SIZE, HEADER_SIZE, late);
    run := FinFirst(TimedOut(strays, stale, link, d));
    var a0, a1 := BeginSend(NoFlag, late, Options(true, true, true)), Sendto(SendRet(d.Size(), false));
    var a2 := Answer(RecvFailed(true), true);
    var s0 := Init(strays, stale, link);
    var s1 := Next(s0, a0);
    var s2 := Next(s1, a1);
    assert Next(s2, a2) == TimedOut(strays, stale, link, d);
    assert d in TimedOut(strays, stale, link, d).forward;
    RunCons(s2, a2, run); run := [a2] + run;
    RunCons(s1, a1, run); run := [a1] + run;
    RunCons(s0, a0, run); run := [a0] + run;
  }

  /** Even when acknowledgements fail and buffers are small, and whatever was in flight at the start, nothing is handed
      up that was not sent or in flight. */
  lemma {:induction false} DeliveriesAreCopies(strays: set<Datagram>, stale: set<Datagram>, link: Link,
                                               run: seq<Action>, e: Delivery)
    requires !link.atReceiver && IsRun(Init(strays, stale, link), run) && e in After(Init(strays, stale, link), run).log
    ensures e.d in After(Init(strays, stale, link), run).begun || e.d in strays
    ensures e.handed <= e.d.payload
  {
    RunCopies(Init(strays, stale, link), run);
    RunBooks(Init(strays, stale, link), strays, run);
  }

  /** The k-th fresh delivery is an entry of the log, and the fresh ones before it are the first k. */
  lemma {:induction false} AdvancedAt(log: seq<Delivery>, k: nat) returns (p: nat)
    requires k < |Advanced(log)|
    ensures p < |log| && log[p].advanced && log[p].d == Advanced(log)[k]
    ensures Advanced(log[..p]) == Advanced(log)[..k]
  {
    var n := |log| - 1;
    var front := log[..n];
    if k < |Advanced(front)| {
      p := AdvancedAt(front, k);
      assert front[..p] == log[..p];
    } else {
      p := n;
      assert Advanced(log)[..k] == Advanced(front);
    }
  }

  /** FIN ordering: when rudp_close returned 0 for its FIN, the peer had accepted the FIN and, before it, every
      earlier message whole and in order. */
  lemma {:induction false} ConfirmedFinIsLast(strays: set<Datagram>, stale: set<Datagram>, link: Link,
                                              run: seq<Action>, k: nat)
    requires Strays(strays) && Stale(stale) && Shielded(link) && IsRun(Init(strays, stale, link), run)
    requires var s := After(Init(strays, stale, link), run);
             Guarded(strays, s.begun) && k < |s.results| && s.results[k] == 0
    ensures var s := After(Init(strays, stale, link), run);
            && k < |s.begun| && k < |s.accepted| && s.begun[k].flag == Fin && s.accepted[k].d == s.begun[k]
            && forall j :: 0 <= j < k ==> s.accepted[j] == Accept(s.begun[j], s.begun[j].Size())
  {
    NoFalseSuccess(strays, stale, link, run, k);
  }

  /** ... and when the peer's acknowledgements all left, the rudp_recv call that accepted the FIN returned 0,
      after calls that handed up every earlier message whole and in order. */
  lemma {:induction false} FinCallReturnsZero(strays: set<Datagram>, stale: set<Datagram>, link: Link,
                                              run: seq<Action>, k: nat) returns (p: nat)
    requires Strays(strays) && Stale(stale) && Shielded(link) && IsRun(Init(strays, stale, link), run)
    requires var s := After(Init(strays, stale, link), run);
             && Tidy(s) && Guarded(strays, s.begun)
             && k < |s.results| && k < |s.begun| && s.results[k] >= 0 && s.begun[k].flag == Fin
    ensures var s := After(Init(strays, stale, link), run);
            && p < |s.log| && s.log[p].d == s.begun[k] && s.log[p].advanced && s.log[p].result == 0
            && Advanced(s.log[..p]) == s.begun[..k]
            && forall e <- s.log :: WellHandled(e)
  {
    InitDelivery(strays, stale, link);
    RunDelivery(Init(strays, stale, link), strays, run);
    p := FinInLog(After(Init(strays, stale, link), run), strays, k);
  }

  lemma {:induction false} FinInLog(s: State, strays: set<Datagram>, k: nat) returns (p: nat)
    requires DeliveryInv(s, strays) && Guarded(strays, s.begun) && Tidy(s) && Strays(strays)
    requires k < |s.results| && k < |s.begun| && s.results[k] >= 0 && s.begun[k].flag == Fin
    ensures p < |s.log| && s.log[p].d == s.begun[k] && s.log[p].advanced && s.log[p].result == 0
    ensures Advanced(s.log[..p]) == s.begun[..k]
    ensures forall e <- s.log :: WellHandled(e)
  {
    FreshPrefix(s, strays);
    NotAstray(s, strays, k);
    var sofar := Advanced(s.log);
    p := AdvancedAt(s.log, k);
    assert s.log[p] in s.log;
    assert sofar[..k] == s.begun[..k];
  }

  // -------------------------------------------------- when a 0 means the end

  /** A run in which rudp_recv, all in order, returns the 0 that its callers take for the end of the connection,
      although it has received no FIN and nobody sends empty messages. */
  predicate FalseEnd(s: State, run: seq<Action>) {
    && IsRun(s, run)
    && var t := After(s, run);
       && Tidy(t) && (forall d <- t.begun :: d.flag == Fin || d.payload != [])
       && exists e <- t.log :: e.result == 0 && e.d.flag != Fin
  }

  lemma {:induction false} StrayEnds(strays: set<Datagram>, stale: set<Datagram>, link: Link, d: Datagram)
    returns (run: seq<Action>)
    requires IsStray(d) && d in strays
    ensures FalseEnd(Init(strays, stale, link), run) && After(Init(strays, stale, link), run).begun == []
  {
    var a0, a1, a2 := BeginRecv(0), Recvfrom(Received(d, link.source)), Reply(SendRet(HEADER_SIZE, false));
    var s0 := Init(strays, stale, link);
    var s1 := Next(s0, a0);
    var s2 := Next(s1, a1);
    var s3 := Next(s2, a2);
    run := [];
    assert IsRun(s3, run);
    RunCons(s2, a2, run); run := [a2] + run;
    RunCons(s1, a1, run); run := [a1] + run;
    RunCons(s0, a0, run); run := [a0] + run;
    assert |s3.log| == 1 && s3.log[0] in s3.log;
  }

  /** A 0 is the answer to a FIN or to an empty datagram. */
  lemma {:induction false} ZeroMeans(strays: set<Datagram>, stale: set<Datagram>, link: Link, run: seq<Action>,
                                     e: Delivery)
    requires Strays(strays) && Stale(stale) && Shielded(link) && IsRun(Init(strays, stale, link), run)
    requires var s := After(Init(strays, stale, link), run); Tidy(s) && Guarded(strays, s.begun) && e in s.log
    ensures e.d in After(Init(strays, stale, link), run).begun || e.d in strays
    ensures e.result == 0 <==> e.d.flag == Fin || e.d.payload == []
  {
    FreshDeliveriesArePrefix(strays, stale, link, run);
    assert WellHandled(e);
  }

  lemma {:induction false} NoFalseEnd(stale: set<Datagram>, link: Link, run: seq<Action>)
    requires Stale(stale) && Shielded(link) && IsRun(Init({}, stale, link), run)
    ensures !FalseEnd(Init({}, stale, link), run)
  {
    var t := After(Init({}, stale, link), run);
    if Tidy(t) {
      forall e <- t.log ensures e.result == 0 ==> e.d in t.begun && (e.d.flag == Fin || e.d.payload == []) {
        ZeroMeans({}, stale, link, run, e);
      }
    }
  }

  /** A 0 means a FIN, as the callers assume, in all runs without empty messages if and only if no handshake datagram
      is still in flight to the receiver. */
  lemma {:induction false} ZeroMeansFinIff(strays: set<Datagram>, stale: set<Datagram>, link: Link)
    requires Strays(strays) && Stale(stale) && Shielded(link)
    ensures (exists run :: FalseEnd(Init(strays, stale, link), run)) <==> strays != {}
  {
    if strays == {} {
      forall run | IsRun(Init(strays, stale, link), run) ensures !FalseEnd(Init(strays, stale, link), run) {
        NoFalseEnd(stale, link, run);
      }
    } else {
      var d :| d in strays;
      var run := StrayEnds(strays, stale, link, d);
    }
  }
}
