/** Every run of the data phase is two sequences of whole C calls: what they return, accept and put on the wire is what
    is proved of the C loops for the system calls that the run makes in them. */
module RudpRefinement {
  import opened Basics
  import opened RudpTypes
  import opened RudpCalls
  import opened RudpDataPhase

  /** A rudp_send or rudp_close: its socket options, its attempts so far, and the copies of its packet that left. */
  datatype SendTrace = SendTrace(opts: Options, tries: seq<Try>, restoreOk: bool, emitted: seq<Datagram>)

  /** A rudp_recv: its buffer size, the acknowledgement number it began with, where its last datagram came from, its
      attempts so far, and the acknowledgements that have left. */
  datatype RecvTrace = RecvTrace(length: nat, before: nat, from: Address, tries: seq<Try>,
                                   replies: seq<(Address, Datagram)>)

  datatype Traces = Traces(sends: seq<SendTrace>, recvs: seq<RecvTrace>)

  const NOTHING := Traces([], [])

  const NO_TRY := Try(UNSENT, UNHEARD)

  function RecordSend(s: State, a: Action, h: seq<SendTrace>): seq<SendTrace> {
    if a.BeginSend? then h + [SendTrace(a.opts, [], true, [])]
    else if h == [] || s.begun == [] then h
    else
      var r := Last(h);
      match a
      case Sendto(sent) =>
        var out := if sent.count == Last(s.begun).Size() then [Last(s.begun)] else [];
        SetLast(h, r.(tries := r.tries + [Try(sent, UNHEARD)], emitted := r.emitted + out))
      case Answer(answer, restoreOk) =>
        if r.tries == [] then h
        else SetLast(h, r.(tries := SetLast(r.tries, Last(r.tries).(got := answer)), restoreOk := restoreOk))
      case _ => h
  }

  function RecordRecv(s: State, a: Action, h: seq<RecvTrace>): seq<RecvTrace> {
    if a.BeginRecv? then h + [RecvTrace(a.length, s.recvAck, NOWHERE, [], [])]
    else if h == [] then h
    else
      var r := Last(h);
      match a
      case Recvfrom(got) =>
        SetLast(h, r.(tries := r.tries + [Try(UNSENT, got)], from := if got.Received? then got.from else r.from))
      case Reply(reply) =>
        var out := if reply.count == HEADER_SIZE then [(r.from, Datagram(Ack, s.recvSeq, s.recvAck, []))] else [];
        if r.tries == [] then h
        else SetLast(h, r.(tries := SetLast(r.tries, Last(r.tries).(sent := reply)), replies := r.replies + out))
      case _ => h
  }

  /** What a run records, behind h. */
  function Recorded(s: State, run: seq<Action>, h: Traces): Traces
    requires IsRun(s, run)
    decreases |run|
  {
    if run == [] then h
    else Recorded(Next(s, run[0]), run[1..], Traces(RecordSend(s, run[0], h.sends), RecordRecv(s, run[0], h.recvs)))
  }

  // ------------------------------------------------------------- the sender

  /** The k-th sending call as rudp_send or rudp_close starts it. */
  function CallOf(begun: seq<Datagram>, k: nat, dest: Address, opts: Options): SendCall
    requires k < |begun|
  {
    SendCall(begun[k], Boundary(begun, k + 1), dest, StartSend(opts))
  }

  predicate SendAgrees(now: SendPhase, tries: seq<Try>, t: seq<Try>) {
    match now
    case Sending(i) => i < N_ATTEMPT == |t| && |tries| == i && t[..i] == tries
    case Awaiting(i) =>
      i < N_ATTEMPT == |t| && |tries| == i + 1 && t[..i] == tries[..i] && t[i].sent == tries[i].sent
    case Done(_) => false
  }

  /** However the attempts go on, the call is now in this phase and has put this on the wire. */
  ghost predicate SendAt(c: SendCall, now: SendPhase, tries: seq<Try>, emitted: seq<Datagram>) {
    && c.Live() && SendAgrees(now, tries, Padded(tries, NO_TRY))
    && forall t: seq<Try>, ok: bool :: SendAgrees(now, tries, t) ==>
         RunSend(c, t, ok) == Prepend(emitted, RunSend(c.(phase := now), t, ok))
  }

  /** The call has returned. */
  predicate SendOver(c: SendCall, r: SendTrace, result: int) {
    c.Live() && RunSend(c, Padded(r.tries, NO_TRY), r.restoreOk) == (result, r.emitted)
  }

  ghost predicate SendIs(c: SendCall, now: SendPhase, r: SendTrace) {
    if now.Done? then SendOver(c, r, now.result) else SendAt(c, now, r.tries, r.emitted)
  }

  lemma {:induction false} SendStarts(begun: seq<Datagram>, dest: Address, opts: Options)
    requires begun != []
    ensures SendIs(CallOf(begun, |begun| - 1, dest, opts), StartSend(opts), SendTrace(opts, [], true, []))
  {
    var c := CallOf(begun, |begun| - 1, dest, opts);
    assert c.(phase := StartSend(opts)) == c;
    forall t: seq<Try>, ok: bool | |t| == N_ATTEMPT ensures Prepend([], RunSend(c, t, ok)) == RunSend(c, t, ok) {
      assert [] + RunSend(c, t, ok).1 == RunSend(c, t, ok).1;
    }
  }

  /** One sendto inside RunSend. */
  lemma {:induction false} SendtoOnce(c: SendCall, t: seq<Try>, ok: bool, emitted: seq<Datagram>)
    requires |t| == N_ATTEMPT && c.Live() && c.phase.Sending?
    ensures var sent := t[c.phase.attempt].sent;
            var out := if sent.count == c.packet.Size() then [c.packet] else [];
            Prepend(emitted, RunSend(c, t, ok)) ==
            Prepend(emitted + out, RunSend(c.(phase := AfterSendto(c, sent)), t, ok))
  {
    var sent := t[c.phase.attempt].sent;
    var out := if sent.count == c.packet.Size() then [c.packet] else [];
    var rest := RunSend(c.(phase := AfterSendto(c, sent)), t, ok);
    assert emitted + (out + rest.1) == emitted + out + rest.1;
    assert [] + rest.1 == rest.1;
  }

  lemma {:induction false} SendtoKeeps(c: SendCall, i: nat, r: SendTrace, sent: SendRet)
    requires i < N_ATTEMPT && SendAt(c, Sending(i), r.tries, r.emitted)
    ensures var out := if sent.count == c.packet.Size() then [c.packet] else [];
            SendIs(c, AfterSendto(c.(phase := Sending(i)), sent),
                   r.(tries := r.tries + [Try(sent, UNHEARD)], emitted := r.emitted + out))
  {
    var here := c.(phase := Sending(i));
    var now := AfterSendto(here, sent);
    var out := if sent.count == c.packet.Size() then [c.packet] else [];
    var tries := r.tries + [Try(sent, UNHEARD)];
    var w := Padded(tries, NO_TRY);
    assert w[..i] == w[..i + 1][..i] == r.tries && w[i] == w[..i + 1][i];
    var r' := r.(tries := tries, emitted := r.emitted + out);
    forall t: seq<Try>, ok: bool | Extends(now, i, r', t, ok)
      ensures RunSend(c, t, ok) == Prepend(r.emitted + out, RunSend(c.(phase := now), t, ok))
    {
      hide RunSend;
      assert SendAgrees(Sending(i), r.tries, t);
      SendtoOnce(here, t, ok, r.emitted);
      assert here.(phase := now) == c.(phase := now);
    }
    SendGoesOn(c, now, r', i);
  }

  /** The attempts t begin with those recorded up to attempt i, as far as the phase has looked at them. */
  predicate Extends(now: SendPhase, i: nat, r: SendTrace, t: seq<Try>, ok: bool)
    requires i < |r.tries|
  {
    && i < |t| == N_ATTEMPT && t[..i] == r.tries[..i] && t[i].sent == r.tries[i].sent
    && (now.Awaiting? || t[i].got == r.tries[i].got) && (now.Done? ==> ok == r.restoreOk)
  }

  /** From what holds of every continuation of the attempts up to i to the state of the call. */
  lemma {:induction false} SendGoesOn(c: SendCall, now: SendPhase, r: SendTrace, i: nat)
    requires c.Live() && i < N_ATTEMPT && |r.tries| == i + 1
    requires now.Done? || now == Awaiting(i) || (now == Sending(i + 1) && i + 1 < N_ATTEMPT)
    requires forall t: seq<Try>, ok: bool :: Extends(now, i, r, t, ok) ==>
               RunSend(c, t, ok) == Prepend(r.emitted, RunSend(c.(phase := now), t, ok))
    ensures SendIs(c, now, r)
  {
    var w := Padded(r.tries, NO_TRY);
    assert w[..i] == w[..i + 1][..i] == r.tries[..i] && w[i] == w[..i + 1][i] == r.tries[i];
    if now.Done? {
      assert Extends(now, i, r, w, r.restoreOk);
      assert RunSend(c, w, r.restoreOk) == Prepend(r.emitted, RunSend(c.(phase := now), w, r.restoreOk));
      RunSendOver(c.(phase := now), w, r.restoreOk);
      assert r.emitted + [] == r.emitted;
    } else {
      hide RunSend;
      forall t: seq<Try>, ok: bool | SendAgrees(now, r.tries, t)
        ensures RunSend(c, t, ok) == Prepend(r.emitted, RunSend(c.(phase := now), t, ok))
      {
        if now.Sending? {
          assert t[..i] == t[..i + 1][..i] && t[i] == t[..i + 1][i];
        }
        assert Extends(now, i, r, t, ok);
      }
    }
  }

  lemma {:induction false} AnswerKeeps(c: SendCall, i: nat, r: SendTrace, answer: RecvRet, ok: bool)
    requires i < N_ATTEMPT && SendAt(c, Awaiting(i), r.tries, r.emitted)
    ensures SendIs(c, AfterAnswer(c.(phase := Awaiting(i)), answer, ok),
                   r.(tries := SetLast(r.tries, Last(r.tries).(got := answer)), restoreOk := ok))
  {
    var here := c.(phase := Awaiting(i));
    var now := AfterAnswer(here, answer, ok);
    var r' := r.(tries := SetLast(r.tries, Last(r.tries).(got := answer)), restoreOk := ok);
    assert r'.tries[..i] == r.tries[..i];
    forall t: seq<Try>, ok': bool | Extends(now, i, r', t, ok')
      ensures RunSend(c, t, ok') == Prepend(r.emitted, RunSend(c.(phase := now), t, ok'))
    {
      assert SendAgrees(Awaiting(i), r.tries, t);
      assert AfterAnswer(here, answer, ok') == now;
      assert RunSend(here, t, ok') == RunSend(here.(phase := now), t, ok');
      assert here.(phase := now) == c.(phase := now);
    }
    SendGoesOn(c, now, r', i);
  }

  ghost predicate SendsMatch(s: State, h: seq<SendTrace>) {
    && |h| == |s.begun| && |s.results| == (if s.sending.Done? then |s.begun| else |s.begun| - 1)
    && s.sendSeq == Boundary(s.begun, |s.begun|)
    && (forall k {:trigger h[k]} :: 0 <= k < |s.results| ==>
          SendOver(CallOf(s.begun, k, s.link.dest, h[k].opts), h[k], s.results[k]))
    && (!s.sending.Done? ==>
          SendIs(CallOf(s.begun, |s.begun| - 1, s.link.dest, Last(h).opts), s.sending, Last(h)))
  }

  lemma {:induction false} CallsAppend(s: State, h: seq<SendTrace>, d: Datagram, k: nat)
    requires k < |s.begun| == |h|
    ensures CallOf(s.begun + [d], k, s.link.dest, h[k].opts) == CallOf(s.begun, k, s.link.dest, h[k].opts)
  {
    BoundaryAppend(s.begun, d, k + 1);
  }

  lemma {:induction false} BeginSendMatches(s: State, a: Action, h: seq<SendTrace>)
    requires SendsMatch(s, h) && a.BeginSend? && Enabled(s, a)
    ensures SendsMatch(Next(s, a), RecordSend(s, a, h))
  {
    var t, h' := Next(s, a), RecordSend(s, a, h);
    var d := Datagram(a.flag, s.sendSeq, s.sendAck, a.payload);
    hide RunSend, SendIs, SendOver, RecvCall.Live;
    BoundaryAppend(s.begun, d, |s.begun|);
    SendStarts(t.begun, t.link.dest, a.opts);
    forall k | 0 <= k < |t.results| ensures SendOver(CallOf(t.begun, k, t.link.dest, h'[k].opts), h'[k], t.results[k]) {
      if k < |h| {
        CallsAppend(s, h, d, k);
        assert h'[k] == h[k];
      } else {
        DoneIsOver(CallOf(t.begun, k, t.link.dest, a.opts), t.sending, h'[k]);
      }
    }
  }

  lemma {:induction false} DoneIsOver(c: SendCall, now: SendPhase, r: SendTrace)
    requires SendIs(c, now, r) && now.Done?
    ensures SendOver(c, r, now.result)
  {}

  /** A call that was under way is in its next phase or over, and the others are as they were. */
  lemma {:induction false} LastMatches(s: State, h: seq<SendTrace>, t: State, r: SendTrace)
    requires SendsMatch(s, h) && !s.sending.Done?
    requires t == EnterSend(s.(forward := t.forward), t.sending)
    requires r.opts == Last(h).opts && SendIs(CallOf(s.begun, |s.begun| - 1, s.link.dest, r.opts), t.sending, r)
    ensures SendsMatch(t, SetLast(h, r))
  {}

  /** The call under way, from the record. */
  lemma {:induction false} Underway(s: State, h: seq<SendTrace>)
    requires SendsMatch(s, h) && !s.sending.Done?
    ensures h != [] && s.begun != []
    ensures var c, r := CallOf(s.begun, |s.begun| - 1, s.link.dest, Last(h).opts), Last(h);
            SendAt(c, s.sending, r.tries, r.emitted) && Call(s) == c.(phase := s.sending) && r.tries == Last(h).tries
    ensures s.sending.attempt < N_ATTEMPT && (s.sending.Awaiting? ==> Last(h).tries != [])
  {}

  lemma {:induction false} CallMatches(s: State, a: Action, h: seq<SendTrace>)
    requires SendsMatch(s, h) && (a.Sendto? || a.Answer?) && Enabled(s, a)
    ensures SendsMatch(Next(s, a), RecordSend(s, a, h))
  {
    Underway(s, h);
    hide SendsMatch, SendAt, SendIs, Boundary;
    var c := CallOf(s.begun, |s.begun| - 1, s.link.dest, Last(h).opts);
    if a.Sendto? {
      SendtoKeeps(c, s.sending.attempt, Last(h), a.sent);
    } else {
      AnswerKeeps(c, s.sending.attempt, Last(h), a.answer, a.restoreOk);
    }
    LastMatches(s, h, Next(s, a), Last(RecordSend(s, a, h)));
  }

  lemma {:induction false} SendStepMatches(s: State, a: Action, h: seq<SendTrace>)
    requires SendsMatch(s, h) && Enabled(s, a)
    ensures SendsMatch(Next(s, a), RecordSend(s, a, h))
  {
    if a.BeginSend? {
      BeginSendMatches(s, a, h);
    } else if a.Sendto? || a.Answer? {
      CallMatches(s, a, h);
    } else {
      ReceiverMoves(s, a);
      ReceiverSilent(s, a, h);
      hide RecordSend, Next;
    }
  }

  lemma {:induction false} ReceiverSilent(s: State, a: Action, h: seq<SendTrace>)
    requires (a.BeginRecv? || a.Recvfrom? || a.Reply?) && Enabled(s, a)
    ensures RecordSend(s, a, h) == h
  {}

  /** The copies that have left, of all calls. */
  function Emitted(h: seq<SendTrace>): set<Datagram> {
    if h == [] then {} else Emitted(h[..|h| - 1]) + set d <- Last(h).emitted
  }

  /** A call puts nothing but copies of its own packet on the wire. */
  predicate OwnCopies(begun: seq<Datagram>, h: seq<SendTrace>) {
    |h| == |begun| && forall k, d :: 0 <= k < |h| && d in h[k].emitted ==> d == begun[k]
  }

  ghost predicate SenderInv(s: State, strays: set<Datagram>, h: seq<SendTrace>) {
    SendsMatch(s, h) && OwnCopies(s.begun, h) && s.forward == strays + Emitted(h)
  }

  lemma {:induction false} BeginEmits(begun: seq<Datagram>, h: seq<SendTrace>, r: SendTrace, d: Datagram)
    requires OwnCopies(begun, h) && r.emitted == []
    ensures OwnCopies(begun + [d], h + [r]) && Emitted(h + [r]) == Emitted(h)
  {}

  function Copies(s: State, a: Action): seq<Datagram>
    requires s.begun != []
  {
    if a.Sendto? && a.sent.count == Last(s.begun).Size() then [Last(s.begun)] else []
  }

  lemma {:induction false} CallLeaves(s: State, a: Action, h: seq<SendTrace>)
    requires (a.Sendto? || a.Answer?) && Enabled(s, a) && h != [] && (a.Answer? ==> Last(h).tries != [])
    ensures Next(s, a).begun == s.begun && Next(s, a).forward == s.forward + set d <- Copies(s, a)
    ensures RecordSend(s, a, h) == SetLast(h, Last(RecordSend(s, a, h)))
    ensures Last(RecordSend(s, a, h)).emitted == Last(h).emitted + Copies(s, a)
  {
    assert Last(h).emitted + [] == Last(h).emitted;
    hide AfterSendto, AfterAnswer;
  }

  lemma {:induction false} CallEmits(s: State, strays: set<Datagram>, a: Action, h: seq<SendTrace>)
    requires SenderInv(s, strays, h) && (a.Sendto? || a.Answer?) && Enabled(s, a)
    ensures SenderInv(Next(s, a), strays, RecordSend(s, a, h))
  {
    CallMatches(s, a, h);
    Underway(s, h);
    CallLeaves(s, a, h);
    hide SendsMatch, SendAt, RunSend, OwnCopies, Emitted, RecordSend, Next, SetLast;
  }

  lemma {:induction false} SenderStep(s: State, strays: set<Datagram>, a: Action, h: seq<SendTrace>)
    requires SenderInv(s, strays, h) && Enabled(s, a)
    ensures SenderInv(Next(s, a), strays, RecordSend(s, a, h))
  {
    if a.Sendto? || a.Answer? {
      CallEmits(s, strays, a, h);
    } else {
      SendStepMatches(s, a, h);
      if !a.BeginSend? {
        ReceiverMoves(s, a);
        ReceiverSilent(s, a, h);
      }
      hide SendsMatch, OwnCopies, Emitted, Boundary;
      if a.BeginSend? { BeginEmits(s.begun, h, Last(RecordSend(s, a, h)), Last(Next(s, a).begun)); }
    }
  }

  // ----------------------------------------------------------- the receiver

  /** What rudp_recv returns for a record, by the function that is proved of its loop. */
  function Outcome(r: RecvTrace, seqno: nat): RecvOutcome {
    RunRecv(RecvCall(r.length, NextRecv(0, false)), seqno, r.before, NOWHERE, Padded(r.tries, NO_TRY))
  }

  predicate RecvAgrees(now: RecvPhase, tries: seq<Try>, t: seq<Try>) {
    match now
    case Waiting(i, _) => i < N_ATTEMPT == |t| && |tries| == i && t[..i] == tries
    case Replying(i, _, _, _) =>
      i < N_ATTEMPT == |t| && |tries| == i + 1 && t[..i] == tries[..i] && t[i].got == tries[i].got
    case Finished(_, _) => false
  }

  /** However the attempts go on, the call is now in this phase and has put this on the wire. */
  ghost predicate RecvAt(c: RecvCall, seqno: nat, ackno: nat, r: RecvTrace) {
    && c.Live() && c.length == r.length && RecvAgrees(c.phase, r.tries, Padded(r.tries, NO_TRY))
    && forall t: seq<Try> :: RecvAgrees(c.phase, r.tries, t) ==>
         RunRecv(RecvCall(r.length, NextRecv(0, false)), seqno, r.before, NOWHERE, t) ==
         PrependReplies(r.replies, RunRecv(c, seqno, ackno, r.from, t))
  }

  /** The call has returned. */
  predicate RecvOver(c: RecvCall, seqno: nat, ackno: nat, r: RecvTrace) {
    c.phase.Finished? && Outcome(r, seqno) == RecvOutcome(c.phase.result, c.phase.handed, ackno, r.replies)
  }

  ghost predicate RecvIs(c: RecvCall, seqno: nat, ackno: nat, r: RecvTrace) {
    if c.phase.Finished? then RecvOver(c, seqno, ackno, r) else RecvAt(c, seqno, ackno, r)
  }

  lemma {:induction false} RecvStarts(length: nat, seqno: nat, ackno: nat)
    ensures RecvIs(RecvCall(length, NextRecv(0, false)), seqno, ackno, RecvTrace(length, ackno, NOWHERE, [], []))
  {}

  /** The attempts t begin with those recorded up to attempt i, as far as the phase has looked at them. */
  predicate Continues(now: RecvPhase, i: nat, r: RecvTrace, t: seq<Try>)
    requires i < |r.tries|
  {
    && i < |t| == N_ATTEMPT && t[..i] == r.tries[..i] && t[i].got == r.tries[i].got
    && (now.Replying? || t[i] == r.tries[i])
  }

  lemma {:induction false} RecvGoesOn(c: RecvCall, seqno: nat, ackno: nat, r: RecvTrace, i: nat)
    requires c.Live() && c.length == r.length && i < N_ATTEMPT && |r.tries| == i + 1
    requires match c.phase
             case Waiting(k, _) => k == i + 1
             case Replying(k, _, _, _) => k == i
             case Finished(_, _) => true
    requires forall t: seq<Try> :: Continues(c.phase, i, r, t) ==>
               RunRecv(RecvCall(r.length, NextRecv(0, false)), seqno, r.before, NOWHERE, t) ==
               PrependReplies(r.replies, RunRecv(c, seqno, ackno, r.from, t))
    ensures RecvIs(c, seqno, ackno, r)
  {}

  lemma {:induction false} RecvfromKeeps(c: RecvCall, seqno: nat, ackno: nat, r: RecvTrace, got: RecvRet)
    requires c.phase.Waiting? && RecvAt(c, seqno, ackno, r)
    ensures RecvIs(c.(phase := AfterRecvfrom(c, got)), seqno, AckAfterRecvfrom(c, ackno, got),
                   r.(tries := r.tries + [Try(UNSENT, got)], from := if got.Received? then got.from else r.from))
  {
    var i := c.phase.attempt;
    var next := c.(phase := AfterRecvfrom(c, got));
    var r' := r.(tries := r.tries + [Try(UNSENT, got)], from := if got.Received? then got.from else r.from);
    assert r'.tries[..i] == r.tries;
    var ackno' := AckAfterRecvfrom(c, ackno, got);
    forall t: seq<Try> | Continues(next.phase, i, r', t)
      ensures RunRecv(RecvCall(r.length, NextRecv(0, false)), seqno, r.before, NOWHERE, t) ==
              PrependReplies(r.replies, RunRecv(next, seqno, ackno', r'.from, t))
    {
      assert RecvAgrees(c.phase, r.tries, t);
      assert RunRecv(c, seqno, ackno, r.from, t) == RunRecv(next, seqno, ackno', r'.from, t);
    }
    RecvGoesOn(next, seqno, ackno', r', i);
  }

  lemma {:induction false} ReplyOnce(c: RecvCall, seqno: nat, ackno: nat, from: Address, t: seq<Try>,
                                     replies: seq<(Address, Datagram)>)
    requires |t| == N_ATTEMPT && c.Live() && c.phase.Replying?
    ensures var sent := t[c.phase.attempt].sent;
            var out := if sent.count == HEADER_SIZE then [(from, Datagram(Ack, seqno, ackno, []))] else [];
            PrependReplies(replies, RunRecv(c, seqno, ackno, from, t)) ==
            PrependReplies(replies + out, RunRecv(c.(phase := AfterReply(c, sent)), seqno, ackno, from, t))
  {}

  lemma {:induction false} ReplyKeeps(c: RecvCall, seqno: nat, ackno: nat, r: RecvTrace, reply: SendRet)
    requires c.phase.Replying? && RecvAt(c, seqno, ackno, r)
    ensures var out := if reply.count == HEADER_SIZE then [(r.from, Datagram(Ack, seqno, ackno, []))] else [];
            RecvIs(c.(phase := AfterReply(c, reply)), seqno, ackno,
                   r.(tries := SetLast(r.tries, Last(r.tries).(sent := reply)), replies := r.replies + out))
  {
    var i := c.phase.attempt;
    var next := c.(phase := AfterReply(c, reply));
    var out := if reply.count == HEADER_SIZE then [(r.from, Datagram(Ack, seqno, ackno, []))] else [];
    var r' := r.(tries := SetLast(r.tries, Last(r.tries).(sent := reply)), replies := r.replies + out);
    assert r'.tries[..i] == r.tries[..i];
    forall t: seq<Try> | Continues(next.phase, i, r', t)
      ensures RunRecv(RecvCall(r.length, NextRecv(0, false)), seqno, r.before, NOWHERE, t) ==
              PrependReplies(r.replies + out, RunRecv(next, seqno, ackno, r.from, t))
    {
      hide RunRecv;
      assert RecvAgrees(c.phase, r.tries, t);
      ReplyOnce(c, seqno, ackno, r.from, t, r.replies);
    }
    RecvGoesOn(next, seqno, ackno, r', i);
  }

  /** The calls took the acknowledgement number from one value to another, each where the one before had left it, and
      put the recorded acknowledgements on the wire. */
  predicate Chained(h: seq<RecvTrace>, seqno: nat, first: nat, last: nat) {
    if h == [] then first == last
    else
      var r := Last(h);
      && Chained(h[..|h| - 1], seqno, first, r.before)
      && Outcome(r, seqno).ackno == last && Outcome(r, seqno).replies == r.replies
  }

  /** The results and the bytes of the calls that returned without an error. */
  function Returned(h: seq<RecvTrace>, seqno: nat): seq<(int, seq<Byte>)> {
    if h == [] then []
    else
      var o := Outcome(Last(h), seqno);
      Returned(h[..|h| - 1], seqno) + if o.result >= 0 then [(o.result, o.handed)] else []
  }

  function Logged(log: seq<Delivery>): (es: seq<(int, seq<Byte>)>)
    ensures |es| == |log|
  {
    seq(|log|, i requires 0 <= i < |log| => (log[i].result, log[i].handed))
  }

  /** The datagrams among these that go to one address. */
  function Addressed(replies: seq<(Address, Datagram)>, to: Address): set<Datagram> {
    set p <- replies | p.0 == to :: p.1
  }

  /** The acknowledgements that have left for one address, of all calls. */
  function Replied(h: seq<RecvTrace>, to: Address): set<Datagram> {
    if h == [] then {} else Replied(h[..|h| - 1], to) + Addressed(Last(h).replies, to)
  }

  /** The calls that have returned. */
  function Over(s: State, h: seq<RecvTrace>): seq<RecvTrace> {
    if h == [] || s.receiving.phase.Finished? then h else h[..|h| - 1]
  }

  ghost predicate ReceiverInv(s: State, stale: set<Datagram>, h: seq<RecvTrace>) {
    && (h == [] ==> s.receiving.phase.Finished?)
    && Chained(Over(s, h), s.recvSeq, HEADER_SIZE, if s.receiving.phase.Finished? then s.recvAck else Last(h).before)
    && Logged(s.log) == Returned(Over(s, h), s.recvSeq)
    && s.backward == stale + Replied(h, s.link.source)
    && (h != [] ==> RecvIs(s.receiving, s.recvSeq, s.recvAck, Last(h)))
    && (s.receiving.phase.Replying? ==> s.from == Last(h).from)
  }

  lemma {:induction false} BeginRecvStep(s: State, stale: set<Datagram>, a: Action, h: seq<RecvTrace>)
    requires ReceiverInv(s, stale, h) && a.BeginRecv? && Enabled(s, a)
    ensures ReceiverInv(Next(s, a), stale, RecordRecv(s, a, h))
  {
    RecvStarts(a.length, s.recvSeq, s.recvAck);
    hide RunRecv, RecvIs, Outcome, Returned, Logged;
    var h' := RecordRecv(s, a, h);
    assert h'[..|h|] == h && NextRecv(0, false) == Waiting(0, false);
    assert Replied(h', s.link.source) == Replied(h, s.link.source) by {
      hide ReceiverInv, Next, Chained;
      assert Last(h').replies == [];
    }
    hide Replied, NextRecv;
  }

  /** From the step of the call to the step of the whole. */
  lemma {:induction false} LastReceives(s: State, stale: set<Datagram>, h: seq<RecvTrace>, t: State, r: RecvTrace,
                                        out: seq<(Address, Datagram)>)
    requires ReceiverInv(s, stale, h) && !s.receiving.phase.Finished?
    requires r.before == Last(h).before && r.replies == Last(h).replies + out && t.recvSeq == s.recvSeq
    requires RecvIs(t.receiving, t.recvSeq, t.recvAck, r)
    requires t.link == s.link && t.backward == s.backward + Addressed(out, s.link.source)
    requires t.receiving.phase.Replying? ==> t.from == r.from
    requires if t.receiving.phase.Finished? && t.receiving.phase.result >= 0
             then t.log != [] && t.log[..|t.log| - 1] == s.log && Last(t.log).result == t.receiving.phase.result &&
                  Last(t.log).handed == t.receiving.phase.handed
             else t.log == s.log
    ensures ReceiverInv(t, stale, SetLast(h, r))
  {}

  lemma {:induction false} RecvfromStep(s: State, stale: set<Datagram>, a: Action, h: seq<RecvTrace>)
    requires ReceiverInv(s, stale, h) && a.Recvfrom? && Enabled(s, a)
    ensures ReceiverInv(Next(s, a), stale, RecordRecv(s, a, h))
  {
    RecvfromKeeps(s.receiving, s.recvSeq, s.recvAck, Last(h), a.got);
    hide RunRecv, RecvAt, RecvIs, ReceiverInv, AckAfterRecvfrom;
    var h' := RecordRecv(s, a, h);
    assert Last(h).replies + [] == Last(h).replies;
    LastReceives(s, stale, h, Next(s, a), Last(h'), []);
  }

  lemma {:induction false} ReplyLeaves(s: State, a: Action)
    requires a.Reply? && Enabled(s, a)
    ensures var out := if a.reply.count == HEADER_SIZE then [(s.from, Datagram(Ack, s.recvSeq, s.recvAck, []))] else [];
            var t := Next(s, a);
            && t.backward == s.backward + Addressed(out, s.link.source)
            && t.link == s.link && t.recvSeq == s.recvSeq && !t.receiving.phase.Replying?
            && if t.receiving.phase.Finished? && t.receiving.phase.result >= 0
               then t.log != [] && t.log[..|t.log| - 1] == s.log && Last(t.log).result == t.receiving.phase.result &&
                    Last(t.log).handed == t.receiving.phase.handed
               else t.log == s.log
  {
    var out := if a.reply.count == HEADER_SIZE then [(s.from, Datagram(Ack, s.recvSeq, s.recvAck, []))] else [];
    assert out != [] ==> out[0] in out && forall p <- out :: p == out[0];
    assert Next(s, a).log != s.log ==> Next(s, a).log[..|Next(s, a).log| - 1] == s.log;
  }

  lemma {:induction false} ReplyStep(s: State, stale: set<Datagram>, a: Action, h: seq<RecvTrace>)
    requires ReceiverInv(s, stale, h) && a.Reply? && Enabled(s, a)
    ensures ReceiverInv(Next(s, a), stale, RecordRecv(s, a, h))
  {
    ReplyKeeps(s.receiving, s.recvSeq, s.recvAck, Last(h), a.reply);
    assert Last(h).tries != [] && s.from == Last(h).from;
    ReplyLeaves(s, a);
    hide RunRecv, RecvAt, RecvIs, ReceiverInv, AfterReply, Addressed;
    var h', t := RecordRecv(s, a, h), Next(s, a);
    var out := if a.reply.count == HEADER_SIZE then [(s.from, Datagram(Ack, s.recvSeq, s.recvAck, []))] else [];
    LastReceives(s, stale, h, t, Last(h'), out);
  }

  lemma {:induction false} ReceiverStep(s: State, stale: set<Datagram>, a: Action, h: seq<RecvTrace>)
    requires ReceiverInv(s, stale, h) && Enabled(s, a)
    ensures ReceiverInv(Next(s, a), stale, RecordRecv(s, a, h))
  {
    if a.BeginRecv? {
      BeginRecvStep(s, stale, a, h);
    } else if a.Recvfrom? {
      RecvfromStep(s, stale, a, h);
    } else if a.Reply? {
      ReplyStep(s, stale, a, h);
    } else {
      hide RecvIs, Chained, Returned, Logged, Replied;
      SenderMoves(s, a);
    }
  }

  // --------------------------------------------------------------- whole runs

  lemma {:induction false} RunMatches(s: State, strays: set<Datagram>, stale: set<Datagram>, run: seq<Action>,
                                      h: Traces)
    requires IsRun(s, run) && SenderInv(s, strays, h.sends) && ReceiverInv(s, stale, h.recvs)
    ensures SenderInv(After(s, run), strays, Recorded(s, run, h).sends)
    ensures ReceiverInv(After(s, run), stale, Recorded(s, run, h).recvs)
    decreases |run|
  {
    if run != [] {
      var a := run[0];
      SenderStep(s, strays, a, h.sends);
      ReceiverStep(s, stale, a, h.recvs);
      hide SenderInv, ReceiverInv, RecordSend, RecordRecv;
      RunMatches(Next(s, a), strays, stale, run[1..], Traces(RecordSend(s, a, h.sends), RecordRecv(s, a, h.recvs)));
    }
  }

  lemma {:induction false} InitMatches(strays: set<Datagram>, stale: set<Datagram>, link: Link)
    ensures SenderInv(Init(strays, stale, link), strays, []) && ReceiverInv(Init(strays, stale, link), stale, [])
  {}

  /** In every run, over any network and with the receiver acting in between, the k-th sending call that returned is a
      call of rudp_send or rudp_close: started where the calls before it left the counter, it returned and put on the
      wire what RunSend says of its system calls; and nothing else is on the wire. */
  lemma {:induction false} RunIsSends(strays: set<Datagram>, stale: set<Datagram>, link: Link, run: seq<Action>)
    requires IsRun(Init(strays, stale, link), run)
    ensures var s := After(Init(strays, stale, link), run);
            var h := Recorded(Init(strays, stale, link), run, NOTHING).sends;
            && |h| == |s.begun| && |s.results| <= |h| && s.forward == strays + Emitted(h)
            && forall k {:trigger h[k]} :: 0 <= k < |h| ==>
                 && s.begun[k].seqno == Boundary(s.begun, k)
                 && (forall d <- h[k].emitted :: d == s.begun[k] && d in s.forward)
                 && (k < |s.results| ==>
                       var c := SendCall(s.begun[k], Boundary(s.begun, k + 1), link.dest, StartSend(h[k].opts));
                       RunSend(c, Padded(h[k].tries, NO_TRY), h[k].restoreOk) == (s.results[k], h[k].emitted))
  {
    InitMatches(strays, stale, link);
    RunMatches(Init(strays, stale, link), strays, stale, run, NOTHING);
    RunBooks(Init(strays, stale, link), strays, run);
    LinkFixed(Init(strays, stale, link), run);
    var s := After(Init(strays, stale, link), run);
    var h := Recorded(Init(strays, stale, link), run, NOTHING).sends;
    forall k | 0 <= k < |h|
      ensures s.begun[k].seqno == Boundary(s.begun, k)
      ensures forall d <- h[k].emitted :: d == s.begun[k] && d in s.forward
    {
      assert Tile(s.begun, k);
      EmittedBy(h, k);
    }
    forall k | 0 <= k < |s.results|
      ensures SendOver(CallOf(s.begun, k, s.link.dest, h[k].opts), h[k], s.results[k])
    {
      var _ := h[k];
    }
  }

  lemma {:induction false} EmittedBy(h: seq<SendTrace>, k: nat)
    requires k < |h|
    ensures forall d <- h[k].emitted :: d in Emitted(h)
  {
    if k < |h| - 1 { EmittedBy(h[..|h| - 1], k); }
  }

  lemma {:induction false} LinkFixed(s: State, run: seq<Action>)
    requires IsRun(s, run)
    ensures After(s, run).link == s.link && After(s, run).recvSeq == s.recvSeq
    decreases |run|
  {
    if run != [] { LinkFixed(Next(s, run[0]), run[1..]); }
  }

  /** ... and the receiving calls are calls of rudp_recv: each started with the acknowledgement number that the one
      before it left, it returned, handed up and acknowledged what RunRecv says of its system calls. The log is what
      those returned that did not fail, and the acknowledgements on the wire are theirs. */
  lemma {:induction false} RunIsReceives(strays: set<Datagram>, stale: set<Datagram>, link: Link,
                                         run: seq<Action>)
    requires IsRun(Init(strays, stale, link), run)
    ensures var s := After(Init(strays, stale, link), run);
            var h := Recorded(Init(strays, stale, link), run, NOTHING).recvs;
            && Logged(s.log) == Returned(Over(s, h), HEADER_SIZE)
            && s.backward == stale + Replied(h, link.source)
            && Chained(Over(s, h), HEADER_SIZE, HEADER_SIZE,
                       if s.receiving.phase.Finished? || h == [] then s.recvAck else Last(h).before)
  {
    InitMatches(strays, stale, link);
    RunMatches(Init(strays, stale, link), strays, stale, run, NOTHING);
    LinkFixed(Init(strays, stale, link), run);
  }
}
