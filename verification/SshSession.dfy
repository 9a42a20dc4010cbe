/** ssh_client and ssh_server at work with each other: two message loops whose socket inputs are taken, in order and in
    pieces of any size, from what the other has sent. Their passes may interleave half by half. Together they are a run
    of a Keystream session, and what is proved of sessions holds of them. */
module SshSession {
  import opened Basics
  import opened SshLoops
  import K = Keystream

  /** A loop, the events of its passes so far, and whether the first half of the last pass is all that has been done. */
  datatype Runner = Runner(loop: Loop, events: seq<Event>, mid: bool)

  datatype Pair = Pair(client: Runner, server: Runner)

  /** poll times out, poll fails, or one half of a pass is made: the client serves its socket first and then its
      terminal, the server the other way round. */
  datatype Half =
    | Skip
    | Quit
    | First(input: Input)
    | Second(input: Input)

  function Begin(s0: K.Session): Pair {
    Pair(Runner(StartLoop(s0.left.position), [], false), Runner(StartLoop(s0.right.position), [], false))
  }

  function Rest(stream: seq<Byte>, taken: nat): seq<Byte> {
    if taken <= |stream| then stream[taken..] else []
  }

  /** What is in flight, to the server and to the client; s0 is where the loops began. */
  function ToServer(s0: K.Session, p: Pair): seq<Byte> {
    Rest(s0.toRight + p.client.loop.wire, |p.server.loop.shown|)
  }

  function ToClient(s0: K.Session, p: Pair): seq<Byte> {
    Rest(s0.toLeft + p.server.loop.wire, |p.client.loop.shown|)
  }

  /** A receive yields the front of what is in flight, or nothing once the other side has gone. */
  predicate FromPeer(inFlight: seq<Byte>, peer: Runner, input: Input) {
    match input
    case NotReady => true
    case Failed => false
    case Data(b) => if b == [] then inFlight == [] && !peer.loop.status.Running? else |b| <= MAX_BUFFER && b <= inFlight
  }

  predicate Read(input: Input) {
    input.Data? ==> |input.bytes| <= MAX_BUFFER
  }

  predicate CanMove(s0: K.Session, p: Pair, client: bool, h: Half) {
    var me, peer := if client then p.client else p.server, if client then p.server else p.client;
    var inFlight := if client then ToClient(s0, p) else ToServer(s0, p);
    && me.loop.status.Running?
    && match h
       case Skip => !me.mid
       case Quit => !me.mid
       case First(input) => !me.mid && if client then FromPeer(inFlight, peer, input) else Read(input)
       case Second(input) => me.mid && if client then Read(input) else FromPeer(inFlight, peer, input)
  }

  function MoveClient(ks: K.Stream, r: Runner, h: Half): Runner {
    match h
    case Skip => r.(events := r.events + [Timeout])
    case Quit => r.(loop := r.loop.(status := Left), events := r.events + [Leave])
    case First(input) => Runner(FromSocket(ks, r.loop, input, Left), r.events + [Ready(input, NotReady)], true)
    case Second(input) =>
      if r.events == [] || !Last(r.events).Ready? then r
      else Runner(FromTerminal(ks, r.loop, input, true),
                  r.events[..|r.events| - 1] + [Ready(Last(r.events).socket, input)], false)
  }

  function MoveServer(ks: K.Stream, r: Runner, h: Half): Runner {
    match h
    case Skip => r.(events := r.events + [Timeout])
    case Quit => r.(loop := r.loop.(status := Left), events := r.events + [Leave])
    case First(input) => Runner(FromTerminal(ks, r.loop, input, false), r.events + [Ready(NotReady, input)], true)
    case Second(input) =>
      if r.events == [] || !Last(r.events).Ready? then r
      else Runner(FromSocket(ks, r.loop, input, Returned(1)),
                  r.events[..|r.events| - 1] + [Ready(input, Last(r.events).terminal)], false)
  }

  function Move(ks: K.Stream, p: Pair, client: bool, h: Half): Pair {
    if client then p.(client := MoveClient(ks, p.client, h)) else p.(server := MoveServer(ks, p.server, h))
  }

  predicate IsPlay(ks: K.Stream, s0: K.Session, p: Pair, play: seq<(bool, Half)>)
    decreases |play|
  {
    play == [] || (CanMove(s0, p, play[0].0, play[0].1) &&
                   IsPlay(ks, s0, Move(ks, p, play[0].0, play[0].1), play[1..]))
  }

  function Played(ks: K.Stream, p: Pair, play: seq<(bool, Half)>): Pair
    decreases |play|
  {
    if play == [] then p else Played(ks, Move(ks, p, play[0].0, play[0].1), play[1..])
  }

  // ----------------------------------------------- each side is a RunLoop

  /** The first half of a pass, when the second finds nothing. */
  function Started(ks: K.Stream, t: Loop, e: Event, client: bool): Loop
    requires e.Ready?
  {
    if client then FromSocket(ks, t, e.socket, Left) else FromTerminal(ks, t, e.terminal, false)
  }

  /** The loop is what RunLoop makes of its events. */
  predicate RunnerInv(ks: K.Stream, start: Loop, r: Runner, client: bool) {
    && r.loop == RunLoop(ks, start, r.events, client)
    && (forall e <- r.events :: Fits(e))
    && (r.mid && r.loop.status.Running? ==>
          && r.events != [] && Last(r.events).Ready?
          && var t := RunLoop(ks, start, r.events[..|r.events| - 1], client);
             t.status.Running? && r.loop == Started(ks, t, Last(r.events), client))
  }

  lemma {:induction false} FirstKeeps(ks: K.Stream, start: Loop, r: Runner, client: bool, e: Event)
    requires RunnerInv(ks, start, r, client) && r.loop.status.Running? && e.Ready? && Fits(e)
    requires if client then e.terminal == NotReady else e.socket == NotReady
    ensures RunnerInv(ks, start, Runner(Started(ks, r.loop, e, client), r.events + [e], true), client)
  {
    hide Receives, Sends;
    RunLoopSnoc(ks, start, r.events, e, client);
    assert (r.events + [e])[..|r.events|] == r.events;
  }

  lemma {:induction false} SecondKeeps(ks: K.Stream, start: Loop, r: Runner, client: bool, e: Event)
    requires RunnerInv(ks, start, r, client) && r.mid && r.loop.status.Running? && e.Ready? && Fits(e)
    requires if client then e.socket == Last(r.events).socket else e.terminal == Last(r.events).terminal
    ensures var loop := if client then FromTerminal(ks, r.loop, e.terminal, true)
                        else FromSocket(ks, r.loop, e.socket, Returned(1));
            RunnerInv(ks, start, Runner(loop, r.events[..|r.events| - 1] + [e], false), client)
  {
    hide Receives, Sends;
    var front := r.events[..|r.events| - 1];
    RunLoopSnoc(ks, start, front, e, client);
    assert forall x <- front :: x in r.events;
  }

  lemma {:induction false} PauseKeeps(ks: K.Stream, start: Loop, r: Runner, client: bool, e: Event)
    requires RunnerInv(ks, start, r, client) && r.loop.status.Running? && !r.mid && !e.Ready?
    ensures RunnerInv(ks, start, Runner(Pass(ks, r.loop, e, client), r.events + [e], false), client)
  {
    RunLoopSnoc(ks, start, r.events, e, client);
  }

  lemma {:induction false} ClientKeeps(ks: K.Stream, start: Loop, s0: K.Session, p: Pair, h: Half)
    requires RunnerInv(ks, start, p.client, true) && CanMove(s0, p, true, h)
    ensures RunnerInv(ks, start, MoveClient(ks, p.client, h), true)
  {
    var r := p.client;
    match h
    case Skip => PauseKeeps(ks, start, r, true, Timeout);
    case Quit => PauseKeeps(ks, start, r, true, Leave);
    case First(input) =>
      hide FromSocket, FromTerminal;
      FirstKeeps(ks, start, r, true, Ready(input, NotReady));
    case Second(input) =>
      assert Last(r.events) in r.events && Fits(Last(r.events));
      hide FromSocket, FromTerminal;
      SecondKeeps(ks, start, r, true, Ready(Last(r.events).socket, input));
  }

  lemma {:induction false} ServerKeeps(ks: K.Stream, start: Loop, s0: K.Session, p: Pair, h: Half)
    requires RunnerInv(ks, start, p.server, false) && CanMove(s0, p, false, h)
    ensures RunnerInv(ks, start, MoveServer(ks, p.server, h), false)
  {
    var r := p.server;
    match h
    case Skip => PauseKeeps(ks, start, r, false, Timeout);
    case Quit => PauseKeeps(ks, start, r, false, Leave);
    case First(input) =>
      hide FromSocket, FromTerminal;
      FirstKeeps(ks, start, r, false, Ready(NotReady, input));
    case Second(input) =>
      assert Last(r.events) in r.events && Fits(Last(r.events));
      hide FromSocket, FromTerminal;
      SecondKeeps(ks, start, r, false, Ready(input, Last(r.events).terminal));
  }

  // ------------------------------------------ together they are a session

  /** The step of the session that a half of a pass makes, if any. */
  function Acts(p: Pair, client: bool, h: Half): seq<(bool, K.Action)> {
    var onSocket := if client then h.First? else h.Second?;
    if h.Skip? || h.Quit? || !h.input.Data? then []
    else if onSocket then if h.input.bytes == [] then [] else [(client, K.Receive(|h.input.bytes|))]
    else if client && FirstOr(h.input.bytes, p.client.loop.lead) == CTRL_D then []
    else [(client, K.Send(h.input.bytes))]
  }

  function Actions(ks: K.Stream, p: Pair, play: seq<(bool, Half)>): seq<(bool, K.Action)>
    decreases |play|
  {
    if play == [] then []
    else Acts(p, play[0].0, play[0].1) + Actions(ks, Move(ks, p, play[0].0, play[0].1), play[1..])
  }

  predicate SideMatches(side: K.Side, side0: K.Side, loop: Loop) {
    && side.position == loop.position
    && side.sent == side0.sent + loop.typed && side.received == side0.received + loop.shown
  }

  /** Positions, plaintexts and the bytes in flight are those of the session s. */
  predicate Matches(s0: K.Session, p: Pair, s: K.Session) {
    && SideMatches(s.left, s0.left, p.client.loop) && SideMatches(s.right, s0.right, p.server.loop)
    && |p.server.loop.shown| <= |s0.toRight + p.client.loop.wire|
    && |p.client.loop.shown| <= |s0.toLeft + p.server.loop.wire|
    && s.toRight == ToServer(s0, p) && s.toLeft == ToClient(s0, p)
  }

  /** One side of Matches: what this loop has, what its peer has taken, and what flows between them. */
  predicate FlowMatches(first: seq<Byte>, wire: seq<Byte>, taken: nat, inFlight: seq<Byte>) {
    taken <= |first + wire| && inFlight == (first + wire)[taken..]
  }

  lemma {:induction false} FlowSends(first: seq<Byte>, wire: seq<Byte>, taken: nat, inFlight: seq<Byte>, b: seq<Byte>)
    requires FlowMatches(first, wire, taken, inFlight)
    ensures FlowMatches(first, wire + b, taken, inFlight + b)
  {}

  /** A loop that sends, as a step of the session in which it is on the left. */
  lemma {:induction false} SendMatches(ks: K.Stream, s: K.Session, side0: K.Side, l: Loop, b: seq<Byte>)
    requires SideMatches(s.left, side0, l)
    ensures SideMatches(K.Next(ks, s, K.Send(b)).left, side0, Sends(ks, l, b))
    ensures K.Next(ks, s, K.Send(b)).toRight == s.toRight + K.Crypt(ks, l.position, b)
  {}

  /** A loop that receives, likewise. */
  lemma {:induction false} ReceiveMatches(ks: K.Stream, s: K.Session, side0: K.Side, l: Loop, b: seq<Byte>)
    requires SideMatches(s.left, side0, l) && b != [] && b <= s.toLeft
    ensures K.Enabled(s, K.Receive(|b|))
    ensures SideMatches(K.Next(ks, s, K.Receive(|b|)).left, side0, Receives(ks, l, b))
    ensures K.Next(ks, s, K.Receive(|b|)).toLeft == s.toLeft[|b|..]
  {}

  /** The session after what a half of a pass does. */
  function Stepped(ks: K.Stream, s: K.Session, acts: seq<(bool, K.Action)>): K.Session
    requires |acts| <= 1 && (acts != [] ==> K.CanStep(s, acts[0].0, acts[0].1))
  {
    if acts == [] then s else K.Step(ks, s, acts[0].0, acts[0].1)
  }

  predicate Steps(ks: K.Stream, s0: K.Session, p: Pair, s: K.Session, client: bool, h: Half) {
    var acts := Acts(p, client, h);
    && |acts| <= 1 && (acts != [] ==> K.CanStep(s, acts[0].0, acts[0].1))
    && Matches(s0, Move(ks, p, client, h), Stepped(ks, s, acts))
  }

  /** What half of a pass does to a loop. */
  lemma {:induction false} ClientHalf(ks: K.Stream, start: Loop, s0: K.Session, p: Pair, h: Half)
    requires RunnerInv(ks, start, p.client, true) && CanMove(s0, p, true, h)
    ensures var acts, l, l' := Acts(p, true, h), p.client.loop, MoveClient(ks, p.client, h).loop;
            if acts == []
            then l'.position == l.position && l'.typed == l.typed && l'.wire == l.wire && l'.shown == l.shown
            else match acts[0].1
                 case Send(b) => l' == Sends(ks, l, b)
                 case Receive(n) => h.First? && n == |h.input.bytes| > 0 && l' == Receives(ks, l, h.input.bytes)
    ensures forall i :: 0 <= i < |Acts(p, true, h)| ==> Acts(p, true, h)[i].0
  {}

  lemma {:induction false} ServerHalf(ks: K.Stream, start: Loop, s0: K.Session, p: Pair, h: Half)
    requires RunnerInv(ks, start, p.server, false) && CanMove(s0, p, false, h)
    ensures var acts, l, l' := Acts(p, false, h), p.server.loop, MoveServer(ks, p.server, h).loop;
            if acts == []
            then l'.position == l.position && l'.typed == l.typed && l'.wire == l.wire && l'.shown == l.shown
            else match acts[0].1
                 case Send(b) => l' == Sends(ks, l, b)
                 case Receive(n) => h.Second? && n == |h.input.bytes| > 0 && l' == Receives(ks, l, h.input.bytes)
    ensures forall i :: 0 <= i < |Acts(p, false, h)| ==> !Acts(p, false, h)[i].0
  {}

  lemma {:induction false} ClientSteps(ks: K.Stream, start: Loop, s0: K.Session, p: Pair, s: K.Session, h: Half)
    requires RunnerInv(ks, start, p.client, true) && CanMove(s0, p, true, h) && Matches(s0, p, s)
    ensures Steps(ks, s0, p, s, true, h)
  {
    ClientHalf(ks, start, s0, p, h);
    hide RunnerInv, MoveClient;
    var acts, l := Acts(p, true, h), p.client.loop;
    if acts != [] {
      match acts[0].1
      case Send(b) =>
        SendMatches(ks, s, s0.left, l, b);
        FlowSends(s0.toRight, l.wire, |p.server.loop.shown|, s.toRight, K.Crypt(ks, l.position, b));
      case Receive(n) =>
        ReceiveMatches(ks, s, s0.left, l, h.input.bytes);
    }
  }

  lemma {:induction false} ServerSteps(ks: K.Stream, start: Loop, s0: K.Session, p: Pair, s: K.Session, h: Half)
    requires RunnerInv(ks, start, p.server, false) && CanMove(s0, p, false, h) && Matches(s0, p, s)
    ensures Steps(ks, s0, p, s, false, h)
  {
    ServerHalf(ks, start, s0, p, h);
    hide RunnerInv, MoveServer;
    var acts, l := Acts(p, false, h), p.server.loop;
    if acts != [] {
      match acts[0].1
      case Send(b) =>
        SendMatches(ks, K.Swap(s), s0.right, l, b);
        FlowSends(s0.toLeft, l.wire, |p.client.loop.shown|, s.toLeft, K.Crypt(ks, l.position, b));
      case Receive(n) =>
        ReceiveMatches(ks, K.Swap(s), s0.right, l, h.input.bytes);
    }
  }

  /** This half of a pass sends nothing, or nothing is in flight towards it. */
  predicate InTurn(s0: K.Session, p: Pair, client: bool, h: Half) {
    forall i :: 0 <= i < |Acts(p, client, h)| ==>
      var a := Acts(p, client, h)[i].1;
      a.Send? && a.plain != [] ==> (if client then ToClient(s0, p) else ToServer(s0, p)) == []
  }

  /** A side sends something only when nothing is in flight towards it. */
  predicate TakeTurns(ks: K.Stream, s0: K.Session, p: Pair, play: seq<(bool, Half)>)
    decreases |play|
  {
    play == [] ||
    (InTurn(s0, p, play[0].0, play[0].1) && TakeTurns(ks, s0, Move(ks, p, play[0].0, play[0].1), play[1..]))
  }

  lemma {:induction false} ActsRun(ks: K.Stream, s: K.Session, acts: seq<(bool, K.Action)>, rest: seq<(bool, K.Action)>)
    requires |acts| <= 1 && (acts != [] ==> K.CanStep(s, acts[0].0, acts[0].1))
    requires K.IsRun(ks, Stepped(ks, s, acts), rest)
    ensures K.IsRun(ks, s, acts + rest) && K.After(ks, s, acts + rest) == K.After(ks, Stepped(ks, s, acts), rest)
    ensures K.TakesTurns(ks, s, acts + rest) <==>
              && (acts != [] && acts[0].1.Send? && acts[0].1.plain != [] ==>
                    (if acts[0].0 then s.toLeft else s.toRight) == [])
              && K.TakesTurns(ks, Stepped(ks, s, acts), rest)
  {
    if acts == [] {
      assert acts + rest == rest;
    } else {
      assert acts == [(acts[0].0, acts[0].1)];
      K.RunCons(ks, s, acts[0].0, acts[0].1, rest);
      assert (acts + rest)[0] == acts[0] && (acts + rest)[1..] == rest;
    }
  }

  lemma {:induction false} HalfMatches(ks: K.Stream, s0: K.Session, p: Pair, s: K.Session, client: bool, h: Half,
                                       left: Loop, right: Loop)
    requires CanMove(s0, p, client, h) && Matches(s0, p, s)
    requires RunnerInv(ks, left, p.client, true) && RunnerInv(ks, right, p.server, false)
    ensures var acts, q := Acts(p, client, h), Move(ks, p, client, h);
            && RunnerInv(ks, left, q.client, true) && RunnerInv(ks, right, q.server, false)
            && |acts| <= 1 && (acts != [] ==> acts[0].0 == client && K.CanStep(s, client, acts[0].1))
            && Matches(s0, q, Stepped(ks, s, acts))
    ensures InTurn(s0, p, client, h) <==>
              var acts := Acts(p, client, h);
              acts != [] && acts[0].1.Send? && acts[0].1.plain != [] ==> (if client then s.toLeft else s.toRight) == []
  {
    hide RunnerInv, CanMove, Matches, MoveClient, MoveServer;
    if client {
      ClientSteps(ks, left, s0, p, s, h);
      ClientKeeps(ks, left, s0, p, h);
    } else {
      ServerSteps(ks, right, s0, p, s, h);
      ServerKeeps(ks, right, s0, p, h);
    }
    InFlightMatches(s0, p, s);
  }

  lemma {:induction false} InFlightMatches(s0: K.Session, p: Pair, s: K.Session)
    requires Matches(s0, p, s)
    ensures s.toLeft == ToClient(s0, p) && s.toRight == ToServer(s0, p)
  {}

  lemma {:induction false} PlayMatches(ks: K.Stream, s0: K.Session, p: Pair, s: K.Session, play: seq<(bool, Half)>,
                                       left: Loop, right: Loop)
    requires IsPlay(ks, s0, p, play) && Matches(s0, p, s)
    requires RunnerInv(ks, left, p.client, true) && RunnerInv(ks, right, p.server, false)
    ensures var q := Played(ks, p, play);
            && RunnerInv(ks, left, q.client, true) && RunnerInv(ks, right, q.server, false)
            && K.IsRun(ks, s, Actions(ks, p, play))
            && Matches(s0, q, K.After(ks, s, Actions(ks, p, play)))
            && (TakeTurns(ks, s0, p, play) <==> K.TakesTurns(ks, s, Actions(ks, p, play)))
    decreases |play|
  {
    if play != [] {
      var client, h := play[0].0, play[0].1;
      var acts, q := Acts(p, client, h), Move(ks, p, client, h);
      HalfMatches(ks, s0, p, s, client, h, left, right);
      hide RunnerInv, Move, CanMove, Stepped, K.Step, K.CanStep;
      hide Matches, Acts, InTurn;
      PlayMatches(ks, s0, q, Stepped(ks, s, acts), play[1..], left, right);
      ActsRun(ks, s, acts, Actions(ks, q, play[1..]));
    }
  }

  // ------------------------------------------------------------ main theorems

  /** Whatever the two loops do together is a run of the session: each of them is the RunLoop of its events, which is
      what ClientLoop and ServerLoop are proved to compute, and positions, plaintexts and bytes in flight are the
      session's. */
  lemma {:induction false} LoopsAreSession(ks: K.Stream, s0: K.Session, play: seq<(bool, Half)>)
    requires IsPlay(ks, s0, Begin(s0), play)
    ensures var p := Played(ks, Begin(s0), play);
            && p.client.loop == RunLoop(ks, StartLoop(s0.left.position), p.client.events, true)
            && p.server.loop == RunLoop(ks, StartLoop(s0.right.position), p.server.events, false)
            && (forall e <- p.client.events + p.server.events :: Fits(e))
            && K.IsRun(ks, s0, Actions(ks, Begin(s0), play))
            && Matches(s0, p, K.After(ks, s0, Actions(ks, Begin(s0), play)))
  {
    var p := Begin(s0);
    assert s0.toRight + [] == s0.toRight && s0.toLeft + [] == s0.toLeft;
    assert s0.left.sent + [] == s0.left.sent && s0.right.sent + [] == s0.right.sent;
    assert s0.left.received + [] == s0.left.received && s0.right.received + [] == s0.right.received;
    PlayMatches(ks, s0, p, s0, play, p.client.loop, p.server.loop);
  }

  /** Conservation for the loops: in every reachable state the difference of their keystream positions is the difference
      of the bytes in flight. */
  lemma {:induction false} LoopsConserve(ks: K.Stream, before: seq<(bool, K.Action)>, play: seq<(bool, Half)>)
    requires K.IsRun(ks, K.Fresh(), before)
    requires var s0 := K.After(ks, K.Fresh(), before); IsPlay(ks, s0, Begin(s0), play)
    ensures var s0 := K.After(ks, K.Fresh(), before);
            var p := Played(ks, Begin(s0), play);
            p.client.loop.position - p.server.loop.position == |ToServer(s0, p)| - |ToClient(s0, p)|
  {
    var s0 := K.After(ks, K.Fresh(), before);
    LoopsAreSession(ks, s0, play);
    K.RunInv(ks, K.Fresh(), before);
    K.RunInv(ks, s0, Actions(ks, Begin(s0), play));
  }

  /** Each side shows what the other's user typed, up to what is still in flight. */
  predicate ShowsTyped(s0: K.Session, p: Pair) {
    && s0.right.received + p.server.loop.shown <= s0.left.sent + p.client.loop.typed
    && s0.left.received + p.client.loop.shown <= s0.right.sent + p.server.loop.typed
    && (ToServer(s0, p) == [] ==> s0.right.received + p.server.loop.shown == s0.left.sent + p.client.loop.typed)
    && (ToClient(s0, p) == [] ==> s0.left.received + p.client.loop.shown == s0.right.sent + p.server.loop.typed)
  }

  lemma {:induction false} KeptShows(s0: K.Session, p: Pair, s: K.Session)
    requires Matches(s0, p, s) && K.Kept(s)
    ensures ShowsTyped(s0, p)
  {}

  /** When both sides have taken turns since the keystream was new, each shows exactly what the other's user typed, up
      to what is still in flight. */
  lemma {:induction false} LoopsFaithful(ks: K.Stream, before: seq<(bool, K.Action)>, play: seq<(bool, Half)>)
    requires K.IsRun(ks, K.Fresh(), before) && K.TakesTurns(ks, K.Fresh(), before)
    requires var s0 := K.After(ks, K.Fresh(), before);
             IsPlay(ks, s0, Begin(s0), play) && TakeTurns(ks, s0, Begin(s0), play)
    ensures var s0 := K.After(ks, K.Fresh(), before); ShowsTyped(s0, Played(ks, Begin(s0), play))
  {
    var s0 := K.After(ks, K.Fresh(), before);
    var acts := Actions(ks, Begin(s0), play);
    TurnsCarryOver(ks, s0, play);
    LoopsAreSession(ks, s0, play);
    hide Actions, Played, IsPlay, TakeTurns, RunLoop, Matches, K.Kept, ShowsTyped, K.Inv, K.TurnInv, K.After,
         K.IsRun, K.TakesTurns;
    K.TurnRun(ks, K.Fresh(), before);
    K.TurnRun(ks, s0, acts);
    K.RunInv(ks, K.Fresh(), before);
    K.RunInv(ks, s0, acts);
    K.TurnsKeep(ks, K.After(ks, s0, acts));
    KeptShows(s0, Played(ks, Begin(s0), play), K.After(ks, s0, acts));
  }

  lemma {:induction false} TurnsCarryOver(ks: K.Stream, s0: K.Session, play: seq<(bool, Half)>)
    requires IsPlay(ks, s0, Begin(s0), play)
    ensures K.IsRun(ks, s0, Actions(ks, Begin(s0), play))
    ensures TakeTurns(ks, s0, Begin(s0), play) <==> K.TakesTurns(ks, s0, Actions(ks, Begin(s0), play))
  {
    var p := Begin(s0);
    assert s0.toRight + [] == s0.toRight && s0.toLeft + [] == s0.toLeft;
    assert s0.left.sent + [] == s0.left.sent && s0.right.sent + [] == s0.right.sent;
    assert s0.left.received + [] == s0.left.received && s0.right.received + [] == s0.right.received;
    PlayMatches(ks, s0, p, s0, play, p.client.loop, p.server.loop);
  }

  /** Only turns keep the loops together: when nothing is in flight at the end, they have taken turns if and only if
      every byte was decrypted where it was encrypted. */
  lemma {:induction false} LoopsTurnsIff(ks: K.Stream, before: seq<(bool, K.Action)>, play: seq<(bool, Half)>)
    requires K.IsRun(ks, K.Fresh(), before) && K.TakesTurns(ks, K.Fresh(), before)
    requires var s0 := K.After(ks, K.Fresh(), before);
             && IsPlay(ks, s0, Begin(s0), play)
             && ToServer(s0, Played(ks, Begin(s0), play)) == [] && ToClient(s0, Played(ks, Begin(s0), play)) == []
    ensures var s0 := K.After(ks, K.Fresh(), before);
            && K.IsRun(ks, s0, Actions(ks, Begin(s0), play))
            && (TakeTurns(ks, s0, Begin(s0), play) <==> K.Agree(K.After(ks, s0, Actions(ks, Begin(s0), play))))
  {
    var s0 := K.After(ks, K.Fresh(), before);
    var acts := Actions(ks, Begin(s0), play);
    LoopsAreSession(ks, s0, play);
    TurnsCarryOver(ks, s0, play);
    K.TurnRun(ks, K.Fresh(), before);
    K.RunGrows(ks, K.Fresh(), before, true);
    K.TurnsIffAgreeFrom(ks, s0, acts);
  }

  /** How the loops begin: the client has sent the user name, and the server has received a first part of it. */
  lemma {:induction false} Login(ks: K.Stream, user: seq<Byte>, n: nat) returns (before: seq<(bool, K.Action)>)
    requires 0 < n <= |user|
    ensures K.IsRun(ks, K.Fresh(), before) && K.TakesTurns(ks, K.Fresh(), before)
    ensures var s0 := K.After(ks, K.Fresh(), before);
            && s0.left.sent == user && s0.right.received == user[..n] && s0.left.received == [] == s0.right.sent
            && s0.left.position == |user| && s0.right.position == n && |s0.toRight| == |user| - n && s0.toLeft == []
  {
    hide K.Xor;
    var s1 := K.Step(ks, K.Fresh(), true, K.Send(user));
    var s2 := K.Step(ks, s1, false, K.Receive(n));
    assert K.IsRun(ks, s2, []);
    K.RunCons(ks, s1, false, K.Receive(n), []);
    before := [(true, K.Send(user))] + ([(false, K.Receive(n))] + []);
    K.RunCons(ks, K.Fresh(), true, K.Send(user), [(false, K.Receive(n))] + []);
    assert K.TakesTurns(ks, s2, []);
    assert ([(false, K.Receive(n))] + [])[1..] == [] && before[1..] == [(false, K.Receive(n))] + [];
    assert K.TakesTurns(ks, s1, [(false, K.Receive(n))] + []);
    K.RunInv(ks, K.Fresh(), before);
    K.TurnRun(ks, K.Fresh(), before);
    K.TurnsKeep(ks, s2);
  }
}
