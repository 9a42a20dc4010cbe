/** The message loops of ssh_client and of the SOCK_STREAM half of ssh_server, with their one RC4 state and their two
    buffers. */
module SshLoops {
  import opened Basics
  import opened Keystream

  const CTRL_D: Byte := 4

  /** What a ready descriptor yields; no bytes mean that the other end has closed it. */
  datatype Input =
    | NotReady
    | Failed
    | Data(bytes: seq<Byte>)

  /** One pass: poll times out, poll fails (for the server also: the shell is gone), or descriptors are ready. */
  datatype Event =
    | Timeout
    | Leave
    | Ready(socket: Input, terminal: Input)

  /** After a failed receive the loop passes a negative length to RC4, and what happens from there on is undefined. */
  datatype Status =
    | Running
    | Left
    | Returned(code: int)
    | Undefined

  /** The keystream position, the first byte of buff, the plaintext read from the terminal and sent, the bytes it was
      sent as, and the plaintext written to the terminal. */
  datatype Loop = Loop(position: nat, lead: Byte, typed: seq<Byte>, wire: seq<Byte>, shown: seq<Byte>, status: Status)

  function StartLoop(position: nat): Loop {
    Loop(position, 0, [], [], [], Running)
  }

  function FirstOr(bytes: seq<Byte>, lead: Byte): Byte {
    if bytes == [] then lead else bytes[0]
  }

  /** Receiving the bytes b from the peer. */
  function Receives(ks: Stream, s: Loop, b: seq<Byte>): Loop {
    var plain := Crypt(ks, s.position, b);
    s.(position := s.position + |b|, lead := FirstOr(plain, s.lead), shown := s.shown + plain)
  }

  /** Sending the plaintext b to the peer. */
  function Sends(ks: Stream, s: Loop, b: seq<Byte>): Loop {
    s.(position := s.position + |b|, lead := FirstOr(b, s.lead), typed := s.typed + b,
       wire := s.wire + Crypt(ks, s.position, b))
  }

  function FromSocket(ks: Stream, s: Loop, input: Input, closed: Status): Loop {
    if input.NotReady? then s
    else if input.Failed? then s.(status := Undefined)
    else if input.bytes == [] then s.(status := closed)
    else Receives(ks, s, input.bytes)
  }

  /** The client also looks for Ctrl-D in its buffer, which read leaves alone at end of file. */
  function FromTerminal(ks: Stream, s: Loop, input: Input, client: bool): Loop {
    match input
    case NotReady => s
    case Failed => s.(status := Returned(-1))
    case Data(b) =>
      if client && FirstOr(b, s.lead) == CTRL_D then s.(lead := CTRL_D, status := Left) else Sends(ks, s, b)
  }

  /** The client serves the socket first, the server its terminal. */
  function Pass(ks: Stream, s: Loop, e: Event, client: bool): Loop
    requires s.status.Running?
  {
    match e
    case Timeout => s
    case Leave => s.(status := Left)
    case Ready(socket, terminal) =>
      if client then
        var t := FromSocket(ks, s, socket, Left);
        if t.status.Running? then FromTerminal(ks, t, terminal, true) else t
      else
        var t := FromTerminal(ks, s, terminal, false);
        if t.status.Running? then FromSocket(ks, t, socket, Returned(1)) else t
  }

  function RunLoop(ks: Stream, s: Loop, events: seq<Event>, client: bool): Loop
    decreases |events|
  {
    if events == [] || !s.status.Running? then s
    else RunLoop(ks, Pass(ks, s, events[0], client), events[1..], client)
  }

  /** A read yields no more than the buffer holds. */
  predicate Fits(e: Event) {
    e.Ready? ==> (e.socket.Data? ==> |e.socket.bytes| <= MAX_BUFFER) &&
                 (e.terminal.Data? ==> |e.terminal.bytes| <= MAX_BUFFER)
  }

  /** The socket half of a pass: RC4 from enc_buff to buff, which goes to the terminal. */
  method Incoming(key: Rc4, buff: array<Byte>, encBuff: array<Byte>, bytes: seq<Byte>) returns (plain: seq<Byte>)
    requires buff != encBuff && |bytes| <= buff.Length && |bytes| <= encBuff.Length
    modifies key`position, buff, encBuff
    ensures plain == Crypt(key.ks, old(key.position), bytes)
    ensures key.position == old(key.position) + |bytes|
    ensures buff.Length > 0 ==> buff[0] == FirstOr(plain, old(buff[0]))
  {
    Fill(encBuff, bytes);
    key.Apply(|bytes|, encBuff, buff);
    plain := buff[..|bytes|];
    assert |bytes| == 0 ==> buff[0..] == old(buff[0..]);
    assert buff.Length > 0 && |bytes| == 0 ==> buff[0..][0] == old(buff[0..])[0];
  }

  /** The terminal half: RC4 from buff to enc_buff, which goes to the socket, unless the client finds Ctrl-D. */
  method Outgoing(key: Rc4, buff: array<Byte>, encBuff: array<Byte>, bytes: seq<Byte>, client: bool)
    returns (quit: bool, wire: seq<Byte>)
    requires buff != encBuff && |bytes| <= buff.Length && |bytes| <= encBuff.Length && buff.Length > 0
    modifies key`position, buff, encBuff
    ensures buff[0] == FirstOr(bytes, old(buff[0])) && quit == (client && buff[0] == CTRL_D)
    ensures wire == (if quit then [] else Crypt(key.ks, old(key.position), bytes))
    ensures key.position == old(key.position) + |wire|
  {
    hide Crypt, Xor;
    Fill(buff, bytes);
    assert |bytes| == 0 ==> buff[0..][0] == old(buff[0..])[0];
    if client && buff[0] == CTRL_D { return true, []; }
    key.Apply(|bytes|, buff, encBuff);
    return false, encBuff[..|bytes|];
  }

  /** The loop of ssh_client. */
  method ClientLoop(key: Rc4, events: seq<Event>) returns (wire: seq<Byte>, shown: seq<Byte>, ghost end: Loop)
    requires forall e <- events :: Fits(e)
    modifies key`position
    ensures end == RunLoop(key.ks, StartLoop(old(key.position)), events, true)
    ensures wire == end.wire && shown == end.shown && key.position == end.position
  {
    hide Crypt, Xor;
    var buff := new Byte[MAX_BUFFER](_ => 0);
    var encBuff := new Byte[MAX_BUFFER](_ => 0);
    wire, shown := [], [];
    end := StartLoop(key.position);
    ghost var typed: seq<Byte> := [];
    var i := 0;
    while i < |events|
      invariant 0 <= i <= |events| && end == Loop(key.position, buff[0], typed, wire, shown, Running)
      invariant RunLoop(key.ks, StartLoop(old(key.position)), events, true) ==
                RunLoop(key.ks, end, events[i..], true)
    {
      var e := events[i];
      assert e in events;
      assert events[i..][1..] == events[i + 1..];
      ghost var before := end;
      end := Pass(key.ks, end, e, true);
      if e.Leave? { return; }
      if e.Ready? {
        if e.socket.Failed? { return; }
        if e.socket.Data? {
          if e.socket.bytes == [] { return; }
          var plain := Incoming(key, buff, encBuff, e.socket.bytes);
          shown := shown + plain;
        }
        ghost var middle := FromSocket(key.ks, before, e.socket, Left);
        assert middle == Loop(key.position, buff[0], typed, wire, shown, Running);
        assert end == FromTerminal(key.ks, middle, e.terminal, true);
        if e.terminal.Failed? { return; }
        if e.terminal.Data? {
          var quit, enc := Outgoing(key, buff, encBuff, e.terminal.bytes, true);
          if quit { return; }
          wire := wire + enc;
          typed := typed + e.terminal.bytes;
        }
      }
      i := i + 1;
    }
  }

  /** The loop of ssh_server. */
  method ServerLoop(key: Rc4, events: seq<Event>) returns (wire: seq<Byte>, shown: seq<Byte>, ghost end: Loop)
    requires forall e <- events :: Fits(e)
    modifies key`position
    ensures end == RunLoop(key.ks, StartLoop(old(key.position)), events, false)
    ensures wire == end.wire && shown == end.shown && key.position == end.position
  {
    hide Crypt, Xor;
    var buff := new Byte[MAX_BUFFER](_ => 0);
    var encBuff := new Byte[MAX_BUFFER](_ => 0);
    wire, shown := [], [];
    end := StartLoop(key.position);
    ghost var typed: seq<Byte> := [];
    var i := 0;
    while i < |events|
      invariant 0 <= i <= |events| && end == Loop(key.position, buff[0], typed, wire, shown, Running)
      invariant RunLoop(key.ks, StartLoop(old(key.position)), events, false) ==
                RunLoop(key.ks, end, events[i..], false)
    {
      var e := events[i];
      assert e in events;
      assert events[i..][1..] == events[i + 1..];
      ghost var before := end;
      end := Pass(key.ks, end, e, false);
      if e.Leave? { return; }
      if e.Ready? {
        if e.terminal.Failed? { return; }
        if e.terminal.Data? {
          var quit, enc := Outgoing(key, buff, encBuff, e.terminal.bytes, false);
          wire := wire + enc;
          typed := typed + e.terminal.bytes;
        }
        assert FromTerminal(key.ks, before, e.terminal, false) ==
               Loop(key.position, buff[0], typed, wire, shown, Running);
        if e.socket.Failed? { return; }
        if e.socket.Data? {
          if e.socket.bytes == [] { return; }
          var plain := Incoming(key, buff, encBuff, e.socket.bytes);
          shown := shown + plain;
        }
      }
      i := i + 1;
    }
  }

  /** The position of t is that of s, advanced by the bytes that t has sent and shown beyond s. */
  predicate Counts(s: Loop, t: Loop) {
    && s.wire <= t.wire && s.shown <= t.shown
    && t.position - s.position == |t.wire| - |s.wire| + |t.shown| - |s.shown|
  }

  lemma {:induction false} SocketCounts(ks: Stream, s: Loop, input: Input, closed: Status)
    ensures Counts(s, FromSocket(ks, s, input, closed))
  {}

  lemma {:induction false} TerminalCounts(ks: Stream, s: Loop, input: Input, client: bool)
    ensures Counts(s, FromTerminal(ks, s, input, client))
  {}

  lemma {:induction false} PassCounts(ks: Stream, s: Loop, e: Event, client: bool)
    requires s.status.Running?
    ensures Counts(s, Pass(ks, s, e, client))
  {
    hide FromSocket, FromTerminal;
    if e.Ready? {
      var t := if client then FromSocket(ks, s, e.socket, Left) else FromTerminal(ks, s, e.terminal, false);
      if client { SocketCounts(ks, s, e.socket, Left); } else { TerminalCounts(ks, s, e.terminal, false); }
      var u := if client then FromTerminal(ks, t, e.terminal, true) else FromSocket(ks, t, e.socket, Returned(1));
      if client { TerminalCounts(ks, t, e.terminal, true); } else { SocketCounts(ks, t, e.socket, Returned(1)); }
      hide Counts;
    }
  }

  /** Over a whole run of either loop the position advances by exactly the bytes sent and received. */
  lemma {:induction false} PositionCountsBytes(ks: Stream, s: Loop, events: seq<Event>, client: bool)
    ensures Counts(s, RunLoop(ks, s, events, client))
    decreases |events|
  {
    if events != [] && s.status.Running? {
      PassCounts(ks, s, events[0], client);
      hide Pass;
      PositionCountsBytes(ks, Pass(ks, s, events[0], client), events[1..], client);
    }
  }

  // ------------------------------------------------ the loops, event by event

  lemma {:induction false} RunLoopSnoc(ks: Stream, s: Loop, events: seq<Event>, e: Event, client: bool)
    ensures var t := RunLoop(ks, s, events, client);
            RunLoop(ks, s, events + [e], client) == if t.status.Running? then Pass(ks, t, e, client) else t
    decreases |events|
  {
    hide Pass;
    if events == [] {
      assert ([] + [e])[1..] == [];
    } else if s.status.Running? {
      assert (events + [e])[1..] == events[1..] + [e];
      RunLoopSnoc(ks, Pass(ks, s, events[0], client), events[1..], e, client);
    }
  }

  lemma {:induction false} EventsOneByOne(ks: Stream, position: nat, events: seq<Event>, i: nat, client: bool)
    requires i < |events|
    ensures var s := RunLoop(ks, StartLoop(position), events[..i], client);
            RunLoop(ks, StartLoop(position), events[..i + 1], client) ==
            if s.status.Running? then Pass(ks, s, events[i], client) else s
    ensures RunLoop(ks, StartLoop(position), [], client) == Loop(position, 0, [], [], [], Running)
  {
    assert events[..i + 1] == events[..i] + [events[i]];
    RunLoopSnoc(ks, StartLoop(position), events[..i], events[i], client);
  }

  /** What the client's loop makes of one event, told from what the event is: first the socket, whose bytes are
      decrypted and shown, then the terminal, whose bytes are encrypted and sent, unless its buffer begins with
      Ctrl-D. The loop is left, with nothing more done, when poll fails, when the server has closed the stream, when a
      receive fails, when a read fails, and for Ctrl-D. */
  lemma {:induction false} ClientEvent(ks: Stream, position: nat, events: seq<Event>, i: nat)
    requires i < |events|
    ensures var s := RunLoop(ks, StartLoop(position), events[..i], true);
            var t := RunLoop(ks, StartLoop(position), events[..i + 1], true);
            if !s.status.Running? then t == s
            else match events[i]
                 case Timeout => t == s
                 case Leave => t == s.(status := Left)
                 case Ready(socket, terminal) =>
                   if socket == Data([]) then t == s.(status := Left)
                   else if socket.Failed? then t == s.(status := Undefined)
                   else
                     var heard := if socket.Data? then Crypt(ks, s.position, socket.bytes) else [];
                     var at, shown := s.position + |heard|, s.shown + heard;
                     var lead := if heard == [] then s.lead else heard[0];
                     match terminal
                     case NotReady => t == Loop(at, lead, s.typed, s.wire, shown, Running)
                     case Failed => t == Loop(at, lead, s.typed, s.wire, shown, Returned(-1))
                     case Data(b) =>
                       var first := if b == [] then lead else b[0];
                       t == if first == 4 then Loop(at, 4, s.typed, s.wire, shown, Left)
                            else Loop(at + |b|, first, s.typed + b, s.wire + Crypt(ks, at, b), shown, Running)
  {
    EventsOneByOne(ks, position, events, i, true);
    hide RunLoop, Crypt;
    var s := RunLoop(ks, StartLoop(position), events[..i], true);
    assert s.shown + [] == s.shown;
  }

  /** Likewise the server's: first its terminal, then the socket. It returns 1 when the client has closed the stream,
      after what its terminal had for the client has been sent. */
  lemma {:induction false} ServerEvent(ks: Stream, position: nat, events: seq<Event>, i: nat)
    requires i < |events|
    ensures var s := RunLoop(ks, StartLoop(position), events[..i], false);
            var t := RunLoop(ks, StartLoop(position), events[..i + 1], false);
            if !s.status.Running? then t == s
            else match events[i]
                 case Timeout => t == s
                 case Leave => t == s.(status := Left)
                 case Ready(socket, terminal) =>
                   if terminal.Failed? then t == s.(status := Returned(-1))
                   else
                     var b := if terminal.Data? then terminal.bytes else [];
                     var at, typed, wire := s.position + |b|, s.typed + b, s.wire + Crypt(ks, s.position, b);
                     var lead := if b == [] then s.lead else b[0];
                     match socket
                     case NotReady => t == Loop(at, lead, typed, wire, s.shown, Running)
                     case Failed => t == Loop(at, lead, typed, wire, s.shown, Undefined)
                     case Data(x) =>
                       var heard := Crypt(ks, at, x);
                       t == if x == [] then Loop(at, lead, typed, wire, s.shown, Returned(1))
                            else Loop(at + |x|, heard[0], typed, wire, s.shown + heard, Running)
  {
    EventsOneByOne(ks, position, events, i, false);
    hide RunLoop;
    var s := RunLoop(ks, StartLoop(position), events[..i], false);
    assert s.typed + [] == s.typed && s.wire + [] == s.wire;
  }

  /** An event at which the client's loop, in state s, is left. */
  predicate ClientQuits(ks: Stream, s: Loop, e: Event) {
    || e.Leave?
    || (e.Ready? && (e.socket.Failed? || e.socket == Data([]) || e.terminal.Failed?))
    || (e.Ready? && e.terminal.Data? &&
        4 == if e.terminal.bytes != [] then e.terminal.bytes[0]
             else if e.socket.Data? then Crypt(ks, s.position, e.socket.bytes)[0] else s.lead)
  }

  predicate ServerQuits(e: Event) {
    e.Leave? || (e.Ready? && (e.terminal.Failed? || e.socket.Failed? || e.socket == Data([])))
  }

  /** Once a loop is not running any more, further events change nothing. */
  lemma {:induction false} StaysStopped(ks: Stream, position: nat, events: seq<Event>, i: nat, client: bool)
    requires i <= |events| && !RunLoop(ks, StartLoop(position), events[..i], client).status.Running?
    ensures RunLoop(ks, StartLoop(position), events, client) == RunLoop(ks, StartLoop(position), events[..i], client)
    decreases |events| - i
  {
    hide RunLoop;
    if i == |events| {
      assert events[..i] == events;
    } else {
      EventsOneByOne(ks, position, events, i, client);
      StaysStopped(ks, position, events, i + 1, client);
    }
  }

  /** Where the client's loop stops: behind the first event at which it is left, and nowhere else. */
  lemma {:induction false} ClientStops(ks: Stream, position: nat, events: seq<Event>, i: nat)
    requires i < |events|
    requires forall j :: 0 <= j < i ==> !ClientQuits(ks, RunLoop(ks, StartLoop(position), events[..j], true), events[j])
    ensures RunLoop(ks, StartLoop(position), events[..i], true).status == Running
    ensures var s := RunLoop(ks, StartLoop(position), events[..i], true);
            var t := RunLoop(ks, StartLoop(position), events[..i + 1], true);
            if ClientQuits(ks, s, events[i])
            then t.status != Running && RunLoop(ks, StartLoop(position), events, true) == t
            else t.status == Running
    decreases i
  {
    EventsOneByOne(ks, position, events, i, true);
    if i > 0 { ClientStops(ks, position, events, i - 1); }
    ClientEvent(ks, position, events, i);
    hide RunLoop;
    var s := RunLoop(ks, StartLoop(position), events[..i], true);
    assert events[..0] == [];
    if ClientQuits(ks, s, events[i]) { StaysStopped(ks, position, events, i + 1, true); }
  }

  lemma {:induction false} ServerStops(ks: Stream, position: nat, events: seq<Event>, i: nat)
    requires i < |events| && forall j :: 0 <= j < i ==> !ServerQuits(events[j])
    ensures RunLoop(ks, StartLoop(position), events[..i], false).status == Running
    ensures var t := RunLoop(ks, StartLoop(position), events[..i + 1], false);
            if ServerQuits(events[i])
            then t.status != Running && RunLoop(ks, StartLoop(position), events, false) == t
            else t.status == Running
    decreases i
  {
    EventsOneByOne(ks, position, events, i, false);
    if i > 0 { ServerStops(ks, position, events, i - 1); }
    ServerEvent(ks, position, events, i);
    hide RunLoop;
    assert events[..0] == [];
    if ServerQuits(events[i]) { StaysStopped(ks, position, events, i + 1, false); }
  }
}
