/** The copy loops of ssh_copy_file (src/ssh_client/ssh_client.c) and copy_server (src/ssh_server/ssh_server.c), for a
    source that does not change while it is copied, full writes, and a reliable stream that delivers what is in
    flight in pieces of any size. */
module FileCopy {
  import opened Basics

  const MAX_LEN: nat := 1000

  // ------------------------------------------------------ the two loops at work

  /** The client has read `sent` bytes of the source and has put them on the stream; the server has written `file`. */
  datatype Copy = Copy(source: seq<Byte>, sent: nat, closed: bool, stream: seq<Byte>, file: seq<Byte>,
                       running: bool, result: int)

  datatype Action =
    | ReadAndSend(n: nat)
    | ReceiveAndWrite(n: nat)

  function Start(source: seq<Byte>): Copy {
    Copy(source, 0, false, [], [], true, 0)
  }

  /** read yields up to MAX_LEN - 1 bytes, none only at the end of the source; recv yields up to MAX_BUFFER bytes of
      what is in flight, none only once the client has gone. */
  predicate Enabled(c: Copy, a: Action) {
    match a
    case ReadAndSend(n) =>
      && !c.closed && c.sent <= |c.source|
      && n <= Min(MAX_LEN - 1, |c.source| - c.sent) && (n == 0 ==> c.sent == |c.source|)
    case ReceiveAndWrite(n) =>
      && c.running && n <= Min(MAX_BUFFER, |c.stream|) && (n == 0 ==> c.stream == [] && c.closed)
  }

  /** Both sides know header.size, which is the size of the source. */
  function Next(c: Copy, a: Action): Copy
    requires Enabled(c, a)
  {
    match a
    case ReadAndSend(n) =>
      c.(sent := c.sent + n, stream := c.stream + c.source[c.sent..c.sent + n], closed := c.sent + n == |c.source|)
    case ReceiveAndWrite(n) =>
      if n == 0 then c.(running := false, result := 1)
      else
        var file := c.file + c.stream[..n];
        c.(stream := c.stream[n..], file := file, running := |file| != |c.source|, result := 0)
  }

  predicate IsRun(c: Copy, run: seq<Action>)
    decreases |run|
  {
    run == [] || (Enabled(c, run[0]) && IsRun(Next(c, run[0]), run[1..]))
  }

  function After(c: Copy, run: seq<Action>): Copy
    requires IsRun(c, run)
    decreases |run|
  {
    if run == [] then c else After(Next(c, run[0]), run[1..])
  }

  /** What has been written and what is in flight are the part of the source that has been sent. */
  predicate Inv(c: Copy) {
    && c.sent <= |c.source| && c.file + c.stream == c.source[..c.sent]
    && (c.closed ==> c.sent == |c.source|) && (!c.closed ==> c.sent < |c.source| || c.sent == 0)
    && (!c.running ==> c.file == c.source && c.closed && (c.result == 1 <==> c.source == []) && c.result in {0, 1})
    && (c.running && c.source != [] ==> |c.file| < |c.source|)
  }

  lemma {:induction false} SendKeeps(c: Copy, n: nat)
    requires Inv(c) && Enabled(c, ReadAndSend(n))
    ensures Inv(Next(c, ReadAndSend(n)))
  {}

  lemma {:induction false} ReceiveKeeps(c: Copy, n: nat)
    requires Inv(c) && Enabled(c, ReceiveAndWrite(n))
    ensures Inv(Next(c, ReceiveAndWrite(n)))
  {}

  lemma {:induction false} RunKeeps(c: Copy, run: seq<Action>)
    requires Inv(c) && IsRun(c, run)
    ensures Inv(After(c, run)) && After(c, run).source == c.source
    decreases |run|
  {
    if run != [] {
      match run[0] {
        case ReadAndSend(n) => SendKeeps(c, n);
        case ReceiveAndWrite(n) => ReceiveKeeps(c, n);
      }
      RunKeeps(Next(c, run[0]), run[1..]);
    }
  }

  /** Copy correctness: however reads, sends and receives are chunked and interleaved, the file is always the
      beginning of the source; when the server's loop has ended it is the whole source, and the loop has ended on
      the client's close exactly when the source is empty. */
  lemma {:induction false} CopyCorrect(source: seq<Byte>, run: seq<Action>)
    requires IsRun(Start(source), run)
    ensures var c := After(Start(source), run);
            && c.file <= source
            && (!c.running ==> c.file == source && (c.result == 1 <==> source == []))
  {
    RunKeeps(Start(source), run);
    var c := After(Start(source), run);
    assert c.source[..c.sent] <= source && c.file <= c.file + c.stream;
  }

  // -------------------------------------------------------------- termination

  /** Bytes still to be sent and to be written, and the loops still to be left. */
  function Remaining(c: Copy): int {
    2 * (|c.source| - c.sent) + |c.stream| + (if c.closed then 0 else 1) + (if c.running then 1 else 0)
  }

  /** Every step brings the copy nearer to its end ... */
  lemma {:induction false} StepsComeToAnEnd(c: Copy, a: Action)
    requires Inv(c) && Enabled(c, a)
    ensures 0 <= Remaining(Next(c, a)) < Remaining(c)
  {}

  /** ... and some step is possible until both loops have been left. */
  lemma {:induction false} NeverStuck(c: Copy) returns (a: Action)
    requires Inv(c) && (!c.closed || c.running)
    ensures Enabled(c, a)
  {
    if !c.closed {
      a := ReadAndSend(Min(MAX_LEN - 1, |c.source| - c.sent));
    } else {
      a := ReceiveAndWrite(Min(MAX_BUFFER, |c.stream|));
    }
  }

  lemma {:induction false} RunIsBounded(c: Copy, run: seq<Action>)
    requires Inv(c) && IsRun(c, run)
    ensures 0 <= Remaining(After(c, run)) && |run| <= Remaining(c) - Remaining(After(c, run))
    decreases |run|
  {
    if run != [] {
      StepsComeToAnEnd(c, run[0]);
      match run[0] {
        case ReadAndSend(n) => SendKeeps(c, n);
        case ReceiveAndWrite(n) => ReceiveKeeps(c, n);
      }
      RunIsBounded(Next(c, run[0]), run[1..]);
    }
  }

  /** So every run is short, and one that cannot be extended has copied the file: both loops have been left, and the
      server's file is the source. */
  lemma {:induction false} CopyEnds(source: seq<Byte>, run: seq<Action>)
    requires IsRun(Start(source), run)
    ensures |run| <= 2 * |source| + 2
    ensures var c := After(Start(source), run);
            (forall a :: !Enabled(c, a)) <==> c.closed && !c.running
    ensures var c := After(Start(source), run);
            (forall a :: !Enabled(c, a)) ==> c.file == source
  {
    RunIsBounded(Start(source), run);
    RunKeeps(Start(source), run);
    var c := After(Start(source), run);
    if !c.closed || c.running {
      var a := NeverStuck(c);
      assert Enabled(c, a);
    }
  }

  // ---------------------------------------------------------------- the loops

  /** A piece of 1..limit bytes, as the kernel pleases. */
  function Piece(cut: nat -> nat, at: nat, limit: nat): (n: nat)
    requires limit > 0
    ensures 1 <= n <= limit
  {
    1 + cut(at) % limit
  }

  /** What a read of up to `limit` bytes yields at this position: nothing at the end. */
  function ReadAt(cut: nat -> nat, limit: nat, size: nat, at: nat): (n: nat)
    requires at <= size && limit > 0
    ensures n <= limit && at + n <= size && (n == 0 <==> at == size)
  {
    if at == size then 0 else Piece(cut, at, Min(limit, size - at))
  }

  /** The position after k reads. */
  function Position(cut: nat -> nat, limit: nat, size: nat, at: nat, k: nat): (p: nat)
    requires at <= size && limit > 0
    ensures at <= p <= size
  {
    if k == 0 then at
    else
      var p := Position(cut, limit, size, at, k - 1);
      p + ReadAt(cut, limit, size, p)
  }

  /** Some read from this position on ends exactly at the goal. */
  predicate Lands(cut: nat -> nat, limit: nat, size: nat, at: nat, goal: nat)
    requires at <= size && limit > 0
    decreases size - at
  {
    var next := at + ReadAt(cut, limit, size, at);
    next == goal || (next < size && Lands(cut, limit, size, next, goal))
  }

  lemma {:induction false} PositionShift(cut: nat -> nat, limit: nat, size: nat, at: nat, k: nat)
    requires at <= size && limit > 0
    ensures var next := at + ReadAt(cut, limit, size, at);
            Position(cut, limit, size, at, k + 1) == Position(cut, limit, size, next, k)
  {
    if k > 0 { PositionShift(cut, limit, size, at, k - 1); }
  }

  /** Some read ends exactly at the goal. */
  ghost predicate EndsAt(cut: nat -> nat, limit: nat, size: nat, goal: nat)
    requires limit > 0
  {
    exists k: nat :: k > 0 && Position(cut, limit, size, 0, k) == goal
  }

  lemma {:induction false} AtEnd(cut: nat -> nat, limit: nat, size: nat, k: nat)
    requires limit > 0
    ensures Position(cut, limit, size, size, k) == size
  {}

  lemma {:induction false} LandsWhen(cut: nat -> nat, limit: nat, size: nat, at: nat, goal: nat, k: nat)
    requires at <= size && limit > 0 && k > 0 && Position(cut, limit, size, at, k) == goal
    ensures Lands(cut, limit, size, at, goal)
    decreases k
  {
    var next := at + ReadAt(cut, limit, size, at);
    PositionShift(cut, limit, size, at, k - 1);
    hide ReadAt, Piece, Min;
    assert k == 1 ==> next == goal by { assert Position(cut, limit, size, next, 0) == next; }
    assert next == size ==> goal == size by { AtEnd(cut, limit, size, k - 1); }
    hide Position;
    if k > 1 && next < size { LandsWhen(cut, limit, size, next, goal, k - 1); }
  }

  lemma {:induction false} LandsThere(cut: nat -> nat, limit: nat, size: nat, at: nat, goal: nat) returns (k: nat)
    requires at <= size && limit > 0 && Lands(cut, limit, size, at, goal)
    ensures k > 0 && Position(cut, limit, size, at, k) == goal
    decreases size - at
  {
    var next := at + ReadAt(cut, limit, size, at);
    hide ReadAt;
    if next == goal {
      k := 1;
      assert Position(cut, limit, size, at, 0) == at;
    } else {
      k := LandsThere(cut, limit, size, next, goal);
      PositionShift(cut, limit, size, at, k);
      k := k + 1;
    }
  }

  /** The search for a read that lands on the goal is right. */
  lemma {:induction false} LandsIff(cut: nat -> nat, limit: nat, size: nat, goal: nat)
    requires limit > 0
    ensures Lands(cut, limit, size, 0, goal) <==> EndsAt(cut, limit, size, goal)
  {
    hide Lands, Position;
    if Lands(cut, limit, size, 0, goal) {
      var _ := LandsThere(cut, limit, size, 0, goal);
    }
    if k: nat :| k > 0 && Position(cut, limit, size, 0, k) == goal {
      LandsWhen(cut, limit, size, 0, goal, k);
    }
  }

  /** The reads land on the size of the source, and on nothing behind it. */
  lemma {:induction false} LandsAtEnd(cut: nat -> nat, limit: nat, size: nat, at: nat, goal: nat)
    requires at <= size <= goal && limit > 0
    ensures Lands(cut, limit, size, at, goal) <==> goal == size
    decreases size - at
  {
    var next := at + ReadAt(cut, limit, size, at);
    if next < size { LandsAtEnd(cut, limit, size, next, goal); }
  }

  /** The sending loop; `cut` decides how much each read yields. It is left if and only if some read ends exactly at
      header.size; otherwise it has sent the whole source and goes on for ever without sending anything. */
  method SendFile(fd: seq<Byte>, headerSize: nat, cut: nat -> nat) returns (ended: bool, result: int, wire: seq<Byte>)
    ensures ended <==> EndsAt(cut, MAX_LEN - 1, |fd|, headerSize)
    ensures ended ==> result == 0 && headerSize <= |fd| && wire == fd[..headerSize]
    ensures !ended ==> wire == fd
    ensures |fd| <= headerSize ==> (ended <==> |fd| == headerSize)
  {
    hide EndsAt, Position, ReadAt, Piece, Min;
    wire, result := [], 0;
    var size, sizeWrite := 0, 0;
    LandsIff(cut, MAX_LEN - 1, |fd|, headerSize);
    if |fd| <= headerSize { LandsAtEnd(cut, MAX_LEN - 1, |fd|, 0, headerSize); }
    while true
      invariant size == sizeWrite <= |fd| && wire == fd[..size] && result == 0
      invariant size == |fd| ==> size == 0
      invariant Lands(cut, MAX_LEN - 1, |fd|, 0, headerSize) == Lands(cut, MAX_LEN - 1, |fd|, size, headerSize)
      decreases |fd| - size
    {
      var nRead := ReadAt(cut, MAX_LEN - 1, |fd|, size);
      var packet := fd[size..size + nRead];
      wire := wire + packet;
      var nWrite := |packet|;
      assert fd[..size] + packet == fd[..size + nRead];
      size := size + nRead;
      sizeWrite := sizeWrite + nWrite;
      if size != sizeWrite { return true, -1, wire; }
      if sizeWrite == headerSize { return true, 0, wire; }
      if size == |fd| {
        assert fd[..|fd|] == fd;
        return false, 0, wire;
      }
    }
  }

  /** The receiving loop, of bytes that the client sends before it closes. It is left by its break if and only if some
      receive ends exactly at header.size, and otherwise by the client's close. */
  method ReceiveFile(incoming: seq<Byte>, headerSize: nat, cut: nat -> nat) returns (result: int, file: seq<Byte>)
    ensures file <= incoming
    ensures result == 1 ==> file == incoming
    ensures result == 0 ==> |file| == headerSize > 0
    ensures result == 0 || result == 1
    ensures result == 0 <==> headerSize > 0 && EndsAt(cut, MAX_BUFFER, |incoming|, headerSize)
    ensures |incoming| < headerSize || headerSize == 0 ==> result == 1
    ensures |incoming| == headerSize > 0 ==> result == 0 && file == incoming
  {
    hide EndsAt, Position, ReadAt, Piece, Min;
    file := [];
    var size, at := 0, 0;
    LandsIff(cut, MAX_BUFFER, |incoming|, headerSize);
    if |incoming| <= headerSize { LandsAtEnd(cut, MAX_BUFFER, |incoming|, 0, headerSize); }
    while true
      invariant size == at == |file| <= |incoming| && file == incoming[..at]
      invariant size == 0 || size != headerSize
      invariant at == |incoming| && at > 0 ==> !Lands(cut, MAX_BUFFER, |incoming|, 0, headerSize)
      invariant at < |incoming| || at == 0 ==>
                  Lands(cut, MAX_BUFFER, |incoming|, 0, headerSize) ==
                  Lands(cut, MAX_BUFFER, |incoming|, at, headerSize)
      decreases |incoming| - at
    {
      var nRead := ReadAt(cut, MAX_BUFFER, |incoming|, at);
      if nRead == 0 {
        assert incoming[..|incoming|] == incoming;
        return 1, file;
      }
      var buff := incoming[at..at + nRead];
      at := at + nRead;
      file := file + buff;
      var nWrite := |buff|;
      size := size + nWrite;
      if size == headerSize { break; }
    }
    return 0, file;
  }

  /** End to end, for every way of cutting on both sides. */
  method CopyFile(source: seq<Byte>, cutRead: nat -> nat, cutReceive: nat -> nat)
    returns (sender: int, receiver: int, file: seq<Byte>)
    ensures sender == 0 && file == source && receiver == if source == [] then 1 else 0
  {
    var wire;
    var ended;
    ended, sender, wire := SendFile(source, |source|, cutRead);
    assert source[..|source|] == source;
    receiver, file := ReceiveFile(wire, |source|, cutReceive);
  }
}
