/** The data phase over a forward channel that loses but neither reorders nor duplicates, and in which handshake
    datagrams may still be queued at the start; acknowledgements still travel over the arbitrary network.
    Retransmission then shows only as stuttering. */
module RudpFifo {
  import opened Basics
  import opened RudpTypes
  import opened RudpCalls
  import opened RudpDataPhase
  import opened RudpDelivery

  /** The queue holds the datagrams on their way to the receiver, oldest first. */
  datatype Channel = Channel(base: State, queue: seq<Datagram>)

  datatype Event =
    | Act(a: Action)
    | Lose(i: nat)

  predicate Possible(f: Channel, e: Event) {
    match e
    case Act(a) =>
      Enabled(f.base, a) && (a.Recvfrom? && a.got.Received? ==> f.queue != [] && a.got.d == f.queue[0])
    case Lose(i) => i < |f.queue|
  }

  function Step(f: Channel, e: Event): Channel
    requires Possible(f, e)
  {
    match e
    case Lose(i) => f.(queue := f.queue[..i] + f.queue[i + 1..])
    case Act(a) =>
      var queue := if a.Sendto? && a.sent.count == Last(f.base.begun).Size() then f.queue + [Last(f.base.begun)]
                   else if a.Recvfrom? && a.got.Received? then f.queue[1..]
                   else f.queue;
      Channel(Next(f.base, a), queue)
  }

  predicate IsHistory(f: Channel, history: seq<Event>)
    decreases |history|
  {
    history == [] || (Possible(f, history[0]) && IsHistory(Step(f, history[0]), history[1..]))
  }

  function Finally(f: Channel, history: seq<Event>): Channel
    requires IsHistory(f, history)
    decreases |history|
  {
    if history == [] then f else Finally(Step(f, history[0]), history[1..])
  }

  /** The handshake datagrams that are still queued are the strays. */
  function Queued(queue: seq<Datagram>, stale: set<Datagram>, link: Link): Channel {
    Channel(Init(StraysOf(queue), stale, link), queue)
  }

  function StraysOf(queue: seq<Datagram>): set<Datagram> {
    set d <- queue
  }

  // -------------------------------------------------------------- invariant

  /** What each returned call had received, fresh or not. */
  function Delivered(log: seq<Delivery>): (ds: seq<Datagram>)
    ensures |ds| == |log| && forall i :: 0 <= i < |log| ==> ds[i] == log[i].d
  {
    seq(|log|, i requires 0 <= i < |log| => log[i].d)
  }

  function InHand(s: State): seq<Datagram> {
    if s.receiving.phase.Replying? then [s.receiving.phase.got] else []
  }

  /** Everything that is or was in line for delivery. */
  function Line(f: Channel): seq<Datagram> {
    Delivered(f.base.log) + InHand(f.base) + f.queue
  }

  predicate Ordered(ds: seq<Datagram>) {
    forall i, j :: 0 <= i < j < |ds| ==> ds[i].seqno <= ds[j].seqno
  }

  predicate Within(ds: seq<Datagram>, begun: seq<Datagram>) {
    forall d <- ds :: d in begun
  }

  /** Strays stand in front of everything that was sent. */
  predicate StraysFirst(ds: seq<Datagram>, begun: seq<Datagram>, strays: set<Datagram>) {
    && (forall d <- ds :: d in begun || d in strays)
    && forall i, j :: 0 <= i < j < |ds| && ds[j] in strays ==> ds[i] in strays
  }

  predicate LineInv(f: Channel, strays: set<Datagram>) {
    && DeliveryInv(f.base, strays)
    && (Guarded(strays, f.base.begun) && Tidy(f.base) ==> LineOrdered(f, strays))
  }

  predicate LineOrdered(f: Channel, strays: set<Datagram>) {
    Ordered(Line(f)) && StraysFirst(Line(f), f.base.begun, strays)
  }

  /** No message of the sender is a stray. */
  lemma {:induction false} BegunIsNoStray(begun: seq<Datagram>, strays: set<Datagram>, d: Datagram)
    requires Tiled(begun) && Strays(strays) && d in begun
    ensures d !in strays
  {
    var k :| 0 <= k < |begun| && begun[k] == d;
    assert Tile(begun, k);
  }

  /** The messages of the tiling begin at ever higher positions. */
  lemma {:induction false} BegunRises(begun: seq<Datagram>)
    requires Tiled(begun)
    ensures Rising(begun)
  {
    forall i, j | 0 <= i < j < |begun| ensures begun[i].seqno < begun[j].seqno {
      assert Tile(begun, i) && Tile(begun, j);
      BoundaryGap(begun, i, j);
    }
  }

  lemma {:induction false} AppendLast(ds: seq<Datagram>, begun: seq<Datagram>, strays: set<Datagram>)
    requires Ordered(ds) && StraysFirst(ds, begun, strays) && Tiled(begun) && Strays(strays) && begun != []
    ensures Ordered(ds + [Last(begun)]) && StraysFirst(ds + [Last(begun)], begun, strays)
  {
    BegunRises(begun);
    BoundaryRises(begun);
    forall i | 0 <= i < |ds| ensures ds[i].seqno <= Last(begun).seqno {
      assert Tile(begun, |begun| - 1);
      assert ds[i] in ds;
    }
    BegunIsNoStray(begun, strays, Last(begun));
  }

  lemma {:induction false} SendtoLine(f: Channel, strays: set<Datagram>, a: Action)
    requires Tiled(f.base.begun) && Strays(strays) && LineOrdered(f, strays) && Possible(f, Act(a)) && a.Sendto?
    ensures LineOrdered(Step(f, Act(a)), strays)
  {
    var g := Step(f, Act(a));
    SenderMoves(f.base, a);
    assert g.base.begun == f.base.begun && InHand(g.base) == InHand(f.base);
    hide Ordered, StraysFirst, Tiled, Strays;
    if a.sent.count == Last(f.base.begun).Size() {
      AppendLast(Line(f), f.base.begun, strays);
      assert Line(g) == Line(f) + [Last(f.base.begun)];
    } else {
      assert Line(g) == Line(f);
    }
  }

  lemma {:induction false} RecvfromLine(f: Channel, a: Action)
    requires Possible(f, Act(a)) && a.Recvfrom?
    ensures Line(Step(f, Act(a))) == Line(f)
  {
    var g := Step(f, Act(a));
    assert g.base.log == f.base.log && InHand(f.base) == [];
    if a.got.Received? {
      assert f.queue == [a.got.d] + g.queue;
      assert Line(g) == Delivered(f.base.log) + ([a.got.d] + g.queue);
    }
  }

  lemma {:induction false} ReplyLine(f: Channel, a: Action)
    requires Possible(f, Act(a)) && a.Reply? && a.reply.count == HEADER_SIZE
    ensures Line(Step(f, Act(a))) == Line(f)
  {}

  lemma {:induction false} ActLine(f: Channel, strays: set<Datagram>, a: Action)
    requires Tiled(f.base.begun) && Strays(strays) && LineOrdered(f, strays)
    requires Possible(f, Act(a)) && Tidy(Next(f.base, a))
    ensures LineOrdered(Step(f, Act(a)), strays)
  {
    if a.Sendto? {
      SendtoLine(f, strays, a);
    } else if a.Recvfrom? {
      ReceiverMoves(f.base, a);
      RecvfromLine(f, a);
    } else if a.Reply? {
      ReceiverMoves(f.base, a);
      ReplyLine(f, a);
    }
  }

  lemma {:induction false} LoseLine(f: Channel, strays: set<Datagram>, i: nat)
    requires LineOrdered(f, strays) && i < |f.queue|
    ensures LineOrdered(Step(f, Lose(i)), strays)
  {
    var n := |Delivered(f.base.log) + InHand(f.base)|;
    assert Line(Step(f, Lose(i))) == Line(f)[..n + i] + Line(f)[n + i + 1..];
  }

  lemma {:induction false} StepLine(f: Channel, strays: set<Datagram>, e: Event)
    requires LineInv(f, strays) && Strays(strays) && Possible(f, e)
    ensures LineInv(Step(f, e), strays)
  {
    match e
    case Lose(i) =>
      hide LineOrdered, DeliveryInv;
      if Guarded(strays, f.base.begun) && Tidy(f.base) { LoseLine(f, strays, i); }
    case Act(a) =>
      StepDelivery(f.base, strays, a);
      hide LineOrdered, Orderly, FreshLog;
      if Guarded(strays, Next(f.base, a).begun) && Tidy(Next(f.base, a)) {
        EarlierStates(f.base, strays, a);
        ActLine(f, strays, a);
      }
  }

  lemma {:induction false} QueuedLine(queue: seq<Datagram>, stale: set<Datagram>, link: Link)
    requires Strays(StraysOf(queue)) && Stale(stale) && Shielded(link)
    ensures LineInv(Queued(queue, stale, link), StraysOf(queue))
  {
    InitDelivery(StraysOf(queue), stale, link);
    var f := Queued(queue, stale, link);
    assert Line(f) == queue;
    assert forall i :: 0 <= i < |queue| ==> queue[i] in StraysOf(queue);
  }

  lemma {:induction false} HistoryLine(f: Channel, strays: set<Datagram>, history: seq<Event>)
    requires LineInv(f, strays) && Strays(strays) && IsHistory(f, history)
    ensures LineInv(Finally(f, history), strays)
    decreases |history|
  {
    if history != [] {
      StepLine(f, strays, history[0]);
      HistoryLine(Step(f, history[0]), strays, history[1..]);
    }
  }

  // ------------------------------------------------------------- stuttering

  /** The sequence with each run of equal sequence numbers reduced to its first element. */
  function Collapse(ds: seq<Datagram>): seq<Datagram> {
    var n := |ds|;
    if n <= 1 then ds
    else if ds[n - 1].seqno == ds[n - 2].seqno then Collapse(ds[..n - 1])
    else Collapse(ds[..n - 1]) + [ds[n - 1]]
  }

  predicate Rising(ds: seq<Datagram>) {
    forall i, j :: 0 <= i < j < |ds| ==> ds[i].seqno < ds[j].seqno
  }

  /** Collapsing an ordered sequence leaves one element for each sequence number in it. */
  lemma {:induction false} CollapseRises(ds: seq<Datagram>)
    requires Ordered(ds)
    ensures Rising(Collapse(ds)) && Within(Collapse(ds), ds)
    ensures ds != [] ==> Collapse(ds) != [] && Last(Collapse(ds)).seqno == Last(ds).seqno
  {
    var n := |ds|;
    if n > 1 {
      var front := ds[..n - 1];
      CollapseRises(front);
      assert Last(front) == ds[n - 2];
      var short := Collapse(front);
      assert Collapse(ds) == if ds[n - 1].seqno == ds[n - 2].seqno then short else short + [ds[n - 1]];
      hide Collapse;
      assert Within(short, ds) by {
        forall d <- short ensures d in ds { assert d in front; }
      }
      assert forall d <- short :: d.seqno <= Last(short).seqno;
    }
  }

  lemma {:induction false} CollapseKeeps(ds: seq<Datagram>, i: nat)
    requires i < |ds|
    ensures exists c :: c in Collapse(ds) && c.seqno == ds[i].seqno
  {
    var n := |ds|;
    if n == 1 {
      assert ds[i] in Collapse(ds);
    } else {
      var front := ds[..n - 1];
      if i < n - 1 {
        CollapseKeeps(front, i);
        var c :| c in Collapse(front) && c.seqno == front[i].seqno;
        assert c in Collapse(ds);
      } else if ds[n - 1].seqno == ds[n - 2].seqno {
        CollapseKeeps(front, n - 2);
        var c :| c in Collapse(front) && c.seqno == front[n - 2].seqno;
        assert c in Collapse(ds);
      } else {
        assert Last(Collapse(ds)) == ds[i];
      }
    }
  }

  predicate Agree(c: seq<Datagram>, begun: seq<Datagram>, m: nat) {
    m <= |c| && m <= |begun| && forall i :: 0 <= i < m ==> c[i] == begun[i]
  }

  lemma {:induction false} AgreeNext(c: seq<Datagram>, begun: seq<Datagram>, m: nat, j: nat)
    requires Rising(c) && Rising(begun) && Agree(c, begun, m) && m < |begun|
    requires j < |c| && c[j] == begun[m]
    requires j > m ==> c[m] in begun
    ensures Agree(c, begun, m + 1)
  {}

  /** Two rising sequences, the first drawn from the second and holding its first m elements, agree on them. */
  lemma {:induction false} RisingPrefix(c: seq<Datagram>, begun: seq<Datagram>, m: nat)
    requires Rising(c) && Rising(begun) && m <= |begun| && Within(c, begun)
    requires forall k :: 0 <= k < m ==> begun[k] in c
    ensures Agree(c, begun, m)
  {
    if m > 0 {
      RisingPrefix(c, begun, m - 1);
      var j :| 0 <= j < |c| && c[j] == begun[m - 1];
      AgreeNext(c, begun, m - 1, j);
    }
  }

  lemma {:induction false} NotBeyond(c: seq<Datagram>, begun: seq<Datagram>, k: nat)
    requires Rising(c) && Within(c, begun) && Agree(c, begun, |begun|) && k < |c|
    ensures k < |begun|
  {
    assert c[k] in c;
  }

  lemma {:induction false} NothingBeyond(c: seq<Datagram>, begun: seq<Datagram>)
    requires Rising(c) && Within(c, begun) && Agree(c, begun, |begun|)
    ensures c == begun
  {
    if |c| > |begun| { NotBeyond(c, begun, |begun|); }
  }

  lemma {:induction false} AdvancedWasReceived(log: seq<Delivery>, k: nat)
    requires k < |Advanced(log)|
    ensures Advanced(log)[k] in Delivered(log)
  {
    var p := AdvancedAt(log, k);
    assert Delivered(log)[p] == log[p].d;
  }

  /** Once a message has been confirmed, no stray can have been delivered: it would have been the first delivery, and
      would have been taken for the first message. */
  lemma {:induction false} NoStrayDelivered(f: Channel, strays: set<Datagram>)
    requires LineInv(f, strays) && Guarded(strays, f.base.begun) && Tidy(f.base) && Strays(strays)
    requires strays == {} || (f.base.results != [] && f.base.results[0] >= 0)
    ensures Ordered(Delivered(f.base.log)) && Within(Delivered(f.base.log), f.base.begun)
  {
    var ds, s := Delivered(f.base.log), f.base;
    assert forall i :: 0 <= i < |ds| ==> Line(f)[i] == ds[i];
    assert StraysFirst(ds, s.begun, strays) by {
      assert forall d <- ds :: d in Line(f);
    }
    if strays != {} && ds != [] {
      NotAstray(s, strays, 0);
      assert s.log[..0] == [] && FreshAt(s.log[..0], s.log[0].d, s.log[0].advanced);
      FirstIsNoStray(s.log, s.begun, strays);
    }
  }

  lemma {:induction false} FirstIsNoStray(log: seq<Delivery>, begun: seq<Datagram>, strays: set<Datagram>)
    requires log != [] && FreshAt([], log[0].d, log[0].advanced) && Tiled(begun) && Strays(strays)
    requires Advanced(log) <= begun && Advanced(log) != []
    ensures log[0].d !in strays
  {
    hide Advanced, Tiled, Strays;
    if log[0].advanced {
      assert log[..1] == [] + [log[0]];
      AdvancedAppend([], log[0]);
      NoneAdvanced();
      AdvancedPrefix(log, 1);
      assert Advanced(log[..1])[0] == log[0].d == begun[0];
      BegunIsNoStray(begun, strays, begun[0]);
    } else {
      NoneAdvanced();
      StraysBegin(strays);
    }
  }

  lemma {:induction false} NoneAdvanced()
    ensures Advanced([]) == [] && End([]) == HEADER_SIZE
  {}

  lemma {:induction false} StraysBegin(strays: set<Datagram>)
    requires Strays(strays)
    ensures forall d <- strays :: d.seqno == HEADER_SIZE
  {}

  lemma {:induction false} ConfirmedIsReceived(s: State, strays: set<Datagram>, i: nat)
    requires DeliveryInv(s, strays) && Guarded(strays, s.begun) && Tidy(s) && Strays(strays)
    requires i < |s.results| && s.results[i] >= 0
    ensures i < |s.begun| && s.begun[i] in Delivered(s.log)
  {
    NotAstray(s, strays, i);
    AdvancedWasReceived(s.log, i);
  }

  lemma {:induction false} ReceivedIsKept(ds: seq<Datagram>, begun: seq<Datagram>, d: Datagram)
    requires Ordered(ds) && Within(ds, begun) && Rising(begun) && d in ds
    ensures d in Collapse(ds)
  {
    var p :| 0 <= p < |ds| && ds[p] == d;
    CollapseKeeps(ds, p);
    var c :| c in Collapse(ds) && c.seqno == d.seqno;
    CollapseRises(ds);
    assert c in begun && d in begun;
    var q, r :| 0 <= q < |begun| && begun[q] == c && 0 <= r < |begun| && begun[r] == d;
  }

  lemma {:induction false} StutteringState(f: Channel, strays: set<Datagram>, k: nat)
    requires LineInv(f, strays) && Guarded(strays, f.base.begun) && Tidy(f.base) && Strays(strays)
    requires (k > 0 || strays == {}) && k <= |f.base.results|
    requires forall i :: 0 <= i < k ==> f.base.results[i] >= 0
    ensures var c := Collapse(Delivered(f.base.log));
            && k <= |c| && k <= |f.base.begun| && c[..k] == f.base.begun[..k]
            && (k == |f.base.begun| ==> c == f.base.begun)
  {
    var begun, ds := f.base.begun, Delivered(f.base.log);
    NoStrayDelivered(f, strays);
    BegunRises(begun);
    forall i | 0 <= i < k ensures i < |begun| && begun[i] in ds {
      ConfirmedIsReceived(f.base, strays, i);
    }
    assert k <= |begun|;
    CollapsedPrefix(ds, begun, k);
  }

  lemma {:induction false} CollapsedPrefix(ds: seq<Datagram>, begun: seq<Datagram>, k: nat)
    requires Ordered(ds) && Within(ds, begun) && Rising(begun) && k <= |begun|
    requires forall i :: 0 <= i < k ==> begun[i] in ds
    ensures var c := Collapse(ds); k <= |c| && c[..k] == begun[..k] && (k == |begun| ==> c == begun)
  {
    CollapseRises(ds);
    var c := Collapse(ds);
    forall i | 0 <= i < k ensures begun[i] in c {
      ReceivedIsKept(ds, begun, begun[i]);
    }
    assert Within(c, begun);
    RisingPrefix(c, begun, k);
    if k == |begun| { NothingBeyond(c, begun); }
  }

  /** Stuttering delivery: once the first k calls have all succeeded, what rudp_recv returned, with consecutive copies
      of a sequence number collapsed, begins with exactly messages 0..k; and it is exactly the sent sequence when
      nothing more was begun. Handshake datagrams that were queued at the start do not show, if at least one call has
      succeeded and the first message is not empty. */
  lemma {:induction false} StutteringDelivery(queue: seq<Datagram>, stale: set<Datagram>, link: Link,
                                              history: seq<Event>, k: nat)
    requires Strays(StraysOf(queue)) && Stale(stale) && Shielded(link)
    requires IsHistory(Queued(queue, stale, link), history) && (k > 0 || queue == [])
    requires var s := Finally(Queued(queue, stale, link), history).base;
             && Tidy(s) && Guarded(StraysOf(queue), s.begun)
             && k <= |s.results| && forall i :: 0 <= i < k ==> s.results[i] >= 0
    ensures var s := Finally(Queued(queue, stale, link), history).base;
            var c := Collapse(Delivered(s.log));
            && k <= |c| && k <= |s.begun| && c[..k] == s.begun[..k] && (k == |s.begun| ==> c == s.begun)
  {
    QueuedLine(queue, stale, link);
    HistoryLine(Queued(queue, stale, link), StraysOf(queue), history);
    StutteringState(Finally(Queued(queue, stale, link), history), StraysOf(queue), k);
  }
}
