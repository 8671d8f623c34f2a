/** What snd_max and snd_nxt say about the segments sent, and that a connection drains (tcp_out.c, tcp_in.c). */
module TcpSent {
  import opened Words
  import opened TcpOut

  function Larger(a: int, b: int): int { if a < b then b else a }

  /** The highest number reached by m and the ends of some segments. */
  function Highest(m: int, q: seq<Seg>): int
    decreases |q|
  {
    if q == [] then m else Highest(Larger(m, End(q[0])), q[1..])
  }

  function LastEnd(q: seq<Seg>): int
    requires q != []
  {
    End(q[|q| - 1])
  }

  /** snd_max is the highest number sent, and snd_nxt the end of the last segment sent. */
  lemma {:induction false} OutputReaches(s: Snd, wnd: nat)
    ensures var (t, sent) := Output(s, wnd);
            t.max == Highest(s.max, sent) && t.nxt == if sent == [] then s.nxt else LastEnd(sent)
    decreases |s.unsent|
  {
    hide Fits;
    if s.unsent != [] && Fits(s.lastack, s.unsent[0], wnd) {
      var u := SendFirst(s);
      OutputReaches(u, wnd);
      var rest := Output(u, wnd).1;
      assert ([s.unsent[0]] + rest)[1..] == rest;
    }
  }

  lemma {:induction false} HighestJoin(m: int, a: seq<Seg>, b: seq<Seg>)
    ensures Highest(m, a + b) == Highest(Highest(m, a), b)
    decreases |a|
  {
    if a == [] {
      assert a + b == b;
    } else {
      assert (a + b)[1..] == a[1..] + b;
      HighestJoin(Larger(m, End(a[0])), a[1..], b);
    }
  }

  /** In a queue without gaps the last segment ends highest. */
  lemma {:induction false} TiledHighest(m: int, q: seq<Seg>, start: int, end: int)
    requires Tiles(q, start, end) && q != []
    ensures Highest(m, q) == Larger(m, LastEnd(q)) && LastEnd(q) == end
    decreases |q|
  {
    TilesAdvance(q[1..], End(q[0]), end);
    if |q| > 1 { TiledHighest(Larger(m, End(q[0])), q[1..], End(q[0]), end); }
  }

  /** tcp_output from a consistent state: snd_max becomes the larger of what it was and the end of the last segment. */
  lemma OutputMax(s: Snd, wnd: nat, log: seq<Octet>, iss: int)
    requires Consistent(s, log, iss)
    ensures var (t, sent) := Output(s, wnd);
            sent != [] ==> t.max == Larger(s.max, LastEnd(sent)) && t.nxt == LastEnd(sent)
  {
    OutputReaches(s, wnd);
    OutputConsistent(s, wnd, log, iss);
    var (t, sent) := Output(s, wnd);
    if sent != [] {
      Facts(s, log, iss);
      hide Consistent, Output, Highest;
      var q := s.unacked + s.unsent;
      var mid := Parted(s.unacked, s.unsent, q[0].seqno, s.lbb);
      var end := Parted(sent, t.unsent, mid, s.lbb);
      TiledHighest(s.max, sent, mid, end);
    }
  }

  // ----- everything unacknowledged has been sent -----

  ghost predicate SentBelow(s: Snd) { forall x | x in s.unacked :: End(x) <= s.max }

  lemma SendBelow(s: Snd)
    requires SentBelow(s) && s.unsent != []
    ensures SentBelow(SendFirst(s))
  {}

  lemma {:induction false} OutputBelow(s: Snd, wnd: nat)
    requires SentBelow(s)
    ensures SentBelow(Output(s, wnd).0)
    decreases |s.unsent|
  {
    hide Fits, SentBelow, SendFirst;
    if s.unsent != [] && Fits(s.lastack, s.unsent[0], wnd) {
      SendBelow(s);
      assert |SendFirst(s).unsent| < |s.unsent| by { Sends(s); }
      OutputBelow(SendFirst(s), wnd);
    }
  }

  lemma Sends(s: Snd)
    requires s.unsent != []
    ensures SendFirst(s).unsent == s.unsent[1..]
  {}

  lemma {:induction false} Dropped(q: seq<Seg>, ackno: int)
    ensures forall x | x in DropAcked(q, ackno) :: x in q
  {
    if q != [] { Dropped(q[1..], ackno); }
  }

  lemma AckBelow(s: Snd, ackno: int)
    requires SentBelow(s) && Buffers(s.unacked) + Buffers(s.unsent) <= s.queuelen
    ensures SentBelow(Ack(s, ackno))
  {
    Dropped(s.unacked, ackno);
    DroppedBuffers(s.unacked, ackno);
    var rest := DropAcked(s.unacked, ackno);
    hide DropUnsent, DropAcked, Buffers, Wrap16;
    var t := s.(buf := Wrap16(s.buf + (ackno - s.lastack)), lastack := ackno, unacked := rest,
                queuelen := s.queuelen - (Buffers(s.unacked) - Buffers(rest)));
    DropUnsentIs(if s.lastack + 1 <= ackno <= s.max then t else s, ackno);
  }

  lemma NextBelow(s: Snd, log: seq<Octet>, iss: int, step: Step)
    requires Consistent(s, log, iss) && SentBelow(s)
    ensures SentBelow(Next(s, log, iss, step).0)
  {
    hide Output, Ack, Consistent, Chop;
    match step
    case Write(r) =>
    case Send(wnd) => OutputBelow(s, wnd);
    case Timeout(wnd) =>
      if s.unacked != [] {
        OutputBelow(s.(unsent := s.unacked + s.unsent, unacked := [], nxt := s.unacked[0].seqno), wnd);
      }
    case DupAcks(wnd) => OutputBelow(MoveFirst(s), wnd);
    case AckSegment(ackno) =>
      AckConsistent(s, ackno, log, iss);
      AckBelow(s, ackno);
  }

  // ----- runs -----

  /** The segments a step hands to IP. */
  function Emitted(s: Snd, step: Step): seq<Seg>
  {
    match step
    case Send(wnd) => Output(s, wnd).1
    case Timeout(wnd) => RexmitRto(s, wnd).1
    case DupAcks(wnd) => FastRexmit(s, wnd).1
    case _ => []
  }

  ghost function EmittedBy(s: Snd, log: seq<Octet>, iss: int, steps: seq<Step>): seq<Seg>
    requires Consistent(s, log, iss) && CoveredRun(s, log, iss, steps)
    decreases |steps|
  {
    if steps == [] then []
    else
      hide Consistent, Next;
      NextConsistent(s, log, iss, steps[0]);
      var (t, log') := Next(s, log, iss, steps[0]);
      Emitted(s, steps[0]) + EmittedBy(t, log', iss, steps[1..])
  }

  lemma NextMax(s: Snd, log: seq<Octet>, iss: int, step: Step)
    requires Consistent(s, log, iss)
    ensures Next(s, log, iss, step).0.max == Highest(s.max, Emitted(s, step))
  {
    hide Output, Ack, Consistent, Chop;
    match step
    case Write(r) =>
    case Send(wnd) => OutputReaches(s, wnd);
    case Timeout(wnd) =>
      if s.unacked != [] {
        OutputReaches(s.(unsent := s.unacked + s.unsent, unacked := [], nxt := s.unacked[0].seqno), wnd);
      }
    case DupAcks(wnd) => OutputReaches(MoveFirst(s), wnd);
    case AckSegment(ackno) =>
      AckConsistent(s, ackno, log, iss);
      AckDrops(s, ackno, log, iss);
  }

  /** Over any run snd_max is the highest number of any segment ever sent, and everything unacknowledged lies below it. */
  lemma {:induction false} RunMax(s: Snd, log: seq<Octet>, iss: int, steps: seq<Step>)
    requires Consistent(s, log, iss) && CoveredRun(s, log, iss, steps) && SentBelow(s)
    ensures var t := RunSteps(s, log, iss, steps).0;
            t.max == Highest(s.max, EmittedBy(s, log, iss, steps)) && SentBelow(t)
    decreases |steps|
  {
    hide Next, Consistent, SentBelow, Emitted;
    if steps != [] {
      NextConsistent(s, log, iss, steps[0]);
      NextMax(s, log, iss, steps[0]);
      NextBelow(s, log, iss, steps[0]);
      var (t, log') := Next(s, log, iss, steps[0]);
      RunMax(t, log', iss, steps[1..]);
      HighestJoin(s.max, Emitted(s, steps[0]), EmittedBy(t, log', iss, steps[1..]));
    }
  }

  /** Once everything has been sent, snd_max is snd_lbb. */
  lemma AllSent(s: Snd, log: seq<Octet>, iss: int)
    requires Consistent(s, log, iss) && SentBelow(s) && s.unsent == []
    ensures s.max == s.lbb
  {
    assert s.unacked + s.unsent == s.unacked;
    if s.unacked != [] {
      TiledHighest(s.max, s.unacked, s.unacked[0].seqno, s.lbb);
      assert s.unacked[|s.unacked| - 1] in s.unacked;
    }
  }

  /** Then an acknowledgement of snd_lbb empties both queues and gives the whole send buffer back. */
  lemma AllAcknowledged(s: Snd, log: seq<Octet>, iss: int)
    requires Consistent(s, log, iss) && SentBelow(s) && s.unsent == []
    ensures Buffers(s.unacked) + Buffers(s.unsent) <= s.queuelen
    ensures var t := Ack(s, s.lbb);
            t.unacked == [] && t.unsent == [] && t.lastack == t.lbb == s.lbb && t.queuelen == 0 && t.buf == TCP_SND_BUF
  {
    AllSent(s, log, iss);
    Facts(s, log, iss);
    AckDrops(s, s.lbb, log, iss);
    AckConsistent(s, s.lbb, log, iss);
    hide Consistent, Ack;
    AllAcked(Ack(s, s.lbb), log, iss);
  }

  /** A window as large as what is outstanding lets everything out. */
  lemma OutputAll(s: Snd, wnd: nat, log: seq<Octet>, iss: int)
    requires Consistent(s, log, iss) && s.lbb - s.lastack < 0x8000_0000 && s.lbb - s.lastack <= wnd
    ensures Output(s, wnd).0.unsent == []
  {
    OutputConsistent(s, wnd, log, iss);
    var t := Output(s, wnd).0;
    if t.unsent != [] {
      FitsWindow(t, 0, wnd, log, iss);
      QueueBounds(t, log, iss);
    }
  }

  /** After any run of a connection that started with nothing sent: an output with a large enough window and an
      acknowledgement of all of it leave nothing queued. */
  lemma RunDrains(s: Snd, log: seq<Octet>, iss: int, steps: seq<Step>, wnd: nat)
    requires Consistent(s, log, iss) && CoveredRun(s, log, iss, steps) && SentBelow(s)
    requires var t := RunSteps(s, log, iss, steps).0;
             t.lbb - t.lastack < 0x8000_0000 && t.lbb - t.lastack <= wnd
    ensures var u := Output(RunSteps(s, log, iss, steps).0, wnd).0;
            && Buffers(u.unacked) + Buffers(u.unsent) <= u.queuelen
            && var v := Ack(u, u.lbb);
               v.unacked == [] && v.unsent == [] && v.lastack == v.lbb == u.lbb && v.queuelen == 0 && v.buf == TCP_SND_BUF
  {
    hide Consistent, Output, Ack, CoveredRun, SentBelow;
    RunConsistent(s, log, iss, steps);
    RunMax(s, log, iss, steps);
    var (t, log') := RunSteps(s, log, iss, steps);
    OutputConsistent(t, wnd, log', iss);
    OutputBelow(t, wnd);
    OutputAll(t, wnd, log', iss);
    AllAcknowledged(Output(t, wnd).0, log', iss);
  }

  lemma NewBelow(iss: int, mss: nat)
    ensures SentBelow(NewSnd(iss, mss))
  {}

  // ----- snd_nxt -----

  /** snd_nxt is where the next segment to be sent starts. */
  predicate NextRight(s: Snd) { s.nxt == if s.unsent == [] then s.lbb else s.unsent[0].seqno }

  lemma UnsentStart(s: Snd, log: seq<Octet>, iss: int)
    requires Consistent(s, log, iss) && s.unacked != []
    ensures LastEnd(s.unacked) == if s.unsent == [] then s.lbb else s.unsent[0].seqno
  {
    var q := s.unacked + s.unsent;
    var mid := Parted(s.unacked, s.unsent, q[0].seqno, s.lbb);
  }

  /** tcp_output sets it right by sending anything. */
  lemma OutputNext(s: Snd, wnd: nat, log: seq<Octet>, iss: int)
    requires Consistent(s, log, iss)
    ensures var (t, sent) := Output(s, wnd); NextRight(t) <==> NextRight(s) || sent != []
  {
    OutputConsistent(s, wnd, log, iss);
    OutputMax(s, wnd, log, iss);
    OutputReaches(s, wnd);
    hide Consistent, Output, Fits;
    var (t, sent) := Output(s, wnd);
    if sent == [] {
      assert [] + t.unsent == t.unsent;
    } else {
      UnsentStart(t, log, iss);
    }
  }

  lemma EnqueueNext(s: Snd, r: Request, log: seq<Octet>, iss: int)
    requires Consistent(s, log, iss) && ValidRequest(r)
    ensures NextRight(Enqueue(s, r).0) <==> NextRight(s)
  {
    if Accepts(s, r) {
      var q := Chop(r, 0, s.lbb, s.mss);
      AppendHead([], s.unsent, q, s.mss);
      assert [] + Append(s.unsent, q, s.mss) == Append(s.unsent, q, s.mss) && [] + s.unsent == s.unsent;
      assert q[0].seqno == s.lbb;
    }
  }

  /** Fast retransmit. */
  lemma FastNext(s: Snd, wnd: nat, log: seq<Octet>, iss: int)
    requires Consistent(s, log, iss) && NextRight(s) && (|s.unacked| <= 1 || Fits(s.lastack, s.unacked[0], wnd))
    ensures NextRight(FastRexmit(s, wnd).0)
            <==> |s.unacked| <= 1 || (s.unsent != [] && Fits(s.lastack, s.unsent[0], wnd))
  {
    if |s.unacked| <= 1 {
      MoveOnly(s, log, iss);
      assert NextRight(MoveFirst(s));
      hide Consistent, Fits, MoveFirst, NextRight;
      OutputNext(MoveFirst(s), wnd, log, iss);
    } else {
      ResendFirst(s, log, iss);
      FirstBeforeLast(s, log, iss);
      UnsentStart(s, log, iss);
      var r := SendFirst(MoveFirst(s));
      EndsBefore(s, log, iss);
      assert !NextRight(r);
      hide Consistent, Fits, NextRight;
      OutputNext(r, wnd, log, iss);
    }
  }

  lemma EndsBefore(s: Snd, log: seq<Octet>, iss: int)
    requires Consistent(s, log, iss) && 2 <= |s.unacked|
    ensures End(s.unacked[0]) < LastEnd(s.unacked)
  {
    var q := s.unacked + s.unsent;
    var mid := Parted(s.unacked, s.unsent, q[0].seqno, s.lbb);
    TiledHighest(0, s.unacked, q[0].seqno, mid);
    TilesAdvance(s.unacked[1..], End(s.unacked[0]), mid);
  }

  lemma {:induction false} DropUnsentNext(s: Snd, ackno: int)
    requires Buffers(s.unsent) <= s.queuelen && s.unsent != [] && s.nxt == s.unsent[0].seqno
    ensures var t := DropUnsent(s, ackno);
            if t.unsent != [] then t.nxt == t.unsent[0].seqno else t.nxt == s.unsent[|s.unsent| - 1].seqno
    decreases |s.unsent|
  {
    if End(s.unsent[0]) <= ackno <= s.max && |s.unsent| > 1 {
      var rest := s.unsent[1..];
      DropUnsentNext(s.(unsent := rest, queuelen := s.queuelen - s.unsent[0].clen, nxt := rest[0].seqno), ackno);
    }
  }

  /** An acknowledgement. */
  lemma AckNext(s: Snd, ackno: int, log: seq<Octet>, iss: int)
    requires Consistent(s, log, iss) && NextRight(s)
    ensures Buffers(s.unacked) + Buffers(s.unsent) <= s.queuelen
    ensures NextRight(Ack(s, ackno)) <==> !(s.unsent != [] && Ack(s, ackno).unsent == [])
  {
    hide Consistent, DropUnsent, DropAcked, Buffers, Wrap16;
    AckDrops(s, ackno, log, iss);
    DroppedBuffers(s.unacked, ackno);
    if s.unsent != [] { LastStart(s, log, iss); }
    var rest := DropAcked(s.unacked, ackno);
    var t := s.(buf := Wrap16(s.buf + (ackno - s.lastack)), lastack := ackno, unacked := rest,
                queuelen := s.queuelen - (Buffers(s.unacked) - Buffers(rest)));
    var u := if s.lastack + 1 <= ackno <= s.max then t else s;
    if s.unsent != [] { DropUnsentNext(u, ackno); } else { NothingUnsent(u, ackno); }
  }

  lemma NothingUnsent(s: Snd, ackno: int)
    requires s.unsent == [] && Buffers(s.unsent) <= s.queuelen
    ensures DropUnsent(s, ackno) == s
  {}

  lemma LastStart(s: Snd, log: seq<Octet>, iss: int)
    requires Consistent(s, log, iss) && s.unsent != []
    ensures s.unsent[|s.unsent| - 1].seqno < s.lbb
  {
    var q := s.unacked + s.unsent;
    var mid := Parted(s.unacked, s.unsent, q[0].seqno, s.lbb);
    TiledHighest(0, s.unsent, mid, s.lbb);
    TilesAdvance(q, q[0].seqno, s.lbb);
    var k := |s.unsent| - 1;
    assert s.unsent == s.unsent[..k] + [s.unsent[k]];
    var m := Parted(s.unsent[..k], [s.unsent[k]], mid, s.lbb);
  }

  /** When a step leaves snd_nxt where the next segment starts: a fast retransmit only if output goes on to unsent segments
      (or there was no other segment in flight), an acknowledgement unless it takes the last unsent segment. */
  predicate KeepsNext(s: Snd, step: Step)
    requires Buffers(s.unacked) + Buffers(s.unsent) <= s.queuelen
  {
    match step
    case DupAcks(wnd) => |s.unacked| <= 1 || (s.unsent != [] && Fits(s.lastack, s.unsent[0], wnd))
    case AckSegment(ackno) => s.unsent == [] || Ack(s, ackno).unsent != []
    case _ => true
  }

  lemma StepNext(s: Snd, log: seq<Octet>, iss: int, step: Step)
    requires Consistent(s, log, iss) && Covered(s, step) && NextRight(s)
    ensures Buffers(s.unacked) + Buffers(s.unsent) <= s.queuelen
    ensures NextRight(Next(s, log, iss, step).0) <==> KeepsNext(s, step)
  {
    Sums(s.unacked, s.unsent);
    Facts(s, log, iss);
    hide Output, Ack, Consistent, Enqueue, Fits, NextRight, FastRexmit;
    match step
    case Write(r) => EnqueueNext(s, r, log, iss);
    case Send(wnd) => OutputNext(s, wnd, log, iss);
    case Timeout(wnd) => TimeoutNext(s, wnd, log, iss);
    case DupAcks(wnd) => FastNext(s, wnd, log, iss);
    case AckSegment(ackno) => AckNext(s, ackno, log, iss);
  }

  lemma TimeoutNext(s: Snd, wnd: nat, log: seq<Octet>, iss: int)
    requires Consistent(s, log, iss) && NextRight(s)
    ensures NextRight(RexmitRto(s, wnd).0)
  {
    if s.unacked != [] {
      var u := s.(unsent := s.unacked + s.unsent, unacked := [], nxt := s.unacked[0].seqno);
      assert u.unacked + u.unsent == s.unacked + s.unsent;
      assert Consistent(u, log, iss) && NextRight(u);
      hide Consistent, NextRight;
      OutputNext(u, wnd, log, iss);
    }
  }

  // ----- limits -----

  /** No queued segment holds more than mss octets, and no more than TCP_SND_QUEUELEN buffers are queued. */
  ghost predicate WithinLimits(s: Snd)
  {
    && s.queuelen <= TCP_SND_QUEUELEN
    && (forall x | x in s.unacked :: |x.data| <= s.mss) && (forall x | x in s.unsent :: |x.data| <= s.mss)
  }

  lemma SendWithin(s: Snd)
    requires WithinLimits(s) && s.unsent != []
    ensures WithinLimits(SendFirst(s)) && |SendFirst(s).unsent| < |s.unsent|
  {}

  lemma {:induction false} OutputWithin(s: Snd, wnd: nat)
    requires WithinLimits(s)
    ensures WithinLimits(Output(s, wnd).0)
    decreases |s.unsent|
  {
    hide Fits, WithinLimits, SendFirst;
    if s.unsent != [] && Fits(s.lastack, s.unsent[0], wnd) {
      SendWithin(s);
      OutputWithin(SendFirst(s), wnd);
    }
  }

  lemma EnqueueWithin(s: Snd, r: Request)
    requires WithinLimits(s) && 0 < s.mss && ValidRequest(r)
    ensures WithinLimits(Enqueue(s, r).0)
  {
    if Accepts(s, r) {
      ChopTiles(r, 0, s.lbb, s.mss);
      var q := Chop(r, 0, s.lbb, s.mss);
      hide Chop, Contents, Tiles, Buffers;
      AppendWithin(s.unsent, q, s.mss);
    }
  }

  lemma AppendWithin(unsent: seq<Seg>, q: seq<Seg>, mss: nat)
    requires q != [] && (forall x | x in unsent :: |x.data| <= mss) && forall i | 0 <= i < |q| :: |q[i].data| <= mss
    ensures forall x | x in Append(unsent, q, mss) :: |x.data| <= mss
  {}

  lemma AckWithin(s: Snd, ackno: int, log: seq<Octet>, iss: int)
    requires Consistent(s, log, iss) && WithinLimits(s)
    ensures Buffers(s.unacked) + Buffers(s.unsent) <= s.queuelen
    ensures WithinLimits(Ack(s, ackno))
  {
    AckDrops(s, ackno, log, iss);
    var q := s.unacked + s.unsent;
    Dropped(q, ackno);
    Facts(s, log, iss);
    DroppedBuffers(q, ackno);
    var t := Ack(s, ackno);
    hide Consistent, Ack, Buffers, DropAcked;
    assert forall x | x in t.unacked || x in t.unsent :: x in t.unacked + t.unsent;
  }

  lemma NextWithin(s: Snd, log: seq<Octet>, iss: int, step: Step)
    requires Consistent(s, log, iss) && Covered(s, step) && WithinLimits(s)
    ensures WithinLimits(Next(s, log, iss, step).0)
  {
    hide Output, Ack, Consistent, Chop, Enqueue;
    match step
    case Write(r) =>
      assert 0 < s.mss by { MssPositive(s, log, iss); }
      EnqueueWithin(s, r);
    case Send(wnd) => OutputWithin(s, wnd);
    case Timeout(wnd) =>
      if s.unacked != [] {
        OutputWithin(s.(unsent := s.unacked + s.unsent, unacked := [], nxt := s.unacked[0].seqno), wnd);
      }
    case DupAcks(wnd) => OutputWithin(MoveFirst(s), wnd);
    case AckSegment(ackno) =>
      AckConsistent(s, ackno, log, iss);
      AckWithin(s, ackno, log, iss);
  }

  lemma MssPositive(s: Snd, log: seq<Octet>, iss: int)
    requires Consistent(s, log, iss)
    ensures 0 < s.mss
  {}

  /** Over any run no segment grows beyond mss, by merging or otherwise, and the queue keeps to its limit. */
  lemma {:induction false} RunWithinLimits(s: Snd, log: seq<Octet>, iss: int, steps: seq<Step>)
    requires Consistent(s, log, iss) && CoveredRun(s, log, iss, steps) && WithinLimits(s)
    ensures WithinLimits(RunSteps(s, log, iss, steps).0)
    decreases |steps|
  {
    hide Next, Consistent, WithinLimits;
    if steps != [] {
      NextConsistent(s, log, iss, steps[0]);
      NextWithin(s, log, iss, steps[0]);
      var (t, log') := Next(s, log, iss, steps[0]);
      RunWithinLimits(t, log', iss, steps[1..]);
    }
  }

  /** The segments a request takes: one for a SYN or FIN, else as many as its octets fill. */
  function SegmentsFor(r: Request, mss: nat): nat
    requires 0 < mss
  {
    if r.data == [] then 1 else (|r.data| + mss - 1) / mss
  }

  /** n segments of mss octets are just enough for this many. */
  predicate JustEnough(n: nat, mss: nat, octets: nat) { (n - 1) * mss < Larger(octets, 1) <= Larger(n * mss, 1) }

  lemma OneMore(n: nat, mss: nat, octets: nat)
    requires 1 <= n && 0 < mss < octets && JustEnough(n, mss, octets - mss)
    ensures JustEnough(n + 1, mss, octets)
  {
    Times(n - 1, mss);
    Times(n, mss);
    Grows(1, n, mss);
    var before, here, after := (n - 1) * mss, n * mss, (n + 1) * mss;
  }

  lemma {:induction false} ChopCounts(r: Request, pos: nat, seqno: int, mss: nat)
    requires 0 < mss && pos <= |r.data|
    ensures var q := Chop(r, pos, seqno, mss);
            Buffers(q) == |q| * r.clen && |q| >= 1 && JustEnough(|q|, mss, |r.data| - pos)
    decreases |r.data| - pos
  {
    hide Chop, Buffers, JustEnough;
    var q := Chop(r, pos, seqno, mss);
    ChopFirst(r, pos, seqno, mss);
    if |r.data| - pos <= mss {
      Cons(q[0], [], 0);
      NoTiles(0, 0);
      OneEnough(mss, |r.data| - pos);
      assert q == [q[0]] + [];
    } else {
      var rest := Chop(r, pos + mss, seqno + mss, mss);
      ChopCounts(r, pos + mss, seqno + mss, mss);
      Cons(q[0], rest, 0);
      Times(|rest|, r.clen);
      OneMore(|rest|, mss, |r.data| - pos);
    }
  }

  lemma ChopFirst(r: Request, pos: nat, seqno: int, mss: nat)
    requires 0 < mss && pos <= |r.data|
    ensures var q := Chop(r, pos, seqno, mss);
            && q != [] && q[0].clen == r.clen
            && (if |r.data| - pos <= mss then |q| == 1 else q == [q[0]] + Chop(r, pos + mss, seqno + mss, mss))
  {}

  lemma OneEnough(mss: nat, octets: nat)
    requires 0 < mss && octets <= mss
    ensures JustEnough(1, mss, octets)
  {}

  lemma Times(n: int, k: int)
    ensures (n + 1) * k == n * k + k
  {}

  lemma RoundedUp(n: nat, k: nat, mss: nat)
    requires 0 < mss && 0 < n && (k - 1) * mss < n <= k * mss
    ensures (n + mss - 1) / mss == k
  {
    var m := n + mss - 1;
    assert k * mss <= m < k * mss + mss;
    Divides(m, k, mss);
  }

  lemma Divides(m: nat, k: nat, mss: nat)
    requires 0 < mss && k * mss <= m < k * mss + mss
    ensures m / mss == k
  {
    var q := m / mss;
    assert q * mss <= m < q * mss + mss;
    Between(q, k, mss, m);
  }

  lemma Between(q: int, k: int, mss: nat, m: int)
    requires q * mss <= m < q * mss + mss && k * mss <= m < k * mss + mss
    ensures q == k
  {
    if q < k { Grows(q + 1, k, mss); Times(q, mss); }
    if k < q { Grows(k + 1, q, mss); Times(k, mss); }
  }

  lemma Grows(a: int, b: int, k: nat)
    requires a <= b
    ensures a * k <= b * k
  {
    assert b * k - a * k == (b - a) * k;
  }

  /** A request is accepted exactly when its octets fit the send buffer, the queue is not full, and there is room in the
      queue and memory for all of its segments and their buffers. */
  lemma AcceptsWhen(s: Snd, r: Request)
    requires 0 < s.mss && ValidRequest(r)
    ensures var n := SegmentsFor(r, s.mss);
            Accepts(s, r) <==> |r.data| <= s.buf && s.queuelen < TCP_SND_QUEUELEN
                               && s.queuelen + n * r.clen <= TCP_SND_QUEUELEN && n + n * r.clen <= r.memory
  {
    var q := Chop(r, 0, s.lbb, s.mss);
    ChopCounts(r, 0, s.lbb, s.mss);
    if r.data == [] { assert |q| == 1; } else { RoundedUp(|r.data|, |q|, s.mss); }
  }

  lemma NewWithinLimits(iss: int, mss: nat)
    ensures WithinLimits(NewSnd(iss, mss))
  {}
}
