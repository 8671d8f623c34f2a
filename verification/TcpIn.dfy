/** Receiving data on a TCP connection (tcp_in.c, tcp_receive): in-order delivery and the queue of
    segments that arrived out of order. Sequence numbers are unwrapped integers. */
module TcpIn {
  import opened Words
  import SeqNum

  /** A segment: its sequence number, the `len` field, the octets in its buffers, and its FIN and SYN. */
  datatype Seg = Seg(seqno: int, len: U16, data: seq<Byte>, fin: bool, syn: bool)

  /** TCP_TCPLEN. */
  function TcpLen(s: Seg): nat { s.len + if s.fin || s.syn then 1 else 0 }

  /** Shrink a buffer chain to n octets; a chain is never grown (pbuf_realloc). */
  function Shrink(data: seq<Byte>, n: nat): seq<Byte> { if n < |data| then data[..n] else data }

  /** Cut a segment at sequence number `end`; the new length is stored in 16 bits. */
  function CutAt(s: Seg, end: int): Seg
  {
    var n := (end - s.seqno) % 0x1_0000;
    s.(len := n, data := Shrink(s.data, n))
  }

  /** Drop the octets of a segment before sequence number `start`. */
  function DropBefore(s: Seg, start: int): Seg
    requires s.seqno <= start
  {
    var off := start - s.seqno;
    s.(seqno := start, len := (s.len - off) % 0x1_0000, data := if off <= |s.data| then s.data[off..] else [])
  }

  datatype Rcv = Rcv(nxt: int, wnd: nat, ooseq: seq<Seg>)

  function Advance(s: Rcv, n: nat): Rcv { s.(nxt := s.nxt + n, wnd := if s.wnd < n then 0 else s.wnd - n) }

  datatype Outcome = Outcome(s: Rcv, data: seq<Byte>, gotFin: bool)

  /** Take the segments off the queue that are now next in sequence. */
  function Drain(s: Rcv): Outcome
    decreases |s.ooseq|
  {
    if s.ooseq == [] || s.ooseq[0].seqno != s.nxt then Outcome(s, [], false)
    else
      var c := s.ooseq[0];
      var o := Drain(Advance(s, TcpLen(c)).(ooseq := s.ooseq[1..]));
      Outcome(o.s, c.data + o.data, c.fin || o.gotFin)
  }

  /** The incoming segment as it is inserted in front of `next`. */
  function Fitted(seg: Seg, next: Seg): Seg
  {
    if seg.seqno + seg.len > next.seqno then CutAt(seg, next.seqno) else seg
  }

  /** A queued segment once `seg` has been inserted after it. */
  function Yielding(prev: Seg, seg: Seg): Seg
  {
    if prev.seqno + prev.len > seg.seqno then CutAt(prev, seg.seqno) else prev
  }

  /** Queue a segment, looking for its place from position i on. */
  function InsertFrom(q: seq<Seg>, i: nat, seg: Seg): (r: seq<Seg>)
    requires i <= |q|
    decreases |q| - i
  {
    if i == |q| then q
    else if seg.seqno == q[i].seqno then
      (if seg.len > q[i].len then q[i := seg] else q)
    else if i == 0 && seg.seqno < q[i].seqno then [Fitted(seg, q[0])] + q
    else if i > 0 && q[i - 1].seqno < seg.seqno < q[i].seqno then
      q[..i - 1] + [Yielding(q[i - 1], seg), Fitted(seg, q[i])] + q[i..]
    else if i == |q| - 1 && seg.seqno > q[i].seqno then q[..i] + [Yielding(q[i], seg), seg]
    else InsertFrom(q, i + 1, seg)
  }

  function Insert(q: seq<Seg>, seg: Seg): seq<Seg> { if q == [] then [seg] else InsertFrom(q, 0, seg) }

  /** The incoming segment without the octets already received. */
  function TrimFront(s: Rcv, seg: Seg): Seg
  {
    if seg.seqno < s.nxt <= seg.seqno + TcpLen(seg) - 1 then DropBefore(seg, s.nxt) else seg
  }

  /** The next segment in sequence without the octets that the queue already holds. */
  function TrimBack(s: Rcv, seg: Seg): Seg
  {
    if s.ooseq != [] && s.ooseq[0].seqno <= seg.seqno + seg.len then CutAt(seg, s.ooseq[0].seqno) else seg
  }

  predicate InWindow(s: Rcv, seg: Seg) { s.nxt <= seg.seqno < s.nxt + s.wnd }

  /** tcp_receive on the data of one segment. `room` says whether memory for a queued copy is available. */
  function Receive(s: Rcv, seg0: Seg, room: bool): Outcome
  {
    var seg := TrimFront(s, seg0);
    if TcpLen(seg0) == 0 || !InWindow(s, seg) then Outcome(s, [], false)
    else if seg.seqno == s.nxt then
      var cut := TrimBack(s, seg);
      var o := Drain(Advance(s, TcpLen(cut)));
      Outcome(o.s, cut.data + o.data, cut.fin || o.gotFin)
    else Outcome(if room then s.(ooseq := Insert(s.ooseq, seg)) else s, [], false)
  }

  // ----- the stream -----

  type Stream = int -> Byte

  /** The octets of the stream from a to b. */
  ghost function Slice(f: Stream, a: int, b: int): seq<Byte>
    requires a <= b
  {
    seq(b - a, i requires 0 <= i < b - a => f(a + i))
  }

  /** The segment holds one or more octets of the stream, and neither FIN nor SYN. */
  ghost predicate Carries(s: Seg, f: Stream)
  {
    && 0 < s.len && |s.data| == s.len && !s.fin && !s.syn
    && s.data == Slice(f, s.seqno, s.seqno + s.len)
  }

  ghost predicate Disjoint(q: seq<Seg>)
  {
    forall i | 0 <= i < |q| - 1 :: q[i].seqno + q[i].len <= q[i + 1].seqno
  }

  /** Every queued segment starts within one maximal window of nxt. */
  ghost predicate Near(s: Rcv) { forall i | 0 <= i < |s.ooseq| :: s.ooseq[i].seqno < s.nxt + 0x1_0000 }

  /** The queue is sorted and disjoint, holds stream octets only, and starts strictly above nxt. */
  ghost predicate Ordered(s: Rcv, f: Stream)
  {
    && (forall i | 0 <= i < |s.ooseq| :: Carries(s.ooseq[i], f))
    && Disjoint(s.ooseq)
    && (s.ooseq != [] ==> s.nxt < s.ooseq[0].seqno)
    && s.wnd < 0x1_0000 && Near(s)
  }

  /** The code is about to replace a queued segment by a longer one that reaches into the next queued segment. */
  ghost predicate Overlong(s: Rcv, seg0: Seg, room: bool)
  {
    var seg := TrimFront(s, seg0);
    room && InWindow(s, seg) && seg.seqno != s.nxt && OverlongAt(s.ooseq, 0, seg)
  }

  lemma SliceApart(f: Stream, a: int, b: int, c: int)
    requires a <= b <= c
    ensures Slice(f, a, b) + Slice(f, b, c) == Slice(f, a, c)
    ensures Slice(f, a, c)[..b - a] == Slice(f, a, b)
    ensures Slice(f, a, c)[b - a..] == Slice(f, b, c)
  {}

  /** Cutting a segment of the stream inside leaves a segment of the stream. */
  lemma CutCarries(s: Seg, f: Stream, end: int)
    requires Carries(s, f) && s.seqno < end <= s.seqno + s.len
    ensures Carries(CutAt(s, end), f) && CutAt(s, end).seqno == s.seqno && CutAt(s, end).len == end - s.seqno
  {
    SliceApart(f, s.seqno, end, s.seqno + s.len);
    assert s.data[..|s.data|] == s.data;
  }

  lemma DropCarries(s: Seg, f: Stream, start: int)
    requires Carries(s, f) && s.seqno <= start < s.seqno + s.len
    ensures var t := DropBefore(s, start);
            Carries(t, f) && t.seqno == start && t.seqno + t.len == s.seqno + s.len
  {
    SliceApart(f, s.seqno, start, s.seqno + s.len);
  }

  ghost predicate AllCarry(q: seq<Seg>, f: Stream) { forall i | 0 <= i < |q| :: Carries(q[i], f) }

  lemma {:induction false} SortedByStart(q: seq<Seg>, f: Stream, i: nat, j: nat)
    requires AllCarry(q, f) && Disjoint(q) && i < j < |q|
    ensures q[i].seqno + q[i].len <= q[j].seqno
    decreases j - i
  {
    if i + 1 < j {
      SortedByStart(q, f, i + 1, j);
      assert Carries(q[i + 1], f);
    }
  }

  /** The queue that is ready to be drained: as Ordered, but it may start at nxt itself. */
  ghost predicate Ready(s: Rcv, f: Stream)
  {
    AllCarry(s.ooseq, f) && Disjoint(s.ooseq) && (s.ooseq != [] ==> s.nxt <= s.ooseq[0].seqno) && s.wnd < 0x1_0000 && Near(s)
  }

  lemma {:induction false} DrainDelivers(s: Rcv, f: Stream)
    requires Ready(s, f)
    ensures var o := Drain(s);
            && s.nxt <= o.s.nxt && o.data == Slice(f, s.nxt, o.s.nxt) && !o.gotFin
            && Ordered(o.s, f)
            && o.s == Advance(s, o.s.nxt - s.nxt).(ooseq := o.s.ooseq)
    decreases |s.ooseq|
  {
    if s.ooseq != [] && s.ooseq[0].seqno == s.nxt {
      var c := s.ooseq[0];
      assert Carries(c, f);
      hide Carries, Slice;
      var t := Advance(s, TcpLen(c)).(ooseq := s.ooseq[1..]);
      assert forall i | 0 <= i < |t.ooseq| :: t.ooseq[i] == s.ooseq[i + 1];
      DrainDelivers(t, f);
      SliceApart(f, s.nxt, t.nxt, Drain(t).s.nxt);
    }
  }

  /** From position i on, a queued segment with the same start is shorter than seg, and seg reaches into the one after it. */
  ghost predicate OverlongAt(q: seq<Seg>, i: nat, seg: Seg)
  {
    exists k :: i <= k < |q| - 1 && q[k].seqno == seg.seqno && q[k].len < seg.len && q[k + 1].seqno < seg.seqno + seg.len
  }

  lemma NoOverlong(q: seq<Seg>, i: nat, seg: Seg, f: Stream)
    requires AllCarry(q, f) && Disjoint(q) && i < |q| && seg.seqno < q[i].seqno
    ensures !OverlongAt(q, i, seg)
  {
    hide Carries;
    forall k | i < k < |q| ensures seg.seqno < q[k].seqno {
      SortedByStart(q, f, i, k);
    }
  }

  ghost predicate Within(q: seq<Seg>, lo: int, hi: int) { forall i | 0 <= i < |q| :: lo < q[i].seqno < hi }

  /** r is queue q with seg put in: stream octets only, starts within the given bounds, seg's own start included. */
  ghost predicate Placed(r: seq<Seg>, seg: Seg, f: Stream, lo: int, hi: int)
  {
    AllCarry(r, f) && Within(r, lo, hi) && exists j :: 0 <= j < |r| && r[j].seqno == seg.seqno
  }

  lemma PutFirst(q: seq<Seg>, seg: Seg, f: Stream, lo: int, hi: int)
    requires AllCarry(q, f) && Disjoint(q) && Carries(seg, f) && q != [] && seg.seqno < q[0].seqno
    requires Within(q, lo, hi) && lo < seg.seqno < hi
    ensures var r := [Fitted(seg, q[0])] + q; Placed(r, seg, f, lo, hi) && Disjoint(r)
  {
    if seg.seqno + seg.len > q[0].seqno { CutCarries(seg, f, q[0].seqno); }
    hide Carries, CutAt;
    var r := [Fitted(seg, q[0])] + q;
    assert forall j | 1 <= j < |r| :: r[j] == q[j - 1];
    assert r[0].seqno == seg.seqno;
  }

  lemma PutBetween(q: seq<Seg>, i: nat, seg: Seg, f: Stream, lo: int, hi: int)
    requires AllCarry(q, f) && Disjoint(q) && Carries(seg, f) && 0 < i < |q| && q[i - 1].seqno < seg.seqno < q[i].seqno
    requires Within(q, lo, hi) && lo < seg.seqno < hi
    ensures var r := q[..i - 1] + [Yielding(q[i - 1], seg), Fitted(seg, q[i])] + q[i..];
            Placed(r, seg, f, lo, hi) && Disjoint(r)
  {
    assert Carries(q[i - 1], f);
    if seg.seqno + seg.len > q[i].seqno { CutCarries(seg, f, q[i].seqno); }
    if q[i - 1].seqno + q[i - 1].len > seg.seqno { CutCarries(q[i - 1], f, seg.seqno); }
    hide Carries, CutAt;
    var y, t := Yielding(q[i - 1], seg), Fitted(seg, q[i]);
    var a, b := q[..i - 1] + [y], [t] + q[i..];
    assert t.seqno == seg.seqno && y.seqno + y.len <= t.seqno && t.seqno + t.len <= q[i].seqno;
    TakeQueue(q, i - 1, y, f, lo, hi);
    DropQueue(q, i, t, f, lo, hi);
    hide AllCarry, Disjoint, Within;
    JoinQueues(a, b, f, lo, hi);
    assert q[..i - 1] + [y, t] + q[i..] == a + b;
    assert (a + b)[i] == t;
  }

  /** A segment followed by segment k and the ones after it. */
  lemma DropQueue(q: seq<Seg>, k: nat, t: Seg, f: Stream, lo: int, hi: int)
    requires AllCarry(q, f) && Disjoint(q) && Within(q, lo, hi) && k < |q| && Carries(t, f)
    requires lo < t.seqno < hi && t.seqno + t.len <= q[k].seqno
    ensures var r := [t] + q[k..]; AllCarry(r, f) && Disjoint(r) && Within(r, lo, hi)
  {
    hide Carries;
    var r := [t] + q[k..];
    assert forall j | 1 <= j < |r| :: r[j] == q[k + j - 1];
  }

  /** The first k segments followed by a segment that starts where segment k does. */
  lemma TakeQueue(q: seq<Seg>, k: nat, y: Seg, f: Stream, lo: int, hi: int)
    requires AllCarry(q, f) && Disjoint(q) && Within(q, lo, hi) && k < |q| && Carries(y, f) && y.seqno == q[k].seqno
    ensures var r := q[..k] + [y]; AllCarry(r, f) && Disjoint(r) && Within(r, lo, hi)
  {
    hide Carries;
    var r := q[..k] + [y];
    assert forall j | 0 <= j < k :: r[j] == q[j];
  }

  lemma JoinQueues(a: seq<Seg>, b: seq<Seg>, f: Stream, lo: int, hi: int)
    requires AllCarry(a, f) && AllCarry(b, f) && Disjoint(a) && Disjoint(b) && Within(a, lo, hi) && Within(b, lo, hi)
    requires a != [] && b != [] && a[|a| - 1].seqno + a[|a| - 1].len <= b[0].seqno
    ensures AllCarry(a + b, f) && Disjoint(a + b) && Within(a + b, lo, hi)
  {
    hide Carries;
  }

  lemma PutLast(q: seq<Seg>, seg: Seg, f: Stream, lo: int, hi: int)
    requires AllCarry(q, f) && Disjoint(q) && Carries(seg, f) && q != [] && q[|q| - 1].seqno < seg.seqno
    requires Within(q, lo, hi) && lo < seg.seqno < hi
    ensures var r := q[..|q| - 1] + [Yielding(q[|q| - 1], seg), seg];
            Placed(r, seg, f, lo, hi) && Disjoint(r)
  {
    var i := |q| - 1;
    assert Carries(q[i], f);
    if q[i].seqno + q[i].len > seg.seqno { CutCarries(q[i], f, seg.seqno); }
    hide Carries, CutAt;
    var y := Yielding(q[i], seg);
    assert Carries(y, f) && y.seqno == q[i].seqno && y.seqno + y.len <= seg.seqno;
    TakeQueue(q, i, y, f, lo, hi);
    JoinQueues(q[..i] + [y], [seg], f, lo, hi);
    var r := q[..i] + [y, seg];
    assert r == (q[..i] + [y]) + [seg] && r[i + 1] == seg;
  }

  lemma PutInstead(q: seq<Seg>, i: nat, seg: Seg, f: Stream, lo: int, hi: int)
    requires AllCarry(q, f) && Disjoint(q) && Carries(seg, f) && i < |q| && seg.seqno == q[i].seqno
    requires Within(q, lo, hi) && lo < seg.seqno < hi
    ensures var r := if seg.len > q[i].len then q[i := seg] else q;
            Placed(r, seg, f, lo, hi) && (Disjoint(r) <==> !OverlongAt(q, i, seg))
  {
    assert Carries(q[i], f);
    hide Carries;
    forall k | i < k < |q| ensures seg.seqno < q[k].seqno {
      SortedByStart(q, f, i, k);
    }
    if seg.len > q[i].len {
      var r := q[i := seg];
      assert r[i] == seg;
      assert forall j | 0 <= j < |q| && j != i :: r[j] == q[j];
      if i + 1 < |q| {
        assert r[i + 1] == q[i + 1];
        if q[i + 1].seqno < seg.seqno + seg.len { assert OverlongAt(q, i, seg); }
      }
    } else {
      assert q[i].seqno == seg.seqno;
    }
  }

  /** Queueing a segment: the queue stays disjoint unless a replacement is overlong. */
  lemma {:induction false} InsertKeeps(q: seq<Seg>, i: nat, seg: Seg, f: Stream, lo: int, hi: int)
    requires AllCarry(q, f) && Disjoint(q) && Carries(seg, f) && i < |q|
    requires i > 0 ==> q[i - 1].seqno < seg.seqno
    requires Within(q, lo, hi) && lo < seg.seqno < hi
    ensures var r := InsertFrom(q, i, seg);
            Placed(r, seg, f, lo, hi) && (Disjoint(r) <==> !OverlongAt(q, i, seg))
    decreases |q| - i
  {
    hide AllCarry, Disjoint, Carries, Placed, Within, Fitted, Yielding;
    if seg.seqno == q[i].seqno {
      PutInstead(q, i, seg, f, lo, hi);
    } else if i == 0 && seg.seqno < q[i].seqno {
      PutFirst(q, seg, f, lo, hi);
      NoOverlong(q, i, seg, f);
    } else if i > 0 && q[i - 1].seqno < seg.seqno < q[i].seqno {
      PutBetween(q, i, seg, f, lo, hi);
      NoOverlong(q, i, seg, f);
    } else if i == |q| - 1 && seg.seqno > q[i].seqno {
      PutLast(q, seg, f, lo, hi);
      assert !OverlongAt(q, i, seg);
    } else {
      InsertKeeps(q, i + 1, seg, f, lo, hi);
      assert OverlongAt(q, i, seg) <==> OverlongAt(q, i + 1, seg);
    }
  }

  lemma QueueKeeps(s: Rcv, seg: Seg, f: Stream)
    requires Ordered(s, f) && Carries(seg, f) && InWindow(s, seg) && seg.seqno != s.nxt
    ensures Ordered(s.(ooseq := Insert(s.ooseq, seg)), f) <==> !OverlongAt(s.ooseq, 0, seg)
  {
    if s.ooseq != [] {
      forall k | 0 <= k < |s.ooseq| ensures s.nxt < s.ooseq[k].seqno {
        if k > 0 { SortedByStart(s.ooseq, f, 0, k); }
      }
      hide Carries, InsertFrom;
      InsertKeeps(s.ooseq, 0, seg, f, s.nxt, s.nxt + 0x1_0000);
    }
  }

  lemma DeliverInOrder(s: Rcv, seg: Seg, f: Stream)
    requires Ordered(s, f) && Carries(seg, f) && seg.seqno == s.nxt
    ensures var cut := TrimBack(s, seg);
            var o := Drain(Advance(s, TcpLen(cut)));
            && s.nxt < o.s.nxt && cut.data + o.data == Slice(f, s.nxt, o.s.nxt) && !cut.fin && !o.gotFin
            && o.s == Advance(s, o.s.nxt - s.nxt).(ooseq := o.s.ooseq)
            && Ordered(o.s, f)
  {
    var cut := TrimBack(s, seg);
    if s.ooseq != [] && s.ooseq[0].seqno <= seg.seqno + seg.len { CutCarries(seg, f, s.ooseq[0].seqno); }
    assert Carries(cut, f);
    var t := Advance(s, TcpLen(cut));
    assert Ready(t, f);
    hide CutAt, Drain;
    DrainDelivers(t, f);
    SliceApart(f, s.nxt, t.nxt, Drain(t).s.nxt);
  }

  /** One segment of the stream: exactly the stream octets from the old to the new nxt are delivered, and the
      queue stays in order exactly when no overlong replacement happens. */
  lemma ReceiveDelivers(s: Rcv, seg0: Seg, room: bool, f: Stream)
    requires Ordered(s, f) && Carries(seg0, f)
    ensures var o := Receive(s, seg0, room);
            && s.nxt <= o.s.nxt && o.data == Slice(f, s.nxt, o.s.nxt) && !o.gotFin
            && o.s.wnd == (if s.wnd < o.s.nxt - s.nxt then 0 else s.wnd - (o.s.nxt - s.nxt))
            && (Ordered(o.s, f) <==> !Overlong(s, seg0, room))
  {
    var seg := TrimFront(s, seg0);
    if seg0.seqno < s.nxt <= seg0.seqno + TcpLen(seg0) - 1 { DropCarries(seg0, f, s.nxt); }
    assert Carries(seg, f);
    assert TcpLen(seg0) > 0;
    hide Carries, TrimFront, TrimBack, Drain, Insert, Ordered;
    assert Slice(f, s.nxt, s.nxt) == [];
    if InWindow(s, seg) && seg.seqno == s.nxt {
      DeliverInOrder(s, seg, f);
    } else if InWindow(s, seg) && room {
      QueueKeeps(s, seg, f);
    }
  }

  /** The TCP_SEQ macros and the comparisons for equality on the wrapped numbers decide the tests of tcp_receive the same
      way, for every segment within a quarter of the number space of nxt and any two queued segments. */
  lemma MacrosAgree(s: Rcv, seg: Seg, f: Stream, prev: Seg, next: Seg)
    requires Ordered(s, f) && Carries(seg, f) && -0x4000_0000 < seg.seqno - s.nxt < 0x4000_0000
    requires prev in s.ooseq && next in s.ooseq
    ensures SeqNum.SeqLt(SeqNum.Wrap(seg.seqno), SeqNum.Wrap(s.nxt)) <==> seg.seqno < s.nxt
    ensures SeqNum.Wrap(s.nxt) == SeqNum.Wrap(seg.seqno) <==> s.nxt == seg.seqno
    ensures SeqNum.SeqBetween(SeqNum.Wrap(s.nxt), SeqNum.Wrap(seg.seqno + 1), SeqNum.Wrap(seg.seqno + TcpLen(seg) - 1))
            <==> seg.seqno < s.nxt <= seg.seqno + TcpLen(seg) - 1
    ensures SeqNum.SeqBetween(SeqNum.Wrap(seg.seqno), SeqNum.Wrap(s.nxt), SeqNum.Wrap(s.nxt + s.wnd - 1))
            <==> s.nxt <= seg.seqno < s.nxt + s.wnd
    ensures SeqNum.SeqLeq(SeqNum.Wrap(next.seqno), SeqNum.Wrap(seg.seqno + seg.len)) <==> next.seqno <= seg.seqno + seg.len
    ensures SeqNum.Wrap(next.seqno) == SeqNum.Wrap(s.nxt) <==> next.seqno == s.nxt
    ensures SeqNum.Wrap(seg.seqno) == SeqNum.Wrap(next.seqno) <==> seg.seqno == next.seqno
    ensures SeqNum.SeqLt(SeqNum.Wrap(seg.seqno), SeqNum.Wrap(next.seqno)) <==> seg.seqno < next.seqno
    ensures SeqNum.SeqGt(SeqNum.Wrap(seg.seqno + seg.len), SeqNum.Wrap(next.seqno)) <==> seg.seqno + seg.len > next.seqno
    ensures SeqNum.SeqBetween(SeqNum.Wrap(seg.seqno), SeqNum.Wrap(prev.seqno + 1), SeqNum.Wrap(next.seqno - 1))
            <==> prev.seqno < seg.seqno < next.seqno
    ensures SeqNum.SeqGt(SeqNum.Wrap(prev.seqno + prev.len), SeqNum.Wrap(seg.seqno)) <==> prev.seqno + prev.len > seg.seqno
    ensures SeqNum.SeqGt(SeqNum.Wrap(seg.seqno), SeqNum.Wrap(prev.seqno)) <==> seg.seqno > prev.seqno
  {
    hide *;
    TcpLenBound(seg);
    AboveNext(s, f, prev);
    AboveNext(s, f, next);
    SeqNum.ReceiveTestsAgree(s.nxt, s.wnd, seg.seqno, TcpLen(seg), seg.len, prev.seqno, prev.len, next.seqno);
  }

  lemma TcpLenBound(s: Seg)
    ensures TcpLen(s) <= 0x1_0000
  {}

  lemma AboveNext(s: Rcv, f: Stream, x: Seg)
    requires Ordered(s, f) && x in s.ooseq
    ensures s.nxt < x.seqno < s.nxt + 0x1_0000 && s.wnd < 0x1_0000
  {
    var i :| 0 <= i < |s.ooseq| && s.ooseq[i] == x;
    if i > 0 { SortedByStart(s.ooseq, f, 0, i); }
  }

  // ----- whole runs -----

  /** A segment that arrives, and whether memory to queue it is available. */
  datatype Arrival = Arrival(seg: Seg, room: bool)

  function ReceiveAll(s: Rcv, arrivals: seq<Arrival>): (Rcv, seq<Byte>)
    decreases |arrivals|
  {
    if arrivals == [] then (s, [])
    else
      var o := Receive(s, arrivals[0].seg, arrivals[0].room);
      var (t, data) := ReceiveAll(o.s, arrivals[1..]);
      (t, o.data + data)
  }

  ghost predicate NeverOverlong(s: Rcv, arrivals: seq<Arrival>)
    decreases |arrivals|
  {
    arrivals != [] ==>
      && !Overlong(s, arrivals[0].seg, arrivals[0].room)
      && NeverOverlong(Receive(s, arrivals[0].seg, arrivals[0].room).s, arrivals[1..])
  }

  /** Whatever segments of the stream arrive, in whatever order and however often: what has been delivered is
      the stream from the first nxt to the current one, without gap, repetition or reordering. */
  lemma {:induction false} RunDelivers(s: Rcv, arrivals: seq<Arrival>, f: Stream)
    requires Ordered(s, f) && forall a | a in arrivals :: Carries(a.seg, f)
    requires NeverOverlong(s, arrivals)
    ensures var (t, data) := ReceiveAll(s, arrivals);
            s.nxt <= t.nxt && data == Slice(f, s.nxt, t.nxt) && Ordered(t, f)
    decreases |arrivals|
  {
    hide Ordered, Carries, Receive, Overlong, Slice;
    if arrivals == [] {
      EmptySlice(f, s.nxt);
    } else {
      var o := Receive(s, arrivals[0].seg, arrivals[0].room);
      ReceiveDelivers(s, arrivals[0].seg, arrivals[0].room, f);
      RunDelivers(o.s, arrivals[1..], f);
      SliceApart(f, s.nxt, o.s.nxt, ReceiveAll(s, arrivals).0.nxt);
    }
  }

  lemma EmptySlice(f: Stream, a: int)
    ensures Slice(f, a, a) == []
  {}

  /** An in-order segment always moves nxt to the end of the segment or to the start of the queue and beyond. */
  lemma InOrderProgress(s: Rcv, seg0: Seg, room: bool, f: Stream)
    requires Ordered(s, f) && Carries(seg0, f) && seg0.seqno <= s.nxt < seg0.seqno + seg0.len && s.wnd > 0
    ensures var o := Receive(s, seg0, room);
            var end := seg0.seqno + seg0.len;
            && (s.ooseq == [] || end < s.ooseq[0].seqno ==> o.s.nxt == end)
            && (s.ooseq != [] && s.ooseq[0].seqno <= end ==> s.ooseq[0].seqno + s.ooseq[0].len <= o.s.nxt)
  {
    var seg := TrimFront(s, seg0);
    if seg0.seqno < s.nxt { DropCarries(seg0, f, s.nxt); }
    DeliverInOrder(s, seg, f);
    if s.ooseq != [] && s.ooseq[0].seqno <= seg.seqno + seg.len {
      CutCarries(seg, f, s.ooseq[0].seqno);
      assert Carries(s.ooseq[0], f);
      var t := Advance(s, TcpLen(TrimBack(s, seg)));
      var u := Advance(t, TcpLen(t.ooseq[0])).(ooseq := t.ooseq[1..]);
      assert Ready(u, f) by { assert forall i | 0 <= i < |u.ooseq| :: u.ooseq[i] == s.ooseq[i + 1]; }
      DrainDelivers(u, f);
    }
  }

  // ----- what goes wrong -----

  /** Once a queued segment lies below nxt, the next segment in order is cut to a negative length, which
      16 bits turn into a jump: nxt moves on to the next number that agrees with the stale start modulo 2^16. */
  lemma LeftoverJumps(s: Rcv, seg: Seg, room: bool)
    requires s.ooseq != [] && s.nxt - 0x1_0000 < s.ooseq[0].seqno < s.nxt
    requires seg.seqno == s.nxt && TcpLen(seg) > 0 && s.wnd > 0 && !seg.fin && !seg.syn
    ensures var o := Receive(s, seg, room);
            o.s.nxt == s.ooseq[0].seqno + 0x1_0000 && o.data == Shrink(seg.data, o.s.nxt - s.nxt) && o.s.ooseq == s.ooseq
  {
    assert (s.ooseq[0].seqno - s.nxt) % 0x1_0000 == s.ooseq[0].seqno - s.nxt + 0x1_0000;
    assert TrimBack(s, seg).data + [] == TrimBack(s, seg).data;
  }

  /** An overlong replacement does leave a queued segment below nxt: 10..12 and 12..14 are queued, 10..14
      replaces the first of them, and 0..10 arrives. */
  lemma OverlongLeavesLeftover(first: Seg, f: Stream)
    requires first == Seg(0, 10, Slice(f, 0, 10), false, false)
    ensures var a, b := Seg(10, 2, Slice(f, 10, 12), false, false), Seg(12, 2, Slice(f, 12, 14), false, false);
            var long := Seg(10, 4, Slice(f, 10, 14), false, false);
            var s := Rcv(0, 100, [a, b]);
            && Ordered(s, f) && Carries(long, f) && Overlong(s, long, true)
            && Receive(s, long, true).s.ooseq == [long, b]
            && Receive(Receive(s, long, true).s, first, true).s == Rcv(14, 86, [b])
  {
    var a, b := Seg(10, 2, Slice(f, 10, 12), false, false), Seg(12, 2, Slice(f, 12, 14), false, false);
    var long := Seg(10, 4, Slice(f, 10, 14), false, false);
    hide Slice, Shrink;
    var q := [a, b];
    assert OverlongAt(q, 0, long) by { assert q[0] == a && q[1] == b; }
    assert q[0 := long] == [long, b];
    var s1 := Rcv(0, 100, [long, b]);
    assert s1.ooseq[1..] == [b];
    assert TrimBack(s1, first).len == 10;
    assert Drain(Rcv(14, 86, [b])).s == Rcv(14, 86, [b]);
    assert Drain(Rcv(10, 90, s1.ooseq)).s == Rcv(14, 86, [b]);
  }

  /** An in-order segment that ends the stream with FIN is delivered with its FIN right after its data exactly
      when nothing is queued. Otherwise the queue cuts its data but not its FIN: nxt stops one past the start
      of the queue, and the data queued there is never delivered. */
  lemma FinDelivery(s: Rcv, seg: Seg, room: bool, f: Stream)
    requires Ordered(s, f) && seg.seqno == s.nxt && seg.fin && |seg.data| == seg.len && s.wnd > 0
    requires seg.data == Slice(f, seg.seqno, seg.seqno + seg.len)
    requires forall i | 0 <= i < |s.ooseq| :: s.ooseq[i].seqno + s.ooseq[i].len <= seg.seqno + seg.len
    ensures var o := Receive(s, seg, room);
            && (o == Outcome(o.s, seg.data, true) && o.s.nxt == seg.seqno + seg.len + 1 <==> s.ooseq == [])
            && (s.ooseq != [] ==> o.gotFin && o.s.nxt == s.ooseq[0].seqno + 1 && o.s.ooseq == s.ooseq)
  {
    var cut := TrimBack(s, seg);
    if s.ooseq != [] {
      assert Carries(s.ooseq[0], f);
      var n := s.ooseq[0].seqno - seg.seqno;
      assert cut.len == n;
    }
  }
}
