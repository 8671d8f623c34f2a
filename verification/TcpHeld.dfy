/** Which octets a receiver holds, delivered or queued, and which it loses again (tcp_in.c, tcp_receive). */
module TcpHeld {
  import opened Words
  import opened TcpIn

  predicate Holds(x: Seg, n: int) { x.seqno <= n < x.seqno + x.len }

  ghost predicate Covers(q: seq<Seg>, n: int) { exists x :: x in q && Holds(x, n) }

  /** Octet n of the stream has been delivered or is queued. */
  ghost predicate Held(s: Rcv, n: int) { n < s.nxt || Covers(s.ooseq, n) }

  // ----- inserting a segment -----

  /** A queued segment holds n, and does not start before `start` if n lies there or after. */
  ghost predicate Kept(q: seq<Seg>, start: int, n: int)
  {
    exists x :: x in q && Holds(x, n) && (n < start || start <= x.seqno)
  }

  /** No queued segment starts after `start`, up to n. */
  ghost predicate Clear(q: seq<Seg>, start: int, n: int) { forall x | x in q :: !(start < x.seqno <= n) }

  lemma CoversJoin(a: seq<Seg>, b: seq<Seg>, n: int)
    ensures Covers(a + b, n) <==> Covers(a, n) || Covers(b, n)
  {
    forall x | x in a || x in b ensures x in a + b {}
  }

  lemma KeptJoin(a: seq<Seg>, b: seq<Seg>, start: int, n: int)
    ensures Kept(a + b, start, n) <==> Kept(a, start, n) || Kept(b, start, n)
    ensures Clear(a + b, start, n) <==> Clear(a, start, n) && Clear(b, start, n)
  {
    forall x | x in a || x in b ensures x in a + b {}
  }

  /** Segments in front of the new one. */
  ghost predicate Before(q: seq<Seg>, start: int) { forall x | x in q :: x.seqno < start }

  /** Segments behind it, in order. */
  ghost predicate Behind(q: seq<Seg>, start: int) { forall j | 0 <= j < |q| :: start < q[j].seqno && q[0].seqno <= q[j].seqno }

  lemma FrontKept(q: seq<Seg>, start: int, n: int)
    requires Before(q, start)
    ensures Kept(q, start, n) <==> Covers(q, n) && n < start
    ensures Clear(q, start, n)
  {}

  lemma BackKept(q: seq<Seg>, start: int, n: int)
    requires Behind(q, start)
    ensures Kept(q, start, n) <==> Covers(q, n)
    ensures Clear(q, start, n) <==> q == [] || n < q[0].seqno
  {
    if q != [] { assert q[0] in q; }
  }

  lemma OneCovers(x: Seg, start: int, n: int)
    ensures Covers([x], n) <==> Holds(x, n)
    ensures Kept([x], start, n) <==> Holds(x, n) && (n < start || start <= x.seqno)
    ensures Clear([x], start, n) <==> !(start < x.seqno <= n)
  {
    assert x in [x];
  }

  /** Around position i of a sorted queue. */
  lemma Around(q: seq<Seg>, i: nat, start: int, f: Stream)
    requires AllCarry(q, f) && Disjoint(q) && i <= |q|
    requires i > 0 ==> q[i - 1].seqno < start
    requires i < |q| ==> start < q[i].seqno
    ensures Before(q[..i], start) && Behind(q[i..], start)
    ensures forall k | 0 <= k < i - 1 :: q[k].seqno + q[k].len <= q[i - 1].seqno
  {
    forall j, k | 0 <= j < k < |q| ensures q[j].seqno + q[j].len <= q[k].seqno && q[j].len > 0 && q[j].seqno < q[k].seqno {
      SortedByStart(q, f, j, k);
      assert Carries(q[j], f);
    }
    hide Carries;
    forall j | 0 <= j < |q[i..]| ensures start < q[i..][j].seqno && q[i..][0].seqno <= q[i..][j].seqno {
      assert q[i..][j] == q[i + j] && q[i..][0] == q[i];
    }
  }

  /** What the queue holds after a segment has been put in: what it kept, and the segment up to the next queued one. */
  ghost predicate Joins(q: seq<Seg>, r: seq<Seg>, seg: Seg, n: int)
  {
    Covers(r, n) <==> Kept(q, seg.seqno, n) || (Holds(seg, n) && Clear(q, seg.seqno, n))
  }

  /** Every queued segment that seg does not touch stays in the queue. */
  ghost predicate Spares(q: seq<Seg>, r: seq<Seg>, seg: Seg)
  {
    forall x | x in q && (x.seqno + x.len <= seg.seqno || seg.seqno < x.seqno) :: x in r
  }

  /** The segment in front of the new one keeps its octets up to there. */
  lemma YieldingHolds(prev: Seg, seg: Seg, f: Stream, n: int)
    requires Carries(prev, f) && prev.seqno < seg.seqno
    ensures Holds(Yielding(prev, seg), n) <==> Holds(prev, n) && n < seg.seqno
    ensures prev.seqno + prev.len <= seg.seqno ==> Yielding(prev, seg) == prev
  {
    if prev.seqno + prev.len > seg.seqno { CutCarries(prev, f, seg.seqno); }
  }

  /** The new segment goes up to the one behind it. */
  lemma FittedHolds(seg: Seg, next: Seg, f: Stream, n: int)
    requires Carries(seg, f) && seg.seqno < next.seqno
    ensures Holds(Fitted(seg, next), n) <==> Holds(seg, n) && n < next.seqno
  {
    if seg.seqno + seg.len > next.seqno { CutCarries(seg, f, next.seqno); }
  }

  lemma HoldsFirst(q: seq<Seg>, seg: Seg, f: Stream, n: int)
    requires AllCarry(q, f) && Disjoint(q) && Carries(seg, f) && q != [] && seg.seqno < q[0].seqno
    ensures var r := [Fitted(seg, q[0])] + q; Joins(q, r, seg, n) && Spares(q, r, seg)
  {
    Around(q, 0, seg.seqno, f);
    assert q[0..] == q;
    hide AllCarry, Disjoint, Carries, Behind, Before, Kept, Clear, Covers, Fitted;
    FittedHolds(seg, q[0], f, n);
    BackKept(q, seg.seqno, n);
    OneCovers(Fitted(seg, q[0]), 0, n);
    CoversJoin([Fitted(seg, q[0])], q, n);
  }

  lemma HoldsBetween(q: seq<Seg>, i: nat, seg: Seg, f: Stream, n: int)
    requires AllCarry(q, f) && Disjoint(q) && Carries(seg, f) && 0 < i <= |q|
    requires q[i - 1].seqno < seg.seqno && (i < |q| ==> seg.seqno < q[i].seqno)
    ensures var t := if i < |q| then Fitted(seg, q[i]) else seg;
            var r := q[..i - 1] + [Yielding(q[i - 1], seg), t] + q[i..];
            Joins(q, r, seg, n) && Spares(q, r, seg)
  {
    var start, y := seg.seqno, Yielding(q[i - 1], seg);
    var t := if i < |q| then Fitted(seg, q[i]) else seg;
    assert Carries(q[i - 1], f);
    Around(q, i, start, f);
    YieldingHolds(q[i - 1], seg, f, n);
    if i < |q| { FittedHolds(seg, q[i], f, n); }
    FrontHolds(q, i, start, n);
    SparesBetween(q, i, seg, t, f);
    hide AllCarry, Disjoint, Carries, Behind, Before, Kept, Clear, Covers, Fitted, Yielding, Spares, Holds;
    CoversBetween(q, i, y, t, n);
    KeptBetween(q, i, start, n);
  }

  lemma CoversBetween(q: seq<Seg>, i: nat, y: Seg, t: Seg, n: int)
    requires 0 < i <= |q|
    ensures Covers(q[..i - 1] + [y, t] + q[i..], n) <==> Covers(q[..i - 1], n) || Holds(y, n) || Holds(t, n) || Covers(q[i..], n)
  {
    hide Covers, Holds;
    assert q[..i - 1] + [y, t] + q[i..] == (q[..i - 1] + [y]) + ([t] + q[i..]);
    CoversJoin(q[..i - 1] + [y], [t] + q[i..], n);
    CoversJoin(q[..i - 1], [y], n);
    CoversJoin([t], q[i..], n);
    OneCovers(y, 0, n);
    OneCovers(t, 0, n);
  }

  lemma KeptBetween(q: seq<Seg>, i: nat, start: int, n: int)
    requires i <= |q| && Before(q[..i], start) && Behind(q[i..], start)
    ensures Kept(q, start, n) <==> (Covers(q[..i], n) && n < start) || Covers(q[i..], n)
    ensures Clear(q, start, n) <==> i == |q| || n < q[i].seqno
  {
    hide Covers, Kept, Clear, Before, Behind;
    assert q == q[..i] + q[i..];
    KeptJoin(q[..i], q[i..], start, n);
    FrontKept(q[..i], start, n);
    BackKept(q[i..], start, n);
  }

  /** What the segments in front hold, the last of them apart. */
  lemma FrontHolds(q: seq<Seg>, i: nat, start: int, n: int)
    requires 0 < i <= |q| && Before(q[..i], start) && q[i - 1].seqno < start
    requires forall k | 0 <= k < i - 1 :: q[k].seqno + q[k].len <= q[i - 1].seqno
    ensures Covers(q[..i], n) <==> Covers(q[..i - 1], n) || Holds(q[i - 1], n)
    ensures Covers(q[..i - 1], n) ==> n < start
  {
    assert q[..i] == q[..i - 1] + [q[i - 1]];
    CoversJoin(q[..i - 1], [q[i - 1]], n);
    OneCovers(q[i - 1], 0, n);
  }

  lemma SparesBetween(q: seq<Seg>, i: nat, seg: Seg, t: Seg, f: Stream)
    requires 0 < i <= |q| && Carries(q[i - 1], f) && q[i - 1].seqno < seg.seqno
    ensures Spares(q, q[..i - 1] + [Yielding(q[i - 1], seg), t] + q[i..], seg)
  {
    YieldingHolds(q[i - 1], seg, f, 0);
    hide Carries, Yielding;
    var r := q[..i - 1] + [Yielding(q[i - 1], seg), t] + q[i..];
    forall x | x in q && (x.seqno + x.len <= seg.seqno || seg.seqno < x.seqno) ensures x in r {
      var k :| 0 <= k < |q| && q[k] == x;
      if k < i - 1 { assert r[k] == x; } else if k == i - 1 { assert r[k] == x; } else { assert r[k + 1] == x; }
    }
  }

  lemma HoldsInstead(q: seq<Seg>, i: nat, seg: Seg, f: Stream, n: int)
    requires AllCarry(q, f) && Disjoint(q) && Carries(seg, f) && i < |q| && seg.seqno == q[i].seqno && !OverlongAt(q, i, seg)
    ensures var r := if seg.len > q[i].len then q[i := seg] else q;
            Joins(q, r, seg, n) && Spares(q, r, seg)
  {
    assert Carries(q[i], f);
    hide Joins, Spares, Carries;
    SameStart(q, i, seg, f, n);
    hide AllCarry, Disjoint, OverlongAt;
    if seg.len > q[i].len { Replaced(q, i, seg, n); } else { NotReplaced(q, i, seg, n); }
  }

  /** Of a queue in which segment i starts where seg does: every segment that holds n is kept, and seg is clear of others. */
  lemma SameStart(q: seq<Seg>, i: nat, seg: Seg, f: Stream, n: int)
    requires AllCarry(q, f) && Disjoint(q) && i < |q| && seg.seqno == q[i].seqno && !OverlongAt(q, i, seg)
    ensures Kept(q, seg.seqno, n) <==> Covers(q, n)
    ensures Holds(seg, n) ==> Clear(q, seg.seqno, n) || seg.len <= q[i].len
  {
    forall x | x in q ensures x.seqno < seg.seqno ==> x.seqno + x.len <= seg.seqno {
      var k :| 0 <= k < |q| && q[k] == x;
      if k < i { SortedByStart(q, f, k, i); } else if i < k { SortedByStart(q, f, i, k); }
    }
    if seg.len > q[i].len {
      forall x | x in q && seg.seqno < x.seqno ensures seg.seqno + seg.len <= x.seqno {
        var k :| 0 <= k < |q| && q[k] == x;
        if k < i { SortedByStart(q, f, k, i); }
        if i + 1 < k { SortedByStart(q, f, i + 1, k); }
      }
    }
  }

  lemma Replaced(q: seq<Seg>, i: nat, seg: Seg, n: int)
    requires i < |q| && seg.seqno == q[i].seqno && q[i].len < seg.len && 0 < q[i].len
    requires Kept(q, seg.seqno, n) <==> Covers(q, n)
    requires Holds(seg, n) ==> Clear(q, seg.seqno, n)
    ensures Joins(q, q[i := seg], seg, n) && Spares(q, q[i := seg], seg)
  {
    var r := q[i := seg];
    assert r[i] == seg;
    forall x | x in q && x != q[i] ensures x in r {
      var k :| 0 <= k < |q| && q[k] == x;
      assert r[k] == x;
    }
    hide Kept, Clear;
  }

  lemma NotReplaced(q: seq<Seg>, i: nat, seg: Seg, n: int)
    requires i < |q| && seg.seqno == q[i].seqno && seg.len <= q[i].len
    requires Kept(q, seg.seqno, n) <==> Covers(q, n)
    ensures Joins(q, q, seg, n) && Spares(q, q, seg)
  {
    assert q[i] in q;
    hide Kept, Clear;
  }

  lemma {:induction false} InsertHolds(q: seq<Seg>, i: nat, seg: Seg, f: Stream, n: int)
    requires AllCarry(q, f) && Disjoint(q) && Carries(seg, f) && i < |q| && !OverlongAt(q, i, seg)
    requires i > 0 ==> q[i - 1].seqno < seg.seqno
    ensures Joins(q, InsertFrom(q, i, seg), seg, n) && Spares(q, InsertFrom(q, i, seg), seg)
    decreases |q| - i
  {
    hide AllCarry, Disjoint, Carries, Joins, Spares, Fitted, Yielding;
    if seg.seqno == q[i].seqno {
      HoldsInstead(q, i, seg, f, n);
    } else if i == 0 && seg.seqno < q[i].seqno {
      HoldsFirst(q, seg, f, n);
    } else if i > 0 && q[i - 1].seqno < seg.seqno < q[i].seqno {
      HoldsBetween(q, i, seg, f, n);
    } else if i == |q| - 1 && seg.seqno > q[i].seqno {
      HoldsBetween(q, i + 1, seg, f, n);
      assert q[..i] + [Yielding(q[i], seg), seg] == q[..i] + [Yielding(q[i], seg), seg] + q[i + 1..];
    } else {
      assert OverlongAt(q, i, seg) <==> OverlongAt(q, i + 1, seg);
      InsertHolds(q, i + 1, seg, f, n);
    }
  }

  // ----- one arrival -----

  /** The first octet of a segment that is not before nxt, if there is one. */
  function Start(s: Rcv, seg: Seg): int { if seg.seqno < s.nxt < seg.seqno + seg.len then s.nxt else seg.seqno }

  /** It is accepted: it starts in the window, and there is memory unless it is next in order. */
  predicate Taken(s: Rcv, a: Arrival)
  {
    var start := Start(s, a.seg);
    s.nxt <= start < s.nxt + s.wnd && (start == s.nxt || a.room)
  }

  /** It brings octet n: n lies in it, and no queued segment starts in between. */
  ghost predicate Brings(s: Rcv, a: Arrival, n: int)
  {
    var start := Start(s, a.seg);
    Taken(s, a) && start <= n < a.seg.seqno + a.seg.len && Clear(s.ooseq, start, n)
  }

  /** It cuts octet n off: the queued segment that holds n starts before it and reaches over its start. */
  ghost predicate CutsOff(s: Rcv, a: Arrival, n: int)
  {
    var start := Start(s, a.seg);
    Taken(s, a) && start <= n && exists x :: x in s.ooseq && Holds(x, n) && x.seqno < start
  }

  lemma {:induction false} DrainHolds(s: Rcv, f: Stream, n: int)
    requires Ready(s, f)
    ensures Held(Drain(s).s, n) <==> Held(s, n)
    decreases |s.ooseq|
  {
    if s.ooseq != [] && s.ooseq[0].seqno == s.nxt {
      var c := s.ooseq[0];
      assert Carries(c, f);
      var t := Advance(s, TcpLen(c)).(ooseq := s.ooseq[1..]);
      assert forall i | 0 <= i < |t.ooseq| :: t.ooseq[i] == s.ooseq[i + 1];
      assert Ready(t, f);
      DrainHolds(t, f, n);
      hide Ready, Carries, Drain;
      assert s.ooseq == [c] + t.ooseq;
      CoversJoin([c], t.ooseq, n);
      OneCovers(c, 0, n);
    }
  }

  lemma InOrderHolds(s: Rcv, seg: Seg, f: Stream, n: int)
    requires Ordered(s, f) && Carries(seg, f) && seg.seqno == s.nxt
    ensures Held(Drain(Advance(s, TcpLen(TrimBack(s, seg)))).s, n)
            <==> Held(s, n) || (Holds(seg, n) && Clear(s.ooseq, s.nxt, n))
  {
    var q, cut := s.ooseq, TrimBack(s, seg);
    if q != [] && q[0].seqno <= seg.seqno + seg.len { CutCarries(seg, f, q[0].seqno); }
    assert Carries(cut, f);
    var t := Advance(s, TcpLen(cut));
    assert Ready(t, f);
    if q != [] {
      Around(q, 0, s.nxt, f);
      assert q[0..] == q;
      BackKept(q, s.nxt, n);
    }
    hide Ordered, Carries, CutAt, Drain, Kept;
    DrainHolds(t, f, n);
  }

  /** After one arrival the receiver holds what it held and was not cut off, and what the segment brings. */
  lemma ReceiveHolds(s: Rcv, a: Arrival, f: Stream, n: int)
    requires Ordered(s, f) && Carries(a.seg, f) && !Overlong(s, a.seg, a.room)
    ensures Held(Receive(s, a.seg, a.room).s, n) <==> (Held(s, n) && !CutsOff(s, a, n)) || Brings(s, a, n)
  {
    var seg := TrimFront(s, a.seg);
    if a.seg.seqno < s.nxt < a.seg.seqno + a.seg.len { DropCarries(a.seg, f, s.nxt); }
    assert Carries(seg, f) && seg.seqno == Start(s, a.seg) && seg.seqno + seg.len == a.seg.seqno + a.seg.len;
    AboveAll(s, f);
    if InWindow(s, seg) && seg.seqno == s.nxt {
      InOrderHolds(s, seg, f, n);
    } else if InWindow(s, seg) && a.room {
      OutOfOrderHolds(s, seg, f, n);
      KeptIs(s, f, seg.seqno, n);
    }
  }

  /** No octet is held twice, so what is kept is what was held and is not cut off. */
  lemma KeptIs(s: Rcv, f: Stream, start: int, n: int)
    requires Ordered(s, f)
    ensures Kept(s.ooseq, start, n)
            <==> Covers(s.ooseq, n) && !(start <= n && exists x :: x in s.ooseq && Holds(x, n) && x.seqno < start)
  {
    forall x, y | x in s.ooseq && y in s.ooseq && Holds(x, n) && Holds(y, n) ensures x == y { OneHolder(s, f, x, y, n); }
  }

  lemma OneHolder(s: Rcv, f: Stream, x: Seg, y: Seg, n: int)
    requires Ordered(s, f) && x in s.ooseq && y in s.ooseq && Holds(x, n) && Holds(y, n)
    ensures x == y
  {
    var i :| 0 <= i < |s.ooseq| && s.ooseq[i] == x;
    var j :| 0 <= j < |s.ooseq| && s.ooseq[j] == y;
    if i < j { SortedByStart(s.ooseq, f, i, j); }
    if j < i { SortedByStart(s.ooseq, f, j, i); }
  }

  lemma AboveAll(s: Rcv, f: Stream)
    requires Ordered(s, f)
    ensures forall x | x in s.ooseq :: s.nxt < x.seqno
  {
    forall x | x in s.ooseq ensures s.nxt < x.seqno { AboveNext(s, f, x); }
  }

  lemma OutOfOrderHolds(s: Rcv, seg: Seg, f: Stream, n: int)
    requires Ordered(s, f) && Carries(seg, f) && seg.seqno > s.nxt && !OverlongAt(s.ooseq, 0, seg)
    ensures Held(s.(ooseq := Insert(s.ooseq, seg)), n)
            <==> n < s.nxt || Kept(s.ooseq, seg.seqno, n) || (Holds(seg, n) && Clear(s.ooseq, seg.seqno, n))
  {
    if s.ooseq == [] {
      OneCovers(seg, 0, n);
    } else {
      InsertHolds(s.ooseq, 0, seg, f, n);
    }
  }

  /** An octet is lost again exactly when a segment is taken that lies wholly inside a queued one, in front of that octet. */
  lemma LosesExactly(s: Rcv, a: Arrival, f: Stream, n: int)
    requires Ordered(s, f) && Carries(a.seg, f) && !Overlong(s, a.seg, a.room)
    ensures Held(s, n) && !Held(Receive(s, a.seg, a.room).s, n) <==> CutsOff(s, a, n) && a.seg.seqno + a.seg.len <= n
  {
    ReceiveHolds(s, a, f, n);
    AboveAll(s, f);
    hide Ordered, Receive;
    if CutsOff(s, a, n) {
      var x :| x in s.ooseq && Holds(x, n) && x.seqno < Start(s, a.seg);
      forall y | y in s.ooseq && y.seqno <= n ensures y.seqno <= x.seqno { NothingBetween(s, f, x, y, n); }
    }
  }

  lemma NothingBetween(s: Rcv, f: Stream, x: Seg, y: Seg, n: int)
    requires Ordered(s, f) && x in s.ooseq && y in s.ooseq && Holds(x, n) && y.seqno <= n
    ensures y.seqno <= x.seqno
  {
    var i :| 0 <= i < |s.ooseq| && s.ooseq[i] == x;
    var j :| 0 <= j < |s.ooseq| && s.ooseq[j] == y;
    if i < j { SortedByStart(s.ooseq, f, i, j); }
    if j < i { SortedByStart(s.ooseq, f, j, i); assert Carries(y, f); }
  }

  /** It happens: 20..50 is queued and 30..35 arrives; 35..50 must be sent again. */
  lemma NestedLoses(f: Stream, n: int)
    requires 35 <= n < 50
    ensures var x, y := Seg(20, 30, Slice(f, 20, 50), false, false), Seg(30, 5, Slice(f, 30, 35), false, false);
            var s := Rcv(0, 100, [x]);
            && Ordered(s, f) && Carries(y, f) && !Overlong(s, y, true)
            && Held(s, n) && !Held(Receive(s, y, true).s, n)
  {
    var x, y := Seg(20, 30, Slice(f, 20, 50), false, false), Seg(30, 5, Slice(f, 30, 35), false, false);
    var s, a := Rcv(0, 100, [x]), Arrival(y, true);
    assert x in s.ooseq && Holds(x, n);
    assert Ordered(s, f) && Carries(y, f) && !Overlong(s, y, true);
    hide Ordered, Carries, Overlong, Receive, Slice;
    LosesExactly(s, a, f, n);
    assert CutsOff(s, a, n);
  }

  // ----- whole runs -----

  /** Whether octet n is held at the end: brought, or held before, and not cut off since. */
  ghost predicate Survives(s: Rcv, arrivals: seq<Arrival>, n: int, held: bool)
    decreases |arrivals|
  {
    if arrivals == [] then held
    else
      var a := arrivals[0];
      Survives(Receive(s, a.seg, a.room).s, arrivals[1..], n, (held && !CutsOff(s, a, n)) || Brings(s, a, n))
  }

  lemma {:induction false} RunHolds(s: Rcv, arrivals: seq<Arrival>, f: Stream, n: int)
    requires Ordered(s, f) && (forall a | a in arrivals :: Carries(a.seg, f)) && NeverOverlong(s, arrivals)
    ensures Held(ReceiveAll(s, arrivals).0, n) <==> Survives(s, arrivals, n, Held(s, n))
    decreases |arrivals|
  {
    hide Ordered, Carries, Receive, Overlong, Held, CutsOff, Brings;
    if arrivals != [] {
      var a := arrivals[0];
      ReceiveHolds(s, a, f, n);
      ReceiveDelivers(s, a.seg, a.room, f);
      RunHolds(Receive(s, a.seg, a.room).s, arrivals[1..], f, n);
    }
  }

  /** If every octet up to `end` survives, every one of them has been delivered. */
  lemma RunCompletes(s: Rcv, arrivals: seq<Arrival>, f: Stream, end: int)
    requires Ordered(s, f) && (forall a | a in arrivals :: Carries(a.seg, f)) && NeverOverlong(s, arrivals) && s.nxt <= end
    requires forall n | s.nxt <= n < end :: Survives(s, arrivals, n, false)
    ensures var (t, data) := ReceiveAll(s, arrivals);
            end <= t.nxt && Slice(f, s.nxt, end) <= data
  {
    RunDelivers(s, arrivals, f);
    var t := ReceiveAll(s, arrivals).0;
    AboveAll(t, f);
    AboveAll(s, f);
    if t.nxt < end {
      NotHeldAtNext(t);
      RunHolds(s, arrivals, f, t.nxt);
      SurvivesMore(s, arrivals, t.nxt);
    } else {
      SliceApart(f, s.nxt, end, t.nxt);
    }
  }

  lemma NotHeldAtNext(s: Rcv)
    requires forall x | x in s.ooseq :: s.nxt < x.seqno
    ensures !Held(s, s.nxt)
  {}

  lemma {:induction false} SurvivesMore(s: Rcv, arrivals: seq<Arrival>, n: int)
    ensures Survives(s, arrivals, n, false) ==> Survives(s, arrivals, n, true)
    decreases |arrivals|
  {
    hide Receive, CutsOff, Brings;
    if arrivals != [] {
      var a := arrivals[0];
      var t := Receive(s, a.seg, a.room).s;
      SurvivesMore(t, arrivals[1..], n);
    }
  }

  // ----- FIN -----

  ghost predicate AnyFin(q: seq<Seg>) { exists x :: x in q && x.fin }

  /** Draining takes segments off the front of the queue only, and reports a FIN exactly when one of these carries it. */
  lemma {:induction false} DrainFins(s: Rcv) returns (taken: seq<Seg>)
    ensures s.ooseq == taken + Drain(s).s.ooseq && (Drain(s).gotFin <==> AnyFin(taken))
    decreases |s.ooseq|
  {
    if s.ooseq != [] && s.ooseq[0].seqno == s.nxt {
      var c := s.ooseq[0];
      var t := Advance(s, TcpLen(c)).(ooseq := s.ooseq[1..]);
      var rest := DrainFins(t);
      hide Drain, AnyFin;
      taken := [c] + rest;
      assert s.ooseq == [c] + t.ooseq;
      DrainStep(s);
      FinJoin([c], rest);
      OneFin(c);
    } else {
      taken := [];
      assert s.ooseq == [] + s.ooseq;
    }
  }

  lemma DrainStep(s: Rcv)
    requires s.ooseq != [] && s.ooseq[0].seqno == s.nxt
    ensures var t := Advance(s, TcpLen(s.ooseq[0])).(ooseq := s.ooseq[1..]);
            Drain(s).s == Drain(t).s && (Drain(s).gotFin <==> s.ooseq[0].fin || Drain(t).gotFin)
  {}

  lemma FinJoin(a: seq<Seg>, b: seq<Seg>)
    ensures AnyFin(a + b) <==> AnyFin(a) || AnyFin(b)
  {
    forall x | x in a || x in b ensures x in a + b {}
  }

  lemma OneFin(x: Seg)
    ensures AnyFin([x]) <==> x.fin
  {
    assert x in [x];
  }

  /** Whatever is queued, FINs included: the application is told of a FIN exactly when a segment that is taken in order
      carries it, or one that then leaves the queue. */
  lemma ReceiveFin(s: Rcv, seg: Seg, room: bool) returns (taken: seq<Seg>)
    requires seg.seqno == s.nxt && TcpLen(seg) > 0 && s.wnd > 0
    ensures var o := Receive(s, seg, room);
            s.ooseq == taken + o.s.ooseq && (o.gotFin <==> seg.fin || AnyFin(taken))
  {
    var t := Advance(s, TcpLen(TrimBack(s, seg)));
    taken := DrainFins(t);
    hide AnyFin, Drain;
  }
}
