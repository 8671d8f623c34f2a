/** Sending data on a TCP connection (tcp_out.c, and the ACK part of tcp_in.c): the queues of unsent and
    unacknowledged segments. Sequence numbers are unwrapped integers. */
module TcpOut {
  import opened Words
  import SeqNum

  const TCP_SND_BUF := 2150
  const TCP_SND_QUEUELEN := 9
  const TCP_MSS := 1500

  /** A queued segment: its octets, its SYN or FIN, and the number of buffers it is held in. */
  datatype Seg = Seg(seqno: int, data: seq<Byte>, syn: bool, fin: bool, clen: nat)

  predicate IsCtl(s: Seg) { s.syn || s.fin }

  /** TCP_TCPLEN. */
  function TcpLen(s: Seg): nat { |s.data| + if IsCtl(s) then 1 else 0 }

  function End(s: Seg): int { s.seqno + TcpLen(s) }

  datatype Snd = Snd(unacked: seq<Seg>, unsent: seq<Seg>, lbb: int, lastack: int, nxt: int, max: int,
                     buf: U16, queuelen: nat, mss: nat)

  function Buffers(q: seq<Seg>): nat { if q == [] then 0 else q[0].clen + Buffers(q[1..]) }

  /** What an application or the stack asks to be sent: data, or a SYN or FIN; `clen` is the number of buffers
      per segment (one when data is copied or options are sent, else two) and `memory` the number of
      allocations that will succeed. */
  datatype Request = Request(data: seq<Byte>, syn: bool, fin: bool, clen: nat, memory: nat)

  /** Data is sent without SYN or FIN, and a SYN or FIN without data. */
  predicate ValidRequest(r: Request) { 0 < r.clen <= 2 && |r.data| < 0x1_0000 && (r.data == [] <==> r.syn || r.fin) }

  /** The segments for the data from position pos on. */
  function Chop(r: Request, pos: nat, seqno: int, mss: nat): (q: seq<Seg>)
    requires pos <= |r.data| && 0 < mss
    ensures q != []
    decreases |r.data| - pos
  {
    if |r.data| - pos <= mss then [Seg(seqno, r.data[pos..], r.syn, r.fin, r.clen)]
    else [Seg(seqno, r.data[pos..pos + mss], r.syn, r.fin, r.clen)] + Chop(r, pos + mss, seqno + mss, mss)
  }

  /** Put the new segments behind the unsent ones; the first joins the last unsent segment if it fits. */
  predicate Merges(unsent: seq<Seg>, first: Seg, mss: nat)
  {
    && unsent != []
    && var last := unsent[|unsent| - 1];
       TcpLen(last) != 0 && !IsCtl(last) && !IsCtl(first) && |last.data| + |first.data| <= mss
  }

  function Merged(last: Seg, first: Seg): Seg { last.(data := last.data + first.data, clen := last.clen + first.clen) }

  function Append(unsent: seq<Seg>, q: seq<Seg>, mss: nat): seq<Seg>
    requires q != []
  {
    if Merges(unsent, q[0], mss) then unsent[..|unsent| - 1] + [Merged(unsent[|unsent| - 1], q[0])] + q[1..]
    else unsent + q
  }

  /** The tests of tcp_enqueue: room in the send buffer, in the queue, and memory for every segment. */
  predicate Accepts(s: Snd, r: Request)
    requires 0 < s.mss
  {
    && |r.data| <= s.buf
    && s.queuelen < TCP_SND_QUEUELEN
    && var q := Chop(r, 0, s.lbb, s.mss);
       s.queuelen + Buffers(q) <= TCP_SND_QUEUELEN && |q| + Buffers(q) <= r.memory
  }

  /** tcp_enqueue; None is ERR_MEM. */
  function Enqueue(s: Snd, r: Request): (Snd, bool)
    requires 0 < s.mss
  {
    if !Accepts(s, r) then (s, false)
    else
      var q := Chop(r, 0, s.lbb, s.mss);
      var len := |r.data| + if r.syn || r.fin then 1 else 0;
      (s.(unsent := Append(s.unsent, q, s.mss), lbb := s.lbb + len, buf := Wrap16(s.buf - len),
          queuelen := s.queuelen + Buffers(q)), true)
  }

  /** The window test on the first unsent segment, in 32-bit arithmetic. */
  predicate Fits(lastack: int, seg: Seg, wnd: nat) { (seg.seqno - lastack + |seg.data|) % 0x1_0000_0000 <= wnd }

  /** Send the first unsent segment: it moves to the unacknowledged ones, to their head if it starts before
      the last of them. */
  function SendFirst(s: Snd): Snd
    requires s.unsent != []
  {
    var seg := s.unsent[0];
    s.(unsent := s.unsent[1..], nxt := End(seg), max := if s.max < End(seg) then End(seg) else s.max,
       unacked := if TcpLen(seg) == 0 then s.unacked
                  else if s.unacked != [] && seg.seqno < s.unacked[|s.unacked| - 1].seqno then [seg] + s.unacked
                  else s.unacked + [seg])
  }

  /** tcp_output: send while the window allows. Also the segments handed to IP, in order. */
  function Output(s: Snd, wnd: nat): (Snd, seq<Seg>)
    decreases |s.unsent|
  {
    if s.unsent == [] || !Fits(s.lastack, s.unsent[0], wnd) then (s, [])
    else
      var (t, sent) := Output(SendFirst(s), wnd);
      (t, [s.unsent[0]] + sent)
  }

  /** tcp_rexmit_rto: everything unacknowledged goes back in front of the unsent segments, and out again. */
  function RexmitRto(s: Snd, wnd: nat): (Snd, seq<Seg>)
  {
    if s.unacked == [] then (s, [])
    else Output(s.(unsent := s.unacked + s.unsent, unacked := [], nxt := s.unacked[0].seqno), wnd)
  }

  /** tcp_rexmit: the first unacknowledged segment goes to the head of the unsent ones. */
  function MoveFirst(s: Snd): Snd
  {
    if s.unacked == [] then s
    else s.(unsent := [s.unacked[0]] + s.unsent, unacked := s.unacked[1..], nxt := s.unacked[0].seqno)
  }

  /** The segments at the front that end at or before ackno, dropped. */
  function DropAcked(q: seq<Seg>, ackno: int): seq<Seg>
  {
    if q == [] || End(q[0]) > ackno then q else DropAcked(q[1..], ackno)
  }

  /** The loop over the unsent queue: snd_nxt follows the first segment left. */
  function DropUnsent(s: Snd, ackno: int): Snd
    requires Buffers(s.unsent) <= s.queuelen
    decreases |s.unsent|
  {
    if s.unsent == [] || !(End(s.unsent[0]) <= ackno <= s.max) then s
    else
      var rest := s.unsent[1..];
      DropUnsent(s.(unsent := rest, queuelen := s.queuelen - s.unsent[0].clen,
                    nxt := if rest != [] then rest[0].seqno else s.nxt), ackno)
  }

  /** The ACK part of tcp_receive. */
  function Ack(s: Snd, ackno: int): Snd
    requires Buffers(s.unacked) + Buffers(s.unsent) <= s.queuelen
  {
    var isNew := s.lastack + 1 <= ackno <= s.max;
    var rest := DropAcked(s.unacked, ackno);
    DroppedBuffers(s.unacked, ackno);
    var t := if isNew then s.(buf := Wrap16(s.buf + (ackno - s.lastack)), lastack := ackno, unacked := rest,
                              queuelen := s.queuelen - (Buffers(s.unacked) - Buffers(rest)))
             else s;
    DropUnsent(t, ackno)
  }

  lemma DroppedBuffers(q: seq<Seg>, ackno: int)
    ensures Buffers(DropAcked(q, ackno)) <= Buffers(q)
  {}

  // ----- the invariant -----

  datatype Octet = Data(b: Byte) | Ctl

  function Content(s: Seg): seq<Octet>
  {
    seq(|s.data|, i requires 0 <= i < |s.data| => Data(s.data[i])) + if IsCtl(s) then [Ctl] else []
  }

  function Contents(q: seq<Seg>): seq<Octet> { if q == [] then [] else Content(q[0]) + Contents(q[1..]) }

  /** The segments follow each other without gap from `start` to `end`, and none is empty. */
  ghost predicate Tiles(q: seq<Seg>, start: int, end: int)
  {
    if q == [] then start == end
    else q[0].seqno == start && 0 < TcpLen(q[0]) && Tiles(q[1..], End(q[0]), end)
  }

  /** `log` is every octet ever accepted for sending, the first with number `iss`. What is queued is the end
      of the log from the start of the first segment that is not wholly acknowledged. */
  ghost predicate Consistent(s: Snd, log: seq<Octet>, iss: int)
  {
    && 0 < s.mss
    && s.lbb == iss + |log|
    && var q := s.unacked + s.unsent;
       var start := if q == [] then s.lbb else q[0].seqno;
       && Tiles(q, start, s.lbb)
       && iss <= start <= s.lastack <= s.max <= s.lbb
       && (q != [] ==> s.lastack < End(q[0]))
       && (q == [] ==> s.lastack == s.lbb)
       && Contents(q) == log[start - iss..]
       && s.queuelen == Buffers(q)
       && s.buf == (TCP_SND_BUF - (s.lbb - s.lastack)) % 0x1_0000
  }

  lemma {:induction false} Joined(a: seq<Seg>, b: seq<Seg>, start: int, mid: int, end: int)
    requires Tiles(a, start, mid) && Tiles(b, mid, end)
    ensures Tiles(a + b, start, end)
  {
    if a == [] {
      assert a + b == b;
    } else {
      Joined(a[1..], b, End(a[0]), mid, end);
      assert (a + b)[1..] == a[1..] + b;
    }
  }

  lemma Cons(x: Seg, q: seq<Seg>, end: int)
    ensures Contents([x] + q) == Content(x) + Contents(q)
    ensures Buffers([x] + q) == x.clen + Buffers(q)
    ensures Tiles([x] + q, x.seqno, end) <==> 0 < TcpLen(x) && Tiles(q, End(x), end)
  {
    assert ([x] + q)[1..] == q;
  }

  lemma {:induction false} Sums(a: seq<Seg>, b: seq<Seg>)
    ensures Contents(a + b) == Contents(a) + Contents(b)
    ensures Buffers(a + b) == Buffers(a) + Buffers(b)
  {
    hide Content;
    if a == [] {
      assert a + b == b;
    } else {
      Sums(a[1..], b);
      assert (a + b)[1..] == a[1..] + b;
      Assoc3(Content(a[0]), Contents(a[1..]), Contents(b));
    }
  }

  /** Where a tiling is cut in two, both parts tile. */
  lemma {:induction false} Parted(a: seq<Seg>, b: seq<Seg>, start: int, end: int) returns (mid: int)
    requires Tiles(a + b, start, end)
    ensures Tiles(a, start, mid) && Tiles(b, mid, end)
    ensures b != [] ==> mid == b[0].seqno
    ensures b == [] ==> mid == end
    ensures a != [] ==> mid == End(a[|a| - 1])
  {
    if a == [] {
      assert a + b == b;
      mid := start;
    } else {
      assert (a + b)[1..] == a[1..] + b;
      mid := Parted(a[1..], b, End(a[0]), end);
    }
  }

  lemma {:induction false} TilesAdvance(q: seq<Seg>, start: int, end: int)
    requires Tiles(q, start, end)
    ensures start <= end && |Contents(q)| == end - start && (q != [] ==> start < end)
    ensures forall i | 0 <= i < |q| :: start <= q[i].seqno && End(q[i]) <= end
  {
    if q != [] {
      TilesAdvance(q[1..], End(q[0]), end);
      assert forall i | 1 <= i < |q| :: q[i] == q[1..][i - 1];
    }
  }

  // ----- tcp_enqueue -----

  /** The octets a request adds to the log. */
  function Wanted(r: Request): seq<Octet> { Content(Seg(0, r.data, r.syn, r.fin, r.clen)) }

  function WantedFrom(r: Request, pos: nat): seq<Octet>
    requires pos <= |r.data|
  {
    Content(Seg(0, r.data[pos..], r.syn, r.fin, r.clen))
  }

  lemma {:induction false} ChopTiles(r: Request, pos: nat, seqno: int, mss: nat)
    requires ValidRequest(r) && 0 < mss && pos <= |r.data| && (pos < |r.data| || r.data == [])
    ensures var q := Chop(r, pos, seqno, mss);
            && Tiles(q, seqno, seqno + |WantedFrom(r, pos)|)
            && Contents(q) == WantedFrom(r, pos)
            && forall i | 0 <= i < |q| :: |q[i].data| <= mss && IsCtl(q[i]) == (r.data == [])
    decreases |r.data| - pos
  {
    var q := Chop(r, pos, seqno, mss);
    if |r.data| - pos <= mss {
      assert q[1..] == [];
      assert Contents(q) == Content(q[0]) + [];
    } else {
      ChopTiles(r, pos + mss, seqno + mss, mss);
      var rest := Chop(r, pos + mss, seqno + mss, mss);
      assert q[1..] == rest;
      SplitWanted(r, pos, mss);
    }
  }

  lemma SplitWanted(r: Request, pos: nat, n: nat)
    requires pos + n < |r.data| && !r.syn && !r.fin
    ensures WantedFrom(r, pos) == Content(Seg(0, r.data[pos..pos + n], r.syn, r.fin, r.clen)) + WantedFrom(r, pos + n)
    ensures |WantedFrom(r, pos)| == |r.data| - pos
  {}

  lemma MergedContent(last: Seg, first: Seg)
    requires !IsCtl(last) && !IsCtl(first)
    ensures Content(Merged(last, first)) == Content(last) + Content(first)
    ensures TcpLen(Merged(last, first)) == TcpLen(last) + TcpLen(first)
  {}

  /** Appending keeps the tiling, whether the first new segment is merged into the last unsent one or not. */
  lemma AppendKeeps(a: seq<Seg>, q: seq<Seg>, mss: nat, start: int, mid: int, end: int)
    requires Tiles(a, start, mid) && Tiles(q, mid, end) && q != []
    ensures var r := Append(a, q, mss);
            Tiles(r, start, end) && Contents(r) == Contents(a) + Contents(q) && Buffers(r) == Buffers(a) + Buffers(q)
  {
    Joined(a, q, start, mid, end);
    Sums(a, q);
    if Merges(a, q[0], mss) {
      MergeKeeps(a, q, start, mid, end);
    }
  }

  lemma MergeKeeps(a: seq<Seg>, q: seq<Seg>, start: int, mid: int, end: int)
    requires Tiles(a, start, mid) && Tiles(q, mid, end) && a != [] && q != []
    requires !IsCtl(a[|a| - 1]) && !IsCtl(q[0])
    ensures var r := a[..|a| - 1] + [Merged(a[|a| - 1], q[0])] + q[1..];
            Tiles(r, start, end) && Contents(r) == Contents(a) + Contents(q) && Buffers(r) == Buffers(a) + Buffers(q)
  {
    var k := |a| - 1;
    var front, last, first, rest := a[..k], a[k], q[0], q[1..];
    assert a == front + [last] && q == [first] + rest;
    var m := Parted(front, [last], start, mid);
    assert a[..k] + [Merged(last, first)] + q[1..] == front + ([Merged(last, first)] + rest);
    MergeTiles(front, last, first, rest, start, m, mid, end);
    MergeSums(front, last, first, rest);
  }

  lemma MergeTiles(front: seq<Seg>, last: Seg, first: Seg, rest: seq<Seg>, start: int, m: int, mid: int, end: int)
    requires Tiles(front, start, m) && Tiles([last], m, mid) && Tiles([first] + rest, mid, end)
    requires !IsCtl(last) && !IsCtl(first)
    ensures Tiles(front + ([Merged(last, first)] + rest), start, end)
  {
    var both := Merged(last, first);
    assert first == ([first] + rest)[0] && [last][1..] == [];
    Cons(first, rest, end);
    Cons(both, rest, end);
    MergedContent(last, first);
    Joined(front, [both] + rest, start, m, end);
  }

  lemma MergeSums(front: seq<Seg>, last: Seg, first: Seg, rest: seq<Seg>)
    requires !IsCtl(last) && !IsCtl(first)
    ensures var r, a, q := front + ([Merged(last, first)] + rest), front + [last], [first] + rest;
            Contents(r) == Contents(a) + Contents(q) && Buffers(r) == Buffers(a) + Buffers(q)
  {
    var both := Merged(last, first);
    hide Tiles, Contents, Buffers, Content;
    MergedContent(last, first);
    Cons(first, rest, 0);
    Cons(both, rest, 0);
    Cons(last, [], 0);
    NoTiles(0, 0);
    assert [last] + [] == [last];
    Sums(front, [both] + rest);
    Sums(front, [last]);
    Assoc(Contents(front), Content(last), Content(first), Contents(rest));
  }

  lemma Assoc3<T>(a: seq<T>, b: seq<T>, c: seq<T>)
    ensures a + (b + c) == (a + b) + c
  {}

  lemma Assoc<T>(a: seq<T>, b: seq<T>, c: seq<T>, d: seq<T>)
    ensures a + ((b + c) + d) == (a + (b + [])) + (c + d)
  {}

  lemma NoTiles(start: int, end: int)
    ensures Tiles([], start, end) <==> start == end
    ensures Contents([]) == [] && Buffers([]) == 0
  {}

  /** tcp_enqueue adds the request to the end of what is queued, or changes nothing. */
  lemma EnqueueConsistent(s: Snd, r: Request, log: seq<Octet>, iss: int)
    requires Consistent(s, log, iss) && ValidRequest(r)
    ensures var (t, ok) := Enqueue(s, r);
            && (ok ==> Consistent(t, log + Wanted(r), iss))
            && (!ok ==> t == s)
            && (ok <==> Accepts(s, r))
  {
    if Accepts(s, r) {
      var q := Chop(r, 0, s.lbb, s.mss);
      ChopTiles(r, 0, s.lbb, s.mss);
      assert r.data[0..] == r.data;
      var t := Enqueue(s, r).0;
      AccountFor(s.lbb - s.lastack, |Wanted(r)|);
      hide Contents, Tiles, Chop, Append;
      GrowConsistent(s, t, q, log, Wanted(r), iss);
    }
  }

  lemma GrowConsistent(s: Snd, t: Snd, q: seq<Seg>, log: seq<Octet>, more: seq<Octet>, iss: int)
    requires Consistent(s, log, iss) && q != [] && Tiles(q, s.lbb, t.lbb) && Contents(q) == more
    requires t.unacked == s.unacked && t.unsent == Append(s.unsent, q, s.mss)
    requires t.lbb == s.lbb + |more| && t.queuelen == s.queuelen + Buffers(q)
    requires t.lastack == s.lastack && t.max == s.max && t.mss == s.mss
    requires t.buf == (TCP_SND_BUF - (t.lbb - t.lastack)) % 0x1_0000
    ensures Consistent(t, log + more, iss)
  {
    var all := s.unacked + s.unsent;
    var start := if all == [] then s.lbb else all[0].seqno;
    AppendHead(s.unacked, s.unsent, q, s.mss);
    TilesAdvance(all, start, s.lbb);
    TilesAdvance(q, s.lbb, t.lbb);
    LogGrows(log, more, start - iss);
    assert q[0].seqno == s.lbb;
    hide Contents, Buffers, Tiles, Append;
    QueueAppended(s.unacked, s.unsent, q, s.mss, start, s.lbb, t.lbb);
  }

  lemma LogGrows(log: seq<Octet>, more: seq<Octet>, k: nat)
    requires k <= |log|
    ensures (log + more)[k..] == log[k..] + more
  {}

  lemma AccountFor(inFlight: int, n: nat)
    ensures ((TCP_SND_BUF - inFlight) % 0x1_0000 - n) % 0x1_0000 == (TCP_SND_BUF - (inFlight + n)) % 0x1_0000
  {}

  /** The first queued segment keeps its start when something is appended, and does not end earlier. */
  lemma AppendHead(a: seq<Seg>, b: seq<Seg>, q: seq<Seg>, mss: nat)
    requires q != []
    ensures var r := a + Append(b, q, mss);
            && r != [] && (a + b == [] ==> r[0] == q[0])
            && (a + b != [] ==> r[0].seqno == (a + b)[0].seqno && End((a + b)[0]) <= End(r[0]))
  {}

  lemma QueueAppended(a: seq<Seg>, b: seq<Seg>, q: seq<Seg>, mss: nat, start: int, mid: int, end: int)
    requires Tiles(a + b, start, mid) && Tiles(q, mid, end) && q != []
    ensures var r := a + Append(b, q, mss);
            && Tiles(r, start, end) && Contents(r) == Contents(a + b) + Contents(q)
            && Buffers(r) == Buffers(a + b) + Buffers(q)
  {
    var m := Parted(a, b, start, mid);
    hide Contents, Buffers, Tiles, Append;
    AppendKeeps(b, q, mss, m, mid, end);
    Joined(a, Append(b, q, mss), start, m, end);
    Sums(a, b);
    Sums(a, Append(b, q, mss));
    Assoc3(Contents(a), Contents(b), Contents(q));
  }

  // ----- tcp_output and retransmission -----

  /** Every queued segment ends at or before snd_lbb, and those not yet sent start after those that were. */
  lemma QueueBounds(s: Snd, log: seq<Octet>, iss: int)
    requires Consistent(s, log, iss) && s.unsent != []
    ensures 0 < TcpLen(s.unsent[0]) && End(s.unsent[0]) <= s.lbb
    ensures s.unacked != [] ==> s.unacked[|s.unacked| - 1].seqno < s.unsent[0].seqno
  {
    var q := s.unacked + s.unsent;
    TilesAdvance(q, q[0].seqno, s.lbb);
    var mid := Parted(s.unacked, s.unsent, q[0].seqno, s.lbb);
    TilesAdvance(s.unsent, mid, s.lbb);
    if s.unacked != [] {
      var k := |s.unacked| - 1;
      assert s.unacked == s.unacked[..k] + [s.unacked[k]];
      var m := Parted(s.unacked[..k], [s.unacked[k]], q[0].seqno, mid);
    }
  }

  lemma SendConsistent(s: Snd, log: seq<Octet>, iss: int)
    requires Consistent(s, log, iss) && s.unsent != []
    ensures var t := SendFirst(s);
            && t == s.(unacked := s.unacked + [s.unsent[0]], unsent := s.unsent[1..], nxt := t.nxt, max := t.max)
            && Consistent(t, log, iss)
  {
    QueueBounds(s, log, iss);
    var t := SendFirst(s);
    assert t.unacked == s.unacked + [s.unsent[0]];
    assert t.unacked + t.unsent == s.unacked + s.unsent;
  }

  /** tcp_output transmits a prefix of the unsent segments, all of which fit the window, and moves exactly
      these to the unacknowledged ones; it stops only where the window ends. */
  lemma {:induction false} OutputConsistent(s: Snd, wnd: nat, log: seq<Octet>, iss: int)
    requires Consistent(s, log, iss)
    ensures var (t, sent) := Output(s, wnd);
            && Consistent(t, log, iss)
            && s.unsent == sent + t.unsent && t.unacked == s.unacked + sent
            && (forall i | 0 <= i < |sent| :: Fits(s.lastack, sent[i], wnd))
            && (t.unsent != [] ==> !Fits(s.lastack, t.unsent[0], wnd))
            && t == s.(unacked := t.unacked, unsent := t.unsent, nxt := t.nxt, max := t.max)
    decreases |s.unsent|
  {
    hide Consistent, SendFirst, Fits;
    if s.unsent != [] && Fits(s.lastack, s.unsent[0], wnd) {
      SendConsistent(s, log, iss);
      var u := SendFirst(s);
      OutputConsistent(u, wnd, log, iss);
      var (t, sent) := Output(u, wnd);
      assert s.unsent == [s.unsent[0]] + u.unsent;
      Assoc3([s.unsent[0]], sent, t.unsent);
      Assoc3(s.unacked, [s.unsent[0]], sent);
      assert forall i | 1 <= i < 1 + |sent| :: ([s.unsent[0]] + sent)[i] == sent[i - 1];
    } else {
      assert s.unsent == [] + s.unsent && s.unacked == s.unacked + [];
    }
  }

  /** With less than half the number space in flight, a segment that passes the test ends inside the window. */
  lemma FitsWindow(s: Snd, i: nat, wnd: nat, log: seq<Octet>, iss: int)
    requires Consistent(s, log, iss) && s.lbb - s.lastack < 0x8000_0000 && i < |s.unsent|
    ensures Fits(s.lastack, s.unsent[i], wnd) <==> s.unsent[i].seqno + |s.unsent[i].data| <= s.lastack + wnd
  {
    var q := s.unacked + s.unsent;
    var k := |s.unacked| + i;
    TilesAdvance(q, q[0].seqno, s.lbb);
    if k > 0 {
      assert q == [q[0]] + q[1..];
      TilesAdvance(q[1..], End(q[0]), s.lbb);
      assert q[1..][k - 1] == s.unsent[i];
    }
    assert q[k] == s.unsent[i];
  }

  /** A timeout puts everything unacknowledged back in order and sends it again. */
  lemma RexmitRtoConsistent(s: Snd, wnd: nat, log: seq<Octet>, iss: int)
    requires Consistent(s, log, iss)
    ensures var (t, sent) := RexmitRto(s, wnd);
            && Consistent(t, log, iss) && t.unacked + t.unsent == s.unacked + s.unsent
            && (s.unacked != [] ==> t.unacked == sent)
  {
    if s.unacked != [] {
      var u := s.(unsent := s.unacked + s.unsent, unacked := [], nxt := s.unacked[0].seqno);
      assert u.unacked + u.unsent == s.unacked + s.unsent;
      assert Consistent(u, log, iss);
      hide Consistent;
      OutputConsistent(u, wnd, log, iss);
      var (t, sent) := Output(u, wnd);
      assert [] + sent == sent;
    }
  }

  /** A fast retransmit followed by tcp_output. */
  function FastRexmit(s: Snd, wnd: nat): (Snd, seq<Seg>) { Output(MoveFirst(s), wnd) }

  /** A fast retransmit keeps the queues in order exactly when the moved segment was the only unacknowledged
      one or fits the window; it is then the first segment sent. */
  lemma FastRexmitConsistent(s: Snd, wnd: nat, log: seq<Octet>, iss: int)
    requires Consistent(s, log, iss)
    ensures var (t, sent) := FastRexmit(s, wnd);
            var safe := |s.unacked| <= 1 || Fits(s.lastack, s.unacked[0], wnd);
            && (Consistent(t, log, iss) <==> safe)
            && (safe ==> t.unacked + t.unsent == s.unacked + s.unsent)
            && (s.unacked != [] && Fits(s.lastack, s.unacked[0], wnd) ==> sent != [] && sent[0] == s.unacked[0])
  {
    if |s.unacked| <= 1 {
      MoveOnly(s, log, iss);
      hide Consistent, Fits, MoveFirst;
      KeepsQueue(MoveFirst(s), wnd, log, iss);
    } else if Fits(s.lastack, s.unacked[0], wnd) {
      ResendFirst(s, log, iss);
      hide Consistent, Fits;
      KeepsQueue(SendFirst(MoveFirst(s)), wnd, log, iss);
    } else {
      Blocked(s, log, iss);
    }
  }

  lemma KeepsQueue(s: Snd, wnd: nat, log: seq<Octet>, iss: int)
    requires Consistent(s, log, iss)
    ensures var (t, sent) := Output(s, wnd); Consistent(t, log, iss) && t.unacked + t.unsent == s.unacked + s.unsent
  {
    hide Consistent, Fits;
    OutputConsistent(s, wnd, log, iss);
    var (t, sent) := Output(s, wnd);
    Assoc3(s.unacked, sent, t.unsent);
  }

  lemma MoveOnly(s: Snd, log: seq<Octet>, iss: int)
    requires Consistent(s, log, iss) && |s.unacked| <= 1
    ensures var m := MoveFirst(s); Consistent(m, log, iss) && m.unacked + m.unsent == s.unacked + s.unsent
    ensures s.unacked != [] ==> MoveFirst(s).unsent != [] && MoveFirst(s).unsent[0] == s.unacked[0]
  {
    var m := MoveFirst(s);
    assert m.unacked + m.unsent == s.unacked + s.unsent;
  }

  lemma FirstBeforeLast(s: Snd, log: seq<Octet>, iss: int)
    requires Consistent(s, log, iss) && 2 <= |s.unacked|
    ensures var u := s.unacked; u[0].seqno < u[1].seqno && u[0].seqno < u[|u| - 1].seqno && End(u[0]) <= s.lbb
  {
    var q := s.unacked + s.unsent;
    TilesAdvance(q, q[0].seqno, s.lbb);
    assert q == [q[0]] + q[1..];
    TilesAdvance(q[1..], End(q[0]), s.lbb);
    assert q[1..][0] == s.unacked[1] && q[1..][|s.unacked| - 2] == s.unacked[|s.unacked| - 1];
  }

  lemma ResendFirst(s: Snd, log: seq<Octet>, iss: int)
    requires Consistent(s, log, iss) && 2 <= |s.unacked|
    ensures var r := SendFirst(MoveFirst(s));
            r.unacked == s.unacked && r.unsent == s.unsent && Consistent(r, log, iss)
  {
    FirstBeforeLast(s, log, iss);
    var m := MoveFirst(s);
    assert m.unsent[1..] == s.unsent;
    assert m.unacked[|m.unacked| - 1] == s.unacked[|s.unacked| - 1];
    assert [s.unacked[0]] + m.unacked == s.unacked;
  }

  lemma Blocked(s: Snd, log: seq<Octet>, iss: int)
    requires Consistent(s, log, iss) && 2 <= |s.unacked|
    ensures !Consistent(MoveFirst(s), log, iss)
  {
    FirstBeforeLast(s, log, iss);
    var m := MoveFirst(s);
    assert m.unacked[|m.unacked| - 1] == s.unacked[|s.unacked| - 1];
    if Consistent(m, log, iss) {
      QueueBounds(m, log, iss);
    }
  }

  // ----- acknowledgements -----

  lemma {:induction false} DropAckedTiles(q: seq<Seg>, start: int, end: int, ackno: int)
    requires Tiles(q, start, end) && |Contents(q)| == end - start
    ensures var r := DropAcked(q, ackno);
            var from := if r == [] then end else r[0].seqno;
            && Tiles(r, from, end) && start <= from <= end && Contents(r) == Contents(q)[from - start..]
            && (start <= ackno ==> from <= ackno)
            && (r != [] ==> ackno < End(r[0]))
            && (forall i | 0 <= i < |r| :: ackno < End(r[i]))
  {
    if q == [] {
    } else if End(q[0]) > ackno {
      TilesAdvance(q[1..], End(q[0]), end);
      TilesAdvance(q, start, end);
      assert forall i | 1 <= i < |q| :: q[i] == q[1..][i - 1];
    } else {
      TilesAdvance(q[1..], End(q[0]), end);
      DropAckedTiles(q[1..], End(q[0]), end, ackno);
      assert Contents(q)[TcpLen(q[0])..] == Contents(q[1..]);
    }
  }

  lemma {:induction false} DropAckedJoined(a: seq<Seg>, b: seq<Seg>, ackno: int)
    ensures var r := DropAcked(a, ackno);
            DropAcked(a + b, ackno) == if r == [] then DropAcked(b, ackno) else r + b
  {
    if a == [] {
      assert a + b == b;
    } else {
      assert (a + b)[1..] == a[1..] + b;
      if End(a[0]) <= ackno { DropAckedJoined(a[1..], b, ackno); }
    }
  }

  lemma {:induction false} DropUnsentIs(s: Snd, ackno: int)
    requires Buffers(s.unsent) <= s.queuelen
    ensures var t := DropUnsent(s, ackno);
            var r := if ackno <= s.max then DropAcked(s.unsent, ackno) else s.unsent;
            t == s.(unsent := r, nxt := t.nxt, queuelen := s.queuelen - (Buffers(s.unsent) - Buffers(r)))
    decreases |s.unsent|
  {
    if s.unsent != [] && End(s.unsent[0]) <= ackno <= s.max {
      var rest := s.unsent[1..];
      DropUnsentIs(s.(unsent := rest, queuelen := s.queuelen - s.unsent[0].clen,
                      nxt := if rest != [] then rest[0].seqno else s.nxt), ackno);
    }
  }

  /** An acknowledgement of sent octets drops exactly the segments that end at or before it, from both queues;
      any other acknowledgement changes nothing. */
  lemma AckDrops(s: Snd, ackno: int, log: seq<Octet>, iss: int)
    requires Consistent(s, log, iss)
    ensures Buffers(s.unacked) + Buffers(s.unsent) <= s.queuelen
    ensures var t := Ack(s, ackno);
            var q := s.unacked + s.unsent;
            var r := if ackno <= s.max then DropAcked(q, ackno) else q;
            && t.unacked + t.unsent == r && t.queuelen == Buffers(r)
            && t.lastack == (if s.lastack < ackno <= s.max then ackno else s.lastack)
            && t.buf == (TCP_SND_BUF - (s.lbb - t.lastack)) % 0x1_0000
            && t.lbb == s.lbb && t.max == s.max && t.mss == s.mss
  {
    hide Consistent, Tiles, Contents, DropAcked, DropUnsent, Wrap16, Buffers;
    Sums(s.unacked, s.unsent);
    Facts(s, log, iss);
    DroppedBuffers(s.unacked, ackno);
    var q := s.unacked + s.unsent;
    if ackno <= s.lastack {
      StaysUnacked(s, log, iss);
      NothingAcked(q, ackno);
      NothingAcked(s.unsent, ackno);
      DropUnsentIs(s, ackno);
    } else if ackno <= s.max {
      var start := if q == [] then s.lbb else q[0].seqno;
      var mid := Parted(s.unacked, s.unsent, start, s.lbb);
      AckSplit(s.unacked, s.unsent, start, mid, s.lbb, ackno);
      WrapIs(s.buf + (ackno - s.lastack));
      AckAccount(s.lbb - s.lastack, ackno - s.lastack);
      var rest := DropAcked(s.unacked, ackno);
      var t := s.(buf := Wrap16(s.buf + (ackno - s.lastack)), lastack := ackno, unacked := rest,
                  queuelen := s.queuelen - (Buffers(s.unacked) - Buffers(rest)));
      DropUnsentIs(t, ackno);
      Sums(rest, DropAcked(s.unsent, ackno));
    } else {
      DropUnsentIs(s, ackno);
    }
  }

  lemma WrapIs(x: int)
    ensures Wrap16(x) == x % 0x1_0000
  {}

  lemma Facts(s: Snd, log: seq<Octet>, iss: int)
    requires Consistent(s, log, iss)
    ensures var q := s.unacked + s.unsent;
            var start := if q == [] then s.lbb else q[0].seqno;
            && Tiles(q, start, s.lbb) && iss <= start <= s.lastack <= s.max <= s.lbb && s.queuelen == Buffers(q)
            && s.buf == (TCP_SND_BUF - (s.lbb - s.lastack)) % 0x1_0000
  {}

  /** Nothing that is queued is wholly acknowledged. */
  lemma StaysUnacked(s: Snd, log: seq<Octet>, iss: int)
    requires Consistent(s, log, iss)
    ensures s.unacked + s.unsent != [] ==> s.lastack < End((s.unacked + s.unsent)[0])
    ensures s.unsent != [] ==> s.lastack < End(s.unsent[0])
  {
    if s.unsent != [] {
      var q := s.unacked + s.unsent;
      assert q == [q[0]] + q[1..];
      if s.unacked != [] {
        TilesAdvance(q[1..], End(q[0]), s.lbb);
        assert q[1..][|s.unacked| - 1] == s.unsent[0];
        QueueBounds(s, log, iss);
      }
    }
  }

  lemma AckSplit(a: seq<Seg>, b: seq<Seg>, start: int, mid: int, end: int, ackno: int)
    requires Tiles(a, start, mid) && Tiles(b, mid, end)
    ensures DropAcked(a + b, ackno) == DropAcked(a, ackno) + DropAcked(b, ackno)
    ensures Buffers(DropAcked(a, ackno)) <= Buffers(a)
  {
    TilesAdvance(a, start, mid);
    TilesAdvance(b, mid, end);
    DropAckedTiles(a, start, mid, ackno);
    DroppedBuffers(a, ackno);
    DropAckedJoined(a, b, ackno);
    if DropAcked(a, ackno) != [] { NothingAcked(b, ackno); }
  }

  lemma AckAccount(inFlight: int, n: int)
    ensures ((TCP_SND_BUF - inFlight) % 0x1_0000 + n) % 0x1_0000 == (TCP_SND_BUF - (inFlight - n)) % 0x1_0000
  {}

  lemma NothingAcked(q: seq<Seg>, ackno: int)
    requires q != [] ==> ackno < End(q[0])
    ensures DropAcked(q, ackno) == q
  {}

  lemma AckConsistent(s: Snd, ackno: int, log: seq<Octet>, iss: int)
    requires Consistent(s, log, iss)
    ensures Buffers(s.unacked) + Buffers(s.unsent) <= s.queuelen
    ensures Consistent(Ack(s, ackno), log, iss)
  {
    hide Ack, DropUnsent, Wrap16, Buffers, Contents, Consistent, DropAcked, Tiles;
    AckDrops(s, ackno, log, iss);
    Facts(s, log, iss);
    var q := s.unacked + s.unsent;
    var start := if q == [] then s.lbb else q[0].seqno;
    TilesAdvance(q, start, s.lbb);
    StaysUnacked(s, log, iss);
    Empty(s, log, iss);
    var t := Ack(s, ackno);
    if s.lastack < ackno <= s.max {
      DropAckedTiles(q, start, s.lbb, ackno);
      var r := DropAcked(q, ackno);
      ShrinkConsistent(s, t, start, if r == [] then s.lbb else r[0].seqno, log, iss);
    } else {
      if ackno <= s.lastack { NothingAcked(q, ackno); }
      assert Contents(q)[0..] == Contents(q);
      ShrinkConsistent(s, t, start, start, log, iss);
    }
  }

  lemma Empty(s: Snd, log: seq<Octet>, iss: int)
    requires Consistent(s, log, iss)
    ensures s.unacked + s.unsent == [] ==> s.lastack == s.lbb
  {}

  lemma ShrinkConsistent(s: Snd, t: Snd, start: int, from: int, log: seq<Octet>, iss: int)
    requires Consistent(s, log, iss)
    requires var q, r := s.unacked + s.unsent, t.unacked + t.unsent;
             && start == (if q == [] then s.lbb else q[0].seqno) && from == (if r == [] then s.lbb else r[0].seqno)
             && |Contents(q)| == s.lbb - start && start <= from <= s.lbb
             && Tiles(r, from, s.lbb) && Contents(r) == Contents(q)[from - start..] && t.queuelen == Buffers(r)
             && (r != [] ==> t.lastack < End(r[0])) && (r == [] ==> t.lastack == s.lbb)
    requires t.lbb == s.lbb && t.max == s.max && t.mss == s.mss && from <= t.lastack <= s.max
    requires t.buf == (TCP_SND_BUF - (s.lbb - t.lastack)) % 0x1_0000
    ensures Consistent(t, log, iss)
  {
    hide Tiles, Contents, Buffers;
    LogSuffix(log, start - iss, from - start);
  }

  lemma LogSuffix(log: seq<Octet>, a: nat, b: nat)
    requires a + b <= |log|
    ensures log[a..][b..] == log[a + b..]
  {}

  /** The SYN_SENT case of tcp_process: the SYN at the head of the queue is acknowledged. */
  function SynAck(s: Snd, ackno: int): Snd
  {
    if s.unacked == [] || ackno != s.unacked[0].seqno + 1 || s.queuelen == 0 then s
    else s.(buf := Wrap16(s.buf + 1), lastack := ackno, queuelen := s.queuelen - 1, unacked := s.unacked[1..])
  }

  /** It has the effect of the general acknowledgement, provided that what heads the queue is an unacknowledged
      SYN in one buffer. */
  lemma SynAckIsAck(s: Snd, ackno: int, log: seq<Octet>, iss: int)
    requires Consistent(s, log, iss) && ackno <= s.max
    requires s.unacked != [] && s.unacked[0].syn && s.unacked[0].data == [] && s.unacked[0].clen == 1
    requires s.lastack == s.unacked[0].seqno && ackno == s.lastack + 1
    ensures Buffers(s.unacked) + Buffers(s.unsent) <= s.queuelen
    ensures var t := SynAck(s, ackno); t.(nxt := 0) == Ack(s, ackno).(nxt := 0) && Consistent(t, log, iss)
  {
    hide Ack, DropUnsent, SynAck, Contents;
    AckConsistent(s, ackno, log, iss);
    SynHead(s, ackno, log, iss);
    SynAckState(s, ackno);
    NextIsFree(Ack(s, ackno), SynAck(s, ackno), log, iss);
  }

  lemma NextIsFree(s: Snd, t: Snd, log: seq<Octet>, iss: int)
    requires Consistent(s, log, iss) && s.(nxt := 0) == t.(nxt := 0)
    ensures Consistent(t, log, iss)
  {
    hide Tiles, Contents, Buffers;
    assert t == s.(nxt := t.nxt);
  }

  lemma SynHead(s: Snd, ackno: int, log: seq<Octet>, iss: int)
    requires Consistent(s, log, iss) && ackno <= s.max
    requires s.unacked != [] && s.unacked[0].syn && s.unacked[0].data == [] && s.unacked[0].clen == 1
    requires s.lastack == s.unacked[0].seqno && ackno == s.lastack + 1
    ensures Buffers(s.unacked) + Buffers(s.unsent) <= s.queuelen && 0 < s.queuelen
    ensures DropAcked(s.unacked, ackno) == s.unacked[1..] && DropAcked(s.unsent, ackno) == s.unsent
    ensures Buffers(s.unacked) - Buffers(s.unacked[1..]) == 1
  {
    hide Contents;
    Sums(s.unacked, s.unsent);
    var q := s.unacked + s.unsent;
    assert q == [q[0]] + q[1..];
    TilesAdvance(q[1..], End(q[0]), s.lbb);
    var rest := s.unacked[1..];
    assert q[1..] == rest + s.unsent;
    if rest != [] { assert q[1..][0] == rest[0]; }
    NothingAcked(rest, ackno);
    if s.unsent != [] { QueueBounds(s, log, iss); assert q[1..][|rest|] == s.unsent[0]; }
    NothingAcked(s.unsent, ackno);
    assert DropAcked(s.unacked, ackno) == rest;
  }

  lemma SynAckState(s: Snd, ackno: int)
    requires s.unacked != [] && ackno == s.unacked[0].seqno + 1 && s.lastack + 1 == ackno <= s.max && 0 < s.queuelen
    requires Buffers(s.unacked) + Buffers(s.unsent) <= s.queuelen
    requires DropAcked(s.unacked, ackno) == s.unacked[1..] && Buffers(s.unacked) - Buffers(s.unacked[1..]) == 1
    requires DropAcked(s.unsent, ackno) == s.unsent
    ensures SynAck(s, ackno).(nxt := 0) == Ack(s, ackno).(nxt := 0)
  {
    hide Tiles, Contents, Buffers, DropAcked, DropUnsent, Wrap16;
    var t := SynAck(s, ackno);
    DropUnsentIs(t, ackno);
  }

  // ----- send buffer accounting -----

  /** What is in flight or queued never exceeds the send buffer. */
  predicate WithinBuffer(s: Snd) { s.lbb - s.lastack <= TCP_SND_BUF }

  /** Then snd_buf is exactly the space left. */
  lemma BufferExact(s: Snd, log: seq<Octet>, iss: int)
    requires Consistent(s, log, iss)
    ensures WithinBuffer(s) <==> s.buf + (s.lbb - s.lastack) == TCP_SND_BUF
  {
    hide Tiles, Contents, Buffers;
    SmallRemainder(TCP_SND_BUF - (s.lbb - s.lastack));
  }

  lemma SmallRemainder(x: int)
    requires x < 0x1_0000
    ensures x % 0x1_0000 == x <==> 0 <= x
  {}

  /** Queueing keeps it so except for a SYN or FIN when no space is left, which turns snd_buf into 0xffff. */
  lemma EnqueueWithinBuffer(s: Snd, r: Request, log: seq<Octet>, iss: int)
    requires Consistent(s, log, iss) && WithinBuffer(s) && ValidRequest(r) && Accepts(s, r)
    ensures var t := Enqueue(s, r).0;
            && (WithinBuffer(t) <==> !(s.buf == 0 && r.data == []))
            && (s.buf == 0 && r.data == [] ==> t.buf == 0xffff)
  {
    BufferExact(s, log, iss);
  }

  lemma {:induction false} OutputNumbers(s: Snd, wnd: nat)
    ensures Output(s, wnd).0.lbb == s.lbb && Output(s, wnd).0.lastack == s.lastack
    decreases |s.unsent|
  {
    hide Fits;
    if s.unsent != [] && Fits(s.lastack, s.unsent[0], wnd) { OutputNumbers(SendFirst(s), wnd); }
  }

  /** New data that is merged into the segment a blocked fast retransmit left alone in the unsent queue is
      numbered from the end of that old segment instead of from snd_lbb. */
  lemma MergedIntoRetransmission(s: Snd, r: Request, log: seq<Octet>, iss: int)
    requires Consistent(s, log, iss) && 2 <= |s.unacked| && s.unsent == [] && !IsCtl(s.unacked[0])
    requires ValidRequest(r) && r.data != [] && Accepts(MoveFirst(s), r)
    requires |s.unacked[0].data| + |r.data| <= s.mss
    ensures var first := s.unacked[0];
            var t := Enqueue(MoveFirst(s), r).0;
            && t.unsent == [Seg(first.seqno, first.data + r.data, false, false, first.clen + r.clen)]
            && End(first) < s.lbb && t.lbb == s.lbb + |r.data|
  {
    FirstBeforeLast(s, log, iss);
    var q := s.unacked + s.unsent;
    TilesAdvance(q, q[0].seqno, s.lbb);
    assert q == [q[0]] + q[1..];
    TilesAdvance(q[1..], End(q[0]), s.lbb);
    assert r.data[0..] == r.data;
  }

  // ----- whole runs -----

  datatype Step = Write(r: Request) | Send(wnd: nat) | Timeout(wnd: nat) | DupAcks(wnd: nat) | AckSegment(ackno: int)

  /** A step the theorem covers: a fast retransmit must be followed by an output that sends the moved segment. */
  predicate Covered(s: Snd, step: Step)
  {
    match step
    case Write(r) => ValidRequest(r)
    case DupAcks(wnd) => |s.unacked| <= 1 || Fits(s.lastack, s.unacked[0], wnd)
    case _ => true
  }

  /** One step, and the log of octets accepted for sending after it. */
  ghost function Next(s: Snd, log: seq<Octet>, iss: int, step: Step): (Snd, seq<Octet>)
    requires Consistent(s, log, iss)
  {
    match step
    case Write(r) => var (t, ok) := Enqueue(s, r); (t, if ok then log + Wanted(r) else log)
    case Send(wnd) => (Output(s, wnd).0, log)
    case Timeout(wnd) => (RexmitRto(s, wnd).0, log)
    case DupAcks(wnd) => (FastRexmit(s, wnd).0, log)
    case AckSegment(ackno) => AckConsistent(s, ackno, log, iss); (Ack(s, ackno), log)
  }

  lemma NextConsistent(s: Snd, log: seq<Octet>, iss: int, step: Step)
    requires Consistent(s, log, iss) && Covered(s, step)
    ensures var (t, log') := Next(s, log, iss, step); Consistent(t, log', iss) && log <= log'
  {
    hide Consistent, Enqueue, Ack, Output;
    match step
    case Write(r) => EnqueueConsistent(s, r, log, iss);
    case Send(wnd) => OutputConsistent(s, wnd, log, iss);
    case Timeout(wnd) => RexmitRtoConsistent(s, wnd, log, iss);
    case DupAcks(wnd) => FastRexmitConsistent(s, wnd, log, iss);
    case AckSegment(ackno) => AckConsistent(s, ackno, log, iss);
  }

  ghost predicate CoveredRun(s: Snd, log: seq<Octet>, iss: int, steps: seq<Step>)
    requires Consistent(s, log, iss)
    decreases |steps|
  {
    steps == []
    || (Covered(s, steps[0])
        && (hide Consistent, Next;
            NextConsistent(s, log, iss, steps[0]);
            var (t, log') := Next(s, log, iss, steps[0]);
            CoveredRun(t, log', iss, steps[1..])))
  }

  ghost function RunSteps(s: Snd, log: seq<Octet>, iss: int, steps: seq<Step>): (Snd, seq<Octet>)
    requires Consistent(s, log, iss) && CoveredRun(s, log, iss, steps)
    decreases |steps|
  {
    if steps == [] then (s, log)
    else
      hide Consistent, Next;
      NextConsistent(s, log, iss, steps[0]);
      var (t, log') := Next(s, log, iss, steps[0]);
      RunSteps(t, log', iss, steps[1..])
  }

  /** tcp_alloc: nothing sent, nothing queued. */
  function NewSnd(iss: int, mss: nat): Snd { Snd([], [], iss, iss, iss, iss, TCP_SND_BUF, 0, mss) }

  /** From a new connection on, over every run: the queues hold exactly the accepted octets from the first
      segment not wholly acknowledged to snd_lbb, in order, and the counters match them. */
  lemma {:induction false} RunConsistent(s: Snd, log: seq<Octet>, iss: int, steps: seq<Step>)
    requires Consistent(s, log, iss) && CoveredRun(s, log, iss, steps)
    ensures var (t, log') := RunSteps(s, log, iss, steps);
            && Consistent(t, log', iss) && log <= log'
            && (t.lastack == t.lbb ==> t.unacked == [] && t.unsent == [])
    decreases |steps|
  {
    hide Next;
    if steps != [] {
      NextConsistent(s, log, iss, steps[0]);
      var (t, log') := Next(s, log, iss, steps[0]);
      hide Consistent;
      RunConsistent(t, log', iss, steps[1..]);
    } else if s.lastack == s.lbb {
      AllAcked(s, log, iss);
    }
  }

  /** A SYN or FIN is accepted though snd_buf is 0: the one step that takes more than the buffer holds. */
  predicate Overflows(s: Snd, step: Step)
    requires 0 < s.mss
  {
    match step
    case Write(r) => s.buf == 0 && r.data == [] && Accepts(s, r)
    case _ => false
  }

  lemma NextWithinBuffer(s: Snd, log: seq<Octet>, iss: int, step: Step)
    requires Consistent(s, log, iss) && Covered(s, step) && WithinBuffer(s)
    ensures WithinBuffer(Next(s, log, iss, step).0) <==> !Overflows(s, step)
  {
    hide Output, Ack, Tiles, Contents, Fits;
    match step
    case Write(r) => if Accepts(s, r) { EnqueueWithinBuffer(s, r, log, iss); }
    case Send(wnd) => OutputNumbers(s, wnd);
    case Timeout(wnd) =>
      if s.unacked != [] {
        OutputNumbers(s.(unsent := s.unacked + s.unsent, unacked := [], nxt := s.unacked[0].seqno), wnd);
      }
    case DupAcks(wnd) => OutputNumbers(MoveFirst(s), wnd);
    case AckSegment(ackno) =>
      AckConsistent(s, ackno, log, iss);
      AckDrops(s, ackno, log, iss);
  }

  /** In every state of a run snd_buf is the space that what is in flight or queued leaves of the buffer. */
  ghost predicate ExactThroughout(s: Snd, log: seq<Octet>, iss: int, steps: seq<Step>)
    requires Consistent(s, log, iss) && CoveredRun(s, log, iss, steps)
    decreases |steps|
  {
    && s.buf + (s.lbb - s.lastack) == TCP_SND_BUF
    && (steps != [] ==>
          (hide Consistent, Next;
           NextConsistent(s, log, iss, steps[0]);
           var (t, log') := Next(s, log, iss, steps[0]);
           ExactThroughout(t, log', iss, steps[1..])))
  }

  ghost predicate NeverOverflows(s: Snd, log: seq<Octet>, iss: int, steps: seq<Step>)
    requires Consistent(s, log, iss) && CoveredRun(s, log, iss, steps)
    decreases |steps|
  {
    steps != [] ==>
      && !Overflows(s, steps[0])
      && (hide Consistent, Next;
          NextConsistent(s, log, iss, steps[0]);
          var (t, log') := Next(s, log, iss, steps[0]);
          NeverOverflows(t, log', iss, steps[1..]))
  }

  /** Send accounting over every run: it is exact all the way if and only if no SYN or FIN is accepted at snd_buf 0. */
  lemma {:induction false} RunBufferExact(s: Snd, log: seq<Octet>, iss: int, steps: seq<Step>)
    requires Consistent(s, log, iss) && CoveredRun(s, log, iss, steps) && WithinBuffer(s)
    ensures ExactThroughout(s, log, iss, steps) <==> NeverOverflows(s, log, iss, steps)
    decreases |steps|
  {
    BufferExact(s, log, iss);
    hide Next, WithinBuffer, Overflows;
    if steps != [] {
      NextConsistent(s, log, iss, steps[0]);
      NextWithinBuffer(s, log, iss, steps[0]);
      var (t, log') := Next(s, log, iss, steps[0]);
      hide Consistent;
      if WithinBuffer(t) {
        RunBufferExact(t, log', iss, steps[1..]);
      } else {
        BufferExact(t, log', iss);
      }
    }
  }

  /** It happens: a full buffer of data and then a FIN. */
  lemma FinAfterFullBuffer(iss: int, data: seq<Byte>)
    requires |data| == TCP_SND_BUF
    ensures var (s, ok) := Enqueue(NewSnd(iss, TCP_MSS), Request(data, false, false, 2, 6));
            var (t, fin) := Enqueue(s, Request([], false, true, 1, 2));
            ok && s.buf == 0 && fin && t.buf == 0xffff && t.lbb - t.lastack == TCP_SND_BUF + 1
  {
    var r := Request(data, false, false, 2, 6);
    var f := Request([], false, true, 1, 2);
    TwoSegments(r, iss);
    hide Buffers, Chop, Append;
    var s := Enqueue(NewSnd(iss, TCP_MSS), r).0;
    assert s.buf == 0 && s.queuelen == 4;
    OneSegment(f, s.lbb);
  }

  lemma TwoSegments(r: Request, seqno: int)
    requires |r.data| == TCP_SND_BUF && r.clen == 2
    ensures |Chop(r, 0, seqno, TCP_MSS)| == 2 && Buffers(Chop(r, 0, seqno, TCP_MSS)) == 4
  {
    var q := Chop(r, TCP_MSS, seqno + TCP_MSS, TCP_MSS);
    assert q == [Seg(seqno + TCP_MSS, r.data[TCP_MSS..], r.syn, r.fin, 2)];
    Cons(Seg(seqno, r.data[0..TCP_MSS], r.syn, r.fin, 2), q, 0);
    Cons(q[0], [], 0);
    assert [q[0]] + [] == q;
  }

  lemma OneSegment(r: Request, seqno: int)
    requires r.data == [] && r.clen == 1
    ensures |Chop(r, 0, seqno, TCP_MSS)| == 1 && Buffers(Chop(r, 0, seqno, TCP_MSS)) == 1
  {
    var x := Seg(seqno, r.data[0..], r.syn, r.fin, 1);
    Cons(x, [], 0);
    assert Chop(r, 0, seqno, TCP_MSS) == [x] == [x] + [];
  }

  lemma AllAcked(s: Snd, log: seq<Octet>, iss: int)
    requires Consistent(s, log, iss) && s.lastack == s.lbb
    ensures s.unacked == [] && s.unsent == []
  {
    var q := s.unacked + s.unsent;
    if q != [] { TilesAdvance(q, q[0].seqno, s.lbb); }
  }

  lemma NewConsistent(iss: int, mss: nat)
    requires 0 < mss
    ensures Consistent(NewSnd(iss, mss), [], iss)
  {}

  /** tcp_connect on a new block: a new initial number `isn`; snd_max stays where tcp_alloc put it. */
  function Connecting(s: Snd, isn: int): Snd { s.(nxt := isn, lastack := isn - 1, lbb := isn - 1, mss := TCP_MSS) }

  /** The block is not in order until the SYN has been queued and sent; then it is, if and only if the new initial number
      is not before the old one. Without memory for the SYN nothing is queued. */
  lemma ConnectConsistent(old_iss: int, mss: nat, isn: int, memory: nat, wnd: nat)
    ensures var s := Connecting(NewSnd(old_iss, mss), isn);
            var r := Request([], true, false, 1, memory);
            var (t, ok) := Enqueue(s, r);
            && (Consistent(s, [], isn - 1) <==> old_iss == isn - 1)
            && (ok <==> 2 <= memory) && (!ok ==> t == s)
            && (ok ==> var (u, sent) := Output(t, wnd);
                       && sent == u.unacked == [Syn(isn)] && u.unsent == []
                       && (Consistent(u, [Ctl], isn - 1) <==> old_iss <= isn))
  {
    NotYetInOrder(old_iss, mss, isn);
    SynQueued(old_iss, mss, isn, memory);
    SynSent(old_iss, isn, wnd);
    hide Enqueue, Output, Consistent;
    SynAlone(AfterSyn(old_iss, isn), isn);
  }

  lemma NotYetInOrder(old_iss: int, mss: nat, isn: int)
    ensures Consistent(Connecting(NewSnd(old_iss, mss), isn), [], isn - 1) <==> old_iss == isn - 1
  {}

  function Syn(isn: int): Seg { Seg(isn - 1, [], true, false, 1) }

  /** The block with the SYN sent. */
  function AfterSyn(old_iss: int, isn: int): Snd
  {
    Snd([Syn(isn)], [], isn, isn - 1, isn, if old_iss < isn then isn else old_iss, TCP_SND_BUF - 1, 1, TCP_MSS)
  }

  lemma SynQueued(old_iss: int, mss: nat, isn: int, memory: nat)
    ensures var s := Connecting(NewSnd(old_iss, mss), isn);
            Enqueue(s, Request([], true, false, 1, memory))
            == if 2 <= memory then (Snd([], [Syn(isn)], isn, isn - 1, isn, old_iss, TCP_SND_BUF - 1, 1, TCP_MSS), true) else (s, false)
  {
    var r := Request([], true, false, 1, memory);
    OneSegment(r, isn - 1);
    assert Chop(r, 0, isn - 1, TCP_MSS) == [Syn(isn)];
    assert [] + [Syn(isn)] == [Syn(isn)];
  }

  lemma SynSent(old_iss: int, isn: int, wnd: nat)
    ensures Output(Snd([], [Syn(isn)], isn, isn - 1, isn, old_iss, TCP_SND_BUF - 1, 1, TCP_MSS), wnd)
            == (AfterSyn(old_iss, isn), [Syn(isn)])
  {
    var t := Snd([], [Syn(isn)], isn, isn - 1, isn, old_iss, TCP_SND_BUF - 1, 1, TCP_MSS);
    assert [Syn(isn)][1..] == [] && [] + [Syn(isn)] == [Syn(isn)] == [Syn(isn)] + [];
    assert SendFirst(t) == AfterSyn(old_iss, isn);
    assert Fits(t.lastack, Syn(isn), wnd);
  }

  lemma SynAlone(v: Snd, isn: int)
    requires v.unacked == [Syn(isn)] && v.unsent == []
    requires v.lbb == isn && v.lastack == isn - 1 && v.mss > 0 && v.queuelen == 1 && v.buf == TCP_SND_BUF - 1 && isn <= v.max
    ensures Consistent(v, [Ctl], isn - 1) <==> v.max == isn
  {
    hide Consistent;
    if v.max == isn { SynInOrder(v, isn); }
    if Consistent(v, [Ctl], isn - 1) { Facts(v, [Ctl], isn - 1); }
  }

  lemma SynInOrder(v: Snd, isn: int)
    requires v.unacked == [Syn(isn)] && v.unsent == []
    requires v.lbb == v.max == isn && v.lastack == isn - 1 && v.mss > 0 && v.queuelen == 1 && v.buf == TCP_SND_BUF - 1
    ensures Consistent(v, [Ctl], isn - 1)
  {
    hide Tiles, Contents, Buffers, Content;
    OneQueued(Syn(isn), isn);
    SynContent(isn);
    var log := [Ctl];
    assert v.unacked + v.unsent == [Syn(isn)];
    assert log[0..] == log;
  }

  lemma OneQueued(x: Seg, end: int)
    ensures Tiles([x], x.seqno, end) <==> 0 < TcpLen(x) && End(x) == end
    ensures Contents([x]) == Content(x) && Buffers([x]) == x.clen
  {
    assert [x][1..] == [] && Content(x) + [] == Content(x);
  }

  lemma SynContent(isn: int)
    ensures Content(Syn(isn)) == [Ctl]
  {}

  // ----- 32-bit numbers -----

  /** With less than a quarter of the number space in flight, the tests on an acknowledgement within a quarter of it
      decide on the wrapped numbers as on the counters: is it new, does it cover a queued segment, and has a segment
      just sent raised snd_max. */
  lemma AckTestsAgree(s: Snd, log: seq<Octet>, iss: int, ackno: int, i: nat)
    requires Consistent(s, log, iss) && s.lbb - s.lastack < 0x4000_0000
    requires -0x4000_0000 < ackno - s.lastack < 0x4000_0000 && i < |s.unacked + s.unsent|
    ensures var end := End((s.unacked + s.unsent)[i]);
            && (SeqNum.Wrap(s.lastack) == SeqNum.Wrap(ackno) <==> s.lastack == ackno)
            && (SeqNum.SeqBetween(SeqNum.Wrap(ackno), SeqNum.Wrap(s.lastack + 1), SeqNum.Wrap(s.max)) <==> s.lastack + 1 <= ackno <= s.max)
            && (SeqNum.SeqLeq(SeqNum.Wrap(end), SeqNum.Wrap(ackno)) <==> end <= ackno)
            && (SeqNum.SeqBetween(SeqNum.Wrap(ackno), SeqNum.Wrap(end), SeqNum.Wrap(s.max)) <==> end <= ackno <= s.max)
            && (SeqNum.SeqLt(SeqNum.Wrap(s.max), SeqNum.Wrap(end)) <==> s.max < end)
  {
    EndsInFlight(s, log, iss, i);
    var end := End((s.unacked + s.unsent)[i]);
    hide *;
    SeqNum.ComparisonsAgree(ackno, s.lastack + 1, s.max);
    SeqNum.ComparisonsAgree(end, ackno, ackno);
    SeqNum.ComparisonsAgree(ackno, end, s.max);
    SeqNum.ComparisonsAgree(s.max, end, end);
    SeqNum.EqualsAgree(s.lastack, ackno);
  }

  lemma EndsInFlight(s: Snd, log: seq<Octet>, iss: int, i: nat)
    requires Consistent(s, log, iss) && i < |s.unacked + s.unsent|
    ensures s.lastack < End((s.unacked + s.unsent)[i]) <= s.lbb && s.lastack <= s.max <= s.lbb
  {
    var q := s.unacked + s.unsent;
    TilesAdvance(q, q[0].seqno, s.lbb);
    if i > 0 {
      assert q == [q[0]] + q[1..];
      TilesAdvance(q[1..], End(q[0]), s.lbb);
      assert q[1..][i - 1] == q[i];
    }
  }
}
