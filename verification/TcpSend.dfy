/** The sending routines on a protocol control block: the queue fields they update and their loops. */
module TcpSend {
  import opened Words
  import opened TcpOut

  /** The segment for the data at position pos, and what follows it. */
  function Piece(r: Request, pos: nat, seqno: int, mss: nat): Seg
    requires pos <= |r.data|
  {
    Seg(seqno, r.data[pos..if |r.data| - pos > mss then pos + mss else |r.data|], r.syn, r.fin, r.clen)
  }

  lemma PieceIs(r: Request, pos: nat, seqno: int, mss: nat, n: nat)
    requires pos <= |r.data| && n == if |r.data| - pos > mss then mss else |r.data| - pos
    ensures Piece(r, pos, seqno, mss) == Seg(seqno, r.data[pos..pos + n], r.syn, r.fin, r.clen)
  {}

  lemma ChopStep(r: Request, pos: nat, seqno: int, mss: nat)
    requires pos <= |r.data| && 0 < mss
    ensures Chop(r, pos, seqno, mss)
            == [Piece(r, pos, seqno, mss)] + if |r.data| - pos > mss then Chop(r, pos + mss, seqno + mss, mss) else []
  {
    assert r.data[pos..|r.data|] == r.data[pos..];
  }

  /** The cost of a prefix of the segments is at most that of all of them. */
  lemma PrefixCost(a: seq<Seg>, seg: Seg, b: seq<Seg>)
    ensures Buffers(a + [seg]) == Buffers(a) + seg.clen
    ensures Buffers((a + [seg]) + b) >= Buffers(a) + seg.clen
  {
    Sums(a + [seg], b);
    Sums(a, [seg]);
    Cons(seg, [], 0);
    assert [seg] + [] == [seg];
  }

  class TcpPcb {
    var unacked: seq<Seg>
    var unsent: seq<Seg>
    var sndLbb: int
    var lastack: int
    var sndNxt: int
    var sndMax: int
    var sndBuf: U16
    var sndQueuelen: nat
    var mss: nat

    ghost function State(): Snd
      reads this
    {
      Snd(unacked, unsent, sndLbb, lastack, sndNxt, sndMax, sndBuf, sndQueuelen, mss)
    }

    /** tcp_alloc. */
    constructor (iss: int, maxSeg: nat)
      ensures State() == NewSnd(iss, maxSeg)
    {
      unacked, unsent, sndLbb, lastack, sndNxt, sndMax := [], [], iss, iss, iss, iss;
      sndBuf, sndQueuelen, mss := TCP_SND_BUF, 0, maxSeg;
    }

    /** The loop of tcp_enqueue that cuts the request into segments; ok is false where it jumps to memerr. */
    method Segment(r: Request) returns (queue: seq<Seg>, queuelen: nat, ok: bool)
      requires ValidRequest(r) && 0 < mss && sndQueuelen < TCP_SND_QUEUELEN
      ensures var q := Chop(r, 0, sndLbb, mss);
              && (ok <==> sndQueuelen + Buffers(q) <= TCP_SND_QUEUELEN && |q| + Buffers(q) <= r.memory)
              && (ok ==> queue == q && queuelen == sndQueuelen + Buffers(q))
    {
      hide Chop, Piece, Buffers;
      ghost var all := Chop(r, 0, sndLbb, mss);
      assert all == [] + all;
      NoTiles(0, 0);
      queue, queuelen := [], sndQueuelen;
      var ptr, seqno, memory := 0, sndLbb, r.memory;
      while queue == [] || ptr < |r.data|
        invariant ptr <= |r.data| && seqno == sndLbb + ptr
        invariant queue == [] ==> ptr == 0
        invariant queue == [] || ptr < |r.data| ==> all == queue + Chop(r, ptr, seqno, mss)
        invariant queue != [] && ptr == |r.data| ==> all == queue
        invariant queuelen == sndQueuelen + Buffers(queue) <= TCP_SND_QUEUELEN
        invariant 0 <= memory == r.memory - |queue| - Buffers(queue)
        decreases |r.data| - ptr, |queue| == 0
      {
        ChopStep(r, ptr, seqno, mss);
        var left := |r.data| - ptr;
        var seglen := if left > mss then mss else left;
        PieceIs(r, ptr, seqno, mss, seglen);
        ghost var rest := if left > mss then Chop(r, ptr + mss, seqno + mss, mss) else [];
        ghost var piece := Piece(r, ptr, seqno, mss);
        assert all == (queue + [piece]) + rest;
        PrefixCost(queue, piece, rest);
        if memory == 0 { return queue, queuelen, false; }
        memory := memory - 1;
        if memory < r.clen { return queue, queuelen, false; }
        memory := memory - r.clen;
        queuelen := queuelen + r.clen;
        if queuelen > TCP_SND_QUEUELEN { return queue, queuelen, false; }
        var seg := Seg(seqno, r.data[ptr..ptr + seglen], r.syn, r.fin, r.clen);
        queue := queue + [seg];
        ptr := ptr + seglen;
        seqno := seqno + seglen;
      }
      ok := true;
    }

    /** tcp_enqueue. */
    method Enqueue(r: Request) returns (ok: bool)
      requires ValidRequest(r) && 0 < mss
      modifies this
      ensures (State(), ok) == TcpOut.Enqueue(old(State()), r)
    {
      if |r.data| > sndBuf || sndQueuelen >= TCP_SND_QUEUELEN { return false; }
      var queue, queuelen, built := Segment(r);
      if !built { return false; }
      if unsent != [] && TcpLen(unsent[|unsent| - 1]) != 0 && !IsCtl(unsent[|unsent| - 1]) && !IsCtl(queue[0])
         && |unsent[|unsent| - 1].data| + |queue[0].data| <= mss
      {
        var useg := unsent[|unsent| - 1];
        useg := useg.(data := useg.data + queue[0].data, clen := useg.clen + queue[0].clen);
        unsent := unsent[..|unsent| - 1] + [useg] + queue[1..];
      } else {
        unsent := unsent + queue;
      }
      var len := |r.data|;
      if r.syn || r.fin { len := len + 1; }
      sndLbb := sndLbb + len;
      sndBuf := Wrap16(sndBuf - len);
      sndQueuelen := queuelen;
      ok := true;
    }

    /** tcp_output, when it is not called from input processing. */
    method Output(wnd: nat) returns (sent: seq<Seg>)
      modifies this
      ensures (State(), sent) == TcpOut.Output(old(State()), wnd)
    {
      hide Fits;
      sent := [];
      ghost var all := TcpOut.Output(State(), wnd);
      while unsent != [] && Fits(lastack, unsent[0], wnd)
        invariant all.0 == TcpOut.Output(State(), wnd).0
        invariant all.1 == sent + TcpOut.Output(State(), wnd).1
        decreases |unsent|
      {
        var seg := unsent[0];
        ghost var before := State();
        Assoc3(sent, [seg], TcpOut.Output(SendFirst(before), wnd).1);
        unsent := unsent[1..];
        sndNxt := End(seg);
        if sndMax < sndNxt { sndMax := sndNxt; }
        if TcpLen(seg) > 0 {
          if unacked != [] && seg.seqno < unacked[|unacked| - 1].seqno {
            unacked := [seg] + unacked;
          } else {
            unacked := unacked + [seg];
          }
        }
        sent := sent + [seg];
        assert State() == SendFirst(before);
      }
      assert sent + [] == sent;
    }

    /** tcp_rexmit_rto. */
    method RexmitRto(wnd: nat) returns (sent: seq<Seg>)
      modifies this
      ensures (State(), sent) == TcpOut.RexmitRto(old(State()), wnd)
    {
      if unacked == [] { return []; }
      unsent := unacked + unsent;
      unacked := [];
      sndNxt := unsent[0].seqno;
      sent := Output(wnd);
    }

    /** tcp_rexmit; its own call of tcp_output returns at once, because input processing is under way. */
    method Rexmit()
      modifies this
      ensures State() == MoveFirst(old(State()))
    {
      if unacked == [] { return; }
      var seg := unacked[0];
      unacked := unacked[1..];
      unsent := [seg] + unsent;
      sndNxt := unsent[0].seqno;
    }

    /** The ACK part of tcp_receive. */
    method Ack(ackno: int)
      requires Buffers(unacked) + Buffers(unsent) <= sndQueuelen
      modifies this
      ensures State() == TcpOut.Ack(old(State()), ackno)
    {
      DroppedBuffers(unacked, ackno);
      if lastack + 1 <= ackno <= sndMax {
        sndBuf := Wrap16(sndBuf + (ackno - lastack));
        lastack := ackno;
        while unacked != [] && End(unacked[0]) <= ackno
          invariant DropAcked(unacked, ackno) == DropAcked(old(unacked), ackno)
          invariant sndQueuelen - Buffers(unacked) == old(sndQueuelen) - old(Buffers(unacked))
          invariant State() == old(State()).(buf := Wrap16(old(sndBuf) + (ackno - old(lastack))), lastack := ackno,
                                            unacked := unacked, queuelen := sndQueuelen)
          decreases |unacked|
        {
          sndQueuelen := sndQueuelen - unacked[0].clen;
          unacked := unacked[1..];
        }
      }
      ghost var mid := State();
      while unsent != [] && End(unsent[0]) <= ackno <= sndMax
        invariant Buffers(unsent) <= sndQueuelen && Buffers(mid.unsent) <= mid.queuelen
        invariant DropUnsent(mid, ackno) == DropUnsent(State(), ackno)
        decreases |unsent|
      {
        sndQueuelen := sndQueuelen - unsent[0].clen;
        unsent := unsent[1..];
        if unsent != [] { sndNxt := unsent[0].seqno; }
      }
    }

    /** The SYN_SENT case of tcp_process. */
    method SynSent(ackno: int)
      requires unacked != [] && 0 < sndQueuelen
      modifies this
      ensures State() == SynAck(old(State()), ackno)
    {
      if ackno == unacked[0].seqno + 1 {
        sndBuf := Wrap16(sndBuf + 1);
        lastack := ackno;
        sndQueuelen := sndQueuelen - 1;
        unacked := unacked[1..];
      }
    }
  }
}
