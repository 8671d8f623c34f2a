/** tcp_receive on a protocol control block: the fields it updates and its loops over the queue. */
module TcpReceive {
  import opened Words
  import opened TcpIn

  class TcpPcb {
    var rcvNxt: int
    var rcvWnd: nat
    var ooseq: seq<Seg>

    ghost function State(): Rcv
      reads this
    {
      Rcv(rcvNxt, rcvWnd, ooseq)
    }

    constructor (nxt: int, wnd: nat)
      ensures State() == Rcv(nxt, wnd, [])
    {
      rcvNxt, rcvWnd, ooseq := nxt, wnd, [];
    }

    /** Update rcv_nxt and the advertised window for n octets. */
    method Accept(n: nat)
      modifies this
      ensures State() == Advance(old(State()), n)
    {
      rcvNxt := rcvNxt + n;
      if rcvWnd < n {
        rcvWnd := 0;
      } else {
        rcvWnd := rcvWnd - n;
      }
    }

    /** The data part of tcp_receive: segment `inseg` with TCP_TCPLEN `tcplen`. Returns what goes to the
        application (recv_data) and whether TF_GOT_FIN is set. */
    method Receive(inseg0: Seg, tcplen: nat, room: bool) returns (recvData: seq<Byte>, gotFin: bool)
      requires tcplen == TcpLen(inseg0)
      modifies this
      ensures Outcome(State(), recvData, gotFin) == TcpIn.Receive(old(State()), inseg0, room)
    {
      recvData, gotFin := [], false;
      if tcplen == 0 { return; }
      var inseg := inseg0;
      if inseg.seqno + 1 <= rcvNxt <= inseg.seqno + tcplen - 1 {
        inseg := DropBefore(inseg, rcvNxt);
      }
      if !(rcvNxt <= inseg.seqno <= rcvNxt + rcvWnd - 1) { return; }
      if rcvNxt == inseg.seqno {
        if ooseq != [] && ooseq[0].seqno <= inseg.seqno + inseg.len {
          inseg := CutAt(inseg, ooseq[0].seqno);
        }
        Accept(TcpLen(inseg));
        recvData, gotFin := inseg.data, inseg.fin;
        ghost var start := State();
        while ooseq != [] && ooseq[0].seqno == rcvNxt
          invariant Drain(start).s == Drain(State()).s
          invariant inseg.data + Drain(start).data == recvData + Drain(State()).data
          invariant (inseg.fin || Drain(start).gotFin) == (gotFin || Drain(State()).gotFin)
          decreases |ooseq|
        {
          var cseg := ooseq[0];
          assert (recvData + cseg.data) + Drain(Advance(State(), TcpLen(cseg)).(ooseq := ooseq[1..])).data
              == recvData + (cseg.data + Drain(Advance(State(), TcpLen(cseg)).(ooseq := ooseq[1..])).data);
          Accept(TcpLen(cseg));
          recvData := recvData + cseg.data;
          gotFin := gotFin || cseg.fin;
          ooseq := ooseq[1..];
        }
      } else if ooseq == [] {
        if room { ooseq := [inseg]; }
      } else {
        Enqueue(inseg, room);
      }
    }

    /** The walk over a non-empty queue that finds the place of an out-of-order segment. */
    method Enqueue(inseg: Seg, room: bool)
      requires ooseq != []
      modifies this`ooseq
      ensures ooseq == if room then InsertFrom(old(ooseq), 0, inseg) else old(ooseq)
    {
      var i := 0;
      while i < |ooseq|
        invariant 0 <= i <= |ooseq| && ooseq == old(ooseq)
        invariant InsertFrom(ooseq, 0, inseg) == InsertFrom(ooseq, i, inseg)
      {
        var next := ooseq[i];
        if inseg.seqno == next.seqno {
          if inseg.len > next.len && room { ooseq := ooseq[i := inseg]; }
          return;
        }
        if i == 0 {
          if inseg.seqno < next.seqno {
            var seg := inseg;
            if seg.seqno + seg.len > next.seqno { seg := CutAt(seg, next.seqno); }
            if room { ooseq := [seg] + ooseq; }
            return;
          }
        } else if ooseq[i - 1].seqno + 1 <= inseg.seqno <= next.seqno - 1 {
          var seg, prev := inseg, ooseq[i - 1];
          if seg.seqno + seg.len > next.seqno { seg := CutAt(seg, next.seqno); }
          if room {
            if prev.seqno + prev.len > seg.seqno { prev := CutAt(prev, seg.seqno); }
            ooseq := ooseq[..i - 1] + [prev, seg] + ooseq[i..];
          }
          return;
        }
        if i == |ooseq| - 1 && inseg.seqno > next.seqno {
          if room {
            if next.seqno + next.len > inseg.seqno { next := CutAt(next, inseg.seqno); }
            ooseq := ooseq[..i] + [next, inseg];
          }
          return;
        }
        i := i + 1;
      }
    }
  }
}
