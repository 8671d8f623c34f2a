/** Serial-number comparison of 32-bit sequence numbers (TCP_SEQ_LT and friends in tcp.h). The TCP modules
    count octets with unbounded integers; these lemmas say when the macros decide the same. */
module SeqNum {
  import opened Words

  const HALF := 0x8000_0000

  /** (s32_t)(a - b). */
  function Signed(a: U32, b: U32): int
  {
    var d := Sub32(a, b);
    if d < HALF then d else d - 0x1_0000_0000
  }

  predicate SeqLt(a: U32, b: U32) { Signed(a, b) < 0 }

  predicate SeqLeq(a: U32, b: U32) { Signed(a, b) <= 0 }

  predicate SeqGt(a: U32, b: U32) { Signed(a, b) > 0 }

  predicate SeqBetween(a: U32, b: U32, c: U32) { Signed(a, b) >= 0 && Signed(a, c) <= 0 }

  function Wrap(x: int): U32 { x % 0x1_0000_0000 }

  /** The signed difference of two wrapped counters is their true difference exactly when that difference
      fits 32 signed bits. */
  lemma SignedIsDifference(x: int, y: int)
    ensures Signed(Wrap(x), Wrap(y)) == x - y <==> -HALF <= x - y < HALF
  {
    var q := (x - y) / 0x1_0000_0000;
    assert Sub32(Wrap(x), Wrap(y)) == (x - y) % 0x1_0000_0000;
    if -HALF <= x - y < 0 { assert q == -1; }
  }

  /** Within half the number space the macros compare the counters themselves. */
  lemma ComparisonsAgree(x: int, y: int, z: int)
    requires -HALF < x - y < HALF && -HALF < x - z < HALF
    ensures SeqLt(Wrap(x), Wrap(y)) <==> x < y
    ensures SeqLeq(Wrap(x), Wrap(y)) <==> x <= y
    ensures SeqGt(Wrap(x), Wrap(y)) <==> x > y
    ensures SeqBetween(Wrap(x), Wrap(y), Wrap(z)) <==> y <= x <= z
  {
    SignedIsDifference(x, y);
    SignedIsDifference(x, z);
  }

  lemma EqualsAgree(x: int, y: int)
    requires -0x1_0000_0000 < x - y < 0x1_0000_0000
    ensures Wrap(x) == Wrap(y) <==> x == y
  {}

  /** The tests of tcp_receive on wrapped numbers, for a segment within a quarter of the number space of rcv_nxt: the
      front to be trimmed, the window, and the place between the queued segments from `prev` and from `next` on. */
  lemma ReceiveTestsAgree(nxt: int, wnd: nat, seqno: int, tcplen: nat, len: nat, prev: int, prevLen: nat, next: int)
    requires -0x4000_0000 < seqno - nxt < 0x4000_0000 && wnd < 0x1_0000 && tcplen <= 0x1_0000 && len < 0x1_0000
    requires nxt <= next < nxt + 0x1_0000 && nxt <= prev < nxt + 0x1_0000 && prevLen < 0x1_0000
    ensures SeqLt(Wrap(seqno), Wrap(nxt)) <==> seqno < nxt
    ensures Wrap(nxt) == Wrap(seqno) <==> nxt == seqno
    ensures SeqBetween(Wrap(nxt), Wrap(seqno + 1), Wrap(seqno + tcplen - 1)) <==> seqno < nxt <= seqno + tcplen - 1
    ensures SeqBetween(Wrap(seqno), Wrap(nxt), Wrap(nxt + wnd - 1)) <==> nxt <= seqno < nxt + wnd
    ensures SeqLeq(Wrap(next), Wrap(seqno + len)) <==> next <= seqno + len
    ensures Wrap(next) == Wrap(nxt) <==> next == nxt
    ensures Wrap(seqno) == Wrap(next) <==> seqno == next
    ensures SeqLt(Wrap(seqno), Wrap(next)) <==> seqno < next
    ensures SeqGt(Wrap(seqno + len), Wrap(next)) <==> seqno + len > next
    ensures SeqBetween(Wrap(seqno), Wrap(prev + 1), Wrap(next - 1)) <==> prev < seqno < next
    ensures SeqGt(Wrap(prev + prevLen), Wrap(seqno)) <==> prev + prevLen > seqno
    ensures SeqGt(Wrap(seqno), Wrap(prev)) <==> seqno > prev
  {
    hide SeqBetween, SeqLt, SeqLeq, SeqGt, Wrap;
    ComparisonsAgree(nxt, seqno + 1, seqno + tcplen - 1);
    ComparisonsAgree(seqno, nxt, nxt + wnd - 1);
    ComparisonsAgree(next, seqno + len, seqno + len);
    ComparisonsAgree(seqno, next, next);
    ComparisonsAgree(seqno + len, next, next);
    ComparisonsAgree(seqno, prev + 1, next - 1);
    ComparisonsAgree(prev + prevLen, seqno, seqno);
    ComparisonsAgree(seqno, prev, prev);
    EqualsAgree(nxt, seqno);
    EqualsAgree(next, nxt);
    EqualsAgree(seqno, next);
  }
}
