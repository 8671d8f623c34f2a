/** Compressor and decompressor over a lossless in-order link: they stay in sync over every run, and
    exactly which packets come out unchanged. */
module VjSync {
  import opened Words
  import opened VjHeader
  import opened VjSpec

  /** A header without the bits that the compressor never compares or that a special form leaves
      behind: the reserved nibble, URG, ECE and CWR. */
  function Blur(h: Header): Header
  {
    h.(x2 := 0, flags := h.flags.(urg := false, ece := false, cwr := false))
  }

  /** A packet handed to the compressor, the length of its first buffer, and the size of the first
      buffer it arrives in. */
  datatype Packet = Packet(bytes: seq<Byte>, headLen: nat, recvHead: nat)

  /** Where compression applies, the packet's IP length field is its length and its IP checksum is right;
      a receiving buffer can hold the longest TCP/IP header. */
  ghost predicate Good(p: Packet)
  {
    && ValidIp(p.bytes, p.headLen)
    && 120 <= p.recvHead
    && (Compressible(p.bytes, p.headLen) && HasHeaders(p.bytes) ==>
          var h := Parse(p.bytes);
          h.len == |p.bytes| && h.ipSum == RecomputedSum(h))
  }

  /** The first buffer on the receiving side holds the whole header. */
  ghost predicate HeaderInFirst(b: seq<Byte>, recvHead: nat)
  {
    recvHead <= |b| && (recvHead == |b| || 120 <= recvHead)
  }

  ghost predicate SlotsAgree(o: Slot, r: Slot)
  {
    o.Saved? ==>
      && r.Saved? && WellFormed(o.h) && WellFormed(r.h) && Blur(o.h) == Blur(r.h)
      && AckOnly(o.h.flags) && o.h.proto == IPPROTO_TCP
  }

  ghost predicate Sync(c: Compressor, d: Decompressor)
  {
    && CompressorOk(c) && |d.slots| == MAX_SLOTS
    && (forall i | 0 <= i < MAX_SLOTS :: SlotsAgree(c.slots[i], d.slots[i]))
    && (c.lastXmit < MAX_SLOTS ==> d.lastRecv == c.lastXmit && !d.toss && c.slots[c.lastXmit].Saved?)
  }

  // ----- encoding and decoding -----

  lemma MaskRoundTrip(m: Changes)
    ensures MaskOf(MaskByte(m)) == m
  {
    BitsNumber([m.u, m.w, m.a, m.s, m.p, m.i, m.c, false]);
  }

  /** At position pos, b continues with e. */
  ghost predicate Holds(b: seq<Byte>, pos: nat, e: seq<Byte>)
  {
    pos + |e| <= |b| && b[pos..pos + |e|] == e
  }

  lemma HoldsApart(b: seq<Byte>, pos: nat, e: seq<Byte>, f: seq<Byte>)
    requires Holds(b, pos, e + f)
    ensures Holds(b, pos, e) && Holds(b, pos + |e|, f)
  {
    assert b[pos..pos + |e|] == (e + f)[..|e|];
    assert b[pos + |e|..pos + |e| + |f|] == (e + f)[|e|..];
  }

  lemma DecodeEncode(b: seq<Byte>, pos: nat, n: U16)
    ensures Holds(b, pos, EncodeZ(n)) ==> Decode(b, pos) == (n, pos + |EncodeZ(n)|)
    ensures n != 0 ==> Encode(n) == EncodeZ(n)
  {
    hide Hi, Lo, Word16;
    if Holds(b, pos, EncodeZ(n)) {
      var e := EncodeZ(n);
      assert At(b, pos) == b[pos..pos + |e|][0] == e[0];
      if |e| == 3 {
        assert At(b, pos + 1) == b[pos..pos + |e|][1] == e[1];
        assert At(b, pos + 2) == b[pos..pos + |e|][2] == e[2];
        Join16(n);
      }
    }
  }

  lemma AddSub16(n: U16, o: U16)
    ensures Add16(o, Sub16(n, o)) == n
  {}

  lemma AddSub32(n: U32, o: U32)
    ensures Add32(o, Sub32(n, o)) == n
  {}

  /** What the decompressor rebuilds from its own saved header r when h was sent: h, with the
      uncompared bits of r. */
  function Rebuilt(r: Header, h: Header, special: bool): Header
  {
    h.(x2 := r.x2,
       flags := h.flags.(ece := r.flags.ece, cwr := r.flags.cwr, urg := if special then r.flags.urg else h.flags.urg))
  }

  predicate IsSpecial(m: Changes) { IsSpecialI(m) || IsSpecialD(m) }

  /** A number of the given size is read at pos. */
  predicate Reads(b: seq<Byte>, pos: nat, n: nat, size: nat) { Decode(b, pos) == (n, pos + size) }

  lemma PatchUrgentEffect(m: Changes, b: seq<Byte>, k: Cursor, urp: U16, size: nat)
    requires if m.u then Reads(b, k.pos, urp, size) else k.h.urp == urp && size == 0
    ensures PatchUrgent(m, b, k) == Cursor(k.h.(urp := urp, flags := k.h.flags.(urg := m.u)), k.pos + size)
  {
    hide Decode;
  }

  lemma PatchWindowEffect(m: Changes, b: seq<Byte>, k: Cursor, win: U16, size: nat)
    requires if m.w then Reads(b, k.pos, Sub16(win, k.h.win), size) else k.h.win == win && size == 0
    ensures PatchWindow(m, b, k) == Cursor(k.h.(win := win), k.pos + size)
  {
    hide Decode;
    AddSub16(win, k.h.win);
  }

  lemma PatchAckEffect(m: Changes, b: seq<Byte>, k: Cursor, ackno: U32, size: nat)
    requires var n := Sub32(ackno, k.h.ackno);
             if m.a then Reads(b, k.pos, n, size) else k.h.ackno == ackno && size == 0
    ensures PatchAck(m, b, k) == Cursor(k.h.(ackno := ackno), k.pos + size)
  {
    hide Decode;
    AddSub32(ackno, k.h.ackno);
  }

  lemma PatchSeqEffect(m: Changes, b: seq<Byte>, k: Cursor, seqno: U32, size: nat)
    requires var n := Sub32(seqno, k.h.seqno);
             if m.s then Reads(b, k.pos, n, size) else k.h.seqno == seqno && size == 0
    ensures PatchSeq(m, b, k) == Cursor(k.h.(seqno := seqno), k.pos + size)
  {
    hide Decode;
    AddSub32(seqno, k.h.seqno);
  }

  lemma PatchIdEffect(m: Changes, b: seq<Byte>, k: Cursor, id: U16, size: nat)
    requires var n := Sub16(id, k.h.id);
             if m.i then Reads(b, k.pos, n, size) else n == 1 && size == 0
    ensures PatchId(m, b, k) == Cursor(k.h.(id := id), k.pos + size)
  {
    hide Decode;
    AddSub16(id, k.h.id);
  }

  ghost predicate PlainMask(r: Header, h: Header, m: Changes)
  {
    && Sub32(h.ackno, r.ackno) <= 0xffff && Sub32(h.seqno, r.seqno) <= 0xffff
    && (m.u || h.urp == r.urp)
    && m.w == (h.win != r.win) && m.a == (h.ackno != r.ackno) && m.s == (h.seqno != r.seqno)
    && m.i == (Sub16(h.id, r.id) != 1)
  }

  function Updated(r: Header, h: Header, m: Changes): Header
  {
    r.(flags := r.flags.(urg := m.u), urp := h.urp, win := h.win, ackno := h.ackno, seqno := h.seqno, id := h.id)
  }

  /** The five numbers of a plain list of changes and where they are read: the sizes of those before each. */
  datatype Sizes = Sizes(urp: nat, win: nat, ack: nat, seqn: nat, id: nat)

  /** What is read from position pos on are the ack, sequence and identification changes, each of its size. */
  ghost predicate ReadsNumbers(r: Header, h: Header, m: Changes, b: seq<Byte>, pos: nat, z: Sizes)
  {
    && (if m.a then Reads(b, pos, Sub32(h.ackno, r.ackno), z.ack) else z.ack == 0)
    && (if m.s then Reads(b, pos + z.ack, Sub32(h.seqno, r.seqno), z.seqn) else z.seqn == 0)
    && (if m.i then Reads(b, pos + z.ack + z.seqn, Sub16(h.id, r.id), z.id) else z.id == 0)
  }

  /** The same with the urgent pointer and the window in front. */
  ghost predicate ReadsPlain(r: Header, h: Header, m: Changes, b: seq<Byte>, pos: nat, z: Sizes)
  {
    && (if m.u then Reads(b, pos, h.urp, z.urp) else z.urp == 0)
    && (if m.w then Reads(b, pos + z.urp, Sub16(h.win, r.win), z.win) else z.win == 0)
    && ReadsNumbers(r, h, m, b, pos + z.urp + z.win, z)
  }

  /** A number that is there is read, and what follows it stands behind it. */
  lemma FieldReads(b: seq<Byte>, pos: nat, present: bool, n: nat, rest: seq<Byte>, whole: seq<Byte>) returns (size: nat)
    requires n <= 0xffff && whole == (if present then EncodeZ(n) else []) + rest && Holds(b, pos, whole)
    ensures Holds(b, pos + size, rest) && |whole| == size + |rest|
    ensures if present then Reads(b, pos, n, size) else size == 0
  {
    hide EncodeZ;
    var e := if present then EncodeZ(n) else [];
    HoldsApart(b, pos, e, rest);
    DecodeEncode(b, pos, n);
    size := |e|;
  }

  /** The same for a number that is there only when it is not zero. */
  lemma NonZeroReads(b: seq<Byte>, pos: nat, present: bool, n: nat, rest: seq<Byte>, whole: seq<Byte>) returns (size: nat)
    requires n <= 0xffff && (present ==> n != 0)
    requires whole == (if present then Encode(Short(n)) else []) + rest && Holds(b, pos, whole)
    ensures Holds(b, pos + size, rest) && |whole| == size + |rest|
    ensures if present then Reads(b, pos, n, size) else size == 0
  {
    DecodeEncode(b, pos, n);
    hide EncodeZ, Encode, Holds, Reads;
    size := FieldReads(b, pos, present, n, rest, whole);
  }

  /** The octets of the changes are read as the changes, and are as many as their sizes say. */
  lemma ChangedReads(r: Header, h: Header, m: Changes, b: seq<Byte>, pos: nat) returns (z: Sizes)
    requires PlainMask(r, h, m) && Holds(b, pos, Changed(r, h, m))
    ensures ReadsPlain(r, h, m, b, pos, z) && z.urp + z.win + z.ack + z.seqn + z.id == |Changed(r, h, m)|
  {
    NonZero(r, h);
    var dW, dA, dS, dI := Sub16(h.win, r.win), Sub32(h.ackno, r.ackno), Sub32(h.seqno, r.seqno), Sub16(h.id, r.id);
    hide Encode, EncodeZ, Sub16, Sub32, Reads, Holds;
    var u := FieldReads(b, pos, m.u, h.urp, WindowTail(r, h, m), Changed(r, h, m));
    var w := NonZeroReads(b, pos + u, m.w, dW, AckTail(r, h, m), WindowTail(r, h, m));
    var a := NonZeroReads(b, pos + u + w, m.a, dA, SeqTail(r, h, m), AckTail(r, h, m));
    var eI := if m.i then EncodeZ(dI) else [];
    var s := NonZeroReads(b, pos + u + w + a, m.s, dS, eI, SeqTail(r, h, m));
    var i := FieldReads(b, pos + u + w + a + s, m.i, dI, [], eI);
    z := Sizes(u, w, a, s, i);
  }

  lemma NonZero(r: Header, h: Header)
    ensures Sub16(h.win, r.win) == 0 <==> h.win == r.win
    ensures Sub32(h.ackno, r.ackno) == 0 <==> h.ackno == r.ackno
    ensures Sub32(h.seqno, r.seqno) == 0 <==> h.seqno == r.seqno
  {}

  lemma PatchPlain(k: Cursor, h: Header, m: Changes, b: seq<Byte>, z: Sizes)
    requires PlainMask(k.h, h, m) && ReadsPlain(k.h, h, m, b, k.pos, z)
    ensures PatchId(m, b, PatchSeq(m, b, PatchAck(m, b, PatchWindow(m, b, PatchUrgent(m, b, k)))))
            == Cursor(Updated(k.h, h, m), k.pos + z.urp + z.win + z.ack + z.seqn + z.id)
  {
    hide PatchUrgent, PatchWindow, PatchAck, PatchSeq, PatchId, Reads, Sub16, Sub32;
    PatchUrgentEffect(m, b, k, h.urp, z.urp);
    var k1 := PatchUrgent(m, b, k);
    PatchWindowEffect(m, b, k1, h.win, z.win);
    var k2 := PatchWindow(m, b, k1);
    PatchAckEffect(m, b, k2, h.ackno, z.ack);
    var k3 := PatchAck(m, b, k2);
    PatchSeqEffect(m, b, k3, h.seqno, z.seqn);
    PatchIdEffect(m, b, PatchSeq(m, b, k3), h.id, z.id);
  }

  /** A special form: only the sequence numbers and perhaps the identification change. */
  lemma PatchSpecial(r: Header, h: Header, m: Changes, b: seq<Byte>, pos: nat, payload: int, size: nat)
    requires if m.i then Reads(b, pos, Sub16(h.id, r.id), size) else Sub16(h.id, r.id) == 1 && size == 0
    requires 0 <= payload <= 0xffff && Add32(r.seqno, payload) == h.seqno
    requires if IsSpecialI(m) then Add32(r.ackno, payload) == h.ackno else r.ackno == h.ackno
    ensures var k := Cursor(r, pos);
            PatchId(m, b, if IsSpecialI(m) then k.(h := r.(ackno := Add32(r.ackno, payload), seqno := Add32(r.seqno, payload)))
                          else k.(h := r.(seqno := Add32(r.seqno, payload))))
            == Cursor(r.(ackno := h.ackno, seqno := h.seqno, id := h.id), pos + size)
  {
    hide PatchId, Reads, Add32, Sub16;
    PatchIdEffect(m, b, Cursor(r.(ackno := h.ackno, seqno := h.seqno), pos), h.id, size);
  }

  lemma DifferenceBlur(o: Header, r: Header, h: Header)
    requires Blur(o) == Blur(r)
    ensures Difference(o, h) == Difference(r, h)
  {
    assert o.ver == r.ver && o.hl == r.hl && o.tos == r.tos && o.len == r.len && o.id == r.id && o.off == r.off;
    assert o.ttl == r.ttl && o.proto == r.proto && o.ipOpts == r.ipOpts && o.seqno == r.seqno && o.ackno == r.ackno;
    assert o.doff == r.doff && o.win == r.win && o.urp == r.urp && o.tcpOpts == r.tcpOpts;
  }

  /** The two shapes of a difference: a special form, or the plain list of changes. */
  lemma SpecialShape(r: Header, h: Header)
    requires Difference(r, h).Some? && IsSpecial(Difference(r, h).value.mask)
    ensures var d := Difference(r, h).value;
            var payload := r.len - HeaderLength(r);
            && SameFixed(r, h) && d.mask.p == h.flags.psh && !d.mask.c
            && d.mask.i == (Sub16(h.id, r.id) != 1)
            && d.bytes == (if d.mask.i then EncodeZ(Sub16(h.id, r.id)) else [])
            && h.win == r.win && h.urp == r.urp && !h.flags.urg
            && Sub32(h.seqno, r.seqno) == payload
            && Sub32(h.ackno, r.ackno) == if IsSpecialI(d.mask) then payload else 0
  {
    hide Changed, Encode, EncodeZ;
    AddSub16(h.win, r.win);
  }

  lemma PlainShape(r: Header, h: Header)
    requires Difference(r, h).Some? && !IsSpecial(Difference(r, h).value.mask)
    ensures var d := Difference(r, h).value;
            && SameFixed(r, h) && d.mask.p == h.flags.psh && !d.mask.c
            && PlainMask(r, h, d.mask) && d.mask.u == h.flags.urg && d.bytes == Changed(r, h, d.mask)
  {
    hide Changed, Encode, EncodeZ, HeaderLength;
    AddSub32(h.ackno, r.ackno);
    AddSub32(h.seqno, r.seqno);
    AddSub16(h.win, r.win);
  }

  /** The same changes applied on the far side rebuild the header, up to its length and checksum. */
  lemma PatchDifference(o: Header, r: Header, h: Header, d: Delta, m: Changes, b: seq<Byte>, pos: nat)
    requires Blur(o) == Blur(r) && AckOnly(o.flags) && AckOnly(h.flags)
    requires o.src == h.src && o.dst == h.dst && o.ports == h.ports
    requires Difference(o, h) == Some(d) && m.(c := false) == d.mask
    requires Holds(b, pos, [Hi(h.sum), Lo(h.sum)]) && Holds(b, pos + 2, d.bytes)
    ensures var k := Patch(r, m, b, pos);
            && k.pos == pos + 2 + |d.bytes|
            && k.h.(len := h.len, ipSum := h.ipSum) == Rebuilt(r, h, IsSpecial(m))
  {
    SumRead(b, pos, h.sum);
    DifferenceBlur(o, r, h);
    hide Difference, PatchUrgent, PatchWindow, PatchAck, PatchSeq, PatchId, Hi, Lo, Add32, Word16;
    var g := r.(sum := h.sum, flags := r.flags.(psh := m.p));
    if IsSpecial(m) {
      SpecialShape(r, h);
      hide Holds, Sub16, Sub32, EncodeZ;
      PatchSpecialForm(r, h, d, m, b, pos + 2, g);
    } else {
      PlainShape(r, h);
      hide Holds;
      PatchPlainForm(r, h, d, m, b, pos + 2, g);
    }
  }

  lemma PatchSpecialForm(r: Header, h: Header, d: Delta, m: Changes, b: seq<Byte>, pos: nat, g: Header)
    requires Difference(r, h) == Some(d) && m.(c := false) == d.mask && IsSpecial(m) && Holds(b, pos, d.bytes)
    requires g.ackno == r.ackno && g.seqno == r.seqno && g.id == r.id && g.len == r.len && g.hl == r.hl && g.doff == r.doff
    ensures var payload := r.len - HeaderLength(r);
            var k := Cursor(g, pos);
            PatchId(m, b, if IsSpecialI(m) then k.(h := g.(ackno := Add32(g.ackno, payload), seqno := Add32(g.seqno, payload)))
                          else k.(h := g.(seqno := Add32(g.seqno, payload))))
            == Cursor(g.(ackno := h.ackno, seqno := h.seqno, id := h.id), pos + |d.bytes|)
  {
    SpecialShape(r, h);
    hide Difference, PatchId, Add32, Sub16, Sub32, EncodeZ, Holds;
    AddSub32(h.seqno, r.seqno);
    AddSub32(h.ackno, r.ackno);
    AddNothing(r.ackno);
    assert d.bytes + [] == d.bytes;
    var size := FieldReads(b, pos, m.i, Sub16(h.id, r.id), [], d.bytes);
    PatchSpecial(g, h, m, b, pos, r.len - HeaderLength(r), size);
  }

  lemma PatchPlainForm(r: Header, h: Header, d: Delta, m: Changes, b: seq<Byte>, pos: nat, g: Header)
    requires Difference(r, h) == Some(d) && m.(c := false) == d.mask && !IsSpecial(m) && Holds(b, pos, d.bytes)
    requires g.urp == r.urp && g.win == r.win && g.ackno == r.ackno && g.seqno == r.seqno && g.id == r.id
    ensures PatchId(m, b, PatchSeq(m, b, PatchAck(m, b, PatchWindow(m, b, PatchUrgent(m, b, Cursor(g, pos))))))
            == Cursor(Updated(g, h, m), pos + |d.bytes|)
  {
    PlainShape(r, h);
    assert PlainMask(g, h, m) && Changed(g, h, m) == Changed(r, h, d.mask) by { hide Encode, EncodeZ, Sub16, Sub32; }
    hide Difference, PatchUrgent, PatchWindow, PatchAck, PatchSeq, PatchId, Changed, Holds, PlainMask, ReadsPlain;
    var z := ChangedReads(g, h, m, b, pos);
    PatchPlain(Cursor(g, pos), h, m, b, z);
  }

  lemma SumRead(b: seq<Byte>, pos: nat, sum: U16)
    requires Holds(b, pos, [Hi(sum), Lo(sum)])
    ensures Word16(At(b, pos), At(b, pos + 1)) == sum
  {
    assert b[pos] == b[pos..pos + 2][0] && b[pos + 1] == b[pos..pos + 2][1];
    Join16(sum);
  }

  lemma AddNothing(n: U32)
    ensures Add32(n, 0) == n
  {}

  // ----- one packet -----

  lemma MoveToFrontRing(order: seq<nat>, k: nat)
    requires IsRing(order) && k < MAX_SLOTS
    ensures IsRing(MoveToFront(order, k))
  {
    var r := MoveToFront(order, k);
    assert forall i | 0 <= i < MAX_SLOTS :: r[i] == order[if i == 0 then k else if i <= k then i - 1 else i];
  }

  lemma LookupFacts(c: Compressor, src: U32, dst: U32, ports: U32)
    requires CompressorOk(c)
    ensures var (order, hit) := Lookup(c, src, dst, ports);
            && IsRing(order) && order[0] < MAX_SLOTS
            && (hit ==> Matches(c.slots[order[0]], src, dst, ports))
            && (!hit ==> forall i | 0 <= i < MAX_SLOTS :: !Matches(c.slots[c.order[i]], src, dst, ports))
  {
    var k := FirstMatch(c.slots, c.order, src, dst, ports, 0);
    MoveToFrontRing(c.order, if k < MAX_SLOTS then k else MAX_SLOTS - 1);
  }

  lemma UncompressedStep(d: Decompressor, p: seq<Byte>, cs: nat, recvHead: nat)
    requires |d.slots| == MAX_SLOTS && cs < MAX_SLOTS && HasHeaders(p) && p[9] == IPPROTO_TCP
    requires HeaderInFirst(p[9 := cs], recvHead)
    ensures UncompressUncomp(d, p[9 := cs], recvHead)
            == (Decompressor(d.slots[cs := Saved(Parse(p))], cs, false), Delivered(p))
  {
    var b := p[9 := cs];
    var t := 4 * (p[0] % 0x10);
    assert b[0] == p[0] && b[t + 12] == p[t + 12] && b[9] == cs;
    assert b[9 := IPPROTO_TCP] == p;
  }

  /** The two headers have the same IP part, apart from the checksum. */
  predicate SameIpPart(g: Header, h: Header)
  {
    && g.ver == h.ver && g.hl == h.hl && g.tos == h.tos && g.len == h.len && g.id == h.id && g.off == h.off
    && g.ttl == h.ttl && g.proto == h.proto && g.src == h.src && g.dst == h.dst && g.ipOpts == h.ipOpts
  }

  lemma SumOfIpPart(g: Header, h: Header)
    requires SameIpPart(g, h)
    ensures RecomputedSum(g) == RecomputedSum(h)
  {
    assert IpBytes(g.(ipSum := 0)) == IpBytes(h.(ipSum := 0));
  }

  /** Where the parts of a compressed packet stand. */
  lemma CompressedLayout(explicit: bool, cs: nat, delta: Delta, h: Header, p: seq<Byte>)
    requires cs < MAX_SLOTS && HeaderLength(h) <= |p|
    ensures var b := CompressedBytes(explicit, cs, delta, h, p);
            var pos := if explicit then 2 else 1;
            var e := [Hi(h.sum), Lo(h.sum)] + delta.bytes;
            && |b| == pos + |e| + |p| - HeaderLength(h)
            && At(b, 0) == MaskByte(delta.mask.(c := explicit)) && (explicit ==> At(b, 1) == cs)
            && Holds(b, pos, e) && b[pos + |e|..] == p[HeaderLength(h)..]
  {
    hide MaskByte;
    var b := CompressedBytes(explicit, cs, delta, h, p);
    var front := [MaskByte(delta.mask.(c := explicit))] + if explicit then [cs] else [];
    var e := [Hi(h.sum), Lo(h.sum)] + delta.bytes;
    assert b == front + (e + p[HeaderLength(h)..]);
  }

  lemma SetChecksum(g: Header, h: Header)
    requires g.(ipSum := h.ipSum) == h
    ensures g.(ipSum := RecomputedSum(g)) == h.(ipSum := RecomputedSum(h))
  {
    SumOfIpPart(g, h);
  }

  lemma FinishPatch(r: Header, h: Header, k: Cursor, special: bool, total: nat)
    requires k.h.(len := h.len, ipSum := h.ipSum) == Rebuilt(r, h, special)
    requires h.len == total && h.ipSum == RecomputedSum(h)
    ensures var g := k.h.(len := total); g.(ipSum := RecomputedSum(g)) == Rebuilt(r, h, special)
  {
    var g, t := k.h.(len := h.len), Rebuilt(r, h, special);
    SumOfIpPart(t, h);
    SetChecksum(g, t);
  }

  /** Once the changes have been applied, length, checksum and data complete the packet. */
  lemma RebuildStep(d: Decompressor, cs: nat, h: Header, m: Changes, b: seq<Byte>, pos: nat, recvHead: nat, special: bool)
    requires cs < MAX_SLOTS == |d.slots| && d.slots[cs].Saved?
    requires var k := Patch(d.slots[cs].h, m, b, pos);
             && k.h.(len := h.len, ipSum := h.ipSum) == Rebuilt(d.slots[cs].h, h, special)
             && k.pos <= recvHead <= |b| && h.len == |b| - k.pos + HeaderLength(h)
    requires h.ipSum == RecomputedSum(h)
    ensures var g := Rebuilt(d.slots[cs].h, h, special);
            Rebuild(d, cs, m, b, pos, recvHead)
            == (Decompressor(d.slots[cs := Saved(g)], cs, false),
                Delivered(Bytes(g) + b[Patch(d.slots[cs].h, m, b, pos).pos..]))
  {
    hide RecomputedSum, Bytes, Patch;
    var r := d.slots[cs].h;
    var k := Patch(r, m, b, pos);
    assert k.h.hl == Rebuilt(r, h, special).hl && k.h.doff == Rebuilt(r, h, special).doff;
    FinishPatch(r, h, k, special, h.len);
  }

  lemma MaskHasNoSlot(o: Header, h: Header)
    requires Difference(o, h).Some?
    ensures !Difference(o, h).value.mask.c
  {
    hide Changed, Encode, EncodeZ, HeaderLength;
  }

  lemma CompressedStep(c: Compressor, d: Decompressor, p: seq<Byte>, cs: nat, delta: Delta, recvHead: nat)
    requires Sync(c, d) && cs < MAX_SLOTS && HasHeaders(p) && |p| < 0x1_0000
    requires c.slots[cs].Saved? && Difference(c.slots[cs].h, Parse(p)) == Some(delta)
    requires var h := Parse(p);
             Matches(c.slots[cs], h.src, h.dst, h.ports) && AckOnly(h.flags)
             && h.len == |p| && h.ipSum == RecomputedSum(h)
    requires HeaderInFirst(CompressedBytes(NeedsSlot(c, cs), cs, delta, Parse(p), p), recvHead)
    ensures var b := CompressedBytes(NeedsSlot(c, cs), cs, delta, Parse(p), p);
            var g := Rebuilt(d.slots[cs].h, Parse(p), IsSpecial(delta.mask));
            && RefersToSaved(d, b)
            && UncompressTcp(d, b, recvHead)
               == (Decompressor(d.slots[cs := Saved(g)], cs, false), Delivered(Bytes(g) + p[HeaderLength(g)..]))
  {
    hide Difference, RecomputedSum, Bytes, Patch, Rebuild, Parse, CompressedBytes, MaskOf, MaskByte, WellFormed, Hi, Lo;
    var h := Parse(p);
    assert SlotsAgree(c.slots[cs], d.slots[cs]);
    var b := CompressedBytes(NeedsSlot(c, cs), cs, delta, h, p);
    var explicit := NeedsSlot(c, cs);
    var m := delta.mask.(c := explicit);
    var pos := if explicit then 2 else 1;
    CompressedLayout(explicit, cs, delta, h, p);
    MaskRoundTrip(m);
    DeltaLength(c.slots[cs].h, h);
    MaskHasNoSlot(c.slots[cs].h, h);
    HoldsApart(b, pos, [Hi(h.sum), Lo(h.sum)], delta.bytes);
    PatchDifference(c.slots[cs].h, d.slots[cs].h, h, delta, m, b, pos);
    RebuildStep(d, cs, h, m, b, pos, recvHead, IsSpecial(m));
  }

  /** At most three octets for each of the five numbers. */
  lemma DeltaLength(o: Header, h: Header)
    requires Difference(o, h).Some?
    ensures |Difference(o, h).value.bytes| <= 15
  {}

  /** The packets the compressor lets through unchanged: not compressible, or with a header that does not
      fit the first buffer. */
  predicate PassedThrough(p: Packet)
    requires ValidIp(p.bytes, p.headLen)
  {
    !Compressible(p.bytes, p.headLen) || WireHeaderLength(p.bytes) > p.headLen
  }

  function Min(a: nat, b: nat): nat { if a < b then a else b }

  /** One packet through the compressor, the link and the decompressor. */
  ghost function Exchange(c: Compressor, d: Decompressor, p: Packet): (Compressor, Decompressor, Received)
    requires Sync(c, d) && Good(p)
  {
    var (c', sent) := Compress(c, p.bytes, p.headLen);
    var recvHead := Min(p.recvHead, |sent.bytes|);
    match sent.kind
    case TypeIp => (c', d, Delivered(sent.bytes))
    case TypeUncompressed => var (d', r) := UncompressUncomp(d, sent.bytes, recvHead); (c', d', r)
    case TypeCompressed =>
      CompressedIsExpected(c, d, p);
      var (d', r) := UncompressTcp(d, sent.bytes, recvHead); (c', d', r)
  }

  /** The slot used for a packet, and the difference it is sent as, if any. */
  ghost function Chosen(c: Compressor, p: Packet): (nat, Option<Delta>)
    requires CompressorOk(c) && ValidIp(p.bytes, p.headLen) && !PassedThrough(p)
  {
    var b := p.bytes;
    var (order, hit) := Lookup(c, Get32(b, 12), Get32(b, 16), Get32(b, 4 * (b[0] % 0x10)));
    LookupFacts(c, Get32(b, 12), Get32(b, 16), Get32(b, 4 * (b[0] % 0x10)));
    (order[0], if hit && c.slots[order[0]].Saved? then Difference(c.slots[order[0]].h, Parse(b)) else None)
  }

  /** The fields the compressor reads before it knows that the whole header is there. */
  lemma ParseKey(b: seq<Byte>)
    requires HasHeaders(b)
    ensures var h, t := Parse(b), 4 * (b[0] % 0x10);
            && h.src == Get32(b, 12) && h.dst == Get32(b, 16) && h.ports == Get32(b, t)
            && h.flags == FlagsOf(b[t + 13]) && h.proto == b[9]
  {
    var t := 4 * (b[0] % 0x10);
    var q := b[t..];
    assert q[0] == b[t] && q[1] == b[t + 1] && q[2] == b[t + 2] && q[3] == b[t + 3] && q[13] == b[t + 13];
  }

  lemma ChosenFacts(c: Compressor, d: Decompressor, p: Packet)
    requires Sync(c, d) && Good(p) && !PassedThrough(p)
    ensures var (cs, delta) := Chosen(c, p);
            var (c', sent) := Compress(c, p.bytes, p.headLen);
            var h := Parse(p.bytes);
            && cs < MAX_SLOTS && AckOnly(h.flags) && h.proto == IPPROTO_TCP
            && h.len == |p.bytes| && h.ipSum == RecomputedSum(h)
            && CompressorOk(c') && c'.slots == c.slots[cs := Saved(h)] && c'.lastXmit == cs
            && (delta.None? ==> sent == Sent(TypeUncompressed, p.bytes[9 := cs]))
            && (delta.Some? ==>
                  && c.slots[cs].Saved? && Difference(c.slots[cs].h, h) == delta
                  && Matches(c.slots[cs], h.src, h.dst, h.ports)
                  && sent == Sent(TypeCompressed, CompressedBytes(NeedsSlot(c, cs), cs, delta.value, h, p.bytes)))
  {
    hide Difference, CompressedBytes, RecomputedSum, Lookup;
    var b := p.bytes;
    ParseKey(b);
    LookupFacts(c, Get32(b, 12), Get32(b, 16), Get32(b, 4 * (b[0] % 0x10)));
  }

  lemma CompressedIsExpected(c: Compressor, d: Decompressor, p: Packet)
    requires Sync(c, d) && Good(p)
    requires Compress(c, p.bytes, p.headLen).1.kind == TypeCompressed
    ensures RefersToSaved(d, Compress(c, p.bytes, p.headLen).1.bytes)
  {
    hide Difference, CompressedBytes, RecomputedSum, Lookup, RefersToSaved;
    ChosenFacts(c, d, p);
    var (cs, delta) := Chosen(c, p);
    var sent := Compress(c, p.bytes, p.headLen).1;
    CompressedStep(c, d, p.bytes, cs, delta.value, Min(p.recvHead, |sent.bytes|));
  }

  /** Equal but for the bits that the compressor does not compare. */
  ghost predicate SameButBlurred(q: seq<Byte>, p: seq<Byte>)
  {
    q == p
    || (HasHeaders(p) && HasHeaders(q) && Blur(Parse(q)) == Blur(Parse(p))
        && q[HeaderLength(Parse(q))..] == p[HeaderLength(Parse(p))..])
  }

  /** The decompressor's own copy of the uncompared bits is what the packet carries. */
  ghost predicate Restorable(c: Compressor, d: Decompressor, p: Packet)
    requires Sync(c, d) && Good(p)
  {
    PassedThrough(p)
    || (ChosenFacts(c, d, p);
        var (cs, delta) := Chosen(c, p);
        assert SlotsAgree(c.slots[cs], d.slots[cs]);
        delta.Some? ==>
          var r, f := d.slots[cs].h, Parse(p.bytes).flags;
          && r.x2 == Parse(p.bytes).x2 && r.flags.ece == f.ece && r.flags.cwr == f.cwr
          && (IsSpecial(delta.value.mask) ==> !r.flags.urg))
  }

  lemma BlurRebuilt(r: Header, h: Header, special: bool)
    requires WellFormed(r) && WellFormed(h)
    ensures Blur(Rebuilt(r, h, special)) == Blur(h) && WellFormed(Rebuilt(r, h, special))
    ensures HeaderLength(Rebuilt(r, h, special)) == HeaderLength(h)
    ensures AckOnly(h.flags) ==> AckOnly(Rebuilt(r, h, special).flags)
  {}

  /** What comes out of the link for a rebuilt header g, and when it is the packet that went in. */
  lemma DeliveredBytes(g: Header, p: seq<Byte>)
    requires HasHeaders(p) && WellFormed(g) && Blur(g) == Blur(Parse(p)) && HeaderLength(g) == HeaderLength(Parse(p))
    ensures SameButBlurred(Bytes(g) + p[HeaderLength(g)..], p)
    ensures Bytes(g) + p[HeaderLength(g)..] == p <==> g == Parse(p)
  {
    hide Bytes, Parse, HasHeaders, Blur;
    var data := p[HeaderLength(g)..];
    ParseBytes(g, data);
    BytesLength(g);
    BytesParse(p);
    assert p == p[..HeaderLength(g)] + data;
    assert (Bytes(g) + data)[HeaderLength(g)..] == data;
  }

  lemma SyncAfter(c: Compressor, d: Decompressor, c': Compressor, d': Decompressor, cs: nat, h: Header, g: Header)
    requires Sync(c, d) && CompressorOk(c') && cs < MAX_SLOTS
    requires c'.slots == c.slots[cs := Saved(h)] && c'.lastXmit == cs
    requires d' == Decompressor(d.slots[cs := Saved(g)], cs, false)
    requires WellFormed(h) && WellFormed(g) && Blur(g) == Blur(h) && AckOnly(h.flags) && h.proto == IPPROTO_TCP
    ensures Sync(c', d')
  {
    forall i | 0 <= i < MAX_SLOTS ensures SlotsAgree(c'.slots[i], d'.slots[i]) {
      assert SlotsAgree(c.slots[i], d.slots[i]);
    }
  }

  lemma UncompressedKeepsSync(c: Compressor, d: Decompressor, p: Packet)
    requires Sync(c, d) && Good(p) && !PassedThrough(p) && Chosen(c, p).1.None?
    ensures var (c', d', r) := Exchange(c, d, p);
            && Sync(c', d') && r == Delivered(p.bytes)
            && c'.slots == c.slots[Chosen(c, p).0 := Saved(Parse(p.bytes))]
            && d'.slots == d.slots[Chosen(c, p).0 := Saved(Parse(p.bytes))]
  {
    hide Difference, CompressedBytes, RecomputedSum, Bytes, Parse, Compress, Blur, SlotsAgree, Matches, UncompressUncomp;
    ChosenFacts(c, d, p);
    var (cs, delta) := Chosen(c, p);
    var (c', sent) := Compress(c, p.bytes, p.headLen);
    SlotCount(c, d);
    UncompressedStep(d, p.bytes, cs, Min(p.recvHead, |sent.bytes|));
    var (c2, d', r) := Exchange(c, d, p);
    SyncAfter(c, d, c', d', cs, Parse(p.bytes), Parse(p.bytes));
  }

  lemma CompressedKeepsSync(c: Compressor, d: Decompressor, p: Packet)
    requires Sync(c, d) && Good(p) && !PassedThrough(p) && Chosen(c, p).1.Some?
    ensures var (c', d', r) := Exchange(c, d, p);
            var (cs, delta) := Chosen(c, p);
            && cs < MAX_SLOTS && d.slots[cs].Saved?
            && var g := Rebuilt(d.slots[cs].h, Parse(p.bytes), IsSpecial(delta.value.mask));
               && Sync(c', d')
               && c'.slots == c.slots[cs := Saved(Parse(p.bytes))] && d'.slots == d.slots[cs := Saved(g)]
               && r.Delivered? && SameButBlurred(r.bytes, p.bytes)
               && (r.bytes == p.bytes <==> g == Parse(p.bytes))
               && (IsSpecial(delta.value.mask) ==> !Parse(p.bytes).flags.urg)
  {
    hide Difference, CompressedBytes, RecomputedSum, Bytes, Parse, Compress, Blur, SlotsAgree, Matches, UncompressTcp, Chosen;
    ChosenFacts(c, d, p);
    var (cs, delta) := Chosen(c, p);
    var (c', sent) := Compress(c, p.bytes, p.headLen);
    var h := Parse(p.bytes);
    AgreedSlot(c, d, cs);
    var special := IsSpecial(delta.value.mask);
    CompressedIsExpected(c, d, p);
    CompressedStep(c, d, p.bytes, cs, delta.value, Min(p.recvHead, |sent.bytes|));
    var g := Rebuilt(d.slots[cs].h, h, special);
    BlurRebuilt(d.slots[cs].h, h, special);
    DeliveredBytes(g, p.bytes);
    var (c2, d', r) := Exchange(c, d, p);
    SyncAfter(c, d, c', d', cs, h, g);
    if special { SpecialShape(c.slots[cs].h, h); }
  }

  lemma SlotCount(c: Compressor, d: Decompressor)
    requires Sync(c, d)
    ensures |c.slots| == |d.slots| == MAX_SLOTS
  {}

  lemma AgreedSlot(c: Compressor, d: Decompressor, cs: nat)
    requires Sync(c, d) && cs < MAX_SLOTS && c.slots[cs].Saved?
    ensures d.slots[cs].Saved? && WellFormed(d.slots[cs].h)
  {
    assert SlotsAgree(c.slots[cs], d.slots[cs]);
  }

  /** One packet keeps both sides in sync, is always accepted, comes out the same but for the uncompared
      bits, and comes out unchanged exactly when it is restorable. */
  lemma StepInSync(c: Compressor, d: Decompressor, p: Packet)
    requires Sync(c, d) && Good(p)
    ensures var (c', d', r) := Exchange(c, d, p);
            && Sync(c', d')
            && r.Delivered? && SameButBlurred(r.bytes, p.bytes)
            && (r.bytes == p.bytes <==> Restorable(c, d, p))
  {
    hide Exchange, Parse, Chosen, Compress;
    if PassedThrough(p) {
      PassedThroughKeepsSync(c, d, p);
    } else if Chosen(c, p).1.None? {
      UncompressedKeepsSync(c, d, p);
    } else {
      CompressedKeepsSync(c, d, p);
    }
  }

  lemma PassedThroughKeepsSync(c: Compressor, d: Decompressor, p: Packet)
    requires Sync(c, d) && Good(p) && PassedThrough(p)
    ensures var (c', d', r) := Exchange(c, d, p);
            Sync(c', d') && c'.slots == c.slots && d' == d && r == Delivered(p.bytes)
  {
    var b := p.bytes;
    if Compressible(b, p.headLen) {
      LookupFacts(c, Get32(b, 12), Get32(b, 16), Get32(b, 4 * (b[0] % 0x10)));
    }
  }

  // ----- whole runs -----

  /** vj_compress_init on zeroed memory. */
  function InitialCompressor(compressSlot: bool): Compressor
  {
    Compressor(seq(MAX_SLOTS, i requires 0 <= i < MAX_SLOTS => MAX_SLOTS - 1 - i),
               seq(MAX_SLOTS, _ => Zeroed), NO_SLOT, compressSlot)
  }

  function InitialDecompressor(): Decompressor { Decompressor(seq(MAX_SLOTS, _ => Zeroed), NO_SLOT, true) }

  lemma InitialSync(compressSlot: bool)
    ensures Sync(InitialCompressor(compressSlot), InitialDecompressor())
  {}

  ghost predicate AllGood(ps: seq<Packet>) { forall p | p in ps :: Good(p) }

  /** What the decompressor delivers for a run of packets. */
  ghost function Run(c: Compressor, d: Decompressor, ps: seq<Packet>): (Compressor, Decompressor, seq<Received>)
    requires Sync(c, d) && AllGood(ps)
    decreases |ps|
  {
    if ps == [] then (c, d, [])
    else
      hide Exchange, Good, Sync;
      StepInSync(c, d, ps[0]);
      var (c1, d1, r) := Exchange(c, d, ps[0]);
      var (c2, d2, rs) := Run(c1, d1, ps[1..]);
      (c2, d2, [r] + rs)
  }

  /** Over every run, both sides stay in sync and every packet is accepted and comes out the same but
      for the uncompared bits. */
  lemma {:induction false} RunInSync(c: Compressor, d: Decompressor, ps: seq<Packet>)
    requires Sync(c, d) && AllGood(ps)
    ensures var (c', d', rs) := Run(c, d, ps);
            && Sync(c', d') && |rs| == |ps|
            && forall i | 0 <= i < |ps| :: rs[i].Delivered? && SameButBlurred(rs[i].bytes, ps[i].bytes)
    decreases |ps|
  {
    hide Sync, Good, Exchange, SameButBlurred;
    if ps != [] {
      StepInSync(c, d, ps[0]);
      var (c1, d1, r) := Exchange(c, d, ps[0]);
      RunInSync(c1, d1, ps[1..]);
    }
  }

  ghost predicate AllRestorable(c: Compressor, d: Decompressor, ps: seq<Packet>)
    requires Sync(c, d) && AllGood(ps)
    decreases |ps|
  {
    ps == []
    || (StepInSync(c, d, ps[0]);
        var (c1, d1, r) := Exchange(c, d, ps[0]);
        Restorable(c, d, ps[0]) && AllRestorable(c1, d1, ps[1..]))
  }

  /** Each result is the packet that went in. */
  ghost predicate Unchanged(rs: seq<Received>, ps: seq<Packet>)
  {
    |rs| == |ps| && forall i | 0 <= i < |ps| :: rs[i] == Delivered(ps[i].bytes)
  }

  lemma UnchangedFirst(r: Received, rs: seq<Received>, ps: seq<Packet>)
    requires ps != []
    ensures Unchanged([r] + rs, ps) <==> r == Delivered(ps[0].bytes) && Unchanged(rs, ps[1..])
  {
    if Unchanged([r] + rs, ps) {
      assert ([r] + rs)[0] == r;
      assert forall i | 0 <= i < |rs| :: rs[i] == ([r] + rs)[i + 1] && ps[1..][i] == ps[i + 1];
    }
  }

  /** A whole run comes out unchanged exactly when every packet of it is restorable. */
  lemma {:induction false} RunExact(c: Compressor, d: Decompressor, ps: seq<Packet>)
    requires Sync(c, d) && AllGood(ps)
    ensures Unchanged(Run(c, d, ps).2, ps) <==> AllRestorable(c, d, ps)
    decreases |ps|
  {
    hide Sync, Good, Exchange, Restorable, Unchanged;
    if ps != [] {
      StepInSync(c, d, ps[0]);
      var (c1, d1, r) := Exchange(c, d, ps[0]);
      RunExact(c1, d1, ps[1..]);
      UnchangedFirst(r, Run(c1, d1, ps[1..]).2, ps);
    } else {
      NothingUnchanged();
    }
  }

  lemma NothingUnchanged()
    ensures Unchanged([], [])
  {}
}
