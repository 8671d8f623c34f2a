/** Which packets the compressor sends compressed, and how short they are. */
module VjSent {
  import opened Words
  import opened VjHeader
  import opened VjSpec
  import opened VjSync

  /** The header that differs from o at most in what a compressed packet can carry or the receiver works out: lengths,
      identification, checksums, sequence numbers, window, flags, and the connection itself. */
  predicate SameElsewhere(o: Header, h: Header)
  {
    h == o.(len := h.len, id := h.id, ipSum := h.ipSum, src := h.src, dst := h.dst, ports := h.ports, seqno := h.seqno,
            ackno := h.ackno, x2 := h.x2, flags := h.flags, win := h.win, sum := h.sum, urp := h.urp)
  }

  /** The header repeats o: nothing is urgent and window, ack and sequence number stay. */
  predicate Repeats(o: Header, h: Header) { !h.flags.urg && h.win == o.win && h.ackno == o.ackno && h.seqno == o.seqno }

  /** RFC 1144, section 3.2.2: when the change from o to h can be encoded. A repetition is a retransmission or a window
      probe, unless it follows a packet without data with another length. */
  predicate CanBeSent(o: Header, h: Header)
  {
    && SameElsewhere(o, h)
    && (h.flags.urg || h.urp == o.urp)
    && (h.ackno - o.ackno) % 0x1_0000_0000 <= 0xffff && (h.seqno - o.seqno) % 0x1_0000_0000 <= 0xffff
    && !(h.flags.urg && h.win != o.win && h.seqno != o.seqno)
    && (Repeats(o, h) ==> h.len != o.len && o.len == HeaderLength(h))
  }

  lemma SubIs(a: U32, b: U32)
    ensures Sub32(a, b) == (a - b) % 0x1_0000_0000 && (Sub32(a, b) == 0 <==> a == b)
  {}

  lemma Sub16Zero(a: U16, b: U16)
    ensures Sub16(a, b) == 0 <==> a == b
  {}

  lemma FixedIs(o: Header, h: Header)
    ensures SameFixed(o, h) <==> SameElsewhere(o, h)
  {}

  lemma DifferenceWhen(o: Header, h: Header)
    ensures Difference(o, h).Some? <==> CanBeSent(o, h)
  {
    SubIs(h.ackno, o.ackno);
    SubIs(h.seqno, o.seqno);
    Sub16Zero(h.win, o.win);
    FixedIs(o, h);
    hide SameFixed, SameElsewhere, Sub32, Sub16, Changed, EncodeZ;
  }

  /** The slots in order of use, the k-th being the first that belongs to the packet's connection. */
  predicate IsFirst(c: Compressor, h: Header, k: nat)
    requires |c.order| == |c.slots| == MAX_SLOTS && forall i | 0 <= i < MAX_SLOTS :: c.order[i] < MAX_SLOTS
  {
    && k < MAX_SLOTS && Matches(c.slots[c.order[k]], h.src, h.dst, h.ports)
    && forall i | 0 <= i < k :: !Matches(c.slots[c.order[i]], h.src, h.dst, h.ports)
  }

  /** Looking up a connection finds its first slot. */
  lemma FoundFirst(c: Compressor, h: Header, k: nat)
    requires CompressorOk(c) && IsFirst(c, h, k)
    ensures Lookup(c, h.src, h.dst, h.ports).1 && Lookup(c, h.src, h.dst, h.ports).0 != []
    ensures Lookup(c, h.src, h.dst, h.ports).0[0] == c.order[k]
  {
    var m := FirstMatch(c.slots, c.order, h.src, h.dst, h.ports, 0);
    assert m == k;
  }

  lemma HeaderThere(p: Packet)
    requires ValidIp(p.bytes, p.headLen) && !PassedThrough(p)
    ensures HasHeaders(p.bytes) && WireHeaderLength(p.bytes) == HeaderLength(Parse(p.bytes)) <= |p.bytes|
  {}

  /** Passed through are exactly the packets that are not whole TCP segments with ACK and none of SYN, FIN and RST, or
      whose headers do not fit the first buffer. */
  lemma PassedWhen(c: Compressor, p: Packet)
    requires CompressorOk(c) && ValidIp(p.bytes, p.headLen)
    ensures Compress(c, p.bytes, p.headLen).1 != Sent(TypeIp, p.bytes)
            <==> HasHeaders(p.bytes) && 40 <= |p.bytes| && HeaderLength(Parse(p.bytes)) <= p.headLen
                 && var h := Parse(p.bytes);
                    h.proto == IPPROTO_TCP && h.off % 0x4000 == 0 && h.flags.ack && !h.flags.syn && !h.flags.fin && !h.flags.rst
  {
    if HasHeaders(p.bytes) {
      ParseKey(p.bytes);
      OffsetIs(p.bytes);
    }
    hide Transmit, FlagsOf, Get32, Lookup;
    var b := p.bytes;
    if Compressible(b, p.headLen) && WireHeaderLength(b) <= p.headLen {
      LookupFacts(c, Get32(b, 12), Get32(b, 16), Get32(b, 4 * (b[0] % 0x10)));
      var (order, hit) := Lookup(c, Get32(b, 12), Get32(b, 16), Get32(b, 4 * (b[0] % 0x10)));
      TransmitKind(c.(order := order), order[0], hit, b);
    }
  }

  lemma TransmitKind(c: Compressor, cs: nat, hit: bool, p: seq<Byte>)
    requires cs < MAX_SLOTS == |c.slots| && HasHeaders(p)
    ensures Transmit(c, cs, hit, p).1.kind != TypeIp
  {
    hide Difference, Parse, CompressedBytes;
  }

  lemma OffsetIs(b: seq<Byte>)
    requires HasHeaders(b)
    ensures Parse(b).off % 0x4000 == 0 <==> b[6] % 0x40 == 0 && b[7] == 0
    ensures HeaderLength(Parse(b)) == WireHeaderLength(b)
  {
    var t := 4 * (b[0] % 0x10);
    assert b[t..][12] == b[t + 12];
    assert Parse(b).off == Word16(b[6], b[7]);
    hide Parse;
    OffsetOctets(b[6], b[7]);
  }

  lemma OffsetOctets(a: Byte, b: Byte)
    ensures Word16(a, b) % 0x4000 == 0 <==> a % 0x40 == 0 && b == 0
  {
    var q, r := a / 0x40, a % 0x40;
    assert a == 0x40 * q + r && 0 <= q < 4;
    FromQuarter(q, 0x100 * r + b);
  }

  lemma FromQuarter(q: nat, x: nat)
    requires q < 4 && x < 0x4000
    ensures (0x4000 * q + x) % 0x4000 == x
  {
    if q == 0 {} else if q == 1 {} else if q == 2 {}
  }

  lemma OnMiss(c: Compressor, p: Packet)
    requires CompressorOk(c) && ValidIp(p.bytes, p.headLen) && !PassedThrough(p)
    requires HasHeaders(p.bytes)
    requires var h := Parse(p.bytes); forall k | 0 <= k < MAX_SLOTS :: !Matches(c.slots[c.order[k]], h.src, h.dst, h.ports)
    ensures Compress(c, p.bytes, p.headLen).1.kind == TypeUncompressed
  {
    ParseKey(p.bytes);
    var h := Parse(p.bytes);
    LookupFacts(c, h.src, h.dst, h.ports);
    NoneFound(c, h);
    hide Parse, Difference, Lookup, Get32, CompressedBytes;
  }

  lemma NoneFound(c: Compressor, h: Header)
    requires CompressorOk(c) && forall k | 0 <= k < MAX_SLOTS :: !Matches(c.slots[c.order[k]], h.src, h.dst, h.ports)
    ensures !Lookup(c, h.src, h.dst, h.ports).1
  {}

  /** What is sent for a packet of a connection whose slot has been saved. */
  lemma OnHitIs(c: Compressor, p: Packet, k: nat)
    requires CompressorOk(c) && ValidIp(p.bytes, p.headLen) && !PassedThrough(p)
    requires HasHeaders(p.bytes) && IsFirst(c, Parse(p.bytes), k) && c.slots[c.order[k]].Saved?
    ensures var h := Parse(p.bytes);
            var d := Difference(c.slots[c.order[k]].h, h);
            && HeaderLength(h) <= |p.bytes| && c.order[k] < MAX_SLOTS
            && Compress(c, p.bytes, p.headLen).1
               == match d
                  case None => Sent(TypeUncompressed, p.bytes[9 := c.order[k]])
                  case Some(x) => Sent(TypeCompressed, CompressedBytes(NeedsSlot(c, c.order[k]), c.order[k], x, h, p.bytes))
  {
    ParseKey(p.bytes);
    HeaderThere(p);
    FoundFirst(c, Parse(p.bytes), k);
    hide Parse, Difference, Lookup, Get32, CompressedBytes;
  }

  /** A packet of a known connection is sent compressed if and only if the change from the saved header can be encoded, and
      its header then takes at most 19 octets. */
  lemma OnHit(c: Compressor, p: Packet, k: nat)
    requires CompressorOk(c) && ValidIp(p.bytes, p.headLen) && !PassedThrough(p)
    requires HasHeaders(p.bytes) && IsFirst(c, Parse(p.bytes), k) && c.slots[c.order[k]].Saved?
    ensures var h := Parse(p.bytes);
            var sent := Compress(c, p.bytes, p.headLen).1;
            && HeaderLength(h) <= |p.bytes|
            && sent.kind == (if CanBeSent(c.slots[c.order[k]].h, h) then TypeCompressed else TypeUncompressed)
            && (sent.kind == TypeCompressed ==> |sent.bytes| <= |p.bytes| - HeaderLength(h) + 19)
  {
    OnHitIs(c, p, k);
    var o, h := c.slots[c.order[k]].h, Parse(p.bytes);
    DifferenceWhen(o, h);
    if Difference(o, h).Some? { DeltaLength(o, h); }
    hide Parse, Difference, Compress, CanBeSent, CompressorOk;
  }

  /** The next segment of a transfer: nothing but the sequence number has moved, by the data of the packet before, or the
      ack by as much. */
  predicate Streams(o: Header, h: Header)
  {
    && SameElsewhere(o, h) && !h.flags.urg && h.urp == o.urp && h.win == o.win && h.id == (o.id + 1) % 0x1_0000
    && o.len > HeaderLength(h) && (h.seqno - o.seqno) % 0x1_0000_0000 == o.len - HeaderLength(h)
    && (h.ackno == o.ackno || (h.ackno - o.ackno) % 0x1_0000_0000 == o.len - HeaderLength(h))
  }

  /** Its header takes three octets, and a fourth if the slot must be named. */
  lemma StreamsShort(c: Compressor, p: Packet, k: nat)
    requires CompressorOk(c) && ValidIp(p.bytes, p.headLen) && !PassedThrough(p)
    requires HasHeaders(p.bytes) && IsFirst(c, Parse(p.bytes), k) && c.slots[c.order[k]].Saved?
    requires Streams(c.slots[c.order[k]].h, Parse(p.bytes))
    ensures var h := Parse(p.bytes);
            var sent := Compress(c, p.bytes, p.headLen).1;
            && HeaderLength(h) <= |p.bytes| && sent.kind == TypeCompressed
            && |sent.bytes| == |p.bytes| - HeaderLength(h) + (if c.compressSlot && c.lastXmit == c.order[k] then 3 else 4)
  {
    OnHitIs(c, p, k);
    var o, h := c.slots[c.order[k]].h, Parse(p.bytes);
    StreamsDelta(o, h);
    hide Parse, Difference, Compress, CompressorOk, Streams;
  }

  lemma StreamsDelta(o: Header, h: Header)
    requires Streams(o, h)
    ensures Difference(o, h).Some? && Difference(o, h).value.bytes == []
  {
    SubIs(h.ackno, o.ackno);
    SubIs(h.seqno, o.seqno);
    Sub16Zero(h.win, o.win);
    NextId(h.id, o.id);
    FixedIs(o, h);
    hide SameFixed, SameElsewhere, Sub32, Sub16, Changed, EncodeZ;
  }

  lemma NextId(a: U16, b: U16)
    ensures Sub16(a, b) == 1 <==> a == (b + 1) % 0x1_0000
  {}
}
