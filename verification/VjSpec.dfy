/** Van Jacobson compression as functions on values (vj.c, sections 3.2.2 to 3.2.4 of RFC 1144): what
    one call computes from the saved headers and a packet. */
module VjSpec {
  import opened Words
  import opened VjHeader

  const MAX_SLOTS := 16
  const MAX_HDR := 128
  const IPPROTO_TCP: Byte := 6
  const NO_SLOT := 255

  datatype Option<T> = None | Some(value: T)

  /** A saved header. `Zeroed` is the memory before any packet; `Odd` a header the receiver accepted
      although one of its length nibbles is below five. */
  datatype Slot = Zeroed | Saved(h: Header) | Odd

  /** The bits of the first octet of a compressed packet. */
  datatype Changes = Changes(u: bool, w: bool, a: bool, s: bool, p: bool, i: bool, c: bool)

  function MaskByte(m: Changes): Byte
  {
    Power2Of8();
    Number([m.u, m.w, m.a, m.s, m.p, m.i, m.c, false])
  }

  function MaskOf(b: Byte): Changes
  {
    var t := Bits(b, 8);
    Changes(t[0], t[1], t[2], t[3], t[4], t[5], t[6])
  }

  /** SPECIAL_I: echoed interactive traffic. */
  predicate IsSpecialI(m: Changes) { m.s && !m.a && m.w && m.u }

  /** SPECIAL_D: unidirectional data. */
  predicate IsSpecialD(m: Changes) { m.s && m.a && m.w && m.u }

  // ----- compressor -----

  /** `order` lists the slots from most to least recently used. */
  datatype Compressor = Compressor(order: seq<nat>, slots: seq<Slot>, lastXmit: nat, compressSlot: bool)

  ghost predicate IsRing(order: seq<nat>)
  {
    && |order| == MAX_SLOTS
    && (forall i | 0 <= i < MAX_SLOTS :: order[i] < MAX_SLOTS)
    && (forall i, j | 0 <= i < j < MAX_SLOTS :: order[i] != order[j])
  }

  ghost predicate CompressorOk(c: Compressor)
  {
    && IsRing(c.order)
    && |c.slots| == MAX_SLOTS
    && (forall i | 0 <= i < MAX_SLOTS :: !c.slots[i].Odd? && (c.slots[i].Saved? ==> WellFormed(c.slots[i].h)))
  }

  datatype Kind = TypeIp | TypeUncompressed | TypeCompressed
  datatype Sent = Sent(kind: Kind, bytes: seq<Byte>)

  /** The connection a slot belongs to; zeroed memory reads as the all-zero connection. */
  predicate Matches(slot: Slot, src: U32, dst: U32, ports: U32)
  {
    match slot
    case Saved(h) => h.src == src && h.dst == dst && h.ports == ports
    case _ => src == 0 && dst == 0 && ports == 0
  }

  /** Position of the first slot in the ring, from position i on, that belongs to the connection. */
  function FirstMatch(slots: seq<Slot>, order: seq<nat>, src: U32, dst: U32, ports: U32, i: nat): (k: nat)
    requires i <= |order|
    requires forall j | 0 <= j < |order| :: order[j] < |slots|
    ensures i <= k <= |order|
    ensures forall j | i <= j < k :: !Matches(slots[order[j]], src, dst, ports)
    ensures k < |order| ==> Matches(slots[order[k]], src, dst, ports)
    decreases |order| - i
  {
    if i == |order| || Matches(slots[order[i]], src, dst, ports) then i
    else FirstMatch(slots, order, src, dst, ports, i + 1)
  }

  function MoveToFront(order: seq<nat>, k: nat): seq<nat>
    requires k < |order|
  {
    [order[k]] + order[..k] + order[k + 1..]
  }

  /** What the caller of vj_compress_tcp guarantees: a valid IP header and, where the packet is an
      unfragmented TCP packet of at least 40 octets, a valid fixed TCP header in the first buffer. */
  predicate ValidIp(p: seq<Byte>, headLen: nat)
  {
    && 20 <= headLen <= |p| < 0x1_0000
    && 5 <= p[0] % 0x10 && 4 * (p[0] % 0x10) <= headLen
    && (LooksTcp(p) ==>
          var t := 4 * (p[0] % 0x10);
          t + 20 <= headLen && 5 <= p[t + 12] / 0x10)
  }

  predicate LooksTcp(p: seq<Byte>)
    requires 20 <= |p|
  {
    p[9] == IPPROTO_TCP && p[6] % 0x40 == 0 && p[7] == 0 && 40 <= |p|
  }

  predicate AckOnly(f: Flags) { f.ack && !f.syn && !f.fin && !f.rst }

  /** An unfragmented TCP packet with ACK and none of SYN, FIN, RST. */
  predicate Compressible(p: seq<Byte>, headLen: nat)
    requires ValidIp(p, headLen)
  {
    LooksTcp(p) && AckOnly(FlagsOf(p[4 * (p[0] % 0x10) + 13]))
  }

  /** ENCODE, for a number known to be non-zero. */
  function Encode(n: U16): seq<Byte> { if n >= 0x100 then [0, Hi(n), Lo(n)] else [n] }

  /** ENCODEZ. */
  function EncodeZ(n: U16): seq<Byte> { if n >= 0x100 || n == 0 then [0, Hi(n), Lo(n)] else [n] }

  /** The fields that must not change between two packets of a connection. */
  predicate SameFixed(o: Header, h: Header)
  {
    && o.ver == h.ver && o.hl == h.hl && o.tos == h.tos && o.off == h.off && o.ttl == h.ttl && o.proto == h.proto
    && o.doff == h.doff && o.ipOpts == h.ipOpts && o.tcpOpts == h.tcpOpts
  }

  /** A difference that has been found to fit 16 bits, as such a number. */
  function Short(n: U32): U16 { if n <= 0xffff then n else 0 }

  function SeqTail(r: Header, h: Header, m: Changes): seq<Byte>
  {
    (if m.s then Encode(Short(Sub32(h.seqno, r.seqno))) else [])
    + (if m.i then EncodeZ(Sub16(h.id, r.id)) else [])
  }

  function AckTail(r: Header, h: Header, m: Changes): seq<Byte>
  {
    (if m.a then Encode(Short(Sub32(h.ackno, r.ackno))) else []) + SeqTail(r, h, m)
  }

  function WindowTail(r: Header, h: Header, m: Changes): seq<Byte>
  {
    (if m.w then Encode(Sub16(h.win, r.win)) else []) + AckTail(r, h, m)
  }

  /** The encoded changes from r to h, in the order urgent, window, ack, seq, id. */
  function Changed(r: Header, h: Header, m: Changes): seq<Byte>
  {
    (if m.u then EncodeZ(h.urp) else []) + WindowTail(r, h, m)
  }

  datatype Delta = Delta(mask: Changes, bytes: seq<Byte>)

  /** The change mask and the encoded changes from saved header o to header h; None when the packet
      must be sent uncompressed. */
  function Difference(o: Header, h: Header): Option<Delta>
  {
    var dW, dA, dS, dI := Sub16(h.win, o.win), Sub32(h.ackno, o.ackno), Sub32(h.seqno, o.seqno), Sub16(h.id, o.id);
    var u, w, a, s := h.flags.urg, dW != 0, dA != 0, dS != 0;
    var mask := Changes(u, w, a, s, h.flags.psh, dI != 1, false);
    var payload := o.len - HeaderLength(h);
    var idBytes := if dI != 1 then EncodeZ(dI) else [];
    if !SameFixed(o, h) || (!u && h.urp != o.urp) || dA > 0xffff || dS > 0xffff then None
    else if !u && !w && !a && !s && !(h.len != o.len && payload == 0) then None
    else if s && w && u then None
    else if s && a && !w && !u && dS == dA == payload then Some(Delta(mask.(a := false, w := true, u := true), idBytes))
    else if s && !a && !w && !u && dS == payload then Some(Delta(mask.(a := true, w := true, u := true), idBytes))
    else Some(Delta(mask, Changed(o, h, mask)))
  }

  function Save(c: Compressor, cs: nat, h: Header): Compressor
    requires cs < |c.slots|
  {
    c.(slots := c.slots[cs := Saved(h)], lastXmit := cs)
  }

  /** The slot number must be sent: slot numbers are never left out, or the last packet used another slot. */
  predicate NeedsSlot(c: Compressor, cs: nat) { !c.compressSlot || c.lastXmit != cs }

  function CompressedBytes(explicit: bool, cs: nat, d: Delta, h: Header, p: seq<Byte>): seq<Byte>
    requires cs < MAX_SLOTS && HeaderLength(h) <= |p|
  {
    [MaskByte(d.mask.(c := explicit))] + (if explicit then [cs] else []) + [Hi(h.sum), Lo(h.sum)]
    + d.bytes + p[HeaderLength(h)..]
  }

  /** The ring after looking a connection up, and whether a slot for it was found: on a hit the found
      slot moves to the front, on a miss the oldest slot does. */
  function Lookup(c: Compressor, src: U32, dst: U32, ports: U32): (seq<nat>, bool)
    requires CompressorOk(c)
  {
    var k := FirstMatch(c.slots, c.order, src, dst, ports, 0);
    (MoveToFront(c.order, if k < MAX_SLOTS then k else MAX_SLOTS - 1), k < MAX_SLOTS)
  }

  /** The TCP/IP header length the two nibbles announce. */
  function WireHeaderLength(p: seq<Byte>): nat
    requires 20 <= |p| && 4 * (p[0] % 0x10) + 20 <= |p|
  {
    var t := 4 * (p[0] % 0x10);
    t + 4 * (p[t + 12] / 0x10)
  }

  /** Send header h of packet p on slot cs. */
  function Transmit(c: Compressor, cs: nat, hit: bool, p: seq<Byte>): (Compressor, Sent)
    requires cs < MAX_SLOTS == |c.slots| && HasHeaders(p)
  {
    var h := Parse(p);
    match if hit && c.slots[cs].Saved? then Difference(c.slots[cs].h, h) else None
    case None => (Save(c, cs, h), Sent(TypeUncompressed, p[9 := cs]))
    case Some(d) => (Save(c, cs, h), Sent(TypeCompressed, CompressedBytes(NeedsSlot(c, cs), cs, d, h, p)))
  }

  function Compress(c: Compressor, p: seq<Byte>, headLen: nat): (Compressor, Sent)
    requires CompressorOk(c) && ValidIp(p, headLen)
  {
    if !Compressible(p, headLen) then (c, Sent(TypeIp, p))
    else
      var (order, hit) := Lookup(c, Get32(p, 12), Get32(p, 16), Get32(p, 4 * (p[0] % 0x10)));
      var c' := c.(order := order);
      if WireHeaderLength(p) > headLen then (c', Sent(TypeIp, p)) else Transmit(c', order[0], hit, p)
  }

  // ----- decompressor -----

  datatype Decompressor = Decompressor(slots: seq<Slot>, lastRecv: nat, toss: bool)

  datatype Received = Delivered(bytes: seq<Byte>) | Rejected

  /** An octet of the first buffer; past the end of the packet the model reads zeros. */
  function At(b: seq<Byte>, i: nat): Byte { if i < |b| then b[i] else 0 }

  /** DECODE: the number at a position and the position after it. */
  function Decode(b: seq<Byte>, pos: nat): (U16, nat)
  {
    if At(b, pos) == 0 then (Word16(At(b, pos + 1), At(b, pos + 2)), pos + 3) else (At(b, pos), pos + 1)
  }

  function UncompressUncomp(d: Decompressor, b: seq<Byte>, headLen: nat): (Decompressor, Received)
    requires |d.slots| == MAX_SLOTS && headLen <= |b|
  {
    var id := At(b, 9);
    var t := 4 * (At(b, 0) % 0x10);
    if id >= MAX_SLOTS || t + 20 > headLen || t + 4 * (At(b, t + 12) / 0x10) > headLen
       || t + 4 * (At(b, t + 12) / 0x10) > MAX_HDR
    then (d.(toss := true), Rejected)
    else
      var p := b[9 := IPPROTO_TCP];
      (Decompressor(d.slots[id := if HasHeaders(p) then Saved(Parse(p)) else Odd], id, false), Delivered(p))
  }

  /** A header under reconstruction and the position of the next unread octet. */
  datatype Cursor = Cursor(h: Header, pos: nat)

  function PatchUrgent(m: Changes, b: seq<Byte>, k: Cursor): Cursor
  {
    if m.u then
      var (n, pos) := Decode(b, k.pos);
      Cursor(k.h.(flags := k.h.flags.(urg := true), urp := n), pos)
    else k.(h := k.h.(flags := k.h.flags.(urg := false)))
  }

  function PatchWindow(m: Changes, b: seq<Byte>, k: Cursor): Cursor
  {
    if m.w then var (n, pos) := Decode(b, k.pos); Cursor(k.h.(win := Add16(k.h.win, n)), pos) else k
  }

  function PatchAck(m: Changes, b: seq<Byte>, k: Cursor): Cursor
  {
    if m.a then var (n, pos) := Decode(b, k.pos); Cursor(k.h.(ackno := Add32(k.h.ackno, n)), pos) else k
  }

  function PatchSeq(m: Changes, b: seq<Byte>, k: Cursor): Cursor
  {
    if m.s then var (n, pos) := Decode(b, k.pos); Cursor(k.h.(seqno := Add32(k.h.seqno, n)), pos) else k
  }

  function PatchId(m: Changes, b: seq<Byte>, k: Cursor): Cursor
  {
    if m.i then var (n, pos) := Decode(b, k.pos); Cursor(k.h.(id := Add16(k.h.id, n)), pos)
    else k.(h := k.h.(id := Add16(k.h.id, 1)))
  }

  /** Apply the changes in a compressed packet, read from position pos, to saved header o. */
  function Patch(o: Header, m: Changes, b: seq<Byte>, pos: nat): Cursor
  {
    var h := o.(sum := Word16(At(b, pos), At(b, pos + 1)), flags := o.flags.(psh := m.p));
    var k := Cursor(h, pos + 2);
    var payload := o.len - HeaderLength(o);
    var k' :=
      if IsSpecialI(m) then k.(h := h.(ackno := Add32(h.ackno, payload), seqno := Add32(h.seqno, payload)))
      else if IsSpecialD(m) then k.(h := h.(seqno := Add32(h.seqno, payload)))
      else PatchSeq(m, b, PatchAck(m, b, PatchWindow(m, b, PatchUrgent(m, b, k))));
    PatchId(m, b, k')
  }

  /** The slot a compressed packet refers to has been set by an uncompressed packet. */
  ghost predicate RefersToSaved(d: Decompressor, b: seq<Byte>)
  {
    && |d.slots| == MAX_SLOTS
    && var m := MaskOf(At(b, 0));
       if m.c then At(b, 1) < MAX_SLOTS ==> d.slots[At(b, 1)].Saved?
       else !d.toss ==> d.lastRecv < MAX_SLOTS && d.slots[d.lastRecv].Saved?
  }

  /** Rebuild the header of slot id from the octets at position pos and put it before the data. */
  function Rebuild(d: Decompressor, id: nat, m: Changes, b: seq<Byte>, pos: nat, headLen: nat): (Decompressor, Received)
    requires id < MAX_SLOTS == |d.slots| && d.slots[id].Saved? && headLen <= |b|
  {
    var k := Patch(d.slots[id].h, m, b, pos);
    if headLen < k.pos then (Decompressor(d.slots[id := Saved(k.h)], id, true), Rejected)
    else
      var h := k.h.(len := (|b| - k.pos + HeaderLength(k.h)) % 0x1_0000);
      var h' := h.(ipSum := RecomputedSum(h));
      (Decompressor(d.slots[id := Saved(h')], id, false), Delivered(Bytes(h') + b[k.pos..]))
  }

  function UncompressTcp(d: Decompressor, b: seq<Byte>, headLen: nat): (Decompressor, Received)
    requires RefersToSaved(d, b) && headLen <= |b|
  {
    var m := MaskOf(At(b, 0));
    if m.c && At(b, 1) >= MAX_SLOTS then (d.(toss := true), Rejected)
    else if !m.c && d.toss then (d, Rejected)
    else if m.c then Rebuild(d, At(b, 1), m, b, 2, headLen)
    else Rebuild(d, d.lastRecv, m, b, 1, headLen)
  }
}
