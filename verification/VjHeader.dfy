/** The TCP/IP header that Van Jacobson compression works on (vjbsdhdr.h): its fields, the octets they
    stand for, and the recomputed IP header checksum. */
module VjHeader {
  import opened Words

  datatype Flags = Flags(fin: bool, syn: bool, rst: bool, psh: bool, ack: bool, urg: bool, ece: bool, cwr: bool)

  datatype Header = Header(
    ver: Nibble, hl: Nibble, tos: Byte, len: U16, id: U16, off: U16, ttl: Byte, proto: Byte, ipSum: U16,
    src: U32, dst: U32, ipOpts: seq<Byte>,
    ports: U32, seqno: U32, ackno: U32, doff: Nibble, x2: Nibble, flags: Flags, win: U16, sum: U16, urp: U16,
    tcpOpts: seq<Byte>)

  /** Option areas have the sizes that the two length nibbles announce. */
  ghost predicate WellFormed(h: Header)
  {
    && 5 <= h.hl && |h.ipOpts| == 4 * h.hl - 20
    && 5 <= h.doff && |h.tcpOpts| == 4 * h.doff - 20
  }

  function HeaderLength(h: Header): nat { 4 * (h.hl + h.doff) }

  /** The number whose binary digits, lowest first, are the given bits. */
  function Number(bits: seq<bool>): (n: nat)
    ensures n < Power2(|bits|)
  {
    if bits == [] then 0 else (if bits[0] then 1 else 0) + 2 * Number(bits[1..])
  }

  function Power2(k: nat): nat { if k == 0 then 1 else 2 * Power2(k - 1) }

  function Bits(n: nat, k: nat): (bits: seq<bool>)
    ensures |bits| == k
  {
    if k == 0 then [] else [n % 2 == 1] + Bits(n / 2, k - 1)
  }

  lemma {:induction false} BitsNumber(bits: seq<bool>)
    ensures Bits(Number(bits), |bits|) == bits
  {
    if bits != [] {
      BitsNumber(bits[1..]);
      assert Number(bits) / 2 == Number(bits[1..]);
    }
  }

  lemma {:induction false} NumberBits(n: nat, k: nat)
    requires n < Power2(k)
    ensures Number(Bits(n, k)) == n
  {
    if k > 0 {
      NumberBits(n / 2, k - 1);
      assert Bits(n, k)[1..] == Bits(n / 2, k - 1);
    }
  }

  function FlagBits(f: Flags): seq<bool> { [f.fin, f.syn, f.rst, f.psh, f.ack, f.urg, f.ece, f.cwr] }

  function FlagsByte(f: Flags): Byte
  {
    assert Power2(8) == 0x100 by { Power2Of8(); }
    Number(FlagBits(f))
  }

  function FlagsOf(b: Byte): Flags
  {
    var s := Bits(b, 8);
    Flags(s[0], s[1], s[2], s[3], s[4], s[5], s[6], s[7])
  }

  lemma Power2Of8()
    ensures Power2(8) == 0x100
  {
    assert Power2(4) == 16;
  }

  lemma BitList(s: seq<bool>)
    requires |s| == 8
    ensures [s[0], s[1], s[2], s[3], s[4], s[5], s[6], s[7]] == s
  {}

  lemma FlagsRoundTrip(f: Flags)
    ensures FlagsOf(FlagsByte(f)) == f
  {
    BitsNumber(FlagBits(f));
  }

  lemma OctetRoundTrip(b: Byte)
    ensures FlagsByte(FlagsOf(b)) == b
  {
    hide Bits, Power2, Number;
    Power2Of8();
    NumberBits(b, 8);
    BitList(Bits(b, 8));
  }

  function IpFixed(h: Header): (s: seq<Byte>)
    ensures |s| == 20
  {
    [0x10 * h.ver + h.hl, h.tos, Hi(h.len), Lo(h.len), Hi(h.id), Lo(h.id), Hi(h.off), Lo(h.off),
     h.ttl, h.proto, Hi(h.ipSum), Lo(h.ipSum),
     Oct(h.src, 0), Oct(h.src, 1), Oct(h.src, 2), Oct(h.src, 3),
     Oct(h.dst, 0), Oct(h.dst, 1), Oct(h.dst, 2), Oct(h.dst, 3)]
  }

  function OffsetByte(h: Header): Byte { 0x10 * h.doff + h.x2 }

  function TcpFixed(h: Header): (s: seq<Byte>)
    ensures |s| == 20
  {
    [Oct(h.ports, 0), Oct(h.ports, 1), Oct(h.ports, 2), Oct(h.ports, 3),
     Oct(h.seqno, 0), Oct(h.seqno, 1), Oct(h.seqno, 2), Oct(h.seqno, 3),
     Oct(h.ackno, 0), Oct(h.ackno, 1), Oct(h.ackno, 2), Oct(h.ackno, 3),
     OffsetByte(h), FlagsByte(h.flags), Hi(h.win), Lo(h.win),
     Hi(h.sum), Lo(h.sum), Hi(h.urp), Lo(h.urp)]
  }

  function IpBytes(h: Header): seq<Byte> { IpFixed(h) + h.ipOpts }

  function Bytes(h: Header): seq<Byte> { IpBytes(h) + (TcpFixed(h) + h.tcpOpts) }

  /** The octets hold a complete IP header followed by a complete TCP header. */
  predicate HasHeaders(p: seq<Byte>)
  {
    && 20 <= |p|
    && var ip := 4 * (p[0] % 0x10);
       && 20 <= ip && ip + 20 <= |p|
       && 5 <= p[ip + 12] / 0x10
       && ip + 4 * (p[ip + 12] / 0x10) <= |p|
  }

  function Parse(p: seq<Byte>): (h: Header)
    requires HasHeaders(p)
    ensures WellFormed(h) && HeaderLength(h) <= |p|
  {
    var t := 4 * (p[0] % 0x10);
    var q := p[t..];
    Header(p[0] / 0x10, p[0] % 0x10, p[1], Get16(p, 2), Get16(p, 4), Get16(p, 6), p[8], p[9], Get16(p, 10),
           Get32(p, 12), Get32(p, 16), p[20..t],
           Get32(q, 0), Get32(q, 4), Get32(q, 8), q[12] / 0x10, q[12] % 0x10, FlagsOf(q[13]),
           Get16(q, 14), Get16(q, 16), Get16(q, 18), q[20..4 * (q[12] / 0x10)])
  }

  lemma BytesLength(h: Header)
    requires WellFormed(h)
    ensures |IpBytes(h)| == 4 * h.hl && |Bytes(h)| == HeaderLength(h)
  {}

  lemma ParseIpPart(h: Header, p: seq<Byte>)
    requires WellFormed(h) && 4 * h.hl <= |p| && p[..4 * h.hl] == IpBytes(h)
    requires HasHeaders(p)
    ensures var g := Parse(p);
            && g.ver == h.ver && g.hl == h.hl && g.tos == h.tos && g.len == h.len && g.id == h.id && g.off == h.off
            && g.ttl == h.ttl && g.proto == h.proto && g.ipSum == h.ipSum && g.src == h.src && g.dst == h.dst
            && g.ipOpts == h.ipOpts
  {
    var b := p[..4 * h.hl];
    assert forall i | 0 <= i < 20 :: p[i] == b[i] == IpFixed(h)[i];
    assert p[20..4 * h.hl] == b[20..] == h.ipOpts;
    Join16(h.len); Join16(h.id); Join16(h.off); Join16(h.ipSum);
    Join32(h.src); Join32(h.dst);
  }

  lemma ParseTcpPart(h: Header, p: seq<Byte>)
    requires WellFormed(h) && HeaderLength(h) <= |p| && p[4 * h.hl..HeaderLength(h)] == TcpFixed(h) + h.tcpOpts
    requires HasHeaders(p) && p[0] % 0x10 == h.hl
    ensures var g := Parse(p);
            && g.ports == h.ports && g.seqno == h.seqno && g.ackno == h.ackno && g.doff == h.doff && g.x2 == h.x2
            && g.flags == h.flags && g.win == h.win && g.sum == h.sum && g.urp == h.urp && g.tcpOpts == h.tcpOpts
  {
    var q := p[4 * h.hl..];
    var b := q[..4 * h.doff];
    assert b == TcpFixed(h) + h.tcpOpts;
    assert forall i | 0 <= i < 20 :: q[i] == b[i] == TcpFixed(h)[i];
    assert q[20..4 * h.doff] == b[20..] == h.tcpOpts;
    Join32(h.ports); Join32(h.seqno); Join32(h.ackno);
    Join16(h.win); Join16(h.sum); Join16(h.urp);
    FlagsRoundTrip(h.flags);
  }

  lemma Slices(a: seq<Byte>, b: seq<Byte>, d: seq<Byte>)
    requires 0 < |a| && 12 < |b|
    ensures var p := a + b + d;
            && p[..|a|] == a && p[|a|..|a| + |b|] == b && p[|a| + |b|..] == d
            && p[0] == a[0] && p[|a| + 12] == b[12]
  {}

  lemma FirstOctets(h: Header)
    ensures IpBytes(h) != [] && IpBytes(h)[0] == 0x10 * h.ver + h.hl
    ensures (TcpFixed(h) + h.tcpOpts)[12] == 0x10 * h.doff + h.x2
  {}

  lemma Nibbles(a: Nibble, b: Nibble)
    ensures (0x10 * a + b) % 0x10 == b && (0x10 * a + b) / 0x10 == a
  {}

  lemma BytesLayout(h: Header, data: seq<Byte>)
    requires WellFormed(h)
    ensures var p := Bytes(h) + data;
            && HasHeaders(p) && p[0] % 0x10 == h.hl
            && p[..4 * h.hl] == IpBytes(h) && p[4 * h.hl..HeaderLength(h)] == TcpFixed(h) + h.tcpOpts
            && p[HeaderLength(h)..] == data
  {
    hide IpFixed;
    Slices(IpBytes(h), TcpFixed(h) + h.tcpOpts, data);
    FirstOctets(h);
    Nibbles(h.ver, h.hl);
    Nibbles(h.doff, h.x2);
    BytesLength(h);
  }

  /** Reading back the octets of a header, whatever data follows, gives the header. */
  lemma ParseBytes(h: Header, data: seq<Byte>)
    requires WellFormed(h)
    ensures HasHeaders(Bytes(h) + data) && Parse(Bytes(h) + data) == h
  {
    BytesLayout(h, data);
    ParseIpPart(h, Bytes(h) + data);
    ParseTcpPart(h, Bytes(h) + data);
  }

  lemma IpBytesParse(p: seq<Byte>)
    requires HasHeaders(p)
    ensures IpBytes(Parse(p)) == p[..4 * Parse(p).hl]
  {
    Split16(p[2], p[3]); Split16(p[4], p[5]); Split16(p[6], p[7]); Split16(p[10], p[11]);
    Split32(p[12], p[13], p[14], p[15]); Split32(p[16], p[17], p[18], p[19]);
    var f := IpFixed(Parse(p));
    assert forall i | 0 <= i < 20 :: f[i] == p[i];
    assert f == p[..20];
  }

  lemma TcpBytesParse(p: seq<Byte>)
    requires HasHeaders(p)
    ensures var h := Parse(p); TcpFixed(h) + h.tcpOpts == p[4 * h.hl..HeaderLength(h)]
  {
    var h := Parse(p);
    var q := p[4 * h.hl..];
    Split32(q[0], q[1], q[2], q[3]); Split32(q[4], q[5], q[6], q[7]); Split32(q[8], q[9], q[10], q[11]);
    Split16(q[14], q[15]); Split16(q[16], q[17]); Split16(q[18], q[19]);
    OctetRoundTrip(q[13]);
    var f := TcpFixed(h);
    assert forall i | 0 <= i < 20 :: f[i] == q[i];
    assert f == q[..20];
    assert f + h.tcpOpts == q[..4 * h.doff];
  }

  /** Writing out the header read from a packet gives the packet's own octets. */
  lemma BytesParse(p: seq<Byte>)
    requires HasHeaders(p)
    ensures Bytes(Parse(p)) == p[..HeaderLength(Parse(p))]
  {
    hide IpBytes, TcpFixed, Parse;
    var h := Parse(p);
    IpBytesParse(p);
    TcpBytesParse(p);
    assert p[..HeaderLength(h)] == p[..4 * h.hl] + p[4 * h.hl..HeaderLength(h)];
  }

  /** Carries added back once. */
  function FoldOnce(n: nat): nat { n % 0x1_0000 + n / 0x1_0000 }

  /** The complement of a sum of little-endian 16-bit words, in network order. */
  function SumField(tmp: nat): U16
  {
    var c := (0xffff - FoldOnce(FoldOnce(tmp))) % 0x1_0000;
    0x100 * (c % 0x100) + c / 0x100
  }

  /** The words of s added to tmp one after the other, and the field made of their sum. */
  function SumWords(s: seq<Byte>, tmp: nat): U16
    decreases |s|
  {
    if |s| < 2 then SumField(tmp) else SumWords(s[2..], s[0] + 0x100 * s[1] + tmp)
  }

  /** The IP header checksum the decompressor fills in, in network order. */
  function RecomputedSum(h: Header): U16 { SumWords(IpBytes(h.(ipSum := 0)), 0) }
}
