/** A link that loses packets but reports it: what the toss flag is for. */
module VjLossy {
  import opened Words
  import opened VjHeader
  import opened VjSpec
  import opened VjSync

  /** The decompressor tosses, or would apply a packet without a slot number to the slot the compressor sent on last. */
  ghost predicate SameSlot(c: Compressor, d: Decompressor)
  {
    CompressorOk(c) && |d.slots| == MAX_SLOTS && (d.toss || d.lastRecv == c.lastXmit)
  }

  /** A packet that was sent arrives, its first buffer holding `headLen` octets. A packet that is neither compressed nor to be
      kept as a header passes by. */
  ghost function Arrived(d: Decompressor, sent: Sent, headLen: nat): (Decompressor, Received)
    requires headLen <= |sent.bytes| && |d.slots| == MAX_SLOTS && (sent.kind.TypeCompressed? ==> RefersToSaved(d, sent.bytes))
  {
    match sent.kind
    case TypeIp => (d, Delivered(sent.bytes))
    case TypeUncompressed => UncompressUncomp(d, sent.bytes, headLen)
    case TypeCompressed => UncompressTcp(d, sent.bytes, headLen)
  }

  /** vj_uncompress_err, on which the loss of a packet is reported. */
  function Reported(d: Decompressor): Decompressor { d.(toss := true) }

  /** A compressed packet names its slot unless it is that of the packet before. */
  lemma SentOn(c: Compressor, p: Packet)
    requires CompressorOk(c) && ValidIp(p.bytes, p.headLen)
    ensures var (c', sent) := Compress(c, p.bytes, p.headLen);
            var m := MaskOf(At(sent.bytes, 0));
            && CompressorOk(c')
            && (sent.kind.TypeIp? ==> c'.lastXmit == c.lastXmit)
            && (sent.kind.TypeUncompressed? ==> c'.lastXmit < MAX_SLOTS && At(sent.bytes, 9) == c'.lastXmit)
            && (sent.kind.TypeCompressed? ==>
                  c'.lastXmit < MAX_SLOTS && (if m.c then At(sent.bytes, 1) == c'.lastXmit else c'.lastXmit == c.lastXmit))
  {
    hide Difference, Parse, CompressedBytes, MaskOf;
    var b := p.bytes;
    if Compressible(b, p.headLen) {
      LookupFacts(c, Get32(b, 12), Get32(b, 16), Get32(b, 4 * (b[0] % 0x10)));
      if WireHeaderLength(b) <= p.headLen {
        var (order, hit) := Lookup(c, Get32(b, 12), Get32(b, 16), Get32(b, 4 * (b[0] % 0x10)));
        var h, cs := Parse(b), order[0];
        HeaderParsed(b);
        if hit && c.slots[cs].Saved? && Difference(c.slots[cs].h, h).Some? {
          NamesSlot(c, cs, c.slots[cs].h, h, b);
        }
      }
    }
  }

  lemma HeaderParsed(b: seq<Byte>)
    requires HasHeaders(b)
    ensures WellFormed(Parse(b)) && HeaderLength(Parse(b)) <= |b|
  {}

  lemma NamesSlot(c: Compressor, cs: nat, o: Header, h: Header, b: seq<Byte>)
    requires cs < MAX_SLOTS && HeaderLength(h) <= |b| && Difference(o, h).Some?
    ensures var s := CompressedBytes(NeedsSlot(c, cs), cs, Difference(o, h).value, h, b);
            && (MaskOf(At(s, 0)).c <==> NeedsSlot(c, cs)) && (NeedsSlot(c, cs) ==> At(s, 1) == cs)
  {
    var d := Difference(o, h).value;
    CompressedLayout(NeedsSlot(c, cs), cs, d, h, b);
    MaskRoundTrip(d.mask.(c := NeedsSlot(c, cs)));
    hide Difference, CompressedBytes, MaskByte, MaskOf;
  }

  /** What an arrival may do: nothing but to the slot the packet was compressed with, and while the decompressor tosses a
      packet that does not name its slot is dropped. */
  ghost predicate RightSlot(c: Compressor, d: Decompressor, p: Packet, headLen: nat)
    requires CompressorOk(c) && ValidIp(p.bytes, p.headLen) && |d.slots| == MAX_SLOTS
    requires var sent := Compress(c, p.bytes, p.headLen).1;
             headLen <= |sent.bytes| && (sent.kind.TypeCompressed? ==> RefersToSaved(d, sent.bytes))
  {
    var (c', sent) := Compress(c, p.bytes, p.headLen);
    var (d', r) := Arrived(d, sent, headLen);
    && SameSlot(c', d')
    && (forall i | 0 <= i < MAX_SLOTS && i != c'.lastXmit :: d'.slots[i] == d.slots[i])
    && (r.Delivered? && !sent.kind.TypeIp? ==> d'.lastRecv == c'.lastXmit && !d'.toss)
    && (d.toss && sent.kind.TypeCompressed? && !MaskOf(At(sent.bytes, 0)).c ==> r.Rejected? && d' == d)
  }

  lemma ArrivalRight(c: Compressor, d: Decompressor, p: Packet, headLen: nat)
    requires SameSlot(c, d) && ValidIp(p.bytes, p.headLen)
    requires var sent := Compress(c, p.bytes, p.headLen).1;
             headLen <= |sent.bytes| && (sent.kind.TypeCompressed? ==> RefersToSaved(d, sent.bytes))
    ensures RightSlot(c, d, p, headLen)
  {
    hide Compress, CompressorOk, Patch, Bytes, RecomputedSum, Parse, MaskOf, UncompressTcp, UncompressUncomp;
    SentOn(c, p);
    var (c', sent) := Compress(c, p.bytes, p.headLen);
    if sent.kind.TypeCompressed? {
      CompressedArrives(d, c'.lastXmit, sent.bytes, headLen);
    } else if sent.kind.TypeUncompressed? {
      UncompressedArrives(d, c'.lastXmit, sent.bytes, headLen);
    }
  }

  lemma UncompressedArrives(d: Decompressor, id: nat, b: seq<Byte>, headLen: nat)
    requires id < MAX_SLOTS == |d.slots| && headLen <= |b| && At(b, 9) == id
    ensures var (d', r) := UncompressUncomp(d, b, headLen);
            && |d'.slots| == MAX_SLOTS && (d'.toss || d'.lastRecv == id) && (r.Delivered? ==> d'.lastRecv == id && !d'.toss)
            && forall i | 0 <= i < MAX_SLOTS && i != id :: d'.slots[i] == d.slots[i]
  {
    hide Parse;
  }

  lemma CompressedArrives(d: Decompressor, id: nat, b: seq<Byte>, headLen: nat)
    requires id < MAX_SLOTS && headLen <= |b| && RefersToSaved(d, b)
    requires if MaskOf(At(b, 0)).c then At(b, 1) == id else d.toss || d.lastRecv == id
    ensures var (d', r) := UncompressTcp(d, b, headLen);
            && |d'.slots| == MAX_SLOTS && (d'.toss || d'.lastRecv == id) && (r.Delivered? ==> d'.lastRecv == id && !d'.toss)
            && (forall i | 0 <= i < MAX_SLOTS && i != id :: d'.slots[i] == d.slots[i])
            && (d.toss && !MaskOf(At(b, 0)).c ==> r.Rejected? && d' == d)
  {
    var m := MaskOf(At(b, 0));
    hide Rebuild, MaskOf;
    if m.c || !d.toss { RebuildsSlot(d, id, m, b, if m.c then 2 else 1, headLen); }
  }

  lemma RebuildsSlot(d: Decompressor, id: nat, m: Changes, b: seq<Byte>, pos: nat, headLen: nat)
    requires id < MAX_SLOTS == |d.slots| && d.slots[id].Saved? && headLen <= |b|
    ensures var (d', r) := Rebuild(d, id, m, b, pos, headLen);
            && |d'.slots| == MAX_SLOTS && d'.lastRecv == id && (r.Delivered? <==> !d'.toss)
            && forall i | 0 <= i < MAX_SLOTS && i != id :: d'.slots[i] == d.slots[i]
  {
    hide Patch, Bytes, RecomputedSum;
  }

  // ----- whole runs -----

  datatype Fate = Arrives(headLen: nat) | Lost

  datatype Sending = Sending(p: Packet, fate: Fate)

  ghost predicate Sendable(c: Compressor, d: Decompressor, x: Sending)
    requires CompressorOk(c) && |d.slots| == MAX_SLOTS
  {
    && ValidIp(x.p.bytes, x.p.headLen)
    && (x.fate.Arrives? ==>
          var sent := Compress(c, x.p.bytes, x.p.headLen).1;
          x.fate.headLen <= |sent.bytes| && (sent.kind.TypeCompressed? ==> RefersToSaved(d, sent.bytes)))
  }

  ghost function After(c: Compressor, d: Decompressor, x: Sending): (Compressor, Decompressor)
    requires CompressorOk(c) && |d.slots| == MAX_SLOTS && Sendable(c, d, x)
  {
    var (c', sent) := Compress(c, x.p.bytes, x.p.headLen);
    (c', if x.fate.Lost? then Reported(d) else Arrived(d, sent, x.fate.headLen).0)
  }

  lemma AfterKeeps(c: Compressor, d: Decompressor, x: Sending)
    requires SameSlot(c, d) && Sendable(c, d, x)
    ensures var (c', d') := After(c, d, x); SameSlot(c', d')
  {
    if x.fate.Lost? { SentOn(c, x.p); } else { ArrivalRight(c, d, x.p, x.fate.headLen); }
    hide Compress;
  }

  ghost predicate LossyRun(c: Compressor, d: Decompressor, xs: seq<Sending>)
    requires SameSlot(c, d)
    decreases |xs|
  {
    xs != [] ==>
      Sendable(c, d, xs[0])
      && (hide SameSlot, After;
          AfterKeeps(c, d, xs[0]);
          var (c', d') := After(c, d, xs[0]);
          LossyRun(c', d', xs[1..]))
  }

  /** Every packet that arrives is applied to the slot it was compressed with, or dropped. */
  ghost predicate RightThroughout(c: Compressor, d: Decompressor, xs: seq<Sending>)
    requires SameSlot(c, d) && LossyRun(c, d, xs)
    decreases |xs|
  {
    xs != [] ==>
      && (xs[0].fate.Arrives? ==> RightSlot(c, d, xs[0].p, xs[0].fate.headLen))
      && (hide SameSlot, After;
          AfterKeeps(c, d, xs[0]);
          var (c', d') := After(c, d, xs[0]);
          RightThroughout(c', d', xs[1..]))
  }

  /** Over any run in which every loss is reported, whatever is lost: no packet is ever applied to another slot than the one it
      was compressed with. */
  lemma {:induction false} RunRightSlots(c: Compressor, d: Decompressor, xs: seq<Sending>)
    requires SameSlot(c, d) && LossyRun(c, d, xs)
    ensures RightThroughout(c, d, xs)
    decreases |xs|
  {
    hide After, RightSlot, Compress, CompressorOk;
    if xs != [] {
      var x := xs[0];
      if x.fate.Arrives? { ArrivalRight(c, d, x.p, x.fate.headLen); }
      AfterKeeps(c, d, x);
      var (c', d') := After(c, d, x);
      RunRightSlots(c', d', xs[1..]);
    }
  }

  lemma InitialSameSlot(compressSlot: bool)
    ensures SameSlot(InitialCompressor(compressSlot), InitialDecompressor())
  {}
}
