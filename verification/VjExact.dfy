/** Which runs come out unchanged, in terms of what the sender holds. */
module VjExact {
  import opened Words
  import opened VjHeader
  import opened VjSpec
  import opened VjSync

  /** Both ends have saved the same headers, the uncompared bits included. */
  ghost predicate Alike(c: Compressor, d: Decompressor)
    requires Sync(c, d)
  {
    forall i | 0 <= i < MAX_SLOTS && c.slots[i].Saved? :: d.slots[i] == c.slots[i]
  }

  /** The bits that the compressor neither compares nor sends. */
  datatype Silent = Silent(x2: Nibble, ece: bool, cwr: bool)

  function SilentOf(h: Header): Silent { Silent(h.x2, h.flags.ece, h.flags.cwr) }

  /** A packet that is sent in a special form follows a saved header without URG. */
  ghost predicate NotStale(c: Compressor, p: Packet)
    requires CompressorOk(c) && ValidIp(p.bytes, p.headLen)
  {
    PassedThrough(p)
    || (var (cs, delta) := Chosen(c, p);
        cs < |c.slots| && c.slots[cs].Saved? && delta.Some? && IsSpecial(delta.value.mask) ==> !c.slots[cs].h.flags.urg)
  }

  /** A packet that is sent compressed has the silent bits of the header saved for its connection. */
  ghost predicate SameSilent(c: Compressor, p: Packet)
    requires CompressorOk(c) && ValidIp(p.bytes, p.headLen)
  {
    PassedThrough(p)
    || (var (cs, delta) := Chosen(c, p);
        cs < |c.slots| && c.slots[cs].Saved? && delta.Some? && HasHeaders(p.bytes)
        ==> SilentOf(c.slots[cs].h) == SilentOf(Parse(p.bytes)))
  }

  ghost predicate AllValid(ps: seq<Packet>) { forall p | p in ps :: ValidIp(p.bytes, p.headLen) }

  lemma CompressKeeps(c: Compressor, p: Packet)
    requires CompressorOk(c) && ValidIp(p.bytes, p.headLen)
    ensures CompressorOk(Compress(c, p.bytes, p.headLen).0)
  {
    hide Difference, Parse, CompressedBytes;
    var b := p.bytes;
    if Compressible(b, p.headLen) {
      LookupFacts(c, Get32(b, 12), Get32(b, 16), Get32(b, 4 * (b[0] % 0x10)));
      if !PassedThrough(p) { ParsedWellFormed(b); }
    }
  }

  lemma ParsedWellFormed(b: seq<Byte>)
    requires HasHeaders(b)
    ensures WellFormed(Parse(b))
  {}

  /** The condition for a run, on the sender's own slots as it goes along. */
  ghost predicate Steady(c: Compressor, ps: seq<Packet>)
    requires CompressorOk(c) && AllValid(ps)
    decreases |ps|
  {
    ps == []
    || (CompressKeeps(c, ps[0]);
        NotStale(c, ps[0]) && SameSilent(c, ps[0]) && Steady(Compress(c, ps[0].bytes, ps[0].headLen).0, ps[1..]))
  }

  /** While both ends are alike, a packet comes out unchanged exactly when the sender's condition holds, and then they
      stay alike. */
  lemma AlikeStep(c: Compressor, d: Decompressor, p: Packet)
    requires Sync(c, d) && Alike(c, d) && Good(p)
    ensures Restorable(c, d, p) <==> NotStale(c, p) && SameSilent(c, p)
    ensures var (c', d', r) := Exchange(c, d, p);
            && c' == Compress(c, p.bytes, p.headLen).0
            && Sync(c', d') && (Restorable(c, d, p) ==> Alike(c', d'))
  {
    hide Parse, Compress, Difference, UncompressTcp, UncompressUncomp;
    StepInSync(c, d, p);
    if PassedThrough(p) {
      PassedThroughKeepsSync(c, d, p);
    } else {
      hide Chosen;
      ChosenFacts(c, d, p);
      SlotCount(c, d);
      var cs := Chosen(c, p).0;
      if Chosen(c, p).1.None? {
        UncompressedKeepsSync(c, d, p);
      } else {
        CompressedKeepsSync(c, d, p);
      }
    }
  }

  lemma InitialAlike(compressSlot: bool)
    ensures Sync(InitialCompressor(compressSlot), InitialDecompressor())
    ensures Alike(InitialCompressor(compressSlot), InitialDecompressor())
  {}

  lemma GoodIsValid(ps: seq<Packet>)
    requires AllGood(ps)
    ensures AllValid(ps)
  {}

  /** While both ends are alike, a run comes out unchanged exactly when the sender's condition holds all along. */
  lemma {:induction false} RunSteady(c: Compressor, d: Decompressor, ps: seq<Packet>)
    requires Sync(c, d) && Alike(c, d) && AllGood(ps)
    ensures CompressorOk(c) && AllValid(ps)
    ensures Unchanged(Run(c, d, ps).2, ps) <==> Steady(c, ps)
    decreases |ps|
  {
    GoodIsValid(ps);
    hide Good, Exchange, Restorable, Unchanged, Alike, NotStale, SameSilent, Compress, ValidIp;
    if ps == [] {
      NothingUnchanged();
    } else {
      var p := ps[0];
      assert Good(p) && ValidIp(p.bytes, p.headLen);
      StepInSync(c, d, p);
      AlikeStep(c, d, p);
      CompressKeeps(c, p);
      var (c1, d1, r) := Exchange(c, d, p);
      hide Sync, CompressorOk;
      UnchangedFirst(r, Run(c1, d1, ps[1..]).2, ps);
      if Restorable(c, d, p) { RunSteady(c1, d1, ps[1..]); }
    }
  }

  // ----- connections whose silent bits do not change -----

  /** The silent bits of each connection. */
  type SilentBits = (U32, U32, U32) -> Silent

  ghost predicate SlotsKeep(c: Compressor, bits: SilentBits)
    requires CompressorOk(c)
  {
    forall i | 0 <= i < MAX_SLOTS && c.slots[i].Saved? ::
      var h := c.slots[i].h; SilentOf(h) == bits(h.src, h.dst, h.ports)
  }

  ghost predicate PacketKeeps(p: Packet, bits: SilentBits)
  {
    HasHeaders(p.bytes) ==> var h := Parse(p.bytes); SilentOf(h) == bits(h.src, h.dst, h.ports)
  }

  /** Whenever a packet of the run is sent in a special form, the header saved for its connection has no URG. */
  ghost predicate NeverStale(c: Compressor, ps: seq<Packet>)
    requires CompressorOk(c) && AllValid(ps)
    decreases |ps|
  {
    ps == []
    || (CompressKeeps(c, ps[0]); NotStale(c, ps[0]) && NeverStale(Compress(c, ps[0].bytes, ps[0].headLen).0, ps[1..]))
  }

  /** What the compressor holds after one packet. */
  lemma SlotsAfter(c: Compressor, p: Packet)
    requires CompressorOk(c) && ValidIp(p.bytes, p.headLen)
    ensures var c' := Compress(c, p.bytes, p.headLen).0;
            if PassedThrough(p) then c'.slots == c.slots
            else
              var (cs, delta) := Chosen(c, p);
              && HasHeaders(p.bytes) && cs < MAX_SLOTS && c'.slots == c.slots[cs := Saved(Parse(p.bytes))]
              && (delta.Some? ==> c.slots[cs].Saved? && delta == Difference(c.slots[cs].h, Parse(p.bytes))
                                  && var h := Parse(p.bytes); Matches(c.slots[cs], h.src, h.dst, h.ports))
  {
    hide Difference, CompressedBytes;
    var b := p.bytes;
    if Compressible(b, p.headLen) {
      LookupFacts(c, Get32(b, 12), Get32(b, 16), Get32(b, 4 * (b[0] % 0x10)));
      if !PassedThrough(p) { ParseKey(b); }
    }
  }

  lemma KeepsStep(c: Compressor, p: Packet, bits: SilentBits)
    requires CompressorOk(c) && ValidIp(p.bytes, p.headLen) && SlotsKeep(c, bits) && PacketKeeps(p, bits)
    ensures SameSilent(c, p)
    ensures CompressorOk(Compress(c, p.bytes, p.headLen).0) && SlotsKeep(Compress(c, p.bytes, p.headLen).0, bits)
  {
    CompressKeeps(c, p);
    SlotsAfter(c, p);
    hide Parse, Compress, Difference, Chosen, ValidIp, HasHeaders;
  }

  /** If the silent bits are constant per connection, a run comes out unchanged exactly when no special form meets a
      stale URG. */
  lemma {:induction false} ConstantSteady(c: Compressor, ps: seq<Packet>, bits: SilentBits)
    requires CompressorOk(c) && AllValid(ps) && SlotsKeep(c, bits) && forall p | p in ps :: PacketKeeps(p, bits)
    ensures Steady(c, ps) <==> NeverStale(c, ps)
    decreases |ps|
  {
    hide CompressorOk, SlotsKeep, PacketKeeps, Compress, NotStale, SameSilent, ValidIp;
    if ps != [] {
      KeepsStep(c, ps[0], bits);
      ConstantSteady(Compress(c, ps[0].bytes, ps[0].headLen).0, ps[1..], bits);
    }
  }

  lemma ConstantRun(c: Compressor, d: Decompressor, ps: seq<Packet>, bits: SilentBits)
    requires Sync(c, d) && Alike(c, d) && AllGood(ps)
    requires SlotsKeep(c, bits) && forall p | p in ps :: PacketKeeps(p, bits)
    ensures CompressorOk(c) && AllValid(ps)
    ensures Unchanged(Run(c, d, ps).2, ps) <==> NeverStale(c, ps)
  {
    RunSteady(c, d, ps);
    ConstantSteady(c, ps, bits);
  }

  ghost predicate NoUrgent(c: Compressor)
    requires CompressorOk(c)
  {
    forall i | 0 <= i < MAX_SLOTS && c.slots[i].Saved? :: !c.slots[i].h.flags.urg
  }

  lemma UrgentStep(c: Compressor, p: Packet)
    requires CompressorOk(c) && ValidIp(p.bytes, p.headLen) && NoUrgent(c)
    requires HasHeaders(p.bytes) ==> !Parse(p.bytes).flags.urg
    ensures NotStale(c, p)
    ensures CompressorOk(Compress(c, p.bytes, p.headLen).0) && NoUrgent(Compress(c, p.bytes, p.headLen).0)
  {
    CompressKeeps(c, p);
    SlotsAfter(c, p);
    hide Parse, Compress, Difference, Chosen, ValidIp, HasHeaders;
  }

  /** Without urgent data there is nothing stale. */
  lemma {:induction false} UrgentFree(c: Compressor, ps: seq<Packet>)
    requires CompressorOk(c) && AllValid(ps) && NoUrgent(c)
    requires forall p | p in ps && HasHeaders(p.bytes) :: !Parse(p.bytes).flags.urg
    ensures NeverStale(c, ps)
    decreases |ps|
  {
    hide CompressorOk, NoUrgent, Compress, ValidIp, Parse, HasHeaders, NotStale;
    if ps != [] {
      assert ps[0] in ps;
      UrgentStep(c, ps[0]);
      UrgentFree(Compress(c, ps[0].bytes, ps[0].headLen).0, ps[1..]);
    }
  }

  // ----- a stale URG -----

  /** A packet with a given header, whole in one buffer. */
  function PacketOf(h: Header, data: seq<Byte>): Packet { Packet(Bytes(h) + data, |Bytes(h) + data|, MAX_HDR) }

  /** The header belongs to an unfragmented TCP packet with this much data, with ACK and none of SYN, FIN, RST, and its
      length and checksum are right. */
  ghost predicate Regular(h: Header, data: seq<Byte>)
  {
    && WellFormed(h) && h.proto == IPPROTO_TCP && Hi(h.off) % 0x40 == 0 && Lo(h.off) == 0 && AckOnly(h.flags)
    && h.len == HeaderLength(h) + |data| && h.ipSum == RecomputedSum(h)
  }

  lemma RegularGood(h: Header, data: seq<Byte>)
    requires Regular(h, data)
    ensures var p := PacketOf(h, data);
            Good(p) && !PassedThrough(p) && HasHeaders(p.bytes) && Parse(p.bytes) == h
  {
    var p := Bytes(h) + data;
    ParseBytes(h, data);
    BytesLength(h);
    ParseKey(p);
    ParsedFields(p);
    hide Bytes, RecomputedSum, FlagsOf, Get32;
  }

  lemma ParsedFields(b: seq<Byte>)
    requires HasHeaders(b)
    ensures var h := Parse(b);
            && Hi(h.off) == b[6] && Lo(h.off) == b[7] && h.hl == b[0] % 0x10 && HeaderLength(h) == WireHeaderLength(b)
            && 20 <= 4 * (b[0] % 0x10) && 5 <= b[4 * (b[0] % 0x10) + 12] / 0x10
  {
    var t := 4 * (b[0] % 0x10);
    assert b[t..][12] == b[t + 12];
    Split16(b[6], b[7]);
  }

  /** The header of the next segment, in sequence, without URG. */
  function Following(o: Header): Header
    requires HeaderLength(o) <= o.len
  {
    var h := o.(seqno := Add32(o.seqno, o.len - HeaderLength(o)), id := Add16(o.id, 1), flags := o.flags.(urg := false));
    h.(ipSum := RecomputedSum(h))
  }

  lemma FollowingRegular(o: Header, data: seq<Byte>, next: seq<Byte>)
    requires Regular(o, data) && |next| == |data|
    ensures Regular(Following(o), next)
  {
    var h := o.(seqno := Add32(o.seqno, o.len - HeaderLength(o)), id := Add16(o.id, 1), flags := o.flags.(urg := false));
    SumOfIpPart(h, Following(o));
    hide RecomputedSum, Add32, Add16;
  }

  /** It is sent in a special form, and rebuilt with the URG of the header before it. */
  lemma StaleDifference(o: Header)
    requires WellFormed(o) && o.flags.urg && HeaderLength(o) < o.len
    ensures var h := Following(o);
            && Difference(o, h).Some? && IsSpecialD(Difference(o, h).value.mask)
            && Rebuilt(o, h, true) == h.(flags := h.flags.(urg := true)) != h
  {
    hide Changed, HeaderLength, RecomputedSum;
    var n := o.len - HeaderLength(o);
    var h := Following(o);
    SameLength(o, h);
    assert Sub32(h.seqno, o.seqno) == n && Sub16(h.id, o.id) == 1;
  }

  lemma FirstOnLink(compressSlot: bool, o: Header, data: seq<Byte>) returns (cs: nat)
    requires Regular(o, data)
    ensures Good(PacketOf(o, data))
    ensures var c, d, p := InitialCompressor(compressSlot), InitialDecompressor(), PacketOf(o, data);
            && Sync(c, d) && cs < MAX_SLOTS
            && var (c1, d1, r1) := Exchange(c, d, p);
               && Sync(c1, d1) && r1 == Delivered(p.bytes) && c1.order[0] == cs
               && c1.slots[cs] == Saved(o) && d1.slots[cs] == Saved(o)
               && forall i | 0 <= i < MAX_SLOTS && i != cs :: c1.slots[i].Zeroed?
  {
    var c, d, p := InitialCompressor(compressSlot), InitialDecompressor(), PacketOf(o, data);
    hide PacketOf, Parse, Difference, UncompressUncomp, UncompressTcp, Sync, Good, Regular, Transmit, HasHeaders, FirstMatch;
    InitialSync(compressSlot);
    RegularGood(o, data);
    FirstIsUncompressed(compressSlot, p);
    cs := Chosen(c, p).0;
    UncompressedKeepsSync(c, d, p);
    FrontIsChosen(c, d, p);
  }

  lemma FirstIsUncompressed(compressSlot: bool, p: Packet)
    requires Good(p) && !PassedThrough(p)
    ensures CompressorOk(InitialCompressor(compressSlot)) && ValidIp(p.bytes, p.headLen)
    ensures var (cs, delta) := Chosen(InitialCompressor(compressSlot), p); cs < MAX_SLOTS && delta.None?
  {
    var c, b := InitialCompressor(compressSlot), p.bytes;
    LookupFacts(c, Get32(b, 12), Get32(b, 16), Get32(b, 4 * (b[0] % 0x10)));
    hide Lookup, Get32, ValidIp;
  }

  /** The slot a packet is sent on is in front afterwards. */
  lemma FrontIsChosen(c: Compressor, d: Decompressor, p: Packet)
    requires Sync(c, d) && Good(p) && !PassedThrough(p)
    ensures CompressorOk(c) && ValidIp(p.bytes, p.headLen)
    ensures Compress(c, p.bytes, p.headLen).0.order != [] && Compress(c, p.bytes, p.headLen).0.order[0] == Chosen(c, p).0
  {
    hide Difference, Parse, CompressedBytes, RecomputedSum;
    var b := p.bytes;
    LookupFacts(c, Get32(b, 12), Get32(b, 16), Get32(b, 4 * (b[0] % 0x10)));
  }

  /** The slot just used is found again. */
  lemma FoundAgain(c: Compressor, cs: nat, o: Header, h: Header, p: Packet)
    requires CompressorOk(c) && cs < MAX_SLOTS && c.order[0] == cs && c.slots[cs] == Saved(o)
    requires forall i | 0 <= i < MAX_SLOTS && i != cs :: c.slots[i].Zeroed?
    requires ValidIp(p.bytes, p.headLen) && !PassedThrough(p) && HasHeaders(p.bytes) && Parse(p.bytes) == h
    requires h.src == o.src && h.dst == o.dst && h.ports == o.ports && h.src != 0
    ensures Chosen(c, p) == (cs, Difference(o, h))
  {
    var b := p.bytes;
    ParseKey(b);
    LookupFacts(c, Get32(b, 12), Get32(b, 16), Get32(b, 4 * (b[0] % 0x10)));
    hide Parse, Difference, Lookup, HasHeaders, ValidIp;
  }

  lemma SecondOnLink(c: Compressor, d: Decompressor, cs: nat, o: Header, q: Packet)
    requires Sync(c, d) && cs < MAX_SLOTS && c.order[0] == cs && c.slots[cs] == Saved(o) && d.slots[cs] == Saved(o)
    requires forall i | 0 <= i < MAX_SLOTS && i != cs :: c.slots[i].Zeroed?
    requires WellFormed(o) && o.flags.urg && HeaderLength(o) < o.len && o.src != 0
    requires Good(q) && !PassedThrough(q) && HasHeaders(q.bytes) && Parse(q.bytes) == Following(o)
    ensures var r := Exchange(c, d, q).2;
            r.Delivered? && SameButBlurred(r.bytes, q.bytes) && r.bytes != q.bytes
  {
    StaleDifference(o);
    SameConnection(o);
    hide Following, Parse, Difference, Exchange, Chosen, RecomputedSum, Good, HasHeaders, Rebuilt, SameButBlurred;
    assert ValidIp(q.bytes, q.headLen);
    FoundAgain(c, cs, o, Following(o), q);
    CompressedKeepsSync(c, d, q);
  }

  lemma SameConnection(o: Header)
    requires HeaderLength(o) <= o.len
    ensures var h := Following(o); h.src == o.src && h.dst == o.dst && h.ports == o.ports
  {
    hide RecomputedSum, Add32, Add16;
  }

  lemma RunTwo(c: Compressor, d: Decompressor, p: Packet, q: Packet)
    requires Sync(c, d) && AllGood([p, q])
    ensures Good(p) && Good(q)
    ensures var (c1, d1, r) := Exchange(c, d, p);
            Sync(c1, d1) && Run(c, d, [p, q]).2 == [r, Exchange(c1, d1, q).2]
  {
    hide Good, Exchange, Sync, SameButBlurred;
    assert p in [p, q] && q in [p, q] && [p, q][0] == p;
    StepInSync(c, d, p);
    var (c1, d1, r) := Exchange(c, d, p);
    assert [p, q][1..] == [q] && [q][1..] == [];
    StepInSync(c1, d1, q);
    var (c2, d2, r2) := Exchange(c1, d1, q);
    assert Run(c2, d2, []).2 == [];
    assert Run(c1, d1, [q]).2 == [r2];
  }

  lemma BothGood(p: Packet, q: Packet)
    requires Good(p) && Good(q)
    ensures AllGood([p, q])
  {
    hide Good;
  }

  lemma RegularLength(o: Header, data: seq<Byte>)
    requires Regular(o, data) && |data| > 0
    ensures WellFormed(o) && HeaderLength(o) < o.len
  {}

  /** Two packets of a connection, the first with URG and the second not, sent over a new link: the second comes out
      with URG set. */
  lemma StaleUrgent(compressSlot: bool, o: Header, data: seq<Byte>, next: seq<Byte>)
    requires Regular(o, data) && o.flags.urg && o.src != 0 && |next| == |data| > 0
    ensures Sync(InitialCompressor(compressSlot), InitialDecompressor())
    ensures var ps := [PacketOf(o, data), PacketOf(Following(o), next)];
            && AllGood(ps)
            && var rs := Run(InitialCompressor(compressSlot), InitialDecompressor(), ps).2;
               |rs| == 2 && rs[0] == Delivered(ps[0].bytes) && rs[1].Delivered? && rs[1].bytes != ps[1].bytes
  {
    RegularLength(o, data);
    FollowingRegular(o, data, next);
    hide *;
    var c, d, p, q := InitialCompressor(compressSlot), InitialDecompressor(), PacketOf(o, data), PacketOf(Following(o), next);
    var cs := FirstOnLink(compressSlot, o, data);
    RegularGood(Following(o), next);
    BothGood(p, q);
    RunTwo(c, d, p, q);
    var (c1, d1, r1) := Exchange(c, d, p);
    SecondOnLink(c1, d1, cs, o, q);
  }

  lemma SameLength(o: Header, h: Header)
    requires o.hl == h.hl && o.doff == h.doff
    ensures HeaderLength(o) == HeaderLength(h)
  {}
}
