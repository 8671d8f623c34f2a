/** The state of one serial line (struct vjcompress) and the routines of vj.c that update it in place:
    the ring of connection slots linked through cs_next, and the saved headers on both sides. */
module VjCompress {
  import opened Words
  import opened VjHeader
  import opened VjSpec
  import opened VjSync

  lemma MoveToFrontAt(order: seq<nat>, k: nat)
    requires k < |order|
    ensures |MoveToFront(order, k)| == |order|
    ensures forall i | 0 <= i < |order| ::
              MoveToFront(order, k)[i] == order[if i == 0 then k else if i <= k then i - 1 else i]
  {}

  /** Following `next` from the newest slot visits the slots in `order` and ends at `last`. */
  ghost predicate Linked(next: seq<nat>, last: nat, order: seq<nat>)
  {
    && |next| == MAX_SLOTS && IsRing(order)
    && last == order[MAX_SLOTS - 1] && next[last] == order[0]
    && forall i | 0 <= i < MAX_SLOTS - 1 :: next[order[i]] == order[i + 1]
  }

  /** The oldest slot becomes the newest by moving the end of the list back by one. */
  lemma RelinkOldest(next: seq<nat>, last: nat, order: seq<nat>)
    requires Linked(next, last, order)
    ensures Linked(next, order[MAX_SLOTS - 2], MoveToFront(order, MAX_SLOTS - 1))
  {
    MoveToFrontRing(order, MAX_SLOTS - 1);
    MoveToFrontAt(order, MAX_SLOTS - 1);
    var r := MoveToFront(order, MAX_SLOTS - 1);
    forall i | 0 <= i < MAX_SLOTS - 1 ensures next[r[i]] == r[i + 1] {
      if i > 0 { assert next[order[i - 1]] == order[i]; }
    }
  }

  /** Unlinking a slot from the middle and linking it in after the end of the list makes it the newest. */
  lemma RelinkMiddle(next: seq<nat>, last: nat, order: seq<nat>, k: nat)
    requires Linked(next, last, order) && 1 <= k < MAX_SLOTS - 1
    ensures Linked(next[order[k - 1] := next[order[k]]][order[k] := next[last]][last := order[k]], last, MoveToFront(order, k))
  {
    MoveToFrontRing(order, k);
    MoveToFrontAt(order, k);
    var r := MoveToFront(order, k);
    var n := next[order[k - 1] := next[order[k]]][order[k] := next[last]][last := order[k]];
    forall i | 0 <= i < MAX_SLOTS - 1 ensures n[r[i]] == r[i + 1] {
      if 0 < i <= k { assert next[order[i - 1]] == order[i]; }
      if i == k { assert next[order[k]] == order[k + 1]; }
    }
  }

  class VjComp {
    var lastCs: nat
    var lastRecv: nat
    var lastXmit: nat
    var toss: bool
    var compressSlot: bool
    const csNext: array<nat>
    const tstate: array<Slot>
    const rstate: array<Slot>
    /** The slots from most to least recently used. */
    ghost var order: seq<nat>

    ghost predicate Valid()
      reads this, csNext, tstate, rstate
    {
      && csNext.Length == MAX_SLOTS == tstate.Length == rstate.Length && tstate != rstate
      && Linked(csNext[..], lastCs, order)
      && CompressorOk(Sender())
    }

    ghost function Sender(): Compressor
      reads this, tstate
    {
      Compressor(order, tstate[..], lastXmit, compressSlot)
    }

    ghost function Receiver(): Decompressor
      reads this, rstate
    {
      Decompressor(rstate[..], lastRecv, toss)
    }

    /** vj_compress_init, on a control block in zeroed memory. */
    constructor ()
      ensures Valid() && fresh(csNext) && fresh(tstate) && fresh(rstate)
      ensures Sender() == InitialCompressor(false) && Receiver() == InitialDecompressor()
    {
      csNext := new nat[MAX_SLOTS];
      tstate := new Slot[MAX_SLOTS](_ => Zeroed);
      rstate := new Slot[MAX_SLOTS](_ => Zeroed);
      compressSlot := false;
      lastCs, lastRecv, lastXmit, toss := 0, NO_SLOT, NO_SLOT, true;
      order := seq(MAX_SLOTS, i requires 0 <= i < MAX_SLOTS => MAX_SLOTS - 1 - i);
      new;
      var i := MAX_SLOTS - 1;
      while i > 0
        invariant 0 <= i < MAX_SLOTS
        invariant forall j | i < j < MAX_SLOTS :: csNext[j] == j - 1
        invariant tstate[..] == seq(MAX_SLOTS, _ => Zeroed) == rstate[..]
        invariant Sender() == InitialCompressor(false) && Receiver() == InitialDecompressor() && lastCs == 0
      {
        csNext[i] := i - 1;
        i := i - 1;
      }
      csNext[0] := MAX_SLOTS - 1;
    }

    /** Find the slot of a connection and bring it to the front of the ring; failing that, the oldest one. */
    method FindSlot(src: U32, dst: U32, ports: U32) returns (cs: nat, hit: bool)
      requires Valid()
      modifies this`lastCs, this`order, csNext
      ensures Valid()
      ensures (order, hit) == Lookup(old(Sender()), src, dst, ports) && cs == order[0]
    {
      hide MoveToFront, FirstMatch, Matches;
      cs := csNext[lastCs];
      ghost var i := 0;
      if !Matches(tstate[cs], src, dst, ports) {
        var lastcs := lastCs;
        var lcs := cs;
        cs := csNext[cs];
        i := 1;
        while !Matches(tstate[cs], src, dst, ports) && cs != lastcs
          invariant 1 <= i < MAX_SLOTS && cs == order[i] && lcs == order[i - 1] && lastcs == lastCs
          invariant forall j | 0 <= j < i :: !Matches(tstate[order[j]], src, dst, ports)
          decreases MAX_SLOTS - i
        {
          lcs := cs;
          cs := csNext[cs];
          i := i + 1;
        }
        hit := Matches(tstate[cs], src, dst, ports);
        if !hit || cs == lastcs {
          RelinkOldest(csNext[..], lastCs, order);
          lastCs := lcs;
        } else {
          RelinkMiddle(csNext[..], lastCs, order, i);
          csNext[lcs] := csNext[cs];
          csNext[cs] := csNext[lastcs];
          csNext[lastcs] := cs;
          assert csNext[..] == old(csNext[..])[lcs := old(csNext[cs])][cs := old(csNext[lastcs])][lastcs := cs];
        }
      } else {
        hit := true;
        MoveFirst(order);
      }
      FirstMatchIs(tstate[..], order, src, dst, ports, 0, if hit then i else MAX_SLOTS);
      order := MoveToFront(order, i);
    }

    /** The changes between two headers of a connection; None stands for the jump to `uncompressed`. */
    static method DeltaOf(o: Header, h: Header) returns (r: Option<Delta>)
      ensures r == Difference(o, h)
    {
      hide Encode, EncodeZ, Changed, HeaderLength, Sub16, Sub32, SameFixed;
      if !SameFixed(o, h) { return None; }
      var hlen := HeaderLength(h);
      var cp: seq<Byte> := [];
      var u, w, a, s := false, false, false, false;
      if h.flags.urg {
        cp := cp + EncodeZ(h.urp);
        u := true;
      } else if h.urp != o.urp {
        return None;
      }
      ghost var eU := if u then EncodeZ(h.urp) else [];
      assert cp == eU;
      var deltaW := Sub16(h.win, o.win);
      if deltaW != 0 {
        cp := cp + Encode(deltaW);
        w := true;
      }
      ghost var eW := if w then Encode(deltaW) else [];
      assert cp == eU + eW;
      var deltaA := Sub32(h.ackno, o.ackno);
      if deltaA != 0 {
        if deltaA > 0xffff { return None; }
        cp := cp + Encode(deltaA);
        a := true;
      }
      ghost var eA := if a then Encode(deltaA) else [];
      assert cp == eU + eW + eA;
      var deltaS := Sub32(h.seqno, o.seqno);
      if deltaS != 0 {
        if deltaS > 0xffff { return None; }
        cp := cp + Encode(deltaS);
        s := true;
      }
      ghost var eS := if s then Encode(deltaS) else [];
      assert cp == eU + eW + eA + eS;
      var special := false;
      if !u && !w && !a && !s {
        if !(h.len != o.len && o.len == hlen) { return None; }
      } else if s && w && u {
        return None;
      } else if s && a && !w && !u {
        if deltaS == deltaA && deltaS == o.len - hlen {
          a, w, u, special, cp := false, true, true, true, [];
        }
      } else if s && !a && !w && !u {
        if deltaS == o.len - hlen {
          a, w, u, special, cp := true, true, true, true, [];
        }
      }
      var deltaI := Sub16(h.id, o.id);
      var i := deltaI != 1;
      if i {
        cp := cp + EncodeZ(deltaI);
      }
      ghost var eI := if i then EncodeZ(deltaI) else [];
      var mask := Changes(u, w, a, s, h.flags.psh, i, false);
      if special {
        assert cp == eI;
      } else {
        Associate(eU, eW, eA, eS, eI);
        assert cp == eU + (eW + (eA + (eS + eI)));
        ChangedIs(o, h, mask);
      }
      r := Some(Delta(mask, cp));
    }

    /** vj_compress_tcp. */
    method CompressTcp(p: seq<Byte>, headLen: nat) returns (sent: Sent)
      requires Valid() && ValidIp(p, headLen)
      modifies this`lastCs, this`lastXmit, this`order, csNext, tstate
      ensures Valid()
      ensures (Sender(), sent) == Compress(old(Sender()), p, headLen)
      ensures Receiver() == old(Receiver())
    {
      hide Transmit, MoveToFront, FirstMatch, FlagsOf;
      var t := 4 * (p[0] % 0x10);
      if p[9] != IPPROTO_TCP { return Sent(TypeIp, p); }
      if p[6] % 0x40 != 0 || p[7] != 0 || |p| < 40 { return Sent(TypeIp, p); }
      if !AckOnly(FlagsOf(p[t + 13])) { return Sent(TypeIp, p); }
      var cs, hit := FindSlot(Get32(p, 12), Get32(p, 16), Get32(p, t));
      var hlen := t + 4 * (p[t + 12] / 0x10);
      if hlen > headLen { return Sent(TypeIp, p); }
      sent := Send(cs, hit, p, hlen);
    }

    /** The second half of vj_compress_tcp: compare with the saved header, save the new one, build the packet. */
    method Send(cs: nat, hit: bool, p: seq<Byte>, hlen: nat) returns (sent: Sent)
      requires Valid() && cs < MAX_SLOTS && HasHeaders(p) && hlen == WireHeaderLength(p)
      modifies this`lastXmit, tstate
      ensures Valid()
      ensures (Sender(), sent) == Transmit(old(Sender()), cs, hit, p)
    {
      hide Difference, Parse, MaskByte, CompressedBytes, Hi, Lo;
      var h := Parse(p);
      ParsedLength(p);
      var d: Option<Delta> := None;
      if hit && tstate[cs].Saved? {
        d := DeltaOf(tstate[cs].h, h);
      }
      tstate[cs] := Saved(h);
      match d
      case None =>
        sent := Sent(TypeUncompressed, p[9 := cs]);
        lastXmit := cs;
      case Some(delta) =>
        var cp: seq<Byte>;
        if !compressSlot || lastXmit != cs {
          lastXmit := cs;
          cp := [MaskByte(delta.mask.(c := true)), cs];
        } else {
          cp := [MaskByte(delta.mask.(c := false))];
        }
        cp := cp + [Hi(h.sum), Lo(h.sum)] + delta.bytes;
        sent := Sent(TypeCompressed, cp + p[hlen..]);
        PacketIs(NeedsSlot(old(Sender()), cs), cs, delta, h, p);
    }

    /** vj_uncompress_err. */
    method UncompressErr()
      modifies this`toss
      ensures Receiver() == old(Receiver()).(toss := true)
    {
      toss := true;
    }

    /** vj_uncompress_uncomp. */
    method UncompressUncomp(b: seq<Byte>, headLen: nat) returns (r: Received)
      requires Valid() && headLen <= |b|
      modifies this`lastRecv, this`toss, rstate
      ensures Valid() && Sender() == old(Sender())
      ensures (Receiver(), r) == VjSpec.UncompressUncomp(old(Receiver()), b, headLen)
    {
      hide Parse, CompressorOk;
      var hlen := 4 * (At(b, 0) % 0x10);
      if At(b, 9) >= MAX_SLOTS || hlen + 20 > headLen {
        toss := true;
        return Rejected;
      }
      hlen := hlen + 4 * (At(b, hlen + 12) / 0x10);
      if hlen > headLen || hlen > MAX_HDR {
        toss := true;
        return Rejected;
      }
      lastRecv := At(b, 9);
      toss := false;
      var p := b[9 := IPPROTO_TCP];
      rstate[lastRecv] := if HasHeaders(p) then Saved(Parse(p)) else Odd;
      r := Delivered(p);
    }

    /** vj_uncompress_tcp. */
    method UncompressTcp(b: seq<Byte>, headLen: nat) returns (r: Received)
      requires Valid() && headLen <= |b| && RefersToSaved(Receiver(), b)
      modifies this`lastRecv, this`toss, rstate
      ensures Valid() && Sender() == old(Sender())
      ensures (Receiver(), r) == VjSpec.UncompressTcp(old(Receiver()), b, headLen)
    {
      hide MaskOf, CompressorOk, Linked, Patch, Bytes, RecomputedSum;
      var changes := MaskOf(At(b, 0));
      var cp := 1;
      if changes.c {
        if At(b, cp) >= MAX_SLOTS {
          toss := true;
          return Rejected;
        }
        toss := false;
        lastRecv := At(b, cp);
        cp := cp + 1;
      } else if toss {
        return Rejected;
      }
      var th;
      th, cp := PatchHeader(rstate[lastRecv].h, changes, b, cp);
      if headLen < cp {
        rstate[lastRecv] := Saved(th);
        toss := true;
        return Rejected;
      }
      th := th.(len := (|b| - cp + HeaderLength(th)) % 0x1_0000);
      th := th.(ipSum := RecomputedSum(th));
      rstate[lastRecv] := Saved(th);
      r := Delivered(Bytes(th) + b[cp..]);
    }

    /** The part of vj_uncompress_tcp that reads the changes and applies them to the saved header. */
    static method PatchHeader(o: Header, changes: Changes, b: seq<Byte>, pos: nat) returns (th: Header, cp: nat)
      ensures Cursor(th, cp) == Patch(o, changes, b, pos)
    {
      hide Decode, PatchUrgent, PatchWindow, PatchAck, PatchSeq;
      th, cp := o.(sum := Word16(At(b, pos), At(b, pos + 1))), pos + 2;
      th := th.(flags := th.flags.(psh := changes.p));
      var payload := th.len - HeaderLength(th);
      if IsSpecialI(changes) {
        th := th.(ackno := Add32(th.ackno, payload));
        th := th.(seqno := Add32(th.seqno, payload));
      } else if IsSpecialD(changes) {
        th := th.(seqno := Add32(th.seqno, payload));
      } else {
        th, cp := DecodeFields(changes, b, th, cp);
      }
      if changes.i {
        var (n, next) := Decode(b, cp);
        th, cp := th.(id := Add16(th.id, n)), next;
      } else {
        th := th.(id := Add16(th.id, 1));
      }
    }

    /** The default case of vj_uncompress_tcp: urgent pointer, window, ack and sequence number. */
    static method DecodeFields(changes: Changes, b: seq<Byte>, h: Header, pos: nat) returns (th: Header, cp: nat)
      ensures Cursor(th, cp) == PatchSeq(changes, b, PatchAck(changes, b, PatchWindow(changes, b,
                                PatchUrgent(changes, b, Cursor(h, pos)))))
    {
      hide Decode;
      th, cp := h, pos;
      if changes.u {
        var (n, next) := Decode(b, cp);
        th, cp := th.(flags := th.flags.(urg := true), urp := n), next;
      } else {
        th := th.(flags := th.flags.(urg := false));
      }
      if changes.w {
        var (n, next) := Decode(b, cp);
        th, cp := th.(win := Add16(th.win, n)), next;
      }
      if changes.a {
        var (n, next) := Decode(b, cp);
        th, cp := th.(ackno := Add32(th.ackno, n)), next;
      }
      if changes.s {
        var (n, next) := Decode(b, cp);
        th, cp := th.(seqno := Add32(th.seqno, n)), next;
      }
    }
  }

  lemma {:induction false} FirstMatchIs(slots: seq<Slot>, order: seq<nat>, src: U32, dst: U32, ports: U32, i: nat, k: nat)
    requires i <= k <= |order|
    requires forall j | 0 <= j < |order| :: order[j] < |slots|
    requires forall j | i <= j < k :: !Matches(slots[order[j]], src, dst, ports)
    requires k < |order| ==> Matches(slots[order[k]], src, dst, ports)
    ensures FirstMatch(slots, order, src, dst, ports, i) == k
    decreases k - i
  {
    if i < k { FirstMatchIs(slots, order, src, dst, ports, i + 1, k); }
  }

  /** The octets of a compressed packet, its first ones put together as the code does. */
  lemma PacketIs(explicit: bool, cs: nat, delta: Delta, h: Header, p: seq<Byte>)
    requires cs < MAX_SLOTS && HeaderLength(h) <= |p|
    ensures var front := if explicit then [MaskByte(delta.mask.(c := true)), cs] else [MaskByte(delta.mask.(c := false))];
            CompressedBytes(explicit, cs, delta, h, p) == front + [Hi(h.sum), Lo(h.sum)] + delta.bytes + p[HeaderLength(h)..]
  {
    hide MaskByte, Hi, Lo, HeaderLength;
    if explicit {
      assert [MaskByte(delta.mask.(c := true))] + [cs] == [MaskByte(delta.mask.(c := true)), cs];
    } else {
      assert [MaskByte(delta.mask.(c := false))] + [] == [MaskByte(delta.mask.(c := false))];
    }
  }

  lemma ParsedLength(p: seq<Byte>)
    requires HasHeaders(p)
    ensures HeaderLength(Parse(p)) == WireHeaderLength(p)
  {
    var t := 4 * (p[0] % 0x10);
    assert p[t..][12] == p[t + 12];
  }

  lemma MoveFirst(order: seq<nat>)
    requires order != []
    ensures MoveToFront(order, 0) == order
  {}

  lemma Associate(a: seq<Byte>, b: seq<Byte>, c: seq<Byte>, d: seq<Byte>, e: seq<Byte>)
    ensures a + b + c + d + e == a + (b + (c + (d + e)))
  {}

  lemma ChangedIs(o: Header, h: Header, m: Changes)
    ensures Changed(o, h, m)
            == (if m.u then EncodeZ(h.urp) else [])
               + ((if m.w then Encode(Sub16(h.win, o.win)) else [])
                  + ((if m.a then Encode(Short(Sub32(h.ackno, o.ackno))) else [])
                     + ((if m.s then Encode(Short(Sub32(h.seqno, o.seqno))) else [])
                        + (if m.i then EncodeZ(Sub16(h.id, o.id)) else []))))
  {
    hide Encode, EncodeZ, Sub16, Sub32;
  }
}
