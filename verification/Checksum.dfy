/** The Internet checksum over a chain of buffers, and the one's-complement sum it computes. */
module Checksum {
  import opened Words

  // ----- the sum -----

  /** Octets weighted by their place: the first of a pair counts once, the second 256 times, as in little-endian
      words. `odd` says whether the first octet stands at an odd place. */
  function Sum(bs: seq<Byte>, odd: bool): nat
  {
    if bs == [] then 0 else (if odd then 256 * bs[0] else bs[0]) + Sum(bs[1..], !odd)
  }

  predicate OddLength(bs: seq<Byte>) { |bs| % 2 == 1 }

  lemma {:induction false} SumJoin(a: seq<Byte>, b: seq<Byte>, odd: bool)
    ensures Sum(a + b, odd) == Sum(a, odd) + Sum(b, odd != OddLength(a))
    decreases |a|
  {
    if a == [] {
      assert a + b == b;
    } else {
      assert (a + b)[1..] == a[1..] + b;
      SumJoin(a[1..], b, !odd);
    }
  }

  /** A one's-complement sum: carries come back in at the low end, so only zero sums to zero. */
  function Fold(n: nat): (r: nat)
    ensures r <= 0xffff
  {
    if n == 0 then 0 else 1 + (n - 1) % 0xffff
  }

  /** The folded value is the one in range with the same remainder and the same answer to being zero. */
  lemma FoldIs(n: nat, r: nat)
    ensures r == Fold(n) <==> r <= 0xffff && (r == 0 <==> n == 0) && r % 0xffff == n % 0xffff
  {}

  /** Differing by a multiple of 65535. */
  lemma SameRemainder(a: nat, b: nat, k: int)
    requires a == b + 0xffff * k
    ensures a % 0xffff == b % 0xffff
  {}

  lemma FoldTimes(m: nat) returns (k: nat)
    ensures m == Fold(m) + 0xffff * k
  {
    k := if m == 0 then 0 else (m - 1) / 0xffff;
  }

  lemma FoldAdd(m: nat, n: nat)
    ensures Fold(Fold(m) + n) == Fold(m + n)
  {
    FoldIs(m, Fold(m));
    hide Fold;
    var k := FoldTimes(m);
    SameRemainder(m + n, Fold(m) + n, k);
    FoldIs(Fold(m) + n, Fold(m + n));
    FoldIs(m + n, Fold(m + n));
  }

  /** One round of adding the carries back. */
  lemma FoldCarry(n: nat)
    ensures Fold(n / 0x1_0000 + n % 0x1_0000) == Fold(n)
    ensures n <= 0xffff ==> Fold(n) == n
  {}

  /** htons. */
  function Swap(n: nat): nat { (n % 256) * 256 + (n / 256) % 256 }

  /** Exchanging the octets of a sum multiplies it by 256. */
  lemma SwapFold(n: nat)
    ensures Swap(Fold(n)) == Fold(256 * n)
  {
    var x := Fold(n);
    FoldIs(n, x);
    hide *;
    SwapTimes(x);
    TimesModulo(n, x);
    FoldIs(256 * n, Swap(x));
  }

  lemma SwapTimes(x: nat)
    requires x <= 0xffff
    ensures Swap(x) <= 0xffff && (Swap(x) == 0 <==> x == 0) && Swap(x) % 0xffff == (256 * x) % 0xffff
  {
    var h, l := x / 256, x % 256;
    assert x == 256 * h + l && h < 256;
    SameRemainder(256 * x, Swap(x), h);
  }

  lemma TimesModulo(m: nat, n: nat)
    requires m % 0xffff == n % 0xffff
    ensures (256 * m) % 0xffff == (256 * n) % 0xffff
  {
    var k := m / 0xffff - n / 0xffff;
    assert m == n + 0xffff * k;
    SameRemainder(256 * m, 256 * n, 256 * k);
  }

  /** Shifting the octets by one place multiplies the sum by 256, up to a multiple of 65535. */
  lemma {:induction false} SumShift(bs: seq<Byte>, odd: bool) returns (k: nat)
    ensures 256 * Sum(bs, odd) == Sum(bs, !odd) + 0xffff * k
    ensures Sum(bs, !odd) == 0 <==> Sum(bs, odd) == 0
  {
    k := 0;
    if bs != [] {
      k := SumShift(bs[1..], !odd);
      if odd { k := k + bs[0]; }
    }
  }

  lemma FoldShift(bs: seq<Byte>, odd: bool, rest: nat)
    ensures Fold(256 * rest + Sum(bs, !odd)) == Fold(256 * (rest + Sum(bs, odd)))
  {
    var k := SumShift(bs, odd);
    var m, n := 256 * rest + Sum(bs, !odd), 256 * (rest + Sum(bs, odd));
    SameRemainder(n, m, k);
    FoldIs(n, Fold(n));
    FoldIs(m, Fold(n));
  }

  // ----- the chain -----

  function Flat(chain: seq<seq<Byte>>): seq<Byte>
  {
    if chain == [] then [] else chain[0] + Flat(chain[1..])
  }

  /** The sum of what has been read, seen from the byte order the accumulator is in. */
  function Read(bs: seq<Byte>): nat { if OddLength(bs) then 256 * Sum(bs, false) else Sum(bs, false) }

  /** Adding a buffer, read as if it began at an even place. */
  lemma AddPiece(before: seq<Byte>, piece: seq<Byte>)
    ensures var t := Fold(Fold(Read(before)) + Sum(piece, false));
            Fold(Read(before + piece)) == if OddLength(piece) then Swap(t) else t
  {
    ParityJoin(before, piece);
    SumJoin(before, piece, false);
    hide Fold, Sum, Swap, OddLength;
    var s, p := Sum(before, false), Sum(piece, false);
    FoldAdd(Read(before), p);
    if OddLength(before) {
      var whole := s + Sum(piece, true);
      FoldShift(piece, true, s);
      if OddLength(piece) {
        SwapFold(256 * whole);
        TwiceShifted(whole);
      }
    } else if OddLength(piece) {
      SwapFold(s + p);
    }
  }

  lemma ParityJoin(a: seq<Byte>, b: seq<Byte>)
    ensures OddLength(a + b) <==> OddLength(a) != OddLength(b)
  {}

  lemma TwiceShifted(n: nat)
    ensures Fold(256 * (256 * n)) == Fold(n)
  {
    SameRemainder(256 * (256 * n), n, n);
    FoldIs(n, Fold(n));
    hide Fold;
    FoldIs(256 * (256 * n), Fold(n));
  }

  /** The checksum of octets: the complement of their one's-complement sum. */
  function Complement(bs: seq<Byte>): U16 { 0xffff - Fold(Sum(bs, false)) }

  /** An address as it lies in memory, its value read in little-endian order. */
  function Stored(addr: U32): seq<Byte> { [Oct(addr, 3), Oct(addr, 2), Oct(addr, 1), Oct(addr, 0)] }

  /** The pseudo header of TCP and UDP. */
  function PseudoHeader(src: U32, dest: U32, proto: Byte, len: U16): seq<Byte>
  {
    Stored(src) + Stored(dest) + [0, proto, Hi(len), Lo(len)]
  }

  lemma PairSum(a: Byte, b: Byte)
    ensures Sum([a, b], false) == Word16(b, a) && !OddLength([a, b])
  {
    assert [a, b][1..] == [b] && [b][1..] == [];
    assert Sum([b], true) == 256 * b;
  }

  lemma StoredHalves(addr: U32)
    ensures Word16(Oct(addr, 2), Oct(addr, 3)) == addr % 0x1_0000
    ensures Word16(Oct(addr, 0), Oct(addr, 1)) == addr / 0x1_0000 % 0x1_0000
  {
    Join32(addr);
    hide Oct;
    HalvesOf(addr, Word16(Oct(addr, 0), Oct(addr, 1)), Word16(Oct(addr, 2), Oct(addr, 3)));
  }

  lemma HalvesOf(n: nat, h: nat, l: nat)
    requires n == 0x1_0000 * h + l && h < 0x1_0000 && l < 0x1_0000
    ensures n % 0x1_0000 == l && n / 0x1_0000 % 0x1_0000 == h
  {
    assert n / 0x1_0000 == h;
  }

  lemma StoredSum(addr: U32)
    ensures Sum(Stored(addr), false) == addr % 0x1_0000 + addr / 0x1_0000 % 0x1_0000 && !OddLength(Stored(addr))
  {
    StoredHalves(addr);
    hide Sum, Oct, Word16;
    assert Stored(addr) == [Oct(addr, 3), Oct(addr, 2)] + [Oct(addr, 1), Oct(addr, 0)];
    SumJoin([Oct(addr, 3), Oct(addr, 2)], [Oct(addr, 1), Oct(addr, 0)], false);
    PairSum(Oct(addr, 3), Oct(addr, 2));
    PairSum(Oct(addr, 1), Oct(addr, 0));
  }

  lemma SwapWords(proto: Byte, len: U16)
    ensures Word16(proto, 0) == Swap(proto) && Word16(Lo(len), Hi(len)) == Swap(len)
  {}

  lemma PseudoSum(src: U32, dest: U32, proto: Byte, len: U16)
    ensures !OddLength(PseudoHeader(src, dest, proto, len))
    ensures Sum(PseudoHeader(src, dest, proto, len), false)
            == src % 0x1_0000 + src / 0x1_0000 % 0x1_0000 + dest % 0x1_0000 + dest / 0x1_0000 % 0x1_0000 + Swap(proto) + Swap(len)
  {
    StoredSum(src);
    StoredSum(dest);
    SwapWords(proto, len);
    hide Sum, Stored, Swap, Word16, Hi, Lo, OddLength;
    var s, d := Stored(src), Stored(dest);
    var third: seq<Byte>, fourth: seq<Byte> := [0, proto], [Hi(len), Lo(len)];
    PairSum(0, proto);
    PairSum(Hi(len), Lo(len));
    assert PseudoHeader(src, dest, proto, len) == ((s + d) + third) + fourth;
    SumJoin((s + d) + third, fourth, false);
    SumJoin(s + d, third, false);
    SumJoin(s, d, false);
    ParityJoin((s + d) + third, fourth);
    ParityJoin(s + d, third);
    ParityJoin(s, d);
  }

  /** The words of a buffer added up, and an odd octet at its end. */
  method AddWords(bs: seq<Byte>) returns (acc: U32)
    requires |bs| <= 0xffff
    ensures acc == Sum(bs, false)
  {
    hide Sum;
    var sum, i := 0, 0;
    assert bs[0..] == bs;
    while i + 1 < |bs|
      invariant 0 <= i <= |bs| && 0 <= sum <= i * 0xffff
      invariant Sum(bs, false) == sum + Sum(bs[i..], false)
    {
      assert bs[i..] == [bs[i], bs[i + 1]] + bs[i + 2..];
      SumJoin([bs[i], bs[i + 1]], bs[i + 2..], false);
      PairSum(bs[i], bs[i + 1]);
      sum := sum + Word16(bs[i + 1], bs[i]);
      i := i + 2;
    }
    LastSum(bs[i..]);
    if i < |bs| {
      sum := sum + Swap(Word16(bs[i], 0));
    }
    acc := sum;
  }

  lemma LastSum(bs: seq<Byte>)
    requires |bs| <= 1
    ensures Sum(bs, false) == if bs == [] then 0 else Swap(Word16(bs[0], 0))
    ensures bs != [] ==> Swap(Word16(bs[0], 0)) <= 0xff
  {
    if bs != [] { assert bs[1..] == []; }
  }

  /** lwip_standard_chksum: two rounds of adding the carries back are enough. */
  method StandardChksum(bs: seq<Byte>) returns (r: U16)
    requires |bs| <= 0xffff
    ensures r == Fold(Sum(bs, false))
  {
    hide Fold, Sum;
    var sum := AddWords(bs);
    FoldCarry(sum);
    var acc := sum / 0x1_0000 + sum % 0x1_0000;
    FoldCarry(acc);
    if acc / 0x1_0000 != 0 {
      acc := acc / 0x1_0000 + acc % 0x1_0000;
      FoldCarry(acc);
    }
    r := acc;
  }

  /** Adding the carries back until there are none. */
  method AddCarries(n: nat) returns (r: U16)
    ensures r == Fold(n)
  {
    var acc := n;
    while acc / 0x1_0000 != 0
      invariant 0 <= acc && Fold(acc) == Fold(n)
      decreases acc
    {
      FoldCarry(acc);
      acc := acc % 0x1_0000 + acc / 0x1_0000;
    }
    FoldCarry(acc);
    r := acc;
  }

  /** inet_chksum_pseudo: however the packet is cut into buffers, the result is the checksum of the pseudo header
      followed by the packet. */
  method ChksumPseudo(chain: seq<seq<Byte>>, src: U32, dest: U32, proto: Byte, len: U16) returns (r: U16)
    requires forall q | q in chain :: |q| <= 0xffff
    ensures r == Complement(PseudoHeader(src, dest, proto, len) + Flat(chain))
  {
    hide Fold, Sum, Swap;
    var acc, swapped, i := 0, false, 0;
    ReadNothing();
    assert Flat(chain[..0]) == [];
    while i < |chain|
      invariant 0 <= i <= |chain| && 0 <= acc <= 0xffff
      invariant acc == Fold(Read(Flat(chain[..i]))) && swapped == OddLength(Flat(chain[..i]))
    {
      var q := chain[i];
      FlatStep(chain, i);
      ParityJoin(Flat(chain[..i]), q);
      AddPiece(Flat(chain[..i]), q);
      var chksum := StandardChksum(q);
      FoldAdd(Sum(q, false), acc);
      acc := AddCarries(acc + chksum);
      if |q| % 2 != 0 {
        swapped := !swapped;
        acc := SwapSmall(acc);
      }
      i := i + 1;
    }
    assert chain[..|chain|] == chain;
    var flat := Flat(chain);
    if swapped {
      SwapFold(256 * Sum(flat, false));
      TwiceShifted(Sum(flat, false));
      acc := SwapSmall(acc);
    }
    assert acc == Fold(Sum(flat, false));
    var head := src % 0x1_0000 + src / 0x1_0000 % 0x1_0000 + dest % 0x1_0000 + dest / 0x1_0000 % 0x1_0000 + Swap(proto) + Swap(len);
    PseudoSum(src, dest, proto, len);
    SumJoin(PseudoHeader(src, dest, proto, len), flat, false);
    FoldAdd(Sum(flat, false), head);
    acc := AddCarries(acc + head);
    r := 0xffff - acc;
  }

  /** Exchanging the octets of a 16-bit accumulator. */
  function SwapSmall(n: nat): (r: nat)
    ensures r == Swap(n) && r <= 0xffff
  {
    Swap(n)
  }

  lemma ReadNothing()
    ensures Fold(Read([])) == 0
  {}

  lemma FlatStep(chain: seq<seq<Byte>>, i: nat)
    requires i < |chain|
    ensures Flat(chain[..i + 1]) == Flat(chain[..i]) + chain[i]
  {
    assert chain[..i + 1] == chain[..i] + [chain[i]];
    FlatJoin(chain[..i], [chain[i]]);
    var last: seq<seq<Byte>> := [chain[i]];
    assert last[1..] == [] && chain[i] + [] == chain[i];
  }

  lemma {:induction false} FlatJoin(a: seq<seq<Byte>>, b: seq<seq<Byte>>)
    ensures Flat(a + b) == Flat(a) + Flat(b)
    decreases |a|
  {
    if a == [] {
      assert a + b == b;
    } else {
      assert (a + b)[1..] == a[1..] + b;
      FlatJoin(a[1..], b);
    }
  }

  // ----- verification -----

  /** Two octets at place k replaced by a word, stored in memory order. */
  function WithWord(data: seq<Byte>, k: nat, w: U16): seq<Byte>
    requires k + 2 <= |data|
  {
    data[..k] + [Lo(w), Hi(w)] + data[k + 2..]
  }

  function WordAt(data: seq<Byte>, k: nat): U16
    requires k + 2 <= |data|
  {
    Word16(data[k + 1], data[k])
  }

  lemma WithWordSum(data: seq<Byte>, k: nat, w: U16)
    requires k % 2 == 0 && k + 2 <= |data|
    ensures Sum(WithWord(data, k, w), false) == Sum(data, false) - WordAt(data, k) + w
  {
    hide Sum, OddLength;
    var was: seq<Byte> := [data[k], data[k + 1]];
    assert data == data[..k] + was + data[k + 2..];
    Join16(w);
    PairSum(data[k], data[k + 1]);
    PairSum(Lo(w), Hi(w));
    hide Word16;
    WithPair(data[..k], was, data[k + 2..]);
    WithPair(data[..k], [Lo(w), Hi(w)], data[k + 2..]);
  }

  lemma WithPair(a: seq<Byte>, pair: seq<Byte>, b: seq<Byte>)
    requires !OddLength(pair) && |a| % 2 == 0
    ensures Sum(a + pair + b, false) == Sum(a, false) + Sum(pair, false) + Sum(b, false)
  {
    ParityJoin(a, pair);
    SumJoin(a + pair, b, false);
    SumJoin(a, pair, false);
  }

  /** A checksum field that was zero, filled in with the checksum: the receiver's check comes to zero. */
  lemma FilledVerifies(data: seq<Byte>, k: nat)
    requires k % 2 == 0 && k + 2 <= |data| && data[k] == 0 && data[k + 1] == 0
    ensures Complement(WithWord(data, k, Complement(data))) == 0
  {
    var n := Sum(data, false);
    var c := Complement(data);
    assert Fold(n) + c == 0xffff && Fold(0xffff) == 0xffff;
    WithWordSum(data, k, c);
    hide Fold, Sum;
    FoldAdd(n, c);
  }

  /** What the check accepts. */
  lemma VerifiesIff(data: seq<Byte>)
    ensures Complement(data) == 0 <==> Sum(data, false) != 0 && Sum(data, false) % 0xffff == 0
  {
    FoldIs(Sum(data, false), 0xffff);
  }

  /** Replacing one aligned word of a packet that verifies: the check still passes exactly when nothing but an all-zero
      word and an all-one word have been exchanged, and not everything is zero now. */
  lemma WordDamage(data: seq<Byte>, k: nat, w: U16)
    requires k % 2 == 0 && k + 2 <= |data| && Complement(data) == 0
    ensures Complement(WithWord(data, k, w)) == 0
            <==> w % 0xffff == WordAt(data, k) % 0xffff && Sum(data, false) - WordAt(data, k) + w != 0
  {
    var n, v := Sum(data, false), WordAt(data, k);
    VerifiesIff(data);
    VerifiesIff(WithWord(data, k, w));
    WithWordSum(data, k, w);
    hide Sum, Complement, WordAt;
    DamagedRemainder(n, v, w);
  }

  lemma DamagedRemainder(n: nat, v: nat, w: nat)
    requires n % 0xffff == 0 && n - v + w >= 0
    ensures (n - v + w) % 0xffff == 0 <==> w % 0xffff == v % 0xffff
  {
    var k := n / 0xffff;
    assert n == 0xffff * k;
  }

  /** The order of octets in a word does not matter: exchanging the octets of the result gives the checksum computed
      over big-endian words. */
  lemma NetworkOrder(data: seq<Byte>)
    ensures Swap(Complement(data)) == 0xffff - Fold(Sum(data, true))
  {
    FoldShift(data, false, 0);
    SwapFold(Sum(data, false));
    SwapComplement(Fold(Sum(data, false)));
  }

  lemma SwapComplement(x: nat)
    requires x <= 0xffff
    ensures Swap(0xffff - x) == 0xffff - Swap(x)
  {
    var h, l := x / 256, x % 256;
    assert 0xffff - x == 256 * (255 - h) + (255 - l);
  }
}
