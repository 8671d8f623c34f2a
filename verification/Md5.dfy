/** MD5 over a message that arrives in pieces: the buffered form computes the same as hashing the padded message block
    by block. The block transformation itself is a parameter. */
module Md5 {
  import opened Words

  const BLOCK := 64

  type Digest = d: seq<U32> | |d| == 4 witness [0, 0, 0, 0]

  const INITIAL: Digest := [0x67452301, 0xefcdab89, 0x98badcfe, 0x10325476]

  // ----- words and blocks -----

  /** Four octets as a little-endian word. */
  function LeWord(bs: seq<Byte>, i: nat): U32
    requires i + 4 <= |bs|
  {
    Word32(bs[i + 3], bs[i + 2], bs[i + 1], bs[i])
  }

  function LeOctets(n: U32): seq<Byte> { [Oct(n, 3), Oct(n, 2), Oct(n, 1), Oct(n, 0)] }

  /** The sixteen words of a block. */
  function BlockWords(bs: seq<Byte>): seq<U32>
    requires |bs| == BLOCK
  {
    seq(16, i requires 0 <= i < 16 => LeWord(bs, 4 * i))
  }

  /** Hashing whole blocks, one after the other. */
  function Blocks(transform: (Digest, seq<U32>) -> Digest, h: Digest, bs: seq<Byte>): Digest
    requires |bs| % BLOCK == 0
    decreases |bs|
  {
    if bs == [] then h else Blocks(transform, transform(h, BlockWords(bs[..BLOCK])), bs[BLOCK..])
  }

  /** The octets that make up a whole number of blocks, and the rest. */
  function Whole(n: nat): nat { n - n % BLOCK }

  function Padding(n: nat): seq<Byte> { [0x80] + seq(PadLength(n) - 1, _ => 0) }

  /** Octets needed to come to 56 modulo 64, at least one. */
  function PadLength(n: nat): (p: nat)
    ensures 1 <= p <= BLOCK && (n + p) % BLOCK == 56
  {
    if n % BLOCK < 56 then 56 - n % BLOCK else 120 - n % BLOCK
  }

  /** The length in bits, modulo 2^64, as two words. */
  function BitsLow(n: nat): U32 { Word(8 * n) }

  function BitsHigh(n: nat): U32 { Word(8 * n / 0x1_0000_0000) }

  function Word(n: nat): U32 { n % 0x1_0000_0000 }

  function Padded(m: seq<Byte>): (r: seq<Byte>)
    ensures |r| % BLOCK == 0
  {
    WholeBlocks(|m| + PadLength(|m|));
    hide BitsLow, BitsHigh, Oct, PadLength;
    m + Padding(|m|) + LeOctets(BitsLow(|m|)) + LeOctets(BitsHigh(|m|))
  }

  lemma WholeBlocks(n: nat)
    requires n % BLOCK == 56
    ensures (n + 8) % BLOCK == 0
  {}

  /** Digit j of a number, counted from the lowest, in base 256. */
  function Digit(x: nat, j: nat): Byte
    requires j < 8
  {
    if j == 0 then x % 0x100
    else if j == 1 then x / 0x100 % 0x100
    else if j == 2 then x / 0x1_0000 % 0x100
    else if j == 3 then x / 0x100_0000 % 0x100
    else if j == 4 then x / 0x1_0000_0000 % 0x100
    else if j == 5 then x / 0x100_0000_0000 % 0x100
    else if j == 6 then x / 0x1_0000_0000_0000 % 0x100
    else x / 0x100_0000_0000_0000 % 0x100
  }

  lemma LowDigits(x: nat, j: nat)
    requires j < 4
    ensures LeOctets(Word(x))[j] == Digit(x, j)
  {
    var q, r := x / 0x1_0000_0000, x % 0x1_0000_0000;
    assert x == 0x1_0000_0000 * q + r;
    if j == 0 { Low0(q, r); } else if j == 1 { Low1(q, r); } else if j == 2 { Low2(q, r); } else { Low3(q, r); }
  }

  lemma Low0(q: nat, r: nat)
    ensures (0x1_0000_0000 * q + r) % 0x100 == r % 0x100
  {
    assert 0x1_0000_0000 * q + r == 0x100 * (0x100_0000 * q) + r;
  }

  lemma Low1(q: nat, r: nat)
    ensures (0x1_0000_0000 * q + r) / 0x100 % 0x100 == r / 0x100 % 0x100
  {
    assert (0x1_0000_0000 * q + r) / 0x100 == 0x100 * (0x1_0000 * q) + r / 0x100;
  }

  lemma Low2(q: nat, r: nat)
    ensures (0x1_0000_0000 * q + r) / 0x1_0000 % 0x100 == r / 0x1_0000 % 0x100
  {
    assert (0x1_0000_0000 * q + r) / 0x1_0000 == 0x100 * (0x100 * q) + r / 0x1_0000;
  }

  lemma Low3(q: nat, r: nat)
    requires r < 0x1_0000_0000
    ensures (0x1_0000_0000 * q + r) / 0x100_0000 % 0x100 == r / 0x100_0000
  {
    assert (0x1_0000_0000 * q + r) / 0x100_0000 == 0x100 * q + r / 0x100_0000;
  }

  lemma HighDigits(x: nat, j: nat)
    requires 4 <= j < 8
    ensures Digit(x / 0x1_0000_0000, j - 4) == Digit(x, j)
  {
    var q, r := x / 0x1_0000_0000, x % 0x1_0000_0000;
    assert x == 0x1_0000_0000 * q + r;
    if j == 5 {
      assert q / 0x100 == x / 0x100_0000_0000;
    } else if j == 6 {
      assert q / 0x1_0000 == x / 0x1_0000_0000_0000;
    } else if j == 7 {
      assert q / 0x100_0000 == x / 0x100_0000_0000_0000;
    }
  }

  /** RFC 1321, sections 3.1 and 3.2, octet by octet: the message, one bit set, clear bits, and its length in bits in eight
      octets, lowest first; no more blocks than this takes. */
  lemma PaddedAt(m: seq<Byte>, k: nat)
    requires k < |Padded(m)|
    ensures var n := |Padded(m)|;
            && |m| + 9 <= n < |m| + 9 + BLOCK
            && Padded(m)[k] == if k < |m| then m[k] else if k == |m| then 0x80 else if k < n - 8 then 0 else Digit(8 * |m|, k - (n - 8))
  {
    var p := Padding(|m|);
    assert |p| == PadLength(|m|) && p[0] == 0x80 && forall j | 1 <= j < |p| :: p[j] == 0;
    var x := 8 * |m|;
    assert BitsLow(|m|) == Word(x) && BitsHigh(|m|) == Word(x / 0x1_0000_0000);
    hide BitsLow, BitsHigh, Padding, Digit, Word, PadLength;
    var low, high := LeOctets(BitsLow(|m|)), LeOctets(BitsHigh(|m|));
    assert Padded(m) == m + p + low + high;
    var n := |Padded(m)|;
    if k >= n - 4 {
      LowDigits(x / 0x1_0000_0000, k - (n - 4));
      HighDigits(x, k - (n - 8));
    } else if k >= n - 8 {
      LowDigits(x, k - (n - 8));
    }
  }

  /** The digest of a message. */
  function Hash(transform: (Digest, seq<U32>) -> Digest, m: seq<Byte>): Digest
  {
    Blocks(transform, INITIAL, Padded(m))
  }

  lemma {:induction false} BlocksJoin(transform: (Digest, seq<U32>) -> Digest, h: Digest, a: seq<Byte>, b: seq<Byte>)
    requires |a| % BLOCK == 0 && |b| % BLOCK == 0
    ensures Blocks(transform, h, a + b) == Blocks(transform, Blocks(transform, h, a), b)
    decreases |a|
  {
    if a == [] {
      assert a + b == b;
    } else {
      assert (a + b)[..BLOCK] == a[..BLOCK] && (a + b)[BLOCK..] == a[BLOCK..] + b;
      BlocksJoin(transform, transform(h, BlockWords(a[..BLOCK])), a[BLOCK..], b);
    }
  }

  lemma BlocksOne(transform: (Digest, seq<U32>) -> Digest, h: Digest, b: seq<Byte>)
    requires |b| == BLOCK
    ensures Blocks(transform, h, b) == transform(h, BlockWords(b))
  {
    assert b[..BLOCK] == b && b[BLOCK..] == [];
  }

  // ----- the running state -----

  /** The chaining value and the buffer after a message. */
  function Chained(transform: (Digest, seq<U32>) -> Digest, m: seq<Byte>): Digest
  {
    Blocks(transform, INITIAL, m[..Whole(|m|)])
  }

  function Pending(m: seq<Byte>): seq<Byte> { m[Whole(|m|)..] }

  /** One more octet: it joins the buffer, and a full buffer goes through the transformation. */
  lemma OneOctet(transform: (Digest, seq<U32>) -> Digest, m: seq<Byte>, c: Byte)
    ensures |Pending(m)| == |m| % BLOCK
    ensures |m| % BLOCK + 1 < BLOCK ==> Pending(m + [c]) == Pending(m) + [c] && Chained(transform, m + [c]) == Chained(transform, m)
    ensures |m| % BLOCK + 1 == BLOCK ==>
              Pending(m + [c]) == []
              && Chained(transform, m + [c]) == transform(Chained(transform, m), BlockWords(Pending(m) + [c]))
  {
    var t := m + [c];
    if |m| % BLOCK + 1 < BLOCK {
      assert Whole(|t|) == Whole(|m|);
      assert t[..Whole(|m|)] == m[..Whole(|m|)] && t[Whole(|m|)..] == m[Whole(|m|)..] + [c];
    } else {
      assert Whole(|t|) == |t|;
      assert t[..|t|] == m[..Whole(|m|)] + (Pending(m) + [c]);
      BlocksJoin(transform, INITIAL, m[..Whole(|m|)], Pending(m) + [c]);
      BlocksOne(transform, Chained(transform, m), Pending(m) + [c]);
    }
  }

  /** Adding a length to the two-word counter: the low word carries into the high one. */
  lemma CountBits(n: nat, len: U32, low: U32, high: U32)
    requires low == BitsLow(n) && high == BitsHigh(n)
    ensures var inc := Word(8 * len);
            var carry := if Add32(low, inc) < low then 1 else 0;
            && Add32(low, inc) == BitsLow(n + len)
            && Add32(Add32(high, carry), len / 0x2000_0000) == BitsHigh(n + len)
  {
    var h, a, b := 8 * n / 0x1_0000_0000, len / 0x2000_0000, len % 0x2000_0000;
    DivIs(8 * n, h, low);
    DivIs(8 * len, a, 8 * b);
    var carry := if low + 8 * b >= 0x1_0000_0000 then 1 else 0;
    DivIs(8 * (n + len), h + a + carry, low + 8 * b - carry * 0x1_0000_0000);
    LowSum(low, 8 * b);
    HighSum(h, carry, a);
  }

  lemma DivIs(n: nat, q: nat, r: nat)
    requires (n == 0x1_0000_0000 * q + r && r < 0x1_0000_0000) || (q == n / 0x1_0000_0000 && r == n % 0x1_0000_0000)
    ensures n / 0x1_0000_0000 == q && n % 0x1_0000_0000 == r && n == 0x1_0000_0000 * q + r
  {}

  lemma LowSum(low: U32, inc: U32)
    ensures var carry := if low + inc >= 0x1_0000_0000 then 1 else 0;
            Add32(low, inc) == low + inc - carry * 0x1_0000_0000 && (carry == 1 <==> Add32(low, inc) < low)
  {}

  lemma HighSum(h: nat, carry: nat, a: nat)
    requires carry <= 1 && a < 0x1_0000_0000
    ensures Add32(Add32(Word(h), carry), a) == Word(h + a + carry)
  {}

  lemma NextPlace(n: nat)
    ensures (n + 1) % BLOCK == if n % BLOCK + 1 == BLOCK then 0 else n % BLOCK + 1
  {}

  /** The place in the buffer, from the low counter word. */
  lemma BufferPlace(n: nat)
    ensures BitsLow(n) / 8 % BLOCK == n % BLOCK
  {
    var q, r := 8 * n / 0x1_0000_0000, BitsLow(n);
    DivIs(8 * n, q, r);
    hide BitsLow;
    SameMod(n, q);
    assert r == 8 * (n - 0x2000_0000 * q);
  }

  lemma SameMod(n: nat, q: nat)
    ensures (n - 0x2000_0000 * q) % BLOCK == n % BLOCK
  {
    RemainderIs(n - 0x2000_0000 * q, n / BLOCK - 0x80_0000 * q, n % BLOCK);
  }

  lemma RemainderIs(n: int, q: int, r: int)
    requires n == BLOCK * q + r && 0 <= r < BLOCK
    ensures n % BLOCK == r
  {}

  // ----- the context -----

  class Context {
    const transform: (Digest, seq<U32>) -> Digest
    var low: U32
    var high: U32
    var buf: Digest
    const input: array<Byte>

    /** The context stands for the message m. */
    ghost predicate Holds(m: seq<Byte>)
      reads this, input
    {
      && input.Length == BLOCK && low == BitsLow(|m|) && high == BitsHigh(|m|)
      && buf == Chained(transform, m) && input[..|m| % BLOCK] == Pending(m)
    }

    /** MD5Init. */
    constructor (f: (Digest, seq<U32>) -> Digest)
      ensures Holds([]) && transform == f && fresh(input)
    {
      transform := f;
      low, high := 0, 0;
      buf := INITIAL;
      input := new Byte[BLOCK](_ => 0);
    }

    /** The first n words of the buffer. */
    method Assemble(n: nat) returns (words: seq<U32>)
      requires input.Length == BLOCK && n <= 16
      ensures words == BlockWords(input[..])[..n]
    {
      words := [];
      var i, ii := 0, 0;
      while i < n
        invariant 0 <= i <= n && ii == 4 * i && words == BlockWords(input[..])[..i]
      {
        words := words + [Word32(input[ii + 3], input[ii + 2], input[ii + 1], input[ii])];
        i, ii := i + 1, ii + 4;
      }
    }

    /** The buffer and the chaining value are those of the message m. */
    ghost predicate Buffered(m: seq<Byte>, mdi: nat)
      reads this, input
    {
      && input.Length == BLOCK && mdi == |m| % BLOCK && buf == Chained(transform, m) && input[..mdi] == Pending(m)
    }

    /** One octet into the buffer; when it is full, it is transformed and starts again. */
    method Absorb(c: Byte, mdi: nat, ghost m: seq<Byte>) returns (next: nat)
      requires Buffered(m, mdi)
      modifies this`buf, input
      ensures Buffered(m + [c], next)
    {
      OneOctet(transform, m, c);
      NextPlace(|m|);
      hide Chained, Pending;
      input[mdi] := c;
      assert input[..mdi + 1] == Pending(m) + [c];
      next := mdi + 1;
      if next == BLOCK {
        assert input[..] == input[..BLOCK];
        var words := Assemble(16);
        assert words == BlockWords(input[..]);
        buf := transform(buf, words);
        next := 0;
      }
    }

    method AddLength(len: U32, ghost n: nat)
      requires low == BitsLow(n) && high == BitsHigh(n)
      modifies this`low, this`high
      ensures low == BitsLow(n + len) && high == BitsHigh(n + len)
    {
      CountBits(n, len, low, high);
      var inc := Word(8 * len);
      hide BitsLow, BitsHigh, Word;
      if Add32(low, inc) < low { high := Add32(high, 1); } else { assert Add32(high, 0) == high; }
      low := Add32(low, inc);
      high := Add32(high, len / 0x2000_0000);
    }

    /** MD5Update: the context then stands for the message so far followed by the new octets. */
    method Update(data: seq<Byte>, ghost m: seq<Byte>)
      requires Holds(m) && |data| < 0x1_0000_0000
      modifies this, input
      ensures Holds(m + data)
    {
      BufferPlace(|m|);
      var mdi := low / 8 % BLOCK;
      hide Chained, Pending, BitsLow, BitsHigh;
      AddLength(|data|, |m|);
      var k := 0;
      assert m + data[..0] == m;
      while k < |data|
        invariant 0 <= k <= |data| && 0 <= mdi && Buffered(m + data[..k], mdi)
        invariant low == BitsLow(|m| + |data|) && high == BitsHigh(|m| + |data|)
      {
        assert m + data[..k + 1] == (m + data[..k]) + [data[k]];
        mdi := Absorb(data[k], mdi, m + data[..k]);
        k := k + 1;
      }
      assert m + data[..|data|] == m + data;
    }

    /** MD5Final: pad, put the length in the last two words, and give the digest of the whole message. */
    method Final(ghost m: seq<Byte>) returns (hash: seq<Byte>)
      requires Holds(m)
      modifies this, input
      ensures hash == DigestOctets(Hash(transform, m))
    {
      var last2 := [low, high];
      BufferPlace(|m|);
      var mdi := low / 8 % BLOCK;
      var padLen := if mdi < 56 then 56 - mdi else 120 - mdi;
      var padding := [0x80] + seq(padLen - 1, _ => 0);
      assert padding == Padding(|m|);
      Update(padding, m);
      var words := Assemble(14);
      LastBlock(transform, m, input[..], buf);
      buf := transform(buf, words + last2);
      hash := WriteOut(buf);
    }

    /** The digest written out, each word lowest octet first. */
    static method WriteOut(d: Digest) returns (hash: seq<Byte>)
      ensures hash == DigestOctets(d)
    {
      hide Oct, LeOctets, DigestOctets;
      hash := [];
      DigestEnds(d);
      var i := 0;
      while i < 4
        invariant 0 <= i <= 4 && hash == DigestOctets(d)[..4 * i]
      {
        DigestGrows(d, i);
        hash := hash + [Oct(d[i], 3), Oct(d[i], 2), Oct(d[i], 1), Oct(d[i], 0)];
        i := i + 1;
      }
    }
  }

  lemma DigestEnds(d: Digest)
    ensures DigestOctets(d)[..0] == [] && DigestOctets(d)[..16] == DigestOctets(d)
  {}

  /** The digest as octets, each word little-endian. */
  function DigestOctets(d: Digest): (r: seq<Byte>)
    ensures |r| == 16
  {
    LeOctets(d[0]) + LeOctets(d[1]) + LeOctets(d[2]) + LeOctets(d[3])
  }

  lemma DigestGrows(d: Digest, i: nat)
    requires i < 4
    ensures DigestOctets(d)[..4 * i] + [Oct(d[i], 3), Oct(d[i], 2), Oct(d[i], 1), Oct(d[i], 0)] == DigestOctets(d)[..4 * (i + 1)]
  {
    hide Oct;
  }

  /** Octet by octet. */
  lemma DigestAt(d: Digest, k: nat)
    requires k < 16
    ensures DigestOctets(d)[k] == Digit(d[k / 4], k % 4)
  {
    var x := d[k / 4];
    LowDigits(x, k % 4);
    assert Word(x) == x;
    hide Digit, Word;
    DigestPart(d, k / 4, k % 4);
    assert k == 4 * (k / 4) + k % 4;
  }

  lemma DigestPart(d: Digest, i: nat, j: nat)
    requires i < 4 && j < 4
    ensures DigestOctets(d)[4 * i + j] == LeOctets(d[i])[j]
  {
    hide Oct;
  }

  /** The words of the last block, made from 56 buffered octets and the saved counter. */
  lemma LastBlock(transform: (Digest, seq<U32>) -> Digest, m: seq<Byte>, input: seq<Byte>, buf: Digest)
    requires |input| == BLOCK
    requires var t := m + Padding(|m|);
             buf == Chained(transform, t) && |t| % BLOCK == 56 && input[..56] == Pending(t)
    ensures transform(buf, BlockWords(input)[..14] + [BitsLow(|m|), BitsHigh(|m|)]) == Hash(transform, m)
  {
    hide Padding, BitsLow, BitsHigh, LeOctets, Whole, Blocks, Pending, Padded, BlockWords;
    var t := m + Padding(|m|);
    var low, high := LeOctets(BitsLow(|m|)), LeOctets(BitsHigh(|m|));
    var block := input[..56] + low + high;
    PaddedIs(m);
    WholeSplit(t);
    assert |low| == 4 && |high| == 4 by { OctetsFour(BitsLow(|m|)); OctetsFour(BitsHigh(|m|)); }
    assert (t + low) + high == t[..Whole(|t|)] + block;
    BlocksJoin(transform, INITIAL, t[..Whole(|t|)], block);
    BlocksOne(transform, buf, block);
    TailWords(input, block, BitsLow(|m|), BitsHigh(|m|));
  }

  lemma PaddedIs(m: seq<Byte>)
    ensures Padded(m) == m + Padding(|m|) + LeOctets(BitsLow(|m|)) + LeOctets(BitsHigh(|m|))
  {}

  lemma WholeSplit(t: seq<Byte>)
    ensures 0 <= Whole(|t|) <= |t| && Whole(|t|) % BLOCK == 0 && t == t[..Whole(|t|)] + Pending(t)
  {}

  lemma OctetsFour(n: U32)
    ensures |LeOctets(n)| == 4
  {}

  lemma TailWords(input: seq<Byte>, block: seq<Byte>, low: U32, high: U32)
    requires |input| == BLOCK && block == input[..56] + LeOctets(low) + LeOctets(high) && |block| == BLOCK
    ensures BlockWords(block) == BlockWords(input)[..14] + [low, high]
  {
    var w := BlockWords(block);
    forall i | 0 <= i < 14 ensures w[i] == BlockWords(input)[i] {}
    Join32(low);
    Join32(high);
    assert w[14] == low && w[15] == high;
  }
}
