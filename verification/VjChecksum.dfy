/** The IP header checksum that the decompressor fills in is the Internet checksum of the header. */
module VjChecksum {
  import opened Words
  import opened VjHeader
  import C = Checksum

  /** The loop over the words adds up the one's-complement sum. */
  lemma {:induction false} SumWordsIs(s: seq<Byte>, tmp: nat)
    requires |s| % 2 == 0
    ensures SumWords(s, tmp) == SumField(tmp + C.Sum(s, false))
    decreases |s|
  {
    hide SumField;
    if s != [] {
      assert s[1..][1..] == s[2..];
      SumWordsIs(s[2..], s[0] + 0x100 * s[1] + tmp);
    }
  }

  lemma {:induction false} SumBound(s: seq<Byte>)
    requires |s| % 2 == 0
    ensures C.Sum(s, false) <= 0xffff * (|s| / 2)
    decreases |s|
  {
    if s != [] {
      assert s[1..][1..] == s[2..];
      SumBound(s[2..]);
    }
  }

  /** For as few words as a header has, adding the carries back twice is enough. */
  lemma TwoFolds(n: nat)
    requires n <= 30 * 0xffff
    ensures FoldOnce(FoldOnce(n)) == C.Fold(n) <= 0xffff
  {
    C.FoldCarry(n);
    C.FoldCarry(FoldOnce(n));
    C.FoldCarry(FoldOnce(FoldOnce(n)));
  }

  lemma Turned(c: U16)
    ensures var f := 0x100 * (c % 0x100) + c / 0x100;
            f < 0x1_0000 && Word16(Lo(f), Hi(f)) == c
  {
    var f := 0x100 * (c % 0x100) + c / 0x100;
    assert f / 0x100 == c % 0x100 && f % 0x100 == c / 0x100;
  }

  /** The field, as the word it is stored as. */
  lemma StoredField(tmp: nat)
    requires tmp <= 30 * 0xffff
    ensures Word16(Lo(SumField(tmp)), Hi(SumField(tmp))) == 0xffff - C.Fold(tmp)
  {
    TwoFolds(tmp);
    var n := C.Fold(tmp);
    hide FoldOnce, C.Fold, Word16, Lo, Hi;
    Complemented(n);
    Turned(0xffff - n);
  }

  lemma Complemented(n: nat)
    requires n <= 0xffff
    ensures (0xffff - n) % 0x1_0000 == 0xffff - n
  {}

  /** A word read from its octets in the other order. */
  lemma OtherOrder(x: U16)
    ensures var w := Word16(Lo(x), Hi(x)); w < 0x1_0000 && Lo(w) == Hi(x) && Hi(w) == Lo(x)
  {}

  /** An IP header with another checksum in it. */
  lemma WithSum(h: Header, sum: U16)
    requires WellFormed(h)
    ensures var zero := IpBytes(h.(ipSum := 0));
            12 <= |zero| && IpBytes(h.(ipSum := sum)) == zero[10 := Hi(sum)][11 := Lo(sum)]
  {}

  lemma ZeroSum(h: Header)
    requires WellFormed(h)
    ensures var zero := IpBytes(h.(ipSum := 0));
            12 <= |zero| && zero[10] == 0 && zero[11] == 0
  {}

  lemma InPlace(z: seq<Byte>, w: U16)
    requires 12 <= |z|
    ensures C.WithWord(z, 10, w) == z[10 := Lo(w)][11 := Hi(w)]
  {}

  lemma FewWords(h: Header)
    requires WellFormed(h)
    ensures |IpBytes(h)| % 2 == 0 && C.Sum(IpBytes(h), false) <= 30 * 0xffff
  {
    BytesLength(h);
    Short(|IpBytes(h)|, h.hl);
    SumBound(IpBytes(h));
  }

  lemma Short(n: nat, hl: Nibble)
    requires n == 4 * hl
    ensures n % 2 == 0 && 0xffff * (n / 2) <= 30 * 0xffff
  {}

  /** The field as stored is the complement of the sum without it. */
  lemma FieldWord(h: Header)
    requires WellFormed(h)
    ensures Word16(Lo(RecomputedSum(h)), Hi(RecomputedSum(h))) == C.Complement(IpBytes(h.(ipSum := 0)))
  {
    var zero := IpBytes(h.(ipSum := 0));
    FewWords(h.(ipSum := 0));
    SumWordsIs(zero, 0);
    StoredField(C.Sum(zero, false));
    hide SumField, SumWords, C.Fold, Word16, Hi, Lo, C.Sum, IpBytes;
  }

  /** The header the decompressor rebuilds passes the checksum test of its receiver. */
  lemma RebuiltVerifies(h: Header)
    requires WellFormed(h)
    ensures C.Complement(IpBytes(h.(ipSum := RecomputedSum(h)))) == 0
  {
    hide *;
    FieldWord(h);
    OtherOrder(RecomputedSum(h));
    WithSum(h, RecomputedSum(h));
    ZeroSum(h);
    InPlace(IpBytes(h.(ipSum := 0)), Word16(Lo(RecomputedSum(h)), Hi(RecomputedSum(h))));
    C.FilledVerifies(IpBytes(h.(ipSum := 0)), 10);
  }

  lemma StoredIs(x: U16)
    ensures Word16(Lo(x), Hi(x)) == C.Swap(x) <= 0xffff && C.Swap(C.Swap(x)) == x
  {}

  /** Storing in the other order does not change whether two words have the same remainder. */
  lemma SameStored(x: U16, y: U16)
    ensures Word16(Lo(x), Hi(x)) % 0xffff == Word16(Lo(y), Hi(y)) % 0xffff <==> x % 0xffff == y % 0xffff
  {
    StoredIs(x);
    StoredIs(y);
    var a, b := C.Swap(x), C.Swap(y);
    hide Word16, Lo, Hi, C.Swap;
    C.SwapTimes(x);
    C.SwapTimes(y);
    C.SwapTimes(a);
    C.SwapTimes(b);
    if x % 0xffff == y % 0xffff { C.TimesModulo(x, y); }
    if a % 0xffff == b % 0xffff { C.TimesModulo(a, b); }
  }

  lemma Rewritten(z: seq<Byte>, v: U16, w: U16)
    requires 12 <= |z|
    ensures var good := C.WithWord(z, 10, v);
            && |good| == |z| && C.WordAt(good, 10) == v && C.WithWord(good, 10, w) == C.WithWord(z, 10, w)
  {
    Join16(v);
    hide Word16;
  }

  lemma FirstCounts(h: Header)
    requires 5 <= h.hl
    ensures C.Sum(IpBytes(h), false) > 0
  {
    assert IpBytes(h)[0] == 0x10 * h.ver + h.hl;
  }

  /** A header passes the test exactly when its checksum is the recomputed one, up to the two forms of zero. */
  lemma VerifiesExactly(h: Header)
    requires WellFormed(h)
    ensures C.Complement(IpBytes(h)) == 0 <==> h.ipSum % 0xffff == RecomputedSum(h) % 0xffff
  {
    var right := RecomputedSum(h);
    StoredIs(right);
    StoredIs(h.ipSum);
    var v, w := Word16(Lo(right), Hi(right)), Word16(Lo(h.ipSum), Hi(h.ipSum));
    var zero, good := IpBytes(h.(ipSum := 0)), IpBytes(h.(ipSum := right));
    assert 5 <= h.hl;
    hide *;
    RebuiltVerifies(h);
    OtherOrder(right);
    OtherOrder(h.ipSum);
    WithSum(h, right);
    WithSum(h, h.ipSum);
    InPlace(zero, v);
    InPlace(zero, w);
    assert h.(ipSum := h.ipSum) == h;
    Rewritten(zero, v, w);
    C.WithWordSum(good, 10, w);
    C.WordDamage(good, 10, w);
    FirstCounts(h);
    SameStored(h.ipSum, right);
  }
}
