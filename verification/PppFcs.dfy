/** The frame check sequence of a packet: the good residue, and the damage it detects. */
module PppFcs {
  import opened PppFcsTable

  type Octet = bv8

  const INIT_FCS: Fcs := 0xffff
  const GOOD_FCS: Fcs := 0xf0b8

  // The operators under names: a proof that hides them treats them as symbols.

  function Xor(x: Fcs, y: Fcs): Fcs { x ^ y }

  function Up(x: Fcs): Fcs { x << 4 }

  function Low8(x: Fcs): Fcs { x & 0xff }

  function High8(x: Fcs): Fcs { x >> 8 }

  function Wide(c: Octet): Fcs { c as bv16 }

  /** PPP_FCS: one octet through the table. */
  function FcsStep(f: Fcs, c: Octet): Fcs { Xor(High8(f), FcsTab(Low8(Xor(f, Wide(c))))) }

  function FcsOf(f: Fcs, cs: seq<Octet>): Fcs
    decreases |cs|
  {
    if cs == [] then f else FcsOf(FcsStep(f, cs[0]), cs[1..])
  }

  lemma {:induction false} FcsJoin(f: Fcs, a: seq<Octet>, b: seq<Octet>)
    ensures FcsOf(f, a + b) == FcsOf(FcsOf(f, a), b)
    decreases |a|
  {
    hide FcsStep;
    if a == [] {
      assert a + b == b;
    } else {
      assert (a + b)[1..] == a[1..] + b;
      FcsJoin(FcsStep(f, a[0]), a[1..], b);
    }
  }

  // ----- the table step as polynomial division -----

  lemma UnnamedXor(x: Fcs, y: Fcs, r: Fcs)
    requires r == Xor(x, y)
    ensures r == x ^ y
  {}

  lemma UnnamedUp(x: Fcs, r: Fcs)
    requires r == Up(x)
    ensures r == x << 4
  {}

  lemma ShiftBits(x: Fcs, y: Fcs, u: Fcs, a: Fcs, b: Fcs, r: Fcs)
    requires y <= 0xfff && u == y << 4 && a == x ^ u && b == Bits4(x) && r == b ^ y
    ensures Bits4(a) == r
  {}

  lemma ShiftFour(x: Fcs, y: Fcs)
    requires y <= 0xfff
    ensures Bits4(Xor(x, Up(y))) == Xor(Bits4(x), y)
  {
    hide *;
    var u, b := Up(y), Bits4(x);
    UnnamedUp(y, u);
    UnnamedXor(x, u, Xor(x, u));
    UnnamedXor(b, y, Xor(b, y));
    ShiftBits(x, y, u, Xor(x, u), b, Xor(b, y));
  }

  lemma UpSmall(c: Fcs)
    requires c <= 0xff
    ensures c <= 0xfff && Up(c) <= 0xfff
  {}

  /** Bits above the lowest eight only move down. */
  lemma ShiftIn(x: Fcs, c: Fcs)
    requires c <= 0xff
    ensures Bits8(Xor(x, Up(Up(c)))) == Xor(Bits8(x), c)
  {
    hide Bits4, Up, Xor;
    UpSmall(c);
    ShiftFour(x, Up(c));
    ShiftFour(Bits4(x), c);
  }

  lemma Parts(f: Fcs, c: Octet)
    ensures High8(f) <= 0xff && Low8(Xor(f, Wide(c))) <= 0xff
    ensures Xor(Low8(Xor(f, Wide(c))), Up(Up(High8(f)))) == Xor(f, Wide(c))
  {}

  lemma Commute(x: Fcs, y: Fcs)
    ensures Xor(x, y) == Xor(y, x)
  {}

  lemma StepIs(f: Fcs, c: Octet)
    ensures FcsStep(f, c) == Xor(FcsTab(Low8(Xor(f, Wide(c)))), High8(f))
  {
    hide Xor, High8, Low8, Wide, FcsTab;
    Commute(High8(f), FcsTab(Low8(Xor(f, Wide(c)))));
  }

  /** The table step is eight steps of the polynomial division. */
  lemma StepIsPolynomial(f: Fcs, c: Octet)
    ensures FcsStep(f, c) == Bits8(Xor(f, Wide(c)))
  {
    hide *;
    var x := Low8(Xor(f, Wide(c)));
    Parts(f, c);
    TableIsPolynomial(x);
    ShiftIn(x, High8(f));
    StepIs(f, c);
  }

  lemma FourInjective(x: Fcs, y: Fcs)
    ensures Bits4(x) == Bits4(y) ==> x == y
  {}

  lemma BitsInjective(x: Fcs, y: Fcs)
    ensures Bits8(x) == Bits8(y) ==> x == y
  {
    hide Bits4;
    FourInjective(x, y);
    FourInjective(Bits4(x), Bits4(y));
  }

  // ----- the check -----

  function Low(f: Fcs): Octet { (f & 0xff) as bv8 }

  function High(f: Fcs): Octet { (f >> 8) as bv8 }

  /** The complemented register, low octet first, as it is sent after the packet. */
  function Check(f: Fcs): seq<Octet> { [Low(!f), High(!f)] }

  function Word(f: Fcs, a: Octet, b: Octet): Fcs { Xor(Xor(f, Wide(a)), Up(Up(Wide(b)))) }

  lemma WideSmall(b: Octet)
    ensures Wide(b) <= 0xff
  {}

  /** Two octets are one step on a 16-bit word. */
  lemma TwoSteps(f: Fcs, a: Octet, b: Octet)
    ensures FcsOf(f, [a, b]) == Bits8(Bits8(Word(f, a, b)))
  {
    assert [a, b][1..] == [b] && [b][1..] == [];
    assert FcsOf(f, [a, b]) == FcsStep(FcsStep(f, a), b) by {
      hide FcsStep;
      assert FcsOf(FcsStep(f, a), [b]) == FcsOf(FcsStep(FcsStep(f, a), b), []);
    }
    hide FcsStep, FcsOf, Bits8, Xor, Up, Wide;
    StepIsPolynomial(f, a);
    StepIsPolynomial(FcsStep(f, a), b);
    WideSmall(b);
    ShiftIn(Xor(f, Wide(a)), Wide(b));
  }

  lemma ResidueWord(f: Fcs)
    ensures Word(f, Low(!f), High(!f)) == 0xffff
  {}

  lemma Residue()
    ensures Bits8(Bits8(0xffff)) == GOOD_FCS
  {}

  lemma Unmix(f: Fcs, a: Fcs, b: Fcs, c: Fcs, d: Fcs)
    requires Xor(Xor(f, a), Up(Up(b))) == Xor(Xor(f, c), Up(Up(d)))
    requires a <= 0xff && b <= 0xff && c <= 0xff && d <= 0xff
    ensures a == c && b == d
  {}

  lemma WideInjective(a: Octet, b: Octet)
    ensures Wide(a) == Wide(b) ==> a == b
  {}

  lemma WordInjective(f: Fcs, a: Octet, b: Octet, c: Octet, d: Octet)
    requires Word(f, a, b) == Word(f, c, d)
    ensures a == c && b == d
  {
    hide Xor, Up, Wide;
    WideSmall(a);
    WideSmall(b);
    WideSmall(c);
    WideSmall(d);
    Unmix(f, Wide(a), Wide(b), Wide(c), Wide(d));
    WideInjective(a, c);
    WideInjective(b, d);
  }

  lemma TwoInjective(f: Fcs, a: Octet, b: Octet, c: Octet, d: Octet)
    ensures FcsOf(f, [a, b]) == FcsOf(f, [c, d]) ==> a == c && b == d
  {
    hide *;
    TwoSteps(f, a, b);
    TwoSteps(f, c, d);
    BitsInjective(Bits8(Word(f, a, b)), Bits8(Word(f, c, d)));
    BitsInjective(Word(f, a, b), Word(f, c, d));
    if Word(f, a, b) == Word(f, c, d) { WordInjective(f, a, b, c, d); }
  }

  /** The register ends at 0xf0b8 exactly when the last two octets are the check of those before them. */
  lemma GoodResidue(cs: seq<Octet>, a: Octet, b: Octet)
    ensures FcsOf(INIT_FCS, cs + [a, b]) == GOOD_FCS <==> [a, b] == Check(FcsOf(INIT_FCS, cs))
  {
    hide FcsOf, Bits8, Low, High, Word;
    var f := FcsOf(INIT_FCS, cs);
    FcsJoin(INIT_FCS, cs, [a, b]);
    ResidueAt(f);
    var c, d := Low(!f), High(!f);
    assert Check(f) == [c, d];
    TwoInjective(f, a, b, c, d);
    hide *;
    assert [a, b] == [c, d] <==> a == c && b == d;
  }

  lemma ResidueAt(f: Fcs)
    ensures FcsOf(f, [Low(!f), High(!f)]) == GOOD_FCS
  {
    hide *;
    TwoSteps(f, Low(!f), High(!f));
    ResidueWord(f);
    Residue();
  }

  // ----- damage -----

  lemma XorInjective(f: Fcs, g: Fcs, c: Fcs)
    ensures Xor(f, c) == Xor(g, c) ==> f == g
  {}

  lemma StepInjective(f: Fcs, g: Fcs, c: Octet)
    ensures FcsStep(f, c) == FcsStep(g, c) ==> f == g
  {
    hide *;
    StepIsPolynomial(f, c);
    StepIsPolynomial(g, c);
    BitsInjective(Xor(f, Wide(c)), Xor(g, Wide(c)));
    XorInjective(f, g, Wide(c));
  }

  lemma {:induction false} FcsInjective(f: Fcs, g: Fcs, cs: seq<Octet>)
    ensures FcsOf(f, cs) == FcsOf(g, cs) ==> f == g
    decreases |cs|
  {
    hide FcsStep;
    if cs != [] {
      FcsInjective(FcsStep(f, cs[0]), FcsStep(g, cs[0]), cs[1..]);
      StepInjective(f, g, cs[0]);
    }
  }

  /** Damage confined to two adjacent octets, anywhere in a packet, always changes the check. */
  lemma BurstDetected(a: seq<Octet>, w: Octet, x: Octet, y: Octet, z: Octet, b: seq<Octet>)
    requires w != y || x != z
    ensures FcsOf(INIT_FCS, a + [w, x] + b) != FcsOf(INIT_FCS, a + [y, z] + b)
  {
    hide *;
    var f := FcsOf(INIT_FCS, a);
    FcsJoin(INIT_FCS, a + [w, x], b);
    FcsJoin(INIT_FCS, a, [w, x]);
    FcsJoin(INIT_FCS, a + [y, z], b);
    FcsJoin(INIT_FCS, a, [y, z]);
    FcsInjective(FcsOf(f, [w, x]), FcsOf(f, [y, z]), b);
    TwoInjective(f, w, x, y, z);
  }
}
