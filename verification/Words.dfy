/** Octets and the unsigned words of the stack: 16- and 32-bit values wrap explicitly, and octet
    strings hold multi-octet values in network order. */
module Words {

  type Byte = b: int | 0 <= b < 0x100
  type Nibble = n: int | 0 <= n < 0x10
  type U16 = n: int | 0 <= n < 0x1_0000
  type U32 = n: int | 0 <= n < 0x1_0000_0000

  /** The value kept when a number is stored in 16 bits. */
  function Wrap16(n: int): U16 { n % 0x1_0000 }

  /** A sum, brought back into range. */
  function Add16(a: U16, b: int): U16
    requires -0x1_0000 <= a + b < 0x2_0000
  {
    var n: int := a + b;
    if n < 0 then n + 0x1_0000 else if n < 0x1_0000 then n else n - 0x1_0000
  }

  function Sub16(a: U16, b: U16): U16
  {
    var n: int := b;
    Add16(a, -n)
  }

  function Add32(a: U32, b: int): U32
    requires -0x1_0000_0000 <= a + b < 0x2_0000_0000
  {
    var n: int := a + b;
    if n < 0 then n + 0x1_0000_0000 else if n < 0x1_0000_0000 then n else n - 0x1_0000_0000
  }

  function Sub32(a: U32, b: U32): U32
  {
    var n: int := b;
    Add32(a, -n)
  }

  function Hi(n: U16): Byte { n / 0x100 }

  function Lo(n: U16): Byte { n % 0x100 }

  /** Octet k of a 32-bit value, octet 0 being the most significant. */
  function Oct(n: U32, k: nat): Byte
    requires k < 4
  {
    if k == 0 then n / 0x100_0000
    else if k == 1 then n / 0x1_0000 % 0x100
    else if k == 2 then n / 0x100 % 0x100
    else n % 0x100
  }

  function Word16(a: int, b: int): int { 0x100 * a + b }

  function Word32(a: int, b: int, c: int, d: int): int { 0x100_0000 * a + 0x1_0000 * b + 0x100 * c + d }

  function Get16(s: seq<Byte>, i: nat): U16
    requires i + 2 <= |s|
  {
    Word16(s[i], s[i + 1])
  }

  function Get32(s: seq<Byte>, i: nat): U32
    requires i + 4 <= |s|
  {
    Word32(s[i], s[i + 1], s[i + 2], s[i + 3])
  }

  lemma Join16(n: U16)
    ensures Word16(Hi(n), Lo(n)) == n
  {}

  lemma Split16(a: Byte, b: Byte)
    ensures Hi(Word16(a, b)) == a && Lo(Word16(a, b)) == b
  {}

  lemma Join32(n: U32)
    ensures Word32(Oct(n, 0), Oct(n, 1), Oct(n, 2), Oct(n, 3)) == n
  {
    assert n / 0x100 == 0x100 * (n / 0x1_0000) + n / 0x100 % 0x100;
    assert n / 0x1_0000 == 0x100 * (n / 0x100_0000) + n / 0x1_0000 % 0x100;
  }

  lemma Split32(a: Byte, b: Byte, c: Byte, d: Byte)
    ensures var n := Word32(a, b, c, d);
            Oct(n, 0) == a && Oct(n, 1) == b && Oct(n, 2) == c && Oct(n, 3) == d
  {
    var n := Word32(a, b, c, d);
    assert n / 0x100 == 0x1_0000 * a + 0x100 * b + c;
    assert n / 0x1_0000 == 0x100 * a + b;
  }
}
