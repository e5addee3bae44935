/** Machine words as ranges of mathematical integers, and the bitwise operators the firmware applies to them. */
module Words {

  type u8 = x: int | 0 <= x < 0x100
  type u16 = x: int | 0 <= x < 0x1_0000
  type u32 = x: int | 0 <= x < 0x1_0000_0000
  type i16 = x: int | -0x8000 <= x < 0x8000
  type i32 = x: int | -0x8000_0000 <= x < 0x8000_0000

  /** Conversion of an integer to `int16_t`: the representative of x modulo 2^16. */
  function ToI16(x: int): i16 {
    (x + 0x8000) % 0x1_0000 - 0x8000
  }

  /** Conversion of an integer to `int32_t`. */
  function ToI32(x: int): i32 {
    (x + 0x8000_0000) % 0x1_0000_0000 - 0x8000_0000
  }

  /** Conversion of an integer to `uint16_t`. */
  function ToU16(x: int): u16 {
    x % 0x1_0000
  }

  /** High and low byte of a 16-bit word, as `w >> 8` and `w` cast to `uint8_t`. */
  function Hi(w: int): u8 { ToU16(w) / 0x100 }
  function Lo(w: int): u8 { ToU16(w) % 0x100 }

  /** Big-endian words of two and of four bytes. */
  function Be16(hi: u8, lo: u8): u16 { hi as int * 0x100 + lo }
  function Be32(b3: u8, b2: u8, b1: u8, b0: u8): u32 { Be16(b3, b2) as int * 0x1_0000 + Be16(b1, b0) }

  /** Bitwise and of two naturals. */
  function BitAnd(x: nat, y: nat): nat {
    if x == 0 || y == 0 then 0
    else 2 * BitAnd(x / 2, y / 2) + (if x % 2 == 1 && y % 2 == 1 then 1 else 0)
  }

  predicate IsPow2(c: nat) {
    c == 1 || (c > 0 && c % 2 == 0 && IsPow2(c / 2))
  }

  lemma {:induction false} AndSelf(x: nat)
    ensures BitAnd(x, x) == x
  {
    if x > 0 { AndSelf(x / 2); }
  }

  /** The source's test `c && !(c & (c - 1))` recognises exactly the powers of two. */
  lemma {:induction false} PowerOfTwoTest(c: nat)
    ensures IsPow2(c) <==> c > 0 && BitAnd(c, c - 1) == 0
  {
    if c > 1 {
      if c % 2 == 0 {
        assert (c - 1) / 2 == c / 2 - 1;
        PowerOfTwoTest(c / 2);
      } else {
        assert (c - 1) / 2 == c / 2;
        AndSelf(c / 2);
      }
    }
  }

  lemma ModOfDouble(x: nat, c: nat)
    requires c > 0
    ensures x % (2 * c) == 2 * ((x / 2) % c) + x % 2
  {
    var q, s := (x / 2) / c, (x / 2) % c;
    assert x / 2 == q * c + s;
    var r := 2 * s + x % 2;
    assert x == (2 * c) * q + r by { assert x == 2 * (x / 2) + x % 2; }
    ModUnique(x, 2 * c, q, r);
  }

  lemma ModUnique(x: int, m: int, q: int, r: int)
    requires 0 <= r < m && x == m * q + r
    ensures x % m == r && x / m == q
  {
    var k, r' := x / m - q, x % m;
    assert x == m * (x / m) + r';
    assert m * (x / m) == m * q + m * k;
    if k >= 1 { MulGrows(m, k); } else if k <= -1 { MulGrows(m, -k); }
  }

  lemma MulGrows(m: int, k: int)
    requires m > 0 && k >= 1
    ensures m * k >= m && m * -k == -(m * k)
  {
  }

  /** Masking with a power of two minus one is the remainder. */
  lemma {:induction false} MaskIsMod(x: nat, c: nat)
    requires IsPow2(c)
    ensures BitAnd(x, c - 1) == x % c
  {
    if c > 1 {
      assert (c - 1) / 2 == c / 2 - 1;
      MaskIsMod(x / 2, c / 2);
      ModOfDouble(x, c / 2);
      if x == 0 { assert 0 % c == 0; }
    }
  }

  lemma {:induction false} Pow2Divides(c: nat, d: nat)
    requires IsPow2(c) && IsPow2(d) && c <= d
    ensures d % c == 0
  {
    if c > 1 {
      Pow2Divides(c / 2, d / 2);
      ModOfDouble(d, c / 2);
    }
  }

  lemma Pow2Double(c: nat)
    requires IsPow2(c)
    ensures IsPow2(2 * c)
  {
    assert 2 * c / 2 == c;
  }

  lemma Pow2Times16(c: nat)
    requires IsPow2(c)
    ensures IsPow2(16 * c)
  {
    hide IsPow2;
    Pow2Double(c);
    Pow2Double(2 * c);
    Pow2Double(4 * c);
    Pow2Double(8 * c);
  }

  lemma Pow2Of32()
    ensures IsPow2(0x1_0000_0000)
  {
    assert IsPow2(1);
    hide IsPow2;
    Pow2Times16(1);
    Pow2Times16(0x10);
    Pow2Times16(0x100);
    Pow2Times16(0x1000);
    Pow2Times16(0x1_0000);
    Pow2Times16(0x10_0000);
    Pow2Times16(0x100_0000);
    Pow2Times16(0x1000_0000);
  }

  /** `x & mask` on the 32-bit `int` that C promotes the ring indices to. */
  function Mask(x: int, mask: nat): nat {
    BitAnd(x % 0x1_0000_0000, mask)
  }

  lemma Regroup(w: int, c: int, k: int, q: int, m: int, r: int)
    requires w == c * k
    ensures w * q + (c * m + r) == c * (k * q + m) + r
  {
    assert c * k * q == c * (k * q);
    assert c * (k * q + m) == c * (k * q) + c * m;
  }

  lemma DivMod(x: int, m: int)
    requires m > 0
    ensures x == m * (x / m) + x % m && 0 <= x % m < m
  {
  }

  lemma RemainderTwice(x: int, w: int, c: int)
    requires 0 < c && 0 < w && w % c == 0
    ensures x % w % c == x % c
  {
    DivMod(x, w);
    DivMod(x % w, c);
    DivMod(w, c);
    var k, q, m, r := w / c, x / w, x % w / c, x % w % c;
    Regroup(w, c, k, q, m, r);
    ModUnique(x, c, k * q + m, r);
  }

  /** On any `int`, also a negative one, the mask takes the remainder. */
  lemma MaskIsRemainder(x: int, c: nat)
    requires IsPow2(c) && c <= 0x8000
    ensures Mask(x, c - 1) == x % c
  {
    MaskIsMod(x % 0x1_0000_0000, c);
    Pow2Of32();
    Pow2Divides(c, 0x1_0000_0000);
    RemainderTwice(x, 0x1_0000_0000, c);
  }

  /** Over the index arithmetic of a ring, masking is one conditional subtraction or addition of the capacity. */
  lemma MaskWraps(x: int, c: nat)
    requires IsPow2(c) && c <= 0x8000 && -(c as int) <= x < 2 * c
    ensures Mask(x, c - 1) == (if x < 0 then x + c else if x < c then x else x - c)
  {
    MaskIsRemainder(x, c);
    hide IsPow2, BitAnd;
    if x < 0 {
      ModUnique(x, c, -1, x + c);
    } else if x < c {
      ModUnique(x, c, 0, x);
    } else {
      ModUnique(x, c, 1, x - c);
    }
  }
}
