/**
 * CRC-8/AUTOSAR (polynomial 0x2F, initial value and final xor 0xFF): the lookup table against the arithmetic behind
 * it.
 */
module Crc8 {
  import opened Words

  /** A polynomial over the two-element field, as the set of its exponents. */
  type Poly = set<nat>

  /** x^8 + x^5 + x^3 + x^2 + x + 1. */
  const GENERATOR: Poly := {0, 1, 2, 3, 5, 8}

  function Add(p: Poly, q: Poly): Poly { (p - q) + (q - p) }

  /** p times x. */
  function Raise(p: Poly): (r: Poly)
    ensures forall e: nat :: e in r <==> e > 0 && e - 1 in p
  {
    var r := set e | e in p :: e + 1;
    assert forall e: nat :: e in r <==> exists d :: d in p && e == d + 1;
    r
  }

  /** p times x, plus c times q. */
  function Up(p: Poly, c: bool, q: Poly): Poly {
    Add(Raise(p), if c then q else {})
  }

  // ---------- The table ----------

  function Pick(j: bv8, e0: bv8, e1: bv8, e2: bv8, e3: bv8, e4: bv8, e5: bv8, e6: bv8, e7: bv8,
                e8: bv8, e9: bv8, e10: bv8, e11: bv8, e12: bv8, e13: bv8, e14: bv8, e15: bv8): bv8
  {
    match j
    case 0 => e0 case 1 => e1 case 2 => e2 case 3 => e3 case 4 => e4 case 5 => e5 case 6 => e6 case 7 => e7
    case 8 => e8 case 9 => e9 case 10 => e10 case 11 => e11 case 12 => e12 case 13 => e13 case 14 => e14 case _ => e15
  }

  /** The 256-entry table, one row for each high digit. */
  function Lut(x: bv8): bv8 {
    var j := x & 0x0F;
    match x >> 4
    case 0 => Pick(j, 0x00, 0x2F, 0x5E, 0x71, 0xBC, 0x93, 0xE2, 0xCD, 0x57, 0x78, 0x09, 0x26, 0xEB, 0xC4, 0xB5, 0x9A)
    case 1 => Pick(j, 0xAE, 0x81, 0xF0, 0xDF, 0x12, 0x3D, 0x4C, 0x63, 0xF9, 0xD6, 0xA7, 0x88, 0x45, 0x6A, 0x1B, 0x34)
    case 2 => Pick(j, 0x73, 0x5C, 0x2D, 0x02, 0xCF, 0xE0, 0x91, 0xBE, 0x24, 0x0B, 0x7A, 0x55, 0x98, 0xB7, 0xC6, 0xE9)
    case 3 => Pick(j, 0xDD, 0xF2, 0x83, 0xAC, 0x61, 0x4E, 0x3F, 0x10, 0x8A, 0xA5, 0xD4, 0xFB, 0x36, 0x19, 0x68, 0x47)
    case 4 => Pick(j, 0xE6, 0xC9, 0xB8, 0x97, 0x5A, 0x75, 0x04, 0x2B, 0xB1, 0x9E, 0xEF, 0xC0, 0x0D, 0x22, 0x53, 0x7C)
    case 5 => Pick(j, 0x48, 0x67, 0x16, 0x39, 0xF4, 0xDB, 0xAA, 0x85, 0x1F, 0x30, 0x41, 0x6E, 0xA3, 0x8C, 0xFD, 0xD2)
    case 6 => Pick(j, 0x95, 0xBA, 0xCB, 0xE4, 0x29, 0x06, 0x77, 0x58, 0xC2, 0xED, 0x9C, 0xB3, 0x7E, 0x51, 0x20, 0x0F)
    case 7 => Pick(j, 0x3B, 0x14, 0x65, 0x4A, 0x87, 0xA8, 0xD9, 0xF6, 0x6C, 0x43, 0x32, 0x1D, 0xD0, 0xFF, 0x8E, 0xA1)
    case 8 => Pick(j, 0xE3, 0xCC, 0xBD, 0x92, 0x5F, 0x70, 0x01, 0x2E, 0xB4, 0x9B, 0xEA, 0xC5, 0x08, 0x27, 0x56, 0x79)
    case 9 => Pick(j, 0x4D, 0x62, 0x13, 0x3C, 0xF1, 0xDE, 0xAF, 0x80, 0x1A, 0x35, 0x44, 0x6B, 0xA6, 0x89, 0xF8, 0xD7)
    case 10 => Pick(j, 0x90, 0xBF, 0xCE, 0xE1, 0x2C, 0x03, 0x72, 0x5D, 0xC7, 0xE8, 0x99, 0xB6, 0x7B, 0x54, 0x25, 0x0A)
    case 11 => Pick(j, 0x3E, 0x11, 0x60, 0x4F, 0x82, 0xAD, 0xDC, 0xF3, 0x69, 0x46, 0x37, 0x18, 0xD5, 0xFA, 0x8B, 0xA4)
    case 12 => Pick(j, 0x05, 0x2A, 0x5B, 0x74, 0xB9, 0x96, 0xE7, 0xC8, 0x52, 0x7D, 0x0C, 0x23, 0xEE, 0xC1, 0xB0, 0x9F)
    case 13 => Pick(j, 0xAB, 0x84, 0xF5, 0xDA, 0x17, 0x38, 0x49, 0x66, 0xFC, 0xD3, 0xA2, 0x8D, 0x40, 0x6F, 0x1E, 0x31)
    case 14 => Pick(j, 0x76, 0x59, 0x28, 0x07, 0xCA, 0xE5, 0x94, 0xBB, 0x21, 0x0E, 0x7F, 0x50, 0x9D, 0xB2, 0xC3, 0xEC)
    case _ => Pick(j, 0xD8, 0xF7, 0x86, 0xA9, 0x64, 0x4B, 0x3A, 0x15, 0x8F, 0xA0, 0xD1, 0xFE, 0x33, 0x1C, 0x6D, 0x42)
  }

  /** One step of the shift register that divides by the generator. */
  function Shift1(x: bv8): bv8 {
    if x & 0x80 == 0 then x << 1 else (x << 1) ^ 0x2F
  }

  function Shift8(x: bv8): bv8 {
    Shift1(Shift1(Shift1(Shift1(Shift1(Shift1(Shift1(Shift1(x))))))))
  }

  lemma RowsFrom0(x: bv8)
    requires x >> 4 == 0
    ensures Lut(x) == Shift8(x)
  {
  }

  lemma RowsFrom1(x: bv8)
    requires x >> 4 == 1
    ensures Lut(x) == Shift8(x)
  {
  }

  lemma RowsFrom2(x: bv8)
    requires x >> 5 == 1
    ensures Lut(x) == Shift8(x)
  {
  }

  lemma RowsFrom4(x: bv8)
    requires x >> 6 == 1
    ensures Lut(x) == Shift8(x)
  {
  }

  lemma RowsFrom8(x: bv8)
    requires x >> 6 == 2
    ensures Lut(x) == Shift8(x)
  {
  }

  lemma RowsFrom12(x: bv8)
    requires x >> 6 == 3
    ensures Lut(x) == Shift8(x)
  {
  }

  /** The table holds eight steps of the register. */
  lemma TableIsShift(x: bv8)
    ensures Lut(x) == Shift8(x)
  {
    hide Lut, Shift8;
    match x >> 6
    case 0 => if x >> 4 == 0 { RowsFrom0(x); } else if x >> 4 == 1 { RowsFrom1(x); } else { RowsFrom2(x); }
    case 1 => RowsFrom4(x);
    case 2 => RowsFrom8(x);
    case _ => RowsFrom12(x);
  }

  function Mix(x: bv8, d: bv8): bv8 { x ^ d }

  function Digit(x: int): bv8
    requires 0 <= x < 16
  {
    match x
    case 0 => 0 case 1 => 1 case 2 => 2 case 3 => 3 case 4 => 4 case 5 => 5 case 6 => 6 case 7 => 7
    case 8 => 8 case 9 => 9 case 10 => 10 case 11 => 11 case 12 => 12 case 13 => 13 case 14 => 14 case _ => 15
  }

  /** The bits of a byte. */
  function Byte(x: u8): bv8 {
    (Digit(x / 16) << 4) | Digit(x % 16)
  }

  function Nibble(d: bv8): (x: int)
    requires d < 16
    ensures 0 <= x < 16
  {
    match d
    case 0 => 0 case 1 => 1 case 2 => 2 case 3 => 3 case 4 => 4 case 5 => 5 case 6 => 6 case 7 => 7
    case 8 => 8 case 9 => 9 case 10 => 10 case 11 => 11 case 12 => 12 case 13 => 13 case 14 => 14 case _ => 15
  }

  /** The byte with these bits. */
  function Int(d: bv8): u8 {
    16 * Nibble(d >> 4) + Nibble(d & 0x0F)
  }

  // ---------- Messages as polynomials ----------

  /** The coefficient of x^e. */
  function Coef(d: bv8, e: nat): bool
    requires e < 8
  {
    match e
    case 0 => d & 0x01 != 0
    case 1 => d & 0x02 != 0
    case 2 => d & 0x04 != 0
    case 3 => d & 0x08 != 0
    case 4 => d & 0x10 != 0
    case 5 => d & 0x20 != 0
    case 6 => d & 0x40 != 0
    case _ => d & 0x80 != 0
  }

  function Bits(d: bv8): (bits: seq<bool>)
    ensures |bits| == 8
  {
    [Coef(d, 7), Coef(d, 6), Coef(d, 5), Coef(d, 4), Coef(d, 3), Coef(d, 2), Coef(d, 1), Coef(d, 0)]
  }

  /** The bits of a message, most significant first. */
  function MessageBits(data: seq<u8>): seq<bool> {
    if data == [] then [] else MessageBits(data[..|data| - 1]) + Bits(Byte(data[|data| - 1]))
  }

  /** The polynomial a register holds. */
  function PolyOf(x: bv8): Poly {
    set e: nat | e < 8 && Coef(x, e)
  }

  /** The dividend: the message times x^8, with the initial value added on its first eight bits. */
  function Dividend(bits: seq<bool>): Poly {
    if bits == [] then PolyOf(0xFF) else Up(Dividend(bits[..|bits| - 1]), bits[|bits| - 1], {8})
  }

  /** A quotient, given by its coefficients from the highest, times the generator. */
  function Times(q: seq<bool>): Poly {
    if q == [] then {} else Up(Times(q[..|q| - 1]), q[|q| - 1], GENERATOR)
  }

  /** `r` is what remains of the dividend after division by the generator. */
  ghost predicate IsRemainder(bits: seq<bool>, r: bv8) {
    exists q: seq<bool> :: |q| == |bits| && Dividend(bits) == Add(Times(q), PolyOf(r))
  }

  // ---------- Long division ----------

  /** The bit-serial register. */
  function Feed(x: bv8, b: bool): bv8 {
    Shift1(x ^ (if b then 0x80 else 0))
  }

  function FeedAll(x: bv8, bits: seq<bool>): bv8 {
    if bits == [] then x else Feed(FeedAll(x, bits[..|bits| - 1]), bits[|bits| - 1])
  }

  lemma CoefOfFeed(x: bv8, b: bool, e: nat)
    requires e < 8
    ensures var c := Coef(x, 7) != b;
            Coef(Feed(x, b), e) == ((e > 0 && Coef(x, e - 1)) != (c && e in GENERATOR))
  {
    match e
    case 0 =>
    case 1 =>
    case 2 =>
    case 3 =>
    case 4 =>
    case 5 =>
    case 6 =>
    case _ =>
  }

  lemma PolyStep(x: bv8, b: bool)
    ensures Up(PolyOf(x), b, {8}) == Add(if Coef(x, 7) != b then GENERATOR else {}, PolyOf(Feed(x, b)))
  {
    hide Coef, Feed, Raise;
    forall e: nat
      ensures e in Up(PolyOf(x), b, {8}) <==> e in Add(if Coef(x, 7) != b then GENERATOR else {}, PolyOf(Feed(x, b)))
    {
      if e < 8 { CoefOfFeed(x, b, e); }
    }
  }

  lemma DividendStep(d: Poly, t: Poly, x: bv8, b: bool)
    requires d == Add(t, PolyOf(x))
    ensures Up(d, b, {8}) == Add(Up(t, Coef(x, 7) != b, GENERATOR), PolyOf(Feed(x, b)))
  {
    hide Coef, Feed, PolyOf, Raise;
    PolyStep(x, b);
    assert Raise(d) == Add(Raise(t), Raise(PolyOf(x)));
  }

  lemma AddNothing(p: Poly)
    ensures Add({}, p) == p
  {
  }

  lemma {:induction false} RegisterIsRemainder(bits: seq<bool>)
    ensures IsRemainder(bits, FeedAll(0xFF, bits))
  {
    hide Up, Add, Coef, Feed, PolyOf;
    if bits == [] {
      var q: seq<bool> := [];
      AddNothing(PolyOf(0xFF));
      assert Dividend(bits) == Add(Times(q), PolyOf(0xFF));
    } else {
      var n := |bits| - 1;
      RegisterIsRemainder(bits[..n]);
      var x, b := FeedAll(0xFF, bits[..n]), bits[n];
      var q: seq<bool> :| |q| == n && Dividend(bits[..n]) == Add(Times(q), PolyOf(x));
      var c := Coef(x, 7) != b;
      PolyStep(x, b);
      var q' := q + [c];
      assert q'[..n] == q;
      DividendStep(Dividend(bits[..n]), Times(q), x, b);
    }
  }

  // ---------- Uniqueness of the remainder ----------

  lemma HighStep(t: Poly, t': Poly, c: bool, c': bool)
    requires (t == t' && c != c') || exists e: nat :: e >= 8 && e in Add(t, t')
    ensures exists e: nat :: e >= 8 && e in Add(Up(t, c, GENERATOR), Up(t', c', GENERATOR))
  {
    hide Raise;
    var e: nat := if t == t' then 7 else var e: nat :| e >= 8 && e in Add(t, t'); e;
    assert e + 1 in Add(Up(t, c, GENERATOR), Up(t', c', GENERATOR));
  }

  lemma {:induction false} DifferByHigh(q: seq<bool>, q': seq<bool>)
    requires |q| == |q'| && Times(q) != Times(q')
    ensures exists e: nat :: e >= 8 && e in Add(Times(q), Times(q'))
  {
    hide Up, Add;
    var n := |q| - 1;
    if Times(q[..n]) != Times(q'[..n]) { DifferByHigh(q[..n], q'[..n]); }
    HighStep(Times(q[..n]), Times(q'[..n]), q[n], q'[n]);
  }

  lemma PolyOfInjective(x: bv8, y: bv8)
    requires PolyOf(x) == PolyOf(y)
    ensures x == y
  {
    forall e: nat | e < 8
      ensures Coef(x, e) == Coef(y, e)
    {
      assert e in PolyOf(x) <==> e in PolyOf(y);
    }
    assert Bits(x) == Bits(y);
  }

  lemma AddCancels(t: Poly, p: Poly, q: Poly)
    requires Add(t, p) == Add(t, q)
    ensures p == q
  {
    assert forall e: nat :: (e in Add(t, p) <==> (e in t) != (e in p)) && (e in Add(t, q) <==> (e in t) != (e in q));
  }

  /** Division by the generator leaves one remainder. */
  lemma RemainderIsUnique(bits: seq<bool>, x: bv8, y: bv8)
    requires IsRemainder(bits, x) && IsRemainder(bits, y)
    ensures x == y
  {
    hide Times, Dividend, PolyOf;
    var q: seq<bool> :| |q| == |bits| && Dividend(bits) == Add(Times(q), PolyOf(x));
    var q': seq<bool> :| |q'| == |bits| && Dividend(bits) == Add(Times(q'), PolyOf(y));
    if Times(q) != Times(q') {
      DifferByHigh(q, q');
      var e: nat :| e >= 8 && e in Add(Times(q), Times(q'));
      PolyOfLow(x, e);
      PolyOfLow(y, e);
      assert false;
    }
    AddCancels(Times(q), PolyOf(x), PolyOf(y));
    PolyOfInjective(x, y);
  }

  lemma PolyOfLow(x: bv8, e: nat)
    requires e >= 8
    ensures e !in PolyOf(x)
  {
  }

  // ---------- The table-driven loop ----------

  /** The register after a message, one table look-up a byte. */
  function Register(data: seq<u8>): bv8 {
    if data == [] then 0xFF else Lut(Mix(Register(data[..|data| - 1]), Byte(data[|data| - 1])))
  }

  function Crc(data: seq<u8>): u8 {
    Int(Mix(Register(data), 0xFF))
  }

  method Calculate(data: seq<u8>) returns (crc: u8)
    ensures crc == Crc(data)
  {
    hide Lut, Byte, Mix;
    var register: bv8 := 0xFF;
    for i := 0 to |data|
      invariant register == Register(data[..i])
    {
      assert data[..i + 1][..i] == data[..i];
      register := Lut(Mix(register, Byte(data[i])));
    }
    assert data[..|data|] == data;
    crc := Int(Mix(register, 0xFF));
  }

  lemma FeedOne(x: bv8, bits: seq<bool>, b: bool)
    ensures FeedAll(x, bits + [b]) == Feed(FeedAll(x, bits), b)
  {
    assert (bits + [b])[..|bits|] == bits;
  }

  lemma FeedFour(x: bv8, b3: bool, b2: bool, b1: bool, b0: bool)
    ensures FeedAll(x, [b3, b2, b1, b0]) == Feed(Feed(Feed(Feed(x, b3), b2), b1), b0)
  {
    hide Feed, FeedAll;
    FeedNothing(x);
    FeedOne(x, [], b3);
    FeedOne(x, [b3], b2);
    FeedOne(x, [b3, b2], b1);
    FeedOne(x, [b3, b2, b1], b0);
    assert [] + [b3] == [b3] && [b3] + [b2] == [b3, b2] && [b3, b2] + [b1] == [b3, b2, b1];
    assert [b3, b2, b1] + [b0] == [b3, b2, b1, b0];
  }

  function Drop(d: bv8): bv8 { d << 1 }

  lemma TopFirst(x: bv8, d: bv8)
    ensures Shift1(Mix(x, d)) == Mix(Feed(x, Coef(d, 7)), Drop(d))
  {
    hide Shift1, Feed, Coef;
    XorTop(x, d);
  }

  lemma XorTop(x: bv8, d: bv8)
    ensures Shift1(x ^ d) == Feed(x, Coef(d, 7)) ^ (d << 1)
  {
  }

  lemma NextTop(d: bv8, e: nat)
    requires 0 < e < 8
    ensures Coef(Drop(d), e) == Coef(d, e - 1)
  {
  }

  lemma ByteIsEightBits(x: bv8, d: bv8)
    ensures Shift8(Mix(x, d)) == FeedAll(x, Bits(d))
  {
    hide Coef, Feed, Shift8, FeedAll, Mix;
    var hi, lo := [Coef(d, 7), Coef(d, 6), Coef(d, 5), Coef(d, 4)], [Coef(d, 3), Coef(d, 2), Coef(d, 1), Coef(d, 0)];
    FeedFour(x, Coef(d, 7), Coef(d, 6), Coef(d, 5), Coef(d, 4));
    FeedFour(FeedAll(x, hi), Coef(d, 3), Coef(d, 2), Coef(d, 1), Coef(d, 0));
    FeedAllSplit(x, hi, lo);
    assert Bits(d) == hi + lo;
    EightShifts(x, d);
  }

  lemma FourShifts(x: bv8, d: bv8)
    ensures Shift1(Shift1(Shift1(Shift1(Mix(x, d)))))
         == Mix(Feed(Feed(Feed(Feed(x, Coef(d, 7)), Coef(d, 6)), Coef(d, 5)), Coef(d, 4)), Drop(Drop(Drop(Drop(d)))))
  {
    hide Coef, Feed, Shift1, Mix, Drop;
    var x1 := Feed(x, Coef(d, 7));
    var x2 := Feed(x1, Coef(d, 6));
    TopFirst(x, d);
    TopFirst(x1, Drop(d));
    TopFirst(x2, Drop(Drop(d)));
    TopFirst(Feed(x2, Coef(d, 5)), Drop(Drop(Drop(d))));
    NextTop(d, 7);
    NextTop(d, 6);
    NextTop(d, 5);
    NextTop(Drop(d), 7);
    NextTop(Drop(d), 6);
    NextTop(Drop(Drop(d)), 7);
  }

  lemma EightShifts(x: bv8, d: bv8)
    ensures Shift8(Mix(x, d))
         == Feed(Feed(Feed(Feed(Feed(Feed(Feed(Feed(x, Coef(d, 7)), Coef(d, 6)), Coef(d, 5)), Coef(d, 4)),
                                Coef(d, 3)), Coef(d, 2)), Coef(d, 1)), Coef(d, 0))
  {
    hide Coef, Feed, Shift1, Mix, Drop;
    var d4 := Drop(Drop(Drop(Drop(d))));
    var x4 := Feed(Feed(Feed(Feed(x, Coef(d, 7)), Coef(d, 6)), Coef(d, 5)), Coef(d, 4));
    FourShifts(x, d);
    FourShifts(x4, d4);
    FourDrops(d);
    NothingLeft(Feed(Feed(Feed(Feed(x4, Coef(d, 3)), Coef(d, 2)), Coef(d, 1)), Coef(d, 0)), d);
  }

  lemma FourDrops(d: bv8)
    ensures var d4 := Drop(Drop(Drop(Drop(d))));
            && Coef(d4, 7) == Coef(d, 3) && Coef(d4, 6) == Coef(d, 2)
            && Coef(d4, 5) == Coef(d, 1) && Coef(d4, 4) == Coef(d, 0)
  {
  }

  lemma NothingLeft(x: bv8, d: bv8)
    ensures Mix(x, Drop(Drop(Drop(Drop(Drop(Drop(Drop(Drop(d))))))))) == x
  {
  }

  lemma {:induction false} FeedAllSplit(x: bv8, a: seq<bool>, b: seq<bool>)
    ensures FeedAll(x, a + b) == FeedAll(FeedAll(x, a), b)
  {
    hide Feed;
    if b == [] {
      assert a + b == a;
    } else {
      var n := |b| - 1;
      assert (a + b)[..|a + b| - 1] == a + b[..n];
      FeedAllSplit(x, a, b[..n]);
    }
  }

  lemma {:induction false} RegisterIsBitSerial(data: seq<u8>)
    ensures Register(data) == FeedAll(0xFF, MessageBits(data))
  {
    hide Lut, FeedAll, Shift8, Mix, Byte;
    if data == [] {
      FeedNothing(0xFF);
    } else {
      var n := |data| - 1;
      var x, d := Register(data[..n]), Byte(data[n]);
      RegisterIsBitSerial(data[..n]);
      TableIsShift(Mix(x, d));
      ByteIsEightBits(x, d);
      FeedAllSplit(0xFF, MessageBits(data[..n]), Bits(d));
    }
  }

  lemma FeedNothing(x: bv8)
    ensures FeedAll(x, []) == x
  {
  }

  /**
   * The table-driven loop computes the remainder of the message by the generator, as section 7.2.1.2 of the AUTOSAR
   * Specification of CRC Routines prescribes, and nothing else is a remainder.
   */
  lemma LoopIsDivision(data: seq<u8>, r: bv8)
    ensures IsRemainder(MessageBits(data), r) <==> r == Register(data)
  {
    hide IsRemainder, FeedAll, Register;
    RegisterIsBitSerial(data);
    RegisterIsRemainder(MessageBits(data));
    if IsRemainder(MessageBits(data), r) { RemainderIsUnique(MessageBits(data), r, Register(data)); }
  }

  // ---------- Changes are seen ----------

  lemma Shift8Injective(x: bv8, y: bv8)
    requires Shift8(x) == Shift8(y)
    ensures x == y
  {
  }

  lemma MixDiffers(x: bv8, y: bv8, d: bv8, e: bv8)
    requires (x == y && d != e) || (x != y && d == e)
    ensures Mix(x, d) != Mix(y, e)
  {
    XorUndone(x, d);
    XorUndone(d, x);
    XorUndone(y, e);
    XorUndone(e, y);
    assert Mix(x, d) == Mix(d, x) && Mix(y, e) == Mix(e, y);
  }

  lemma XorUndone(x: bv8, d: bv8)
    ensures Mix(Mix(x, d), d) == x
  {
  }

  /** Two messages of one length that differ in exactly one byte never have the same value. */
  lemma {:induction false} OneByteChangeIsSeen(a: seq<u8>, b: seq<u8>, i: nat)
    requires |a| == |b| && i < |a| && a[i] != b[i]
    requires forall j :: 0 <= j < |a| && j != i ==> a[j] == b[j]
    ensures Crc(a) != Crc(b)
  {
    RegistersDiffer(a, b, i);
    hide Register;
    MixDiffers(Register(a), Register(b), 0xFF, 0xFF);
    ByteOfInt(Mix(Register(a), 0xFF));
    ByteOfInt(Mix(Register(b), 0xFF));
    hide Byte, Int, Mix;
  }

  lemma {:induction false} RegistersDiffer(a: seq<u8>, b: seq<u8>, i: nat)
    requires |a| == |b| && i < |a| && a[i] != b[i]
    requires forall j :: 0 <= j < |a| && j != i ==> a[j] == b[j]
    ensures Register(a) != Register(b)
  {
    hide Lut, Byte, Mix;
    var n := |a| - 1;
    if i == n {
      assert a[..n] == b[..n];
      BytesDiffer(a[n], b[n]);
    } else {
      RegistersDiffer(a[..n], b[..n], i);
    }
    LutStep(Register(a[..n]), Register(b[..n]), Byte(a[n]), Byte(b[n]));
  }

  lemma LutStep(x: bv8, y: bv8, d: bv8, e: bv8)
    requires (x == y && d != e) || (x != y && d == e)
    ensures Lut(Mix(x, d)) != Lut(Mix(y, e))
  {
    hide Lut, Shift8, Mix;
    MixDiffers(x, y, d, e);
    TableIsShift(Mix(x, d));
    TableIsShift(Mix(y, e));
    if Shift8(Mix(x, d)) == Shift8(Mix(y, e)) { Shift8Injective(Mix(x, d), Mix(y, e)); }
  }

  lemma DigitsDiffer(x: int, y: int)
    requires 0 <= x < 16 && 0 <= y < 16
    ensures Digit(x) & 0xF0 == 0
    ensures x != y ==> Digit(x) != Digit(y)
  {
  }

  lemma DigitsJoin(h: bv8, l: bv8)
    requires h & 0xF0 == 0 && l & 0xF0 == 0
    ensures ((h << 4) | l) >> 4 == h && ((h << 4) | l) & 0x0F == l
  {
  }

  lemma BytesDiffer(a: u8, b: u8)
    requires a != b
    ensures Byte(a) != Byte(b)
  {
    hide Digit;
    DigitsDiffer(a / 16, b / 16);
    DigitsDiffer(b / 16, a / 16);
    DigitsDiffer(a % 16, b % 16);
    DigitsDiffer(b % 16, a % 16);
    DigitsJoin(Digit(a / 16), Digit(a % 16));
    DigitsJoin(Digit(b / 16), Digit(b % 16));
  }

  lemma NibbleOfDigit(x: int)
    requires 0 <= x < 16
    ensures Digit(x) < 16 && Nibble(Digit(x)) == x
  {
  }

  lemma DigitOfNibble(d: bv8)
    requires d < 16
    ensures Digit(Nibble(d)) == d
  {
  }

  lemma LowDigits(d: bv8)
    ensures d >> 4 < 16 && d & 0x0F < 16 && ((d >> 4) << 4) | (d & 0x0F) == d
  {
  }

  lemma SmallDigit(d: bv8)
    requires d < 16
    ensures d & 0xF0 == 0
  {
  }

  /** Bytes and bit patterns correspond one to one. */
  lemma ByteOfInt(d: bv8)
    ensures Byte(Int(d)) == d
  {
    hide Digit, Nibble;
    LowDigits(d);
    DigitOfNibble(d >> 4);
    DigitOfNibble(d & 0x0F);
    var h, l := Nibble(d >> 4), Nibble(d & 0x0F);
    assert (16 * h + l) / 16 == h && (16 * h + l) % 16 == l;
  }

  lemma IntOfByte(x: u8)
    ensures Int(Byte(x)) == x
  {
    hide Digit, Nibble;
    NibbleOfDigit(x / 16);
    NibbleOfDigit(x % 16);
    SmallDigit(Digit(x / 16));
    SmallDigit(Digit(x % 16));
    DigitsJoin(Digit(x / 16), Digit(x % 16));
  }

  // ---------- Every value is reached ----------

  /** The register step undone. */
  function Unshift1(y: bv8): bv8 {
    if y & 1 == 0 then y >> 1 else ((y ^ 0x2F) >> 1) | 0x80
  }

  function Unshift8(y: bv8): bv8 {
    Unshift1(Unshift1(Unshift1(Unshift1(Unshift1(Unshift1(Unshift1(Unshift1(y))))))))
  }

  lemma Shift1OfUnshift1(y: bv8)
    ensures Shift1(Unshift1(y)) == y
  {
  }

  lemma Shift8OfUnshift8(y: bv8)
    ensures Shift8(Unshift8(y)) == y
  {
    hide Shift1, Unshift1;
    var y1 := Unshift1(y);
    var y2 := Unshift1(y1);
    var y3 := Unshift1(y2);
    var y4 := Unshift1(y3);
    var y5 := Unshift1(y4);
    var y6 := Unshift1(y5);
    var y7 := Unshift1(y6);
    Shift1OfUnshift1(y);
    Shift1OfUnshift1(y1);
    Shift1OfUnshift1(y2);
    Shift1OfUnshift1(y3);
    Shift1OfUnshift1(y4);
    Shift1OfUnshift1(y5);
    Shift1OfUnshift1(y6);
    Shift1OfUnshift1(y7);
  }

  /** Whatever a message begins with, exactly one last byte gives it a wanted value. */
  lemma LastByteFor(data: seq<u8>, target: u8) returns (last: u8)
    ensures Crc(data + [last]) == target
    ensures forall b: u8 :: Crc(data + [b]) == target ==> b == last
  {
    hide Lut, Shift8, Unshift8, Byte, Int, Mix, Register;
    var x, y := Register(data), Mix(Byte(target), 0xFF);
    var d := Mix(Unshift8(y), x);
    last := Int(d);
    ByteOfInt(d);
    XorUndone(Unshift8(y), x);
    MixCommutes(d, x);
    RegisterSnoc(data, last);
    TableIsShift(Unshift8(y));
    Shift8OfUnshift8(y);
    XorUndone(Byte(target), 0xFF);
    IntOfByte(target);
    forall b: u8 | Crc(data + [b]) == target
      ensures b == last
    {
      if b != last { OneByteChangeIsSeen(data + [b], data + [last], |data|); }
    }
  }

  lemma OfThree(a: u8, b: u8, c: u8)
    ensures Crc([a, b, c]) == Int(Mix(Lut(Mix(Lut(Mix(Lut(Mix(0xFF, Byte(a))), Byte(b))), Byte(c))), 0xFF))
  {
    hide Lut, Mix, Byte, Int;
    RegisterSnoc([], a);
    RegisterSnoc([a], b);
    RegisterSnoc([a, b], c);
    assert [] + [a] == [a] && [a] + [b] == [a, b] && [a, b] + [c] == [a, b, c];
  }

  lemma ExampleBytes()
    ensures Byte(16) == 0x10 && Byte(1) == 0x01 && Byte(207) == 0xCF && Byte(178) == 0xB2
    ensures Int(0x00) == 0 && Int(0xFF) == 0xFF
  {
  }

  lemma ExampleEntries()
    ensures Lut(0xEF) == 0xEC && Lut(0xED) == 0xB2 && Lut(0x7D) == 0xFF && Lut(0x00) == 0x00
  {
  }

  lemma ExampleMixes()
    ensures Mix(0xFF, 0x10) == 0xEF && Mix(0xEC, 0x01) == 0xED && Mix(0xB2, 0xCF) == 0x7D && Mix(0xB2, 0xB2) == 0x00
    ensures Mix(0xFF, 0xFF) == 0x00 && Mix(0x00, 0xFF) == 0xFF
  {
  }

  lemma Examples()
    ensures Crc([16, 1, 207]) == 0 && Crc([16, 1, 178]) == 0xFF
  {
    hide Crc, Lut, Mix, Byte, Int;
    OfThree(16, 1, 207);
    OfThree(16, 1, 178);
    ExampleBytes();
    ExampleEntries();
    ExampleMixes();
  }

  lemma MixCommutes(x: bv8, y: bv8)
    ensures Mix(x, y) == Mix(y, x)
  {
  }

  lemma RegisterSnoc(data: seq<u8>, b: u8)
    ensures Register(data + [b]) == Lut(Mix(Register(data), Byte(b)))
  {
    hide Lut, Mix, Byte;
    assert (data + [b])[..|data|] == data;
  }
}
