/** Delta-of-delta residuals and their one, two and three byte codes. */
module ResidualCode {
  import opened Words

  const VIRTUAL_BITS_START := 240
  const VIRTUAL_BITS_END := 247
  const LARGE16 := 0xFE

  // ---------- Channel predictor ----------

  /** Last sample and last delta of one channel. */
  datatype Channel = Channel(sample: i16, delta: i16)

  /** The predictor after `sample`, and the residual that leads there. */
  function Predict(c: Channel, sample: i16): (r: (Channel, i16)) {
    var delta := ToI16(sample - c.sample);
    (Channel(sample, delta), ToI16(delta - c.delta))
  }

  /** The predictor after receiving residual `dod`; its `sample` is the value rebuilt. */
  function Follow(c: Channel, dod: i16): Channel {
    var delta := ToI16(dod + c.delta);
    Channel(ToI16(delta + c.sample), delta)
  }

  /** The residual is the second difference of the samples modulo 2^16, and the delta the first. */
  lemma PredictMeaning(c: Channel, sample: i16)
    ensures var (next, dod) := Predict(c, sample);
            && next.sample == sample && (next.delta - (sample - c.sample)) % 0x1_0000 == 0
            && (dod - (sample - c.sample - c.delta)) % 0x1_0000 == 0
  {
    hide ToI16;
    WrapIsCongruent(sample - c.sample);
    WrapIsCongruent(ToI16(sample - c.sample) - c.delta);
    Congruent(ToI16(ToI16(sample - c.sample) - c.delta), ToI16(sample - c.sample), sample - c.sample, c.delta);
  }

  lemma WrapIsCongruent(x: int)
    ensures (ToI16(x) - x) % 0x1_0000 == 0
  {
  }

  lemma Congruent(a: int, b: int, c: int, d: int)
    requires (a - (b - d)) % 0x1_0000 == 0 && (b - c) % 0x1_0000 == 0
    ensures (a - (c - d)) % 0x1_0000 == 0
  {
  }

  /** Rebuilding undoes prediction for all 16-bit samples, wrap-around included. */
  lemma FollowUndoesPredict(c: Channel, sample: i16)
    ensures Follow(c, Predict(c, sample).1) == Predict(c, sample).0
  {
    hide ToI16;
    var delta := ToI16(sample - c.sample);
    WrapCancels(delta, c.delta);
    WrapCancels(sample, c.sample);
  }

  lemma WrapCancels(a: i16, b: i16)
    ensures ToI16(ToI16(a - b) + b) == a
  {
  }

  // ---------- Encoding ----------

  function Sign(d: i16): (sign: u8)
    ensures sign == if d < 0 then 1 else 0
  {
    ToU16(d) / 0x8000
  }

  function Magnitude(d: i16): (mag: u16)
    ensures mag == if d < 0 then 0 - d else d
  {
    ToU16(if Sign(d) == 1 then 0 - d as int else d as int)
  }

  /** Even for residuals from 0 up, odd for those from -1 down; the residual -32768 wraps to 65535. */
  function ZigZag(d: i16): (zz: u16)
    ensures zz == if d < 0 then -2 * d - 1 else 2 * d
  {
    ToU16(2 * Magnitude(d) - Sign(d))
  }

  /** The code of residual `d` as `pushSample` emits it. */
  function Encode(d: i16): (code: seq<u8>)
    ensures 1 <= |code| <= 3
  {
    if Magnitude(d) < VIRTUAL_BITS_START / 2 then [2 * Magnitude(d) - Sign(d)]
    else
      var zz := ZigZag(d);
      if Hi(zz) < 8 then [VIRTUAL_BITS_START + Hi(zz), Lo(zz)] else [LARGE16, Hi(zz), Lo(zz)]
  }

  /** Zigzag in one byte up to 119, in two up to 1023 with the upper three bits in the first, in three beyond. */
  lemma CodeMeaning(d: i16)
    ensures var zz := if d < 0 then -2 * d - 1 else 2 * d;
            Encode(d) == if -120 < d < 120 then [zz]
                         else if -1024 <= d < 1024 then [240 + zz / 256, zz % 256]
                         else [254, zz / 256, zz % 256]
  {
  }

  function EncodeAll(ds: seq<i16>): (bytes: seq<u8>)
    ensures |ds| <= |bytes| <= 3 * |ds|
  {
    if ds == [] then [] else Encode(ds[0]) + EncodeAll(ds[1..])
  }

  /** The residuals whose code starts with the prefix 240 that the decoder takes for a complete code. */
  predicate InGap(d: i16) {
    -128 <= d <= -120 || 120 <= d <= 127
  }

  /** The same seventeen residuals named by their zigzag code. */
  lemma GapCodes(d: i16)
    ensures InGap(d) <==> 239 <= ZigZag(d) <= 255
    ensures InGap(d) <==> Encode(d)[0] == VIRTUAL_BITS_START
  {
  }

  // ---------- Decoding ----------

  function Unzigzag(v: u16): i16 {
    if v % 2 == 0 then v / 2 else -(v / 2) - 1
  }

  lemma UnzigzagInverts(d: i16)
    ensures Unzigzag(ZigZag(d)) == d
  {
  }

  /** Where the byte decoder stands inside a code. */
  datatype Phase = AtCode | InLarge(got: seq<u8>) | InVirtual(high: u8)

  /**
   * One byte: the next phase, and the residual completed by the byte, if any. The source announces a second byte
   * for prefixes strictly above 240; with `strict` false prefix 240 does so too.
   */
  function Step(p: Phase, b: u8, strict: bool := true): (Phase, seq<i16>) {
    match p
    case AtCode =>
      if b > VIRTUAL_BITS_END then (if b == LARGE16 then InLarge([]) else AtCode, [])
      else if b > VIRTUAL_BITS_START || (b == VIRTUAL_BITS_START && !strict) then
        (InVirtual(b - VIRTUAL_BITS_START), [])
      else (AtCode, [Unzigzag(b)])
    case InLarge(got) =>
      if |got| == 0 then (InLarge([b]), []) else (AtCode, [Unzigzag(Be16(got[0], b))])
    case InVirtual(high) => (AtCode, [Unzigzag(Be16(high, b))])
  }

  /** The phase after `bytes` and all residuals completed on the way. */
  function DecodeAll(p: Phase, bytes: seq<u8>, strict: bool := true): (Phase, seq<i16>)
    decreases |bytes|
  {
    if bytes == [] then (p, [])
    else
      var (q, now) := Step(p, bytes[0], strict);
      var (end, later) := DecodeAll(q, bytes[1..], strict);
      (end, now + later)
  }

  lemma {:induction false} DecodeConcat(p: Phase, a: seq<u8>, b: seq<u8>, strict: bool)
    decreases |a|
    ensures var (q, now) := DecodeAll(p, a, strict);
            var (end, later) := DecodeAll(q, b, strict);
            DecodeAll(p, a + b, strict) == (end, now + later)
  {
    if a == [] {
      assert a + b == b;
      assert [] + DecodeAll(p, b, strict).1 == DecodeAll(p, b, strict).1;
    } else {
      assert (a + b)[1..] == a[1..] + b;
      var (q, now) := Step(p, a[0], strict);
      DecodeConcat(q, a[1..], b, strict);
      var (q', mid) := DecodeAll(q, a[1..], strict);
      var later := DecodeAll(q', b, strict).1;
      assert now + (mid + later) == (now + mid) + later;
    }
  }

  lemma DecodeByte(p: Phase, b: u8, strict: bool)
    ensures DecodeAll(p, [b], strict) == Step(p, b, strict)
  {
    var now := Step(p, b, strict).1;
    assert now + [] == now;
  }

  /** A code outside the gap is read back as its residual; read with prefix 240 included, so is every code. */
  lemma DecodeCode(d: i16, strict: bool)
    requires !strict || !InGap(d)
    ensures DecodeAll(AtCode, Encode(d), strict) == (AtCode, [d])
  {
    var code := Encode(d);
    CodeForms(d, strict);
    hide Encode, ZigZag, InGap, Step;
    assert [] + [d] == [d];
    if |code| == 1 {
      DecodeByte(AtCode, code[0], strict);
      assert code == [code[0]];
    } else if |code| == 2 {
      DecodePair(AtCode, code[0], code[1], strict);
      assert code == [code[0], code[1]];
    } else {
      DecodePair(InLarge([]), code[1], code[2], strict);
      DecodeByte(AtCode, code[0], strict);
      DecodeConcat(AtCode, [code[0]], [code[1], code[2]], strict);
      assert code == [code[0]] + [code[1], code[2]];
    }
  }

  /** What the decoder does with each byte of a code. */
  lemma CodeForms(d: i16, strict: bool)
    requires !strict || !InGap(d)
    ensures var code := Encode(d);
            && (|code| == 1 ==> Step(AtCode, code[0], strict) == (AtCode, [d]))
            && (|code| == 2 ==>
                  var high := InVirtual(Hi(ZigZag(d)));
                  Step(AtCode, code[0], strict) == (high, []) && Step(high, code[1], strict) == (AtCode, [d]))
            && (|code| == 3 ==>
                  && Step(AtCode, code[0], strict) == (InLarge([]), [])
                  && Step(InLarge([]), code[1], strict) == (InLarge([code[1]]), [])
                  && Step(InLarge([code[1]]), code[2], strict) == (AtCode, [d]))
  {
    UnzigzagInverts(d);
    var code, zz := Encode(d), ZigZag(d);
    if |code| == 1 {
      assert code[0] == zz;
    } else if |code| == 2 {
      assert Step(AtCode, code[0], strict) == (InVirtual(Hi(zz)), []) && Be16(Hi(zz), Lo(zz)) == zz;
    } else {
      assert Be16(Hi(zz), Lo(zz)) == zz;
    }
  }

  lemma DecodePair(p: Phase, a: u8, b: u8, strict: bool)
    ensures var (q, x) := Step(p, a, strict);
            var (end, y) := Step(q, b, strict);
            DecodeAll(p, [a, b], strict) == (end, x + y)
  {
    DecodeByte(p, a, strict);
    DecodeByte(Step(p, a, strict).0, b, strict);
    DecodeConcat(p, [a], [b], strict);
    assert [a, b] == [a] + [b];
  }

  lemma DecodeOne(d: i16, rest: seq<u8>, strict: bool)
    requires !strict || !InGap(d)
    ensures var (end, later) := DecodeAll(AtCode, rest, strict);
            DecodeAll(AtCode, Encode(d) + rest, strict) == (end, [d] + later)
  {
    DecodeCode(d, strict);
    DecodeConcat(AtCode, Encode(d), rest, strict);
  }

  /**
   * Encoding then decoding is the identity on residuals outside the gap, or on all of them if 240 counted as a
   * prefix.
   */
  lemma {:induction false} RoundTrip(ds: seq<i16>, strict: bool)
    requires !strict || forall d | d in ds :: !InGap(d)
    ensures DecodeAll(AtCode, EncodeAll(ds), strict) == (AtCode, ds)
  {
    if ds != [] {
      assert ds == [ds[0]] + ds[1..];
      RoundTrip(ds[1..], strict);
      DecodeOne(ds[0], EncodeAll(ds[1..]), strict);
    }
  }

  /** A residual of the gap comes out as 120, whatever it was. */
  lemma GapDecodes(d: i16, rest: seq<u8>)
    requires InGap(d)
    ensures DecodeAll(AtCode, Encode(d) + rest).1 != [] && DecodeAll(AtCode, Encode(d) + rest).1[0] == 120
    ensures d == 120 ==> DecodeAll(AtCode, Encode(d) + rest).1 == [120, 120] + DecodeAll(AtCode, rest).1
  {
    GapCodes(d);
    var zz := ZigZag(d);
    var bytes := Encode(d) + rest;
    assert bytes == [240] + ([zz] + rest);
    DecodeByte(AtCode, 240, true);
    DecodeConcat(AtCode, [240], [zz] + rest, true);
    if d == 120 {
      DecodeByte(AtCode, 240, true);
      DecodeConcat(AtCode, [240], rest, true);
      var out := DecodeAll(AtCode, rest).1;
      assert [120] + ([120] + out) == [120, 120] + out;
    }
  }

  /** Once the decoder is ahead of the encoder by values 120 it never falls back into step. */
  lemma {:induction false} NeverRealigns(ahead: nat, ds: seq<i16>)
    requires ahead > 0
    ensures seq(ahead, _ => 120) + DecodeAll(AtCode, EncodeAll(ds)).1 != ds
    decreases ds
  {
    var extra := seq(ahead, _ => 120);
    var out := DecodeAll(AtCode, EncodeAll(ds)).1;
    if ds != [] && ds[0] == 120 {
      NeverRealigns(ahead + 1, ds[1..]);
      GapDecodes(120, EncodeAll(ds[1..]));
      var out' := DecodeAll(AtCode, EncodeAll(ds[1..])).1;
      hide DecodeAll, EncodeAll;
      OneMoreAhead(ahead, out');
      assert ds == [120] + ds[1..];
      assert (extra + out)[1..] == seq(ahead + 1, _ => 120) + out';
    } else {
      hide DecodeAll, EncodeAll;
      assert (extra + out)[0] == 120;
    }
  }

  lemma OneMoreAhead(ahead: nat, out: seq<i16>)
    ensures seq(ahead, _ => 120) + ([120, 120] + out) == [120] + (seq(ahead + 1, _ => 120) + out)
  {
  }

  /** Exactly the streams without a residual of the gap survive the codec as written. */
  lemma {:induction false} RoundTripIff(ds: seq<i16>)
    ensures DecodeAll(AtCode, EncodeAll(ds)).1 == ds <==> forall d | d in ds :: !InGap(d)
  {
    if ds == [] {
    } else {
      var rest := ds[1..];
      var bytes, out := EncodeAll(rest), DecodeAll(AtCode, EncodeAll(ds)).1;
      assert EncodeAll(ds) == Encode(ds[0]) + bytes;
      hide DecodeAll, EncodeAll, Encode, InGap;
      RoundTripIff(rest);
      assert ds == [ds[0]] + rest;
      if !InGap(ds[0]) {
        DecodeOne(ds[0], bytes, true);
        assert ([ds[0]] + DecodeAll(AtCode, bytes).1)[1..] == DecodeAll(AtCode, bytes).1;
      } else {
        GapDecodes(ds[0], bytes);
        if ds[0] == 120 {
          NeverRealigns(1, rest);
          assert out[1..] == seq(1, _ => 120) + DecodeAll(AtCode, bytes).1;
        }
      }
    }
  }

  /** Residual 124 is written as 240, 248; the decoder answers 120 and skips the second byte. */
  lemma GapExample()
    ensures EncodeAll([124]) == [240, 248]
    ensures DecodeAll(AtCode, EncodeAll([124])) == (AtCode, [120])
  {
    assert Encode(124) == [240, 248];
    DecodeByte(AtCode, 240, true);
    DecodeByte(AtCode, 248, true);
    DecodeConcat(AtCode, [240], [248], true);
    assert [240] + [248] == [240, 248];
  }
}
