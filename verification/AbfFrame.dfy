/** Frames of the asynchronous binary protocol: a zero byte, a checked header, and a payload with its zeros replaced. */
module AbfFrame {
  import opened Words
  import Crc8

  datatype Frame = Frame(service: u8, payload: seq<u8>)

  /** What `encode` accepts. */
  predicate Sendable(f: Frame) {
    f.service != 0 && 0 < |f.payload| <= 255
  }

  /** The first zero of `p` at or after `k`, or the end. */
  function NextZero(p: seq<u8>, k: nat): (r: nat)
    requires k <= |p|
    ensures k <= r <= |p| && (r < |p| ==> p[r] == 0)
    ensures forall j :: k <= j < r ==> p[j] != 0
    decreases |p| - k
  {
    if k == |p| || p[k] == 0 then k else NextZero(p, k + 1)
  }

  lemma NextZeroIs(p: seq<u8>, k: nat, r: nat)
    requires k <= r <= |p| && (r == |p| || p[r] == 0)
    requires forall j :: k <= j < r ==> p[j] != 0
    ensures NextZero(p, k) == r
  {
  }

  /** Every zero replaced by the distance to the next one, or to the end. */
  function Stuffed(p: seq<u8>): (s: seq<u8>)
    requires |p| <= 255
    ensures |s| == |p|
    ensures forall i :: 0 <= i < |s| ==> s[i] != 0
  {
    seq(|p|, i requires 0 <= i < |p| => StuffedAt(p, i))
  }

  function StuffedAt(p: seq<u8>, i: nat): (b: u8)
    requires i < |p| <= 255
    ensures b != 0
  {
    if p[i] == 0 then NextZero(p, i + 1) - i else p[i]
  }

  /** The code byte: one more than the position of the first zero, in eight bits. */
  function Code(p: seq<u8>): u8 {
    (NextZero(p, 0) + 1) % 0x100
  }

  /** The header's check byte, never zero. */
  function Check(service: u8, length: u8, code: u8): (c: u8)
    ensures c != 0
  {
    var crc := Crc8.Crc([service, length, code]);
    if crc == 0 then 0xFF else crc
  }

  function Header(f: Frame): (h: seq<u8>)
    requires Sendable(f)
    ensures |h| == 5
  {
    var length, code := |f.payload|, Code(f.payload);
    [0, f.service, length, code, Check(f.service, length, code)]
  }

  function Wire(f: Frame): (w: seq<u8>)
    requires Sendable(f)
    ensures |w| == 5 + |f.payload|
  {
    Header(f) + Stuffed(f.payload)
  }

  /** From `k` bytes on `p` has no zero before the one at `k + d`, or none before its end there. */
  ghost predicate ZeroAfter(p: seq<u8>, k: nat, d: nat) {
    k + d <= |p| && (k + d < |p| ==> p[k + d] == 0) && forall j :: k <= j < k + d ==> p[j] != 0
  }

  /**
   * On the wire: a zero, service, length, one more than the place of the first zero in eight bits, and the check byte;
   * then the payload, each zero replaced by the distance to the next, or to the end. No other byte is zero, but for a
   * place of 255.
   */
  lemma WireMeaning(f: Frame, i: nat) returns (first: nat)
    requires Sendable(f) && i < |f.payload|
    ensures var w, p, crc := Wire(f), f.payload, Crc8.Crc([f.service, |f.payload|, Wire(f)[3]]);
            && |w| == 5 + |p| && w[0] == 0 && w[1] == f.service && w[2] == |p|
            && ZeroAfter(p, 0, first) && w[3] == (first + 1) % 256
            && w[4] == (if crc == 0 then 255 else crc)
            && (p[i] != 0 ==> w[5 + i] == p[i])
            && (p[i] == 0 ==> w[5 + i] != 0 && ZeroAfter(p, i + 1, w[5 + i] - 1))
  {
    hide Crc8.Crc;
    first := NextZero(f.payload, 0);
    var w := Wire(f);
    assert w[5 + i] == Stuffed(f.payload)[i] == StuffedAt(f.payload, i);
    assert w[3] == Code(f.payload);
  }

  /**
   * A header with one wrong byte still carries a valid check byte exactly when the two remainders are 0 and 0xFF, which
   * share the check byte 0xFF.
   */
  lemma HeaderChangeMissedIff(a: seq<u8>, b: seq<u8>, i: nat)
    requires |a| == |b| == 3 && i < 3 && a[i] != b[i]
    requires forall j :: 0 <= j < 3 && j != i ==> a[j] == b[j]
    ensures Check(a[0], a[1], a[2]) == Check(b[0], b[1], b[2]) <==> {Crc8.Crc(a), Crc8.Crc(b)} == {0, 0xFF}
  {
    hide Crc8.Crc;
    Crc8.OneByteChangeIsSeen(a, b, i);
    assert a == [a[0], a[1], a[2]] && b == [b[0], b[1], b[2]];
    var x, y := Crc8.Crc(a), Crc8.Crc(b);
    if {x, y} == {0, 0xFF} {
      assert x in {x, y} && y in {x, y};
    }
    if Check(a[0], a[1], a[2]) == Check(b[0], b[1], b[2]) {
      assert {x, y} == {0, 0xFF};
    }
  }

  /** For every service and length there is exactly one pair of codes that the check byte cannot tell apart. */
  lemma MissedCodes(service: u8, length: u8) returns (a: u8, b: u8)
    ensures a != b && Check(service, length, a) == Check(service, length, b) == 0xFF
    ensures forall c: u8, d: u8 :: c != d && Check(service, length, c) == Check(service, length, d) ==> {c, d} == {a, b}
  {
    hide Crc8.Crc;
    var fields := [service, length];
    a := Crc8.LastByteFor(fields, 0);
    b := Crc8.LastByteFor(fields, 0xFF);
    forall c: u8
      ensures fields + [c] == [service, length, c]
    {
    }
    forall c: u8, d: u8 | c != d && Check(service, length, c) == Check(service, length, d)
      ensures {c, d} == {a, b}
    {
      var x, y := [service, length, c], [service, length, d];
      Crc8.OneByteChangeIsSeen(x, y, 2);
      assert fields + [c] == x && fields + [d] == y;
    }
  }

  /** Service 16 with one byte of payload: codes 207 and 178 carry the same check byte. */
  lemma MissedExample()
    ensures Check(16, 1, 207) == Check(16, 1, 178) == 0xFF
    ensures Crc8.Crc([16, 1, 207]) == 0 && Crc8.Crc([16, 1, 178]) == 0xFF
  {
    hide Crc8.Crc;
    Crc8.Examples();
  }
}
