/**
 * The firmware reads USB data straight into the parser's own receive buffer and parses it there, so payload bytes are
 * stored over input that may not have been read yet.
 */
module AbfShared {
  import opened Words
  import opened AbfFrame
  import opened AbfParser

  /** The parser after the next input has been read into the start of its receive buffer. */
  function With(s: Parser, data: seq<u8>): Parser
    requires |data| <= |s.buffer|
  {
    s.(buffer := data + s.buffer[|data|..])
  }

  /** Parsing the input where it was read. */
  function FeedInPlace(s: Parser, data: seq<u8>, i: nat): (t: Parser)
    requires Fits(s) && i <= |data| <= |s.buffer|
  {
    FeedShared(With(s, data), 0, i)
  }

  /** Same callbacks, same state. */
  predicate Same(t: Parser, u: Parser) {
    t.state == u.state && t.log == u.log
  }

  /** Whatever the input, parsing it in the receive buffer does what parsing it in a buffer of its own would do. */
  ghost predicate SharingIsSafe(s: Parser)
    requires Fits(s)
  {
    forall data: seq<u8> :: |data| <= |s.buffer| ==> Same(FeedInPlace(s, data, |data|), Feed(s, data))
  }

  /**
   * The call begins inside a payload: either some of it is stored already, so that stores run ahead of reads, or it
   * starts with this call and contains a zero before its end.
   */
  predicate Exposed(s: Parser)
    requires Fits(s)
  {
    && s.state.ReadPayload? && s.rxPos < s.header[2] && s.rxPos < |s.buffer|
    && (s.rxPos > 0 || 0 < s.rxNextZero < s.header[2] <= |s.buffer|)
  }

  // ---------- Safe starts ----------

  /** The shared run `t` and the separate run `u` after `i` bytes. */
  ghost predicate Alike(t: Parser, u: Parser, input: seq<u8>, i: nat) {
    && Fits(t) && Fits(u) && |t.buffer| == |u.buffer| == |input| && i <= |input|
    && t == u.(buffer := t.buffer, rxNextZero := t.rxNextZero)
    && t.buffer[i..] == input[i..]
    && (t.state.ReadPayload? ==> (Stored(t, u) && t.rxPos < i) || Unharmed(t, u, i) || t.rxPos == t.header[2])
  }

  ghost predicate Stored(t: Parser, u: Parser)
    requires t.rxPos == u.rxPos <= |t.buffer| == |u.buffer|
  {
    t.rxNextZero == u.rxNextZero && t.buffer[..t.rxPos] == u.buffer[..t.rxPos]
  }

  /** The payload began with the call, and either does not fit or has no zero before its last byte. */
  ghost predicate Unharmed(t: Parser, u: Parser, i: nat)
    requires Fits(t) && t.rxPos == u.rxPos && |t.buffer| == |u.buffer|
  {
    && i <= t.rxPos
    && (|t.buffer| <= t.rxPos
        || (t.rxPos == i && t.header[2] > |t.buffer|)
        || (t.rxPos == i && Stored(t, u) && (t.rxNextZero == 0 || t.rxNextZero >= t.header[2] - i)))
  }

  lemma AlikeByte(t: Parser, u: Parser, input: seq<u8>, i: nat)
    requires Alike(t, u, input, i) && i < |input| && t.state.ReadPayload? && t.rxPos < t.header[2]
    ensures t.buffer[i] == input[i]
    ensures var b := input[i];
            AlikeAfter(PayloadByte(t, b, if b == 0 || t.rxPos == i then 0 else b), PayloadByte(u, b, b), input, i)
  {
    hide Check, PayloadByte, AlikeAfter;
    assert t.buffer[i] == t.buffer[i..][0] == input[i];
    if input[i] == 0 {
      AlikeAbort(t, u, input, i);
    } else if t.rxPos < |t.buffer| {
      AlikeStore(t, u, input, i);
    } else {
      AlikeFull(t, u, input, i);
    }
  }

  /** The two parsers after a payload byte. */
  ghost predicate AlikeAfter(t: Parser, u: Parser, input: seq<u8>, i: nat) {
    && i < |input| && t.rxPos <= |t.buffer| == |u.buffer| == |input| && |t.header| == 5
    && t == u.(buffer := t.buffer, rxNextZero := t.rxNextZero)
    && t.buffer[i + 1..] == input[i + 1..]
    && (t.rxPos == t.header[2] ==> t.buffer[..t.rxPos] == u.buffer[..t.rxPos])
    && (t.state.ReadPayload? && t.rxPos != t.header[2] ==>
          Fits(t) && ((Stored(t, u) && t.rxPos < i + 1) || Unharmed(t, u, i + 1)))
  }

  lemma AlikeAbort(t: Parser, u: Parser, input: seq<u8>, i: nat)
    requires Alike(t, u, input, i) && i < |input| && t.state.ReadPayload? && t.rxPos < t.header[2] && input[i] == 0
    ensures AlikeAfter(PayloadByte(t, 0, 0), PayloadByte(u, 0, 0), input, i)
  {
    hide Check;
    var t' := PayloadByte(t, 0, 0);
    assert t'.buffer[i + 1..] == t.buffer[i..][1..];
  }

  lemma AlikeFull(t: Parser, u: Parser, input: seq<u8>, i: nat)
    requires Alike(t, u, input, i) && i < |input| && t.state.ReadPayload? && t.rxPos < t.header[2]
    requires input[i] != 0 && t.rxPos >= |t.buffer|
    ensures var b := input[i];
            AlikeAfter(PayloadByte(t, b, if t.rxPos == i then 0 else b), PayloadByte(u, b, b), input, i)
  {
    hide Check;
    assert t.buffer[i + 1..] == t.buffer[i..][1..];
  }

  lemma AlikeStore(t: Parser, u: Parser, input: seq<u8>, i: nat)
    requires Alike(t, u, input, i) && i < |input| && t.state.ReadPayload? && t.rxPos < t.header[2]
    requires input[i] != 0 && t.rxPos < |t.buffer|
    ensures var b := input[i];
            AlikeAfter(PayloadByte(t, b, if t.rxPos == i then 0 else b), PayloadByte(u, b, b), input, i)
  {
    hide Check;
    var b := input[i];
    var t', u' := PayloadByte(t, b, if t.rxPos == i then 0 else b), PayloadByte(u, b, b);
    assert t'.buffer[i + 1..] == t.buffer[i..][1..];
    var v := if t.rxNextZero == 1 then 0 else b;
    var v' := if u.rxNextZero == 1 then 0 else b;
    assert t'.buffer == t.buffer[t.rxPos := v] && u'.buffer == u.buffer[u.rxPos := v'];
    PrefixExtends(t.buffer, t.rxPos, v);
    PrefixExtends(u.buffer, u.rxPos, v');
  }

  lemma PrefixExtends<T>(s: seq<T>, p: nat, v: T)
    requires p < |s|
    ensures s[p := v][..p + 1] == s[..p] + [v]
  {
  }

  lemma AlikePayload(t: Parser, u: Parser, input: seq<u8>, i: nat)
    requires Alike(t, u, input, i) && i < |input| && t.state.ReadPayload?
    ensures Alike(StepShared(t, i), Step(u, input[i]), input, i + 1)
  {
    hide Check, PayloadByte;
    if t.rxPos < t.header[2] {
      AlikeByte(t, u, input, i);
    } else {
      assert t.buffer[i + 1..] == t.buffer[i..][1..] && input[i + 1..] == input[i..][1..];
      assert t.buffer[..t.rxPos] == u.buffer[..t.rxPos];
    }
  }

  lemma AlikeStep(t: Parser, u: Parser, input: seq<u8>, i: nat)
    requires Alike(t, u, input, i) && i < |input|
    ensures Alike(StepShared(t, i), Step(u, input[i]), input, i + 1)
  {
    hide Check, PayloadByte;
    if t.state.ReadPayload? {
      AlikePayload(t, u, input, i);
    } else {
      assert t.buffer[i] == t.buffer[i..][0] == input[i];
      assert t.buffer[i + 1..] == t.buffer[i..][1..] && input[i + 1..] == input[i..][1..];
    }
  }

  lemma {:induction false} AlikeRun(s: Parser, data: seq<u8>, n: nat)
    requires Fits(s) && !Exposed(s) && n <= |data| <= |s.buffer|
    ensures Alike(FeedInPlace(s, data, n), Feed(s, data[..n]), With(s, data).buffer, n)
  {
    hide Step, StepShared;
    if n == 0 {
      assert data[..0] == [];
    } else {
      hide Alike, Exposed;
      AlikeRun(s, data, n - 1);
      assert data[..n][..n - 1] == data[..n - 1] && With(s, data).buffer[n - 1] == data[n - 1];
      AlikeStep(FeedInPlace(s, data, n - 1), Feed(s, data[..n - 1]), With(s, data).buffer, n - 1);
    }
  }

  // ---------- Unsafe starts ----------

  /**
   * Input for a payload under way: its first byte lands on the byte at `rxPos`, which the separate run reads as it
   * was.
   */
  function Overrun(s: Parser): seq<u8>
    requires Fits(s) && Exposed(s) && s.rxPos > 0
  {
    seq(s.rxPos + 1, i => if i == s.rxPos && s.rxNextZero != 1 then 0 else 0xFF)
  }

  /** Shared run `t` and separate run `u` on that input after `j` bytes, up to the byte at `rxPos`. */
  ghost predicate Overruns(s: Parser, t: Parser, u: Parser, j: nat)
    requires Fits(s) && Exposed(s) && 0 < s.rxPos
  {
    && Fits(t) && Fits(u) && |t.buffer| == |u.buffer| == |s.buffer| && t == u.(buffer := t.buffer) && j <= s.rxPos
    && (j > 0 ==> t.buffer[s.rxPos] == if s.rxNextZero == 1 then 0 else 0xFF)
    && (forall k :: j <= k < s.rxPos ==> t.buffer[k] == 0xFF)
    && (t.state.HuntSync? || (t.state.ReadPayload? && t.rxPos == s.rxPos + j && t.header == s.header))
  }

  /** The two runs have made different callbacks, and always will have. */
  ghost predicate Split(t: Parser, u: Parser) {
    exists i :: 0 <= i < |t.log| && i < |u.log| && t.log[i] != u.log[i]
  }

  lemma SplitStays(t: Parser, u: Parser, i: nat, b: u8)
    requires Fits(t) && Fits(u) && i < |t.buffer| && Split(t, u)
    ensures Split(StepShared(t, i), Step(u, b))
  {
    hide Check, StepWith;
    LogGrows(u, b, b);
    LogGrows(t, t.buffer[i], t.buffer[i]);
    LogGrows(t, t.buffer[i], 0);
  }

  lemma LogGrows(s: Parser, b: u8, next: u8)
    requires Fits(s)
    ensures s.log <= StepWith(s, b, next).log
  {
    hide Check;
  }

  predicate Together(t: Parser, u: Parser) {
    |t.buffer| == |u.buffer| && t == u.(buffer := t.buffer)
  }

  lemma StoredTogether(t: Parser, u: Parser, b: u8)
    requires Fits(t) && Fits(u) && Together(t, u)
    ensures Together(PayloadByte(t, b, b), PayloadByte(u, b, b))
    ensures var t' := PayloadByte(t, b, b); |t'.header| == 5 && t'.rxPos <= |t'.buffer| <= 255
  {
  }

  lemma CompletedTogether(t: Parser, u: Parser)
    requires Together(t, u) && |t.header| == 5 && t.rxPos <= |t.buffer| <= 255
    ensures Together(Complete(t), Complete(u)) || Split(Complete(t), Complete(u))
  {
    if t.rxPos == t.header[2] && t.buffer[..t.rxPos] != u.buffer[..t.rxPos] {
      assert Complete(t).log[|t.log|] != Complete(u).log[|t.log|];
    }
  }

  /** One byte tells parsers that differ in their buffers apart only by a payload delivered. */
  lemma ByteTogether(t: Parser, u: Parser, b: u8)
    requires Fits(t) && Fits(u) && Together(t, u)
    ensures Together(Step(t, b), Step(u, b)) || Split(Step(t, b), Step(u, b))
  {
    hide Check, PayloadByte, Complete, Split;
    if t.state.ReadPayload? {
      if t.rxPos < t.header[2] {
        StoredTogether(t, u, b);
        CompletedTogether(PayloadByte(t, b, b), PayloadByte(u, b, b));
      } else {
        CompletedTogether(t, u);
      }
    }
  }

  /** A payload that completes on the way is delivered with the bytes that were stored before, or with the input. */
  lemma OverrunStep(s: Parser, t: Parser, u: Parser, j: nat)
    requires Fits(s) && Exposed(s) && s.rxPos > 0 && Overruns(s, t, u, j) && j < s.rxPos
    requires j == 0 ==> t == With(s, Overrun(s))
    ensures var t', u' := StepShared(t, j), Step(u, 0xFF); Overruns(s, t', u', j + 1) || Split(t', u')
  {
    hide Check, Split;
    assert t.buffer[j] == 0xFF && StepShared(t, j) == Step(t, 0xFF);
    ByteTogether(t, u, 0xFF);
    OverrunStored(s, t, j);
  }

  lemma OverrunStored(s: Parser, t: Parser, j: nat)
    requires Fits(s) && Exposed(s) && s.rxPos > 0 && Overruns(s, t, t, j) && j < s.rxPos
    requires j == 0 ==> t == With(s, Overrun(s))
    ensures Overruns(s, Step(t, 0xFF), Step(t, 0xFF), j + 1)
  {
    hide Check;
  }

  lemma OverrunStarts(s: Parser)
    requires Fits(s) && Exposed(s) && 0 < s.rxPos
    ensures Overruns(s, With(s, Overrun(s)), s, 0)
  {
  }

  /** On the input for a payload under way the runs keep together for `j` bytes, or have split. */
  ghost predicate OverrunTo(s: Parser, j: nat)
    requires Fits(s) && Exposed(s) && 0 < s.rxPos && j <= s.rxPos
  {
    var t, u := FeedInPlace(s, Overrun(s), j), Feed(s, Overrun(s)[..j]);
    Overruns(s, t, u, j) || Split(t, u)
  }

  lemma OverrunNext(s: Parser, j: nat)
    requires Fits(s) && Exposed(s) && 0 < s.rxPos && j < s.rxPos && OverrunTo(s, j)
    ensures OverrunTo(s, j + 1)
  {
    hide Step, StepShared, Split, Overruns, FeedShared, Feed;
    var data := Overrun(s);
    FeedNothing(With(s, data));
    FeedNext(s, data, j);
    FeedSharedNext(With(s, data), j);
    var t, u := FeedInPlace(s, data, j), Feed(s, data[..j]);
    if Overruns(s, t, u, j) { OverrunStep(s, t, u, j); } else { SplitStays(t, u, j, data[j]); }
  }

  lemma {:induction false} OverrunPrefix(s: Parser, j: nat)
    requires Fits(s) && Exposed(s) && 0 < s.rxPos && j <= s.rxPos
    ensures OverrunTo(s, j)
  {
    if j == 0 {
      OverrunStarts(s);
      assert Overrun(s)[..0] == [];
    } else {
      hide OverrunTo;
      OverrunPrefix(s, j - 1);
      OverrunNext(s, j - 1);
    }
  }

  lemma ZeroIsNoticed(w: Parser, u: Parser)
    requires Fits(w) && (w.state.HuntSync? || (w.state.ReadPayload? && w.rxPos < w.header[2]))
    requires Fits(u) && |u.buffer| == |w.buffer| && w == u.(buffer := w.buffer)
    ensures !Same(Step(w, 0), Step(u, 0xFF)) && !Same(Step(w, 0xFF), Step(u, 0))
  {
    if w.state.ReadPayload? {
      OneNotices(w, u);
      OneNotices(u, w);
    }
  }

  lemma OneNotices(w: Parser, u: Parser)
    requires Fits(w) && w.state.ReadPayload? && w.rxPos < w.header[2]
    requires Fits(u) && |u.buffer| == |w.buffer| && w == u.(buffer := w.buffer)
    ensures Step(w, 0).log != Step(u, 0xFF).log
  {
    var n := |w.log|;
    var zero, one := PayloadByte(w, 0, 0), PayloadByte(u, 0xFF, 0xFF);
    assert zero.log[n] == Fault(PayloadIncomplete);
    assert one.log == u.log || one.log[n] == Fault(RxBufferSmall);
    assert Step(w, 0).log[n] == Fault(PayloadIncomplete);
  }

  lemma OverrunFails(s: Parser)
    requires Fits(s) && Exposed(s) && s.rxPos > 0
    ensures !Same(FeedInPlace(s, Overrun(s), s.rxPos + 1), Feed(s, Overrun(s)))
  {
    hide StepWith, Split;
    var p, data := s.rxPos, Overrun(s);
    var t, u := FeedInPlace(s, data, p), Feed(s, data[..p]);
    OverrunPrefix(s, p);
    assert data[..p + 1] == data && data[..p + 1][..p] == data[..p];
    if Overruns(s, t, u, p) {
      assert FeedInPlace(s, data, p + 1) == Step(t, t.buffer[p]);
      ZeroIsNoticed(t, u);
    } else {
      SplitStays(t, u, p, data[p]);
      SplitIsSeen(FeedInPlace(s, data, p + 1), Feed(s, data));
    }
  }

  lemma SplitIsSeen(t: Parser, u: Parser)
    requires Split(t, u)
    ensures !Same(t, u)
  {
  }

  /** Input of ones: the separate run reads zeros from the first distance on, the shared run loses that distance. */
  function Ones(s: Parser): seq<u8>
    requires Fits(s)
  {
    seq(s.header[2], i => 1)
  }

  ghost predicate Loses(s: Parser, t: Parser, u: Parser, j: nat) {
    && Fits(t) && Fits(u) && |t.buffer| == |u.buffer| == |s.buffer|
    && t.state.ReadPayload? && u.state.ReadPayload? && t.rxPos == u.rxPos == j && t.header == u.header == s.header
    && t.log == u.log == s.log && t.header[2] <= |t.buffer|
    && (forall k :: j <= k < t.header[2] ==> t.buffer[k] == 1)
    && u.rxNextZero == (if j < s.rxNextZero then s.rxNextZero - j else 1)
    && t.rxNextZero == (if j < s.rxNextZero then s.rxNextZero - j else (0x100 - (j - s.rxNextZero)) % 0x100)
    && (j > s.rxNextZero ==> t.buffer[s.rxNextZero] == 1 && u.buffer[s.rxNextZero] == 0)
  }

  lemma LosesStep(s: Parser, t: Parser, u: Parser, j: nat)
    requires Fits(s) && Exposed(s) && s.rxPos == 0 && Loses(s, t, u, j) && j < s.header[2]
    ensures var t', u' := StepShared(t, j), Step(u, 1);
            if j + 1 < s.header[2] then Loses(s, t', u', j + 1) else !Same(t', u')
  {
    hide Check, Loses, StepShared, Step;
    if j + 1 < s.header[2] { LosesOn(s, t, u, j); } else { LosesEnd(s, t, u, j); }
  }

  lemma LosesOn(s: Parser, t: Parser, u: Parser, j: nat)
    requires Fits(s) && Exposed(s) && s.rxPos == 0 && Loses(s, t, u, j) && j + 1 < s.header[2]
    ensures Loses(s, StepShared(t, j), Step(u, 1), j + 1)
  {
    hide StepWith, Store;
    StepStores(t, 1, 0);
    StepStores(u, 1, 1);
    assert StepShared(t, j) == Store(t, 1, 0) && Step(u, 1) == Store(u, 1, 1);
    LosesStored(s, t, u, j);
  }

  lemma LosesStored(s: Parser, t: Parser, u: Parser, j: nat)
    requires Fits(s) && Exposed(s) && s.rxPos == 0 && Loses(s, t, u, j) && j + 1 < s.header[2]
    ensures Loses(s, Store(t, 1, 0), Store(u, 1, 1), j + 1)
  {
  }

  /** A byte that is neither zero nor the last of its payload is only stored. */
  lemma StepStores(s: Parser, b: u8, next: u8)
    requires Fits(s) && s.state.ReadPayload? && s.rxPos + 1 < s.header[2] && s.rxPos < |s.buffer| && b != 0
    ensures StepWith(s, b, next) == Store(s, b, next)
  {
  }

  lemma LosesEnd(s: Parser, t: Parser, u: Parser, j: nat)
    requires Fits(s) && Exposed(s) && s.rxPos == 0 && Loses(s, t, u, j) && j + 1 == s.header[2]
    ensures !Same(StepShared(t, j), Step(u, 1))
  {
    hide Check;
    var t', u' := PayloadByte(t, 1, 0), PayloadByte(u, 1, 1);
    assert t'.buffer[..j + 1][s.rxNextZero] == 1 && u'.buffer[..j + 1][s.rxNextZero] == 0;
    assert StepShared(t, j).log[|s.log|] != Step(u, 1).log[|s.log|];
  }

  lemma {:induction false} LosesRun(s: Parser, j: nat)
    requires Fits(s) && Exposed(s) && s.rxPos == 0 && j < s.header[2]
    ensures Loses(s, FeedInPlace(s, Ones(s), j), Feed(s, Ones(s)[..j]), j)
  {
    var data := Ones(s);
    if j == 0 {
      assert data[..0] == [];
    } else {
      hide Loses, Step, StepShared;
      LosesRun(s, j - 1);
      assert data[..j][..j - 1] == data[..j - 1];
      LosesStep(s, FeedInPlace(s, data, j - 1), Feed(s, data[..j - 1]), j - 1);
    }
  }

  lemma OnesFail(s: Parser)
    requires Fits(s) && Exposed(s) && s.rxPos == 0
    ensures !Same(FeedInPlace(s, Ones(s), s.header[2]), Feed(s, Ones(s)))
  {
    hide Loses, Step, StepShared, Same;
    var j, data := s.header[2] - 1, Ones(s);
    LosesRun(s, j);
    assert data[..j + 1] == data && data[..j + 1][..j] == data[..j];
    LosesStep(s, FeedInPlace(s, data, j), Feed(s, data[..j]), j);
  }

  lemma AlikeIsSame(t: Parser, u: Parser, input: seq<u8>, i: nat)
    requires Alike(t, u, input, i)
    ensures Same(t, u)
  {
  }

  /** Parsing in the receive buffer is the same as parsing a separate copy exactly when no payload is exposed. */
  lemma SharingIsSafeIff(s: Parser)
    requires Fits(s)
    ensures SharingIsSafe(s) <==> !Exposed(s)
  {
    hide Feed, FeedInPlace, Same;
    if Exposed(s) {
      var data := if s.rxPos > 0 then Overrun(s) else Ones(s);
      if s.rxPos > 0 { OverrunFails(s); } else { OnesFail(s); }
      assert |data| <= |s.buffer| && !Same(FeedInPlace(s, data, |data|), Feed(s, data));
    } else {
      forall data: seq<u8> | |data| <= |s.buffer|
        ensures Same(FeedInPlace(s, data, |data|), Feed(s, data))
      {
        AlikeRun(s, data, |data|);
        assert data[..|data|] == data;
        AlikeIsSame(FeedInPlace(s, data, |data|), Feed(s, data), With(s, data).buffer, |data|);
      }
    }
  }
}
