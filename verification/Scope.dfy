/** The triggered scope: decimation, a trigger with hysteresis, and a capture buffer that freezes when full. */
module Scope {
  import opened Words

  type Vector = seq<int>

  datatype Config = Config(channels: nat, depth: nat, decimation: u8, level: int, hysteresis: int)

  datatype State = State(counter: u8, writeIdx: u16, triggered: bool, hystTrig: bool, frozen: bool, rows: seq<Vector>)

  predicate IsConfig(c: Config) {
    0 < c.channels && 0 < c.depth && 0 < c.decimation
  }

  predicate Fits(c: Config, s: State) {
    |s.rows| == c.depth && (!s.frozen ==> s.triggered ==> s.writeIdx < c.depth)
  }

  predicate Above(c: Config, v: Vector)
    requires 0 < |v|
  {
    v[0] > c.level + c.hysteresis
  }

  predicate Below(c: Config, v: Vector)
    requires 0 < |v|
  {
    v[0] < c.level - c.hysteresis
  }

  /** The trigger looks at the first channel until it has fired. */
  function Trigger(c: Config, s: State, v: Vector): State
    requires |v| == c.channels && IsConfig(c)
  {
    if s.triggered then s
    else if Above(c, v) && !s.hystTrig then s.(hystTrig := true, triggered := true, writeIdx := 0)
    else if Below(c, v) && s.hystTrig then s.(hystTrig := false)
    else s
  }

  function Fill(c: Config, s: State, v: Vector): State
    requires Fits(c, s) && !s.frozen && IsConfig(c)
  {
    if s.triggered then
      var n := (s.writeIdx + 1) % 0x1_0000;
      s.(rows := s.rows[s.writeIdx := v], writeIdx := n, frozen := n >= c.depth)
    else s
  }

  function Write(c: Config, s: State, v: Vector): (t: State)
    requires IsConfig(c) && Fits(c, s) && |v| == c.channels
    ensures Fits(c, t)
  {
    if s.frozen then s
    else
      var left := (s.counter + 0xFF) % 0x100;
      if left > 0 then s.(counter := left)
      else Fill(c, Trigger(c, s.(counter := c.decimation), v), v)
  }

  /** Starts over; the hysteresis flag stays as it was. */
  function Reset(c: Config, s: State): State {
    s.(writeIdx := 0, triggered := false, frozen := false, counter := c.decimation)
  }

  function WriteAll(c: Config, s: State, ws: seq<Vector>): (t: State)
    requires IsConfig(c) && Fits(c, s) && AllVectors(c, ws)
    ensures Fits(c, t)
  {
    if ws == [] then s else Write(c, WriteAll(c, s, ws[..|ws| - 1]), ws[|ws| - 1])
  }

  predicate AllVectors(c: Config, ws: seq<Vector>) {
    forall i :: 0 <= i < |ws| ==> |ws[i]| == c.channels
  }

  // ---------- What a capture should be ----------

  /** Every `decimation`-th vector. */
  function Decimated(c: Config, ws: seq<Vector>): (ds: seq<Vector>)
    requires IsConfig(c)
  {
    if ws == [] then []
    else Decimated(c, ws[..|ws| - 1]) + (if |ws| % c.decimation == 0 then [ws[|ws| - 1]] else [])
  }

  lemma {:induction false} DecimatedLength(c: Config, ws: seq<Vector>)
    requires IsConfig(c)
    ensures |Decimated(c, ws)| == |ws| / c.decimation
  {
    if ws == [] {
      ModUnique(0, c.decimation, 0, 0);
    } else {
      DecimatedLength(c, ws[..|ws| - 1]);
      QuotientStep(|ws| - 1, c.decimation);
    }
  }

  lemma {:induction false} DecimatedAt(c: Config, ws: seq<Vector>, k: nat, at: int)
    requires IsConfig(c) && k < |Decimated(c, ws)| && at == (k + 1) * c.decimation - 1
    ensures 0 <= at < |ws| && Decimated(c, ws)[k] == ws[at]
  {
    var n := |ws| - 1;
    if k < |Decimated(c, ws[..n])| {
      DecimatedAt(c, ws[..n], k, at);
    } else {
      DecimatedLength(c, ws[..n]);
      QuotientStep(n, c.decimation);
    }
  }

  /** There is one for every `decimation` vectors, and number `k` is the last of its share. */
  lemma DecimatedMeaning(c: Config, ws: seq<Vector>, k: nat)
    requires IsConfig(c)
    ensures var ds, at := Decimated(c, ws), (k + 1) * c.decimation - 1;
            |ds| == |ws| / c.decimation && (k < |ds| ==> 0 <= at < |ws| && ds[k] == ws[at])
  {
    hide Decimated, IsConfig;
    DecimatedLength(c, ws);
    if k < |Decimated(c, ws)| { DecimatedAt(c, ws, k, (k + 1) * c.decimation - 1); }
  }

  lemma QuotientStep(n: nat, d: int)
    requires d > 0
    ensures (n + 1) / d == n / d + (if (n + 1) % d == 0 then 1 else 0)
    ensures (n + 1) % d == (if n % d == d - 1 then 0 else n % d + 1)
    ensures (n + 1) % d == 0 ==> (n + 1) / d * d == n + 1
  {
    var q, r := n / d, n % d;
    assert n == d * q + r;
    if r == d - 1 { ModUnique(n + 1, d, q + 1, 0); } else { ModUnique(n + 1, d, q, r + 1); }
  }

  /** A trigger that starts with its flag set is armed by a sample below the lower level. */
  predicate Armed(c: Config, ds: seq<Vector>, flag: bool, k: nat)
    requires k <= |ds| && IsConfig(c) && AllVectors(c, ds)
  {
    flag ==> exists u :: 0 <= u < k && Below(c, ds[u])
  }

  /** `t` is the first sample above the upper level while armed, or the end. */
  predicate IsFirstTrigger(c: Config, ds: seq<Vector>, flag: bool, t: nat)
    requires t <= |ds| && IsConfig(c) && AllVectors(c, ds)
  {
    && (t < |ds| ==> Above(c, ds[t]) && Armed(c, ds, flag, t))
    && forall k :: 0 <= k < t ==> !(Above(c, ds[k]) && Armed(c, ds, flag, k))
  }

  /** The state after the decimated samples `ds`, which began with the trigger flag `flag` and fired at `t`. */
  ghost predicate Holds(c: Config, s: State, ds: seq<Vector>, flag: bool, t: nat)
    requires IsConfig(c) && AllVectors(c, ds)
  {
    && Fits(c, s) && t <= |ds| && IsFirstTrigger(c, ds, flag, t)
    && (s.triggered <==> t < |ds|) && (s.frozen <==> t + c.depth <= |ds|)
    && (s.hystTrig <==> s.triggered || !Armed(c, ds, flag, |ds|))
    && var n := if |ds| - t < c.depth then |ds| - t else c.depth;
       s.rows[..n] == ds[t..t + n] && (s.triggered && !s.frozen ==> s.writeIdx == n)
  }

  /** The state after the writes `ws`. */
  ghost predicate Captures(c: Config, s: State, ws: seq<Vector>, flag: bool, t: nat)
    requires IsConfig(c) && AllVectors(c, ws)
  {
    DecimatedVectors(c, ws);
    && Holds(c, s, Decimated(c, ws), flag, t)
    && (!s.frozen ==> s.counter == c.decimation - |ws| % c.decimation)
  }

  lemma {:induction false} DecimatedVectors(c: Config, ws: seq<Vector>)
    requires IsConfig(c) && AllVectors(c, ws)
    ensures AllVectors(c, Decimated(c, ws))
  {
    if ws != [] { DecimatedVectors(c, ws[..|ws| - 1]); }
  }

  lemma ArmedPrefix(c: Config, ds: seq<Vector>, v: Vector, flag: bool, k: nat)
    requires k <= |ds| && IsConfig(c) && AllVectors(c, ds) && |v| == c.channels
    ensures AllVectors(c, ds + [v]) && (Armed(c, ds + [v], flag, k) <==> Armed(c, ds, flag, k))
  {
    var es := ds + [v];
    assert forall u :: 0 <= u < k ==> es[u] == ds[u];
    if flag && Armed(c, es, flag, k) {
      var u :| 0 <= u < k && Below(c, es[u]);
      assert Below(c, ds[u]);
    }
    if flag && Armed(c, ds, flag, k) {
      var u :| 0 <= u < k && Below(c, ds[u]);
      assert Below(c, es[u]);
    }
  }

  lemma ArmedNext(c: Config, ds: seq<Vector>, v: Vector, flag: bool)
    requires IsConfig(c) && AllVectors(c, ds) && |v| == c.channels
    ensures AllVectors(c, ds + [v])
    ensures Armed(c, ds + [v], flag, |ds| + 1) <==> Armed(c, ds, flag, |ds|) || Below(c, v)
  {
    var es := ds + [v];
    ArmedPrefix(c, ds, v, flag, |ds|);
    if flag {
      if Armed(c, es, flag, |ds| + 1) {
        var u :| 0 <= u < |ds| + 1 && Below(c, es[u]);
        assert u < |ds| ==> Armed(c, es, flag, |ds|);
      }
      if Armed(c, es, flag, |ds|) {
        var u :| 0 <= u < |ds| && Below(c, es[u]);
      }
      if Below(c, v) { assert Below(c, es[|ds|]); }
    }
  }

  /** Where the first trigger is after one more decimated sample. */
  function NextTrigger(c: Config, ds: seq<Vector>, v: Vector, flag: bool, t: nat): nat
    requires t <= |ds| && IsConfig(c) && AllVectors(c, ds) && |v| == c.channels
  {
    if t < |ds| || (Above(c, v) && Armed(c, ds, flag, |ds|)) then t else t + 1
  }

  lemma FirstTriggerNext(c: Config, ds: seq<Vector>, v: Vector, flag: bool, t: nat)
    requires t <= |ds| && IsConfig(c) && AllVectors(c, ds) && |v| == c.channels && IsFirstTrigger(c, ds, flag, t)
    ensures AllVectors(c, ds + [v]) && IsFirstTrigger(c, ds + [v], flag, NextTrigger(c, ds, v, flag, t))
  {
    hide Armed;
    var es := ds + [v];
    forall k: nat | k <= |ds|
      ensures Armed(c, es, flag, k) <==> Armed(c, ds, flag, k)
    {
      ArmedPrefix(c, ds, v, flag, k);
    }
  }

  lemma DecimatedNext(c: Config, ws: seq<Vector>, v: Vector)
    requires IsConfig(c)
    ensures Decimated(c, ws + [v]) == Decimated(c, ws) + (if (|ws| + 1) % c.decimation == 0 then [v] else [])
  {
    assert (ws + [v])[..|ws|] == ws;
  }

  /** A sample that decimation drops, or one that a frozen scope ignores. */
  lemma SkipKeeps(c: Config, s: State, ws: seq<Vector>, v: Vector, flag: bool, t: nat)
    requires IsConfig(c) && AllVectors(c, ws) && |v| == c.channels && Captures(c, s, ws, flag, t)
    requires !s.frozen && (|ws| + 1) % c.decimation != 0
    ensures AllVectors(c, ws + [v]) && Captures(c, Write(c, s, v), ws + [v], flag, t)
  {
    hide Armed, IsFirstTrigger;
    DecimatedVectors(c, ws);
    DecimatedNext(c, ws, v);
    QuotientStep(|ws|, c.decimation);
    assert Decimated(c, ws + [v]) == Decimated(c, ws);
  }

  lemma FrozenKeeps(c: Config, s: State, ws: seq<Vector>, v: Vector, flag: bool, t: nat)
    requires IsConfig(c) && AllVectors(c, ws) && |v| == c.channels && Captures(c, s, ws, flag, t) && s.frozen
    ensures AllVectors(c, ws + [v]) && Captures(c, Write(c, s, v), ws + [v], flag, t)
  {
    hide Armed, IsFirstTrigger;
    DecimatedVectors(c, ws);
    DecimatedNext(c, ws, v);
    var ds := Decimated(c, ws);
    FirstTriggerNext(c, ds, v, flag, t);
    ArmedNext(c, ds, v, flag);
    assert (ds + [v])[t..t + c.depth] == ds[t..t + c.depth];
    assert ds + [] == ds;
  }

  lemma SampleHolds(c: Config, s: State, ds: seq<Vector>, v: Vector, flag: bool, t: nat)
    requires c.depth <= 0xFFFF
    requires IsConfig(c) && AllVectors(c, ds) && |v| == c.channels && Holds(c, s, ds, flag, t) && !s.frozen
    ensures AllVectors(c, ds + [v])
    ensures Holds(c, Fill(c, Trigger(c, s, v), v), ds + [v], flag, NextTrigger(c, ds, v, flag, t))
  {
    hide Armed, IsFirstTrigger;
    FirstTriggerNext(c, ds, v, flag, t);
    ArmedNext(c, ds, v, flag);
    var s', n := Trigger(c, s, v), |ds| - t;
    var u := Fill(c, s', v);
    if s'.triggered {
      assert n < c.depth && s'.rows == s.rows;
      assert s'.writeIdx == n by { if !s.triggered { assert t == |ds|; } }
      assert u.rows == s.rows[n := v];
      RowStored(s.rows, n, v);
      assert (ds + [v])[t..t + n + 1] == ds[t..t + n] + [v];
    }
  }

  lemma RowStored(rows: seq<Vector>, n: nat, v: Vector)
    requires n < |rows|
    ensures rows[n := v][..n + 1] == rows[..n] + [v]
  {
  }

  /** A decimated sample. */
  lemma SampleKeeps(c: Config, s: State, ws: seq<Vector>, v: Vector, flag: bool, t: nat) returns (t': nat)
    requires c.depth <= 0xFFFF
    requires IsConfig(c) && AllVectors(c, ws) && |v| == c.channels && Captures(c, s, ws, flag, t)
    requires !s.frozen && (|ws| + 1) % c.decimation == 0
    ensures AllVectors(c, ws + [v]) && Captures(c, Write(c, s, v), ws + [v], flag, t')
  {
    DecimatedVectors(c, ws);
    DecimatedNext(c, ws, v);
    QuotientStep(|ws|, c.decimation);
    var ds, s' := Decimated(c, ws), s.(counter := c.decimation);
    assert Holds(c, s', ds, flag, t);
    t' := NextTrigger(c, ds, v, flag, t);
    hide Holds, Decimated, NextTrigger;
    SampleHolds(c, s', ds, v, flag, t);
  }

  lemma StartHolds(c: Config, s: State)
    requires IsConfig(c) && |s.rows| == c.depth
    ensures Fits(c, Reset(c, s)) && AllVectors(c, []) && Captures(c, Reset(c, s), [], s.hystTrig, 0)
  {
  }

  /** After any writes since a reset: exactly when the scope is frozen, and what it then holds. */
  lemma {:induction false} CaptureAfter(c: Config, s: State, ws: seq<Vector>) returns (t: nat)
    requires c.depth <= 0xFFFF
    requires IsConfig(c) && |s.rows| == c.depth && AllVectors(c, ws)
    ensures Fits(c, Reset(c, s)) && Captures(c, WriteAll(c, Reset(c, s), ws), ws, s.hystTrig, t)
  {
    hide Captures, Write, Decimated;
    StartHolds(c, s);
    if ws == [] {
      t := 0;
    } else {
      var n := |ws| - 1;
      t := CaptureAfter(c, s, ws[..n]);
      var u := WriteAll(c, Reset(c, s), ws[..n]);
      assert ws == ws[..n] + [ws[n]];
      if u.frozen {
        FrozenKeeps(c, u, ws[..n], ws[n], s.hystTrig, t);
      } else if (n + 1) % c.decimation != 0 {
        SkipKeeps(c, u, ws[..n], ws[n], s.hystTrig, t);
      } else {
        t := SampleKeeps(c, u, ws[..n], ws[n], s.hystTrig, t);
      }
    }
  }

  /**
   * A frozen buffer holds `depth` consecutive decimated vectors from the first that fired the trigger. If the flag was
   * set at the reset, as it is after every capture, a sample below the lower level came before.
   */
  lemma FrozenBuffer(c: Config, s: State, ws: seq<Vector>) returns (t: nat)
    requires c.depth <= 0xFFFF
    requires IsConfig(c) && |s.rows| == c.depth && AllVectors(c, ws)
    ensures Fits(c, Reset(c, s)) && AllVectors(c, Decimated(c, ws)) && t <= |Decimated(c, ws)|
    ensures var u, ds := WriteAll(c, Reset(c, s), ws), Decimated(c, ws);
            && IsFirstTrigger(c, ds, s.hystTrig, t)
            && (u.frozen <==> t + c.depth <= |ds|)
            && (u.frozen ==>
                  && u.rows == ds[t..t + c.depth] && u.hystTrig
                  && forall v :: |v| == c.channels ==> Write(c, u, v) == u)
            && (u.frozen && s.hystTrig ==> exists k :: 0 <= k < t && ds[k][0] < c.level - c.hysteresis)
    ensures var ds := Decimated(c, ws);
            && (t < |ds| ==> ds[t][0] > c.level + c.hysteresis)
            && forall k :: 0 <= k < t && ds[k][0] > c.level + c.hysteresis ==>
                 s.hystTrig && forall j :: 0 <= j < k ==> ds[j][0] >= c.level - c.hysteresis
  {
    t := CaptureAfter(c, s, ws);
    DecimatedVectors(c, ws);
    var u := WriteAll(c, Reset(c, s), ws);
    hide Decimated, WriteAll;
    assert u.rows[..c.depth] == u.rows;
  }

  /** A depth that the 16-bit write index cannot reach never fills. */
  lemma {:induction false} TooDeep(c: Config, s: State, ws: seq<Vector>)
    requires IsConfig(c) && Fits(c, s) && AllVectors(c, ws) && c.depth > 0xFFFF && !s.frozen
    ensures !WriteAll(c, s, ws).frozen
  {
    if ws != [] { TooDeep(c, s, ws[..|ws| - 1]); }
  }
}
