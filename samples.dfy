/** Sample arithmetic shared by the visualiser and the spawner: the byte samples
    the analyser writes, the bar-height formula, the spawn radius and the
    transient detector that decides which bars spawn a projectile. */
module Samples {

  /** One unsigned 8-bit sample, as held by a Uint8Array or Uint8ClampedArray. */
  type Byte = x: int | 0 <= x < 256

  /** A bin fires when it moved by more than this since it last fired ... */
  const JumpThreshold: int := 20
  /** ... or when it is louder than this. */
  const LoudThreshold: int := 230
  /** The spawner looks at every fourth bin. */
  const Stride: nat := 4

  const MinHeight: real := 200.0
  const MaxHeight: real := 270.0
  /** The higher, the closer the inner radius is to the centre. */
  const RadiusOffset: real := 75.0

  function Abs(v: int): int { if v < 0 then -v else v }

  /** The transient test applied to one bin. */
  predicate Fires(cur: int, prev: int) {
    Abs(cur - prev) > JumpThreshold || cur > LoudThreshold
  }

  /** A loud bin fires, whatever the cache holds. */
  lemma LoudAlwaysFires(cur: Byte, prev: Byte)
    requires cur > LoudThreshold
    ensures Fires(cur, prev)
  {
  }

  /** A quiet bin fires exactly when it jumped by more than the threshold. */
  lemma QuietFiresOnJump(cur: Byte, prev: Byte)
    requires cur <= LoudThreshold
    ensures Fires(cur, prev) <==> (cur - prev > JumpThreshold || prev - cur > JumpThreshold)
  {
  }

  /** Height of the bar drawn for a sample, linear in the sample. */
  function BarHeight(s: Byte): (h: real)
    ensures MinHeight <= h <= MaxHeight
    ensures s == 0 ==> h == MinHeight
    ensures s == 255 ==> h == MaxHeight
  {
    (MaxHeight - MinHeight) * s as real / 255.0 + MinHeight
  }

  /** Louder samples never give shorter bars. */
  lemma BarHeightMonotone(a: Byte, b: Byte)
    requires a <= b
    ensures BarHeight(a) <= BarHeight(b)
  {
  }

  function InnerRadius(canvasHeight: real): real { canvasHeight / 2.0 - RadiusOffset }

  function OuterRadius(canvasHeight: real): real { InnerRadius(canvasHeight) + MaxHeight }

  /** Distance from the centre at which a bar's tip sits, and where a projectile
      spawned at that bar starts. */
  function SpawnRadius(s: Byte, canvasHeight: real): (r: real)
    ensures InnerRadius(canvasHeight) <= r <= InnerRadius(canvasHeight) + (MaxHeight - MinHeight)
    ensures r == OuterRadius(canvasHeight) - BarHeight(s)
  {
    OuterRadius(canvasHeight) - BarHeight(s)
  }

  /** The spawner's bar count: the buffer length divided by the stride, as a
      real number, so not a whole number when the length is not a multiple of 4. */
  function BarCount(n: nat): real { n as real / Stride as real }

  /** Bar i passes the spawner's loop test exactly when the bin it reads,
      i * 4, lies inside a buffer of length n. */
  lemma BarIndexInBounds(i: nat, n: nat)
    ensures (i as real) < BarCount(n) <==> Stride * i < n
  {
  }

  /** The bars from bar i on that fire against the cache, in increasing order. */
  function FiredFrom(cur: seq<Byte>, prev: seq<Byte>, i: nat): (r: seq<nat>)
    requires |prev| == |cur|
    ensures forall j :: 0 <= j < |r| ==> i <= r[j] && Stride * r[j] < |cur| && Fires(cur[Stride * r[j]], prev[Stride * r[j]])
    ensures forall j, k :: 0 <= j < k < |r| ==> r[j] < r[k]
    decreases |cur| - Stride * i
  {
    if Stride * i >= |cur| then []
    else (if Fires(cur[Stride * i], prev[Stride * i]) then [i] else []) + FiredFrom(cur, prev, i + 1)
  }

  /** The bars that fire in one spawner pass. */
  function FiredBars(cur: seq<Byte>, prev: seq<Byte>): seq<nat>
    requires |prev| == |cur|
  {
    FiredFrom(cur, prev, 0)
  }

  /** Every bar at or after i that fires is listed. */
  lemma {:induction false} FiredFromComplete(cur: seq<Byte>, prev: seq<Byte>, i: nat, k: nat)
    requires |prev| == |cur|
    requires i <= k && Stride * k < |cur| && Fires(cur[Stride * k], prev[Stride * k])
    ensures k in FiredFrom(cur, prev, i)
    decreases |cur| - Stride * i
  {
    if k > i {
      FiredFromComplete(cur, prev, i + 1, k);
    }
  }

  /** A bar is listed by the spawner exactly when its bin is in range and fires. */
  lemma FiredBarsExactly(cur: seq<Byte>, prev: seq<Byte>, k: nat)
    requires |prev| == |cur|
    ensures k in FiredBars(cur, prev) <==> Stride * k < |cur| && Fires(cur[Stride * k], prev[Stride * k])
  {
    if Stride * k < |cur| && Fires(cur[Stride * k], prev[Stride * k]) {
      FiredFromComplete(cur, prev, 0, k);
    }
  }

  /** The cache after a spawner pass: a bin that fired now holds the current
      sample; every other entry is kept. */
  function Refreshed(prev: seq<Byte>, cur: seq<Byte>): (r: seq<Byte>)
    requires |prev| == |cur|
    ensures |r| == |prev|
  {
    seq(|prev|, k requires 0 <= k < |prev| =>
      if k % Stride == 0 && Fires(cur[k], prev[k]) then cur[k] else prev[k])
  }

  /** Only the bins of fired bars change in the cache, and they take the
      current sample. */
  lemma RefreshedOnlyFired(prev: seq<Byte>, cur: seq<Byte>, k: nat)
    requires |prev| == |cur| && k < |prev|
    ensures Refreshed(prev, cur)[k] != prev[k] ==> k % Stride == 0 && k / Stride in FiredBars(cur, prev)
    ensures k % Stride == 0 && k / Stride in FiredBars(cur, prev) ==> Refreshed(prev, cur)[k] == cur[k]
  {
    FiredBarsExactly(cur, prev, k / Stride);
  }

  /** The cache partway through a spawner pass: the bins of the bars below i
      that fired are refreshed, the rest are as before. */
  function RefreshedBelow(prev: seq<Byte>, cur: seq<Byte>, i: nat): (r: seq<Byte>)
    requires |prev| == |cur|
    ensures |r| == |prev|
  {
    seq(|prev|, k requires 0 <= k < |prev| =>
      if k < Stride * i && k % Stride == 0 && Fires(cur[k], prev[k]) then cur[k] else prev[k])
  }

  /** A spawner pass stopped before bar i: done lists the bars fired so far,
      and prev is the cache as the pass has left it. */
  ghost predicate PassMidway(cur: seq<Byte>, prev0: seq<Byte>, prev: seq<Byte>, i: nat, done: seq<nat>) {
    && |prev0| == |cur|
    && prev == RefreshedBelow(prev0, cur, i)
    && FiredBars(cur, prev0) == done + FiredFrom(cur, prev0, i)
    && (forall j :: 0 <= j < |done| ==> Stride * done[j] < |cur|)
  }

  /** The pass starts at bar 0 with the cache untouched. */
  lemma PassStart(cur: seq<Byte>, prev0: seq<Byte>)
    requires |prev0| == |cur|
    ensures PassMidway(cur, prev0, prev0, 0, [])
  {
  }

  /** One bar of the pass: the bar's bin still holds the cached sample, and the
      bar is listed and its bin refreshed exactly when it fires. */
  lemma PassStep(cur: seq<Byte>, prev0: seq<Byte>, prev: seq<Byte>, i: nat, done: seq<nat>)
    requires PassMidway(cur, prev0, prev, i, done) && Stride * i < |cur|
    ensures prev[Stride * i] == prev0[Stride * i]
    ensures var k := Stride * i;
      Fires(cur[k], prev0[k]) ==> PassMidway(cur, prev0, prev[k := cur[k]], i + 1, done + [i])
    ensures var k := Stride * i;
      !Fires(cur[k], prev0[k]) ==> PassMidway(cur, prev0, prev, i + 1, done)
  {
    var k := Stride * i;
    if Fires(cur[k], prev0[k]) {
      assert prev[k := cur[k]] == RefreshedBelow(prev0, cur, i + 1);
    } else {
      assert prev == RefreshedBelow(prev0, cur, i + 1);
    }
  }

  /** Past the last bar the pass has fired every bar and refreshed the cache. */
  lemma PassEnd(cur: seq<Byte>, prev0: seq<Byte>, prev: seq<Byte>, i: nat, done: seq<nat>)
    requires PassMidway(cur, prev0, prev, i, done) && |cur| <= Stride * i
    ensures done == FiredBars(cur, prev0) && prev == Refreshed(prev0, cur)
  {
    assert FiredFrom(cur, prev0, i) == [];
    assert done + [] == done;
  }

  /** The bars whose bin is louder than the loud threshold, from bar i on. */
  function LoudFrom(cur: seq<Byte>, i: nat): (r: seq<nat>)
    decreases |cur| - Stride * i
  {
    if Stride * i >= |cur| then []
    else (if cur[Stride * i] > LoudThreshold then [i] else []) + LoudFrom(cur, i + 1)
  }

  /** Running the detector again on the same samples against the refreshed cache
      fires only the loud bars: every jump has been absorbed. */
  lemma {:induction false} RefreshSettles(prev: seq<Byte>, cur: seq<Byte>, i: nat)
    requires |prev| == |cur|
    ensures FiredFrom(cur, Refreshed(prev, cur), i) == LoudFrom(cur, i)
    decreases |cur| - Stride * i
  {
    if Stride * i < |cur| {
      var r := Refreshed(prev, cur);
      var k := Stride * i;
      assert r[k] == if Fires(cur[k], prev[k]) then cur[k] else prev[k];
      assert Fires(cur[k], r[k]) <==> cur[k] > LoudThreshold;
      RefreshSettles(prev, cur, i + 1);
      assert FiredFrom(cur, r, i) == (if Fires(cur[k], r[k]) then [i] else []) + FiredFrom(cur, r, i + 1);
    }
  }
}
