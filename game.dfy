/** The game state of src/main.js: the frequency buffer and its cache, the
    projectile array, the spawn timer and the score, with the per-frame
    operations that update them. */
module Game {
  import opened Samples
  import opened Entities
  import opened Sweep
  import Render
  import Raster

  /** Seconds between spawner passes. */
  const SpawnTime: real := 0.7

  /** The timer update of one frame: whether the spawner runs, and the new
      timer value. */
  function TimerStep(timer: real, dt: real): (bool, real) {
    var t := timer + dt;
    if t >= SpawnTime then (true, 0.0) else (false, t)
  }

  /** With a non-negative dt the timer stays in [0, SpawnTime); it is set to 0
      on a spawn and otherwise grows by dt, and it spawns at most once. */
  lemma TimerStaysInRange(timer: real, dt: real)
    requires 0.0 <= timer < SpawnTime && 0.0 <= dt
    ensures var (spawned, t) := TimerStep(timer, dt);
      0.0 <= t < SpawnTime
      && (spawned <==> SpawnTime <= timer + dt)
      && (spawned ==> t == 0.0)
      && (!spawned ==> t == timer + dt)
  {
  }

  function Sum(dts: seq<real>): real {
    if |dts| == 0 then 0.0 else dts[0] + Sum(dts[1..])
  }

  /** The number of spawner passes and the final timer over a run of frames. */
  function Run(timer: real, dts: seq<real>): (nat, real)
    decreases |dts|
  {
    if |dts| == 0 then (0, timer)
    else
      var (spawned, t) := TimerStep(timer, dts[0]);
      var (n, last) := Run(t, dts[1..]);
      ((if spawned then 1 else 0) + n, last)
  }

  /** Over any run of frames with non-negative dt: the timer stays in range,
      at most one pass happens per frame, and every pass is paid for by
      SpawnTime seconds of elapsed time. */
  lemma {:induction false} RunBounds(timer: real, dts: seq<real>)
    requires 0.0 <= timer < SpawnTime
    requires forall i :: 0 <= i < |dts| ==> 0.0 <= dts[i]
    ensures var (n, last) := Run(timer, dts);
      0.0 <= last < SpawnTime && n <= |dts| && SpawnTime * n as real + last <= timer + Sum(dts)
    decreases |dts|
  {
    if |dts| > 0 {
      var (spawned, t) := TimerStep(timer, dts[0]);
      TimerStaysInRange(timer, dts[0]);
      RunBounds(t, dts[1..]);
    }
  }

  /** The normalised magnitude of a sample. */
  function Magnitude(s: Byte): (m: real)
    ensures 0.0 <= m <= 1.0
    ensures s == 0 ==> m == 0.0
    ensures s == 255 ==> m == 1.0
  {
    s as real / 255.0
  }

  /** The angle of bar i among the spawner's bars for a buffer of n samples,
      turned by the visualiser's rotation. */
  function BarAngle(i: nat, n: nat, rotation: real): real
    requires Stride * i < n
  {
    -Render.Pi / 2.0 + i as real * (2.0 * Render.Pi / BarCount(n)) + rotation
  }

  /** The projectile the spawner builds for bar i: at the bar's tip, aimed at
      the centre, with the sample's magnitude as speed, radius and damage
      arguments. */
  function SpawnBody(cur: seq<Byte>, i: nat, canvasHeight: real, rotation: real,
                     cos: real -> real, sin: real -> real): (b: Body)
    requires Stride * i < |cur|
    ensures b.xDes == 0.0 && b.yDes == 0.0 && !b.destroy && !b.nan && b.speed == FixedSpeed
    ensures b.damage == Magnitude(cur[Stride * i]) && 0.0 <= b.damage <= 1.0
    ensures b.radius == RadiusScale * b.damage && 0.0 <= b.radius <= RadiusScale
  {
    var data := cur[Stride * i];
    var r := SpawnRadius(data, canvasHeight);
    var theta := BarAngle(i, |cur|, rotation);
    var m := Magnitude(data);
    Launched(cos(theta) * r, sin(theta) * r, 0.0, 0.0, m, m, m)
  }

  /** Where cos and sin are exact, a spawned projectile sits at the spawn
      radius from the centre, its destination. */
  lemma SpawnAtBarTip(cur: seq<Byte>, i: nat, canvasHeight: real, rotation: real,
                      cos: real -> real, sin: real -> real)
    requires Stride * i < |cur|
    requires var theta := BarAngle(i, |cur|, rotation); cos(theta) * cos(theta) + sin(theta) * sin(theta) == 1.0
    ensures var r := SpawnRadius(cur[Stride * i], canvasHeight);
      SqDist(SpawnBody(cur, i, canvasHeight, rotation, cos, sin)) == r * r
  {
    var r := SpawnRadius(cur[Stride * i], canvasHeight);
    var theta := BarAngle(i, |cur|, rotation);
    var c, s := cos(theta), sin(theta);
    calc {
      SqDist(SpawnBody(cur, i, canvasHeight, rotation, cos, sin));
      (c * r - 0.0) * (c * r - 0.0) + (s * r - 0.0) * (s * r - 0.0);
      (c * c + s * s) * (r * r);
      r * r;
    }
  }

  /** On a canvas taller than 170 the spawn radius exceeds every projectile
      radius, so a new projectile is not destroyed by an immediate collision(). */
  lemma SpawnedNotCollided(cur: seq<Byte>, i: nat, canvasHeight: real, rotation: real,
                           cos: real -> real, sin: real -> real)
    requires Stride * i < |cur| && canvasHeight > 2.0 * (RadiusOffset + RadiusScale)
    requires var theta := BarAngle(i, |cur|, rotation); cos(theta) * cos(theta) + sin(theta) * sin(theta) == 1.0
    ensures var b := SpawnBody(cur, i, canvasHeight, rotation, cos, sin); Collided(b) == b
  {
    var b := SpawnBody(cur, i, canvasHeight, rotation, cos, sin);
    var r := SpawnRadius(cur[Stride * i], canvasHeight);
    SpawnAtBarTip(cur, i, canvasHeight, rotation, cos, sin);
    ReachedIsDistanceBelowRadius(b, r);
  }

  /** A projectile's body after one visit of the game loop: move, then
      collision(), with the distance the square root returns. */
  function Stepped(b: Body, dt: real, sqrt: real -> real): (r: Body)
    ensures r.destroy == (b.destroy || (!r.nan && Reached(r)))
    ensures r.(x := b.x, y := b.y, nan := b.nan, destroy := b.destroy) == b
  {
    var m := Moved(b, dt, sqrt(SqDist(b)));
    assert m.(x := b.x, y := b.y, nan := b.nan) == b;
    Collided(m)
  }

  /** The projectiles of s that a visit would flag for removal. */
  ghost function DoomedOf(s: seq<Projectile>, dt: real, sqrt: real -> real): set<Projectile>
    reads set k | 0 <= k < |s| :: s[k]
  {
    set k | 0 <= k < |s| && Stepped(s[k].Snapshot(), dt, sqrt).destroy :: s[k]
  }

  /** A projectile of s is in DoomedOf exactly when a visit flags it. */
  lemma DoomedExactly(s: seq<Projectile>, dt: real, sqrt: real -> real)
    ensures forall k :: 0 <= k < |s| ==> (s[k] in DoomedOf(s, dt, sqrt) <==> Stepped(s[k].Snapshot(), dt, sqrt).destroy)
  {
  }

  /** The projectiles of s whose fields, given by bodies, a visit flags. */
  function DoomedAmong(s: seq<Projectile>, bodies: seq<Body>, dt: real, sqrt: real -> real): (r: set<Projectile>)
    requires |bodies| == |s|
    ensures forall k :: 0 <= k < |s| && Stepped(bodies[k], dt, sqrt).destroy ==> s[k] in r
    ensures forall q :: q in r ==> exists k :: 0 <= k < |s| && s[k] == q && Stepped(bodies[k], dt, sqrt).destroy
  {
    set k | 0 <= k < |s| && Stepped(bodies[k], dt, sqrt).destroy :: s[k]
  }

  /** DoomedOf reads the fields from the heap; DoomedAmong takes them. */
  lemma DoomedOfIs(s: seq<Projectile>, bodies: seq<Body>, dt: real, sqrt: real -> real)
    requires |bodies| == |s| && forall k :: 0 <= k < |s| ==> bodies[k] == s[k].Snapshot()
    ensures DoomedOf(s, dt, sqrt) == DoomedAmong(s, bodies, dt, sqrt)
  {
  }

  /** The bodies the spawner builds for the given bars, in order. */
  function SpawnBodies(cur: seq<Byte>, bars: seq<nat>, canvasHeight: real, rotation: real,
                       cos: real -> real, sin: real -> real): (r: seq<Body>)
    requires forall j :: 0 <= j < |bars| ==> Stride * bars[j] < |cur|
    ensures |r| == |bars|
    ensures forall j :: 0 <= j < |bars| ==> r[j] == SpawnBody(cur, bars[j], canvasHeight, rotation, cos, sin)
  {
    seq(|bars|, j requires 0 <= j < |bars| => SpawnBody(cur, bars[j], canvasHeight, rotation, cos, sin))
  }

  /** What getByteFrequencyData leaves in a buffer: the samples that fit,
      the rest of the buffer unchanged. */
  function Sampled(buf: seq<Byte>, freq: seq<Byte>): (r: seq<Byte>)
    ensures |r| == |buf|
  {
    seq(|buf|, k requires 0 <= k < |buf| => if k < |freq| then freq[k] else buf[k])
  }

  class Game {
    const canvasHeight: real
    /** The analyser's output buffer, a Uint8Array of fftSize / 4 bytes. */
    const audioData: array<Byte>
    /** The samples each spawner bin last fired with. */
    var prev: seq<Byte>
    var projectiles: seq<Projectile>
    var timer: real
    /** scoreRef.score. */
    var score: int

    /** The cache matches the buffer in length, the projectile array holds no
        object twice, and nothing ever adds to the score. */
    ghost predicate Valid()
      reads this
    {
      |prev| == audioData.Length && Distinct(projectiles) && score == 0
    }

    /** init(): a zeroed buffer of fftSize / 4 samples, the cache copied from
        it, no projectiles. */
    constructor (fftSize: nat, canvasHeight: real)
      ensures Valid() && fresh(audioData)
      ensures audioData.Length == fftSize / 4
      ensures forall k :: 0 <= k < audioData.Length ==> audioData[k] == 0
      ensures prev == audioData[..]
      ensures projectiles == [] && timer == 0.0 && this.canvasHeight == canvasHeight
    {
      var data := new Byte[fftSize / 4](_ => 0);
      var copy: seq<Byte> := [];
      for i := 0 to data.Length
        invariant copy == data[..i]
      {
        copy := copy + [data[i]];
      }
      this.canvasHeight := canvasHeight;
      audioData := data;
      prev := copy;
      projectiles := [];
      timer := 0.0;
      score := 0;
    }

    /** spawnProjectiles(): one projectile per fired bar, in bar order, after
        the existing ones; the cache takes the current sample at the fired
        bins. rotation is the visualiser's angle at the time. */
    method SpawnProjectiles(rotation: real, cos: real -> real, sin: real -> real)
      requires Valid()
      modifies this`prev, this`projectiles
      ensures Valid()
      ensures prev == Refreshed(old(prev), audioData[..])
      ensures var fired := FiredBars(audioData[..], old(prev));
        |projectiles| == |old(projectiles)| + |fired|
        && projectiles[..|old(projectiles)|] == old(projectiles)
        && forall j :: 0 <= j < |fired| ==>
             fresh(projectiles[|old(projectiles)| + j])
             && projectiles[|old(projectiles)| + j].Snapshot()
                == SpawnBody(audioData[..], fired[j], canvasHeight, rotation, cos, sin)
      ensures forall k :: 0 <= k < |projectiles| ==> projectiles[k] in old(projectiles) || fresh(projectiles[k])
      ensures forall k :: |old(projectiles)| <= k < |projectiles| ==> fresh(projectiles[k])
    {
      ghost var cur := audioData[..];
      ghost var prev0 := prev;
      ghost var before := projectiles;
      ghost var done: seq<nat> := [];
      ghost var added: seq<Projectile> := [];
      var numOfBar := BarCount(audioData.Length);
      var i: nat := 0;
      PassStart(cur, prev0);
      while (i as real) < numOfBar
        invariant audioData[..] == cur && PassMidway(cur, prev0, prev, i, done)
        invariant projectiles == before + added && |added| == |done|
        invariant forall j :: 0 <= j < |added| ==>
          fresh(added[j]) && added[j].Snapshot() == SpawnBody(cur, done[j], canvasHeight, rotation, cos, sin)
        invariant Distinct(projectiles)
        decreases audioData.Length - i
      {
        BarIndexInBounds(i, audioData.Length);
        PassStep(cur, prev0, prev, i, done);
        var p := SpawnBar(i, rotation, cos, sin);
        if p != null {
          done := done + [i];
          added := added + [p];
        }
        i := i + 1;
      }
      BarIndexInBounds(i, audioData.Length);
      PassEnd(cur, prev0, prev, i, done);
      assert forall j :: 0 <= j < |added| ==> projectiles[|before| + j] == added[j];
      forall k | 0 <= k < |projectiles| ensures (k < |before| ==> projectiles[k] in before) && (k >= |before| ==> fresh(projectiles[k])) {
        if k < |before| {
          assert projectiles[k] == before[k];
        } else {
          assert projectiles[k] == added[k - |before|];
        }
      }
    }

    /** One pass of the spawner's loop body, for bar i: when the bar fires, a
        new projectile is pushed and the cache takes the current sample. The
        result is the new projectile, or null when the bar does not fire. */
    method SpawnBar(i: nat, rotation: real, cos: real -> real, sin: real -> real) returns (p: Projectile?)
      requires Stride * i < audioData.Length && |prev| == audioData.Length
      modifies this`prev, this`projectiles
      ensures var k := Stride * i; p != null <==> Fires(audioData[k], old(prev)[k])
      ensures p == null ==> prev == old(prev) && projectiles == old(projectiles)
      ensures p != null ==>
        fresh(p) && p.Snapshot() == SpawnBody(audioData[..], i, canvasHeight, rotation, cos, sin)
        && prev == old(prev)[Stride * i := audioData[Stride * i]] && projectiles == old(projectiles) + [p]
    {
      var dataIndex := i * Stride;
      var data := audioData[dataIndex];
      p := null;
      if Abs(data - prev[dataIndex]) > JumpThreshold || data > LoudThreshold {
        p := Launch(i, rotation, cos, sin);
        projectiles := projectiles + [p];
        prev := prev[dataIndex := data];
      }
    }

    /** The body of the spawner for a bar that fired: the projectile at the
        bar's tip. */
    method Launch(i: nat, rotation: real, cos: real -> real, sin: real -> real) returns (p: Projectile)
      requires Stride * i < audioData.Length
      ensures fresh(p) && p.Snapshot() == SpawnBody(audioData[..], i, canvasHeight, rotation, cos, sin)
    {
      var data := audioData[Stride * i];
      var height := BarHeight(data);
      var radius := OuterRadius(canvasHeight) - height;
      var theta := BarAngle(i, audioData.Length, rotation);
      var x := cos(theta) * radius;
      var y := sin(theta) * radius;
      var dataMultiplier := Magnitude(data);
      p := new Projectile(x, y, 0.0, 0.0, dataMultiplier, dataMultiplier, dataMultiplier);
    }

    /** gameLoop(): a for-of pass over the array that moves each visited
        projectile, runs collision() on it and splices it out when flagged.
        The array ends as Survivors says: the flagged visited projectiles are
        gone, the rest keep their order, and the element after each removed
        one is left unvisited for this frame. */
    method GameLoop(deltaTime: real, sqrt: real -> real)
      requires Valid()
      modifies this`projectiles, projectiles
      ensures Valid() && score == old(score)
      ensures projectiles == Survivors(old(projectiles), old(DoomedOf(projectiles, deltaTime, sqrt)))
      ensures forall k :: 0 <= k < |projectiles| ==> projectiles[k] in old(projectiles)
      ensures forall q :: q in old(projectiles) ==>
        if q in Touched(old(projectiles), old(DoomedOf(projectiles, deltaTime, sqrt)))
        then q.Snapshot() == Stepped(old(q.Snapshot()), deltaTime, sqrt)
        else q.Snapshot() == old(q.Snapshot())
    {
      ghost var s0 := projectiles;
      ghost var doomed := DoomedOf(projectiles, deltaTime, sqrt);
      forall q | q in s0 ensures q in doomed <==> Stepped(old(q.Snapshot()), deltaTime, sqrt).destroy {
        var k :| 0 <= k < |s0| && s0[k] == q;
      }
      ghost var seen: set<Projectile> := {};
      MidwayStart(s0, doomed);
      var arr := projectiles;
      var idx := 0;
      while idx < |arr|
        invariant Midway(arr, idx, s0, doomed, seen)
        invariant forall q :: q in s0 ==>
          q.Snapshot() == if q in seen then Stepped(old(q.Snapshot()), deltaTime, sqrt) else old(q.Snapshot())
        decreases |arr| - idx
      {
        var p := arr[idx];
        assert p in s0 && p !in seen;
        arr := Advance(arr, idx, s0, doomed, seen, deltaTime, sqrt);
        idx := idx + 1;
        seen := seen + {p};
      }
      MidwayEnd(arr, idx, s0, doomed, seen);
      projectiles := arr;
    }

    /** One pass of the for-of loop's body over the projectile at idx: move,
        collision, and the splice when it is flagged. */
    static method Advance(arr: seq<Projectile>, idx: nat, ghost s0: seq<Projectile>, ghost doomed: set<Projectile>,
                          ghost seen: set<Projectile>, deltaTime: real, sqrt: real -> real)
      returns (next: seq<Projectile>)
      requires Midway(arr, idx, s0, doomed, seen) && idx < |arr|
      requires arr[idx] in doomed <==> Stepped(arr[idx].Snapshot(), deltaTime, sqrt).destroy
      modifies arr[idx]
      ensures Midway(next, idx + 1, s0, doomed, seen + {arr[idx]}) && |next| <= |arr|
      ensures arr[idx].Snapshot() == Stepped(old(arr[idx].Snapshot()), deltaTime, sqrt)
    {
      MidwayStep(arr, idx, s0, doomed, seen);
      var p := arr[idx];
      p.Move(deltaTime, sqrt(p.SqDistance()));
      p.Collision();
      next := arr;
      if p.destroy {
        var at := IndexOf(arr, p);
        next := arr[..at] + arr[at + 1..];
      }
    }

    /** clearProjectiles(): the array is emptied. */
    method ClearProjectiles()
      requires Valid()
      modifies this`projectiles
      ensures Valid() && projectiles == []
    {
      projectiles := [];
    }

    /** getByteFrequencyData(audioData). */
    method Sample(frequencies: seq<Byte>)
      modifies audioData
      ensures audioData[..] == Sampled(old(audioData[..]), frequencies)
    {
      forall k | 0 <= k < audioData.Length && k < |frequencies| {
        audioData[k] := frequencies[k];
      }
    }

    /** One call of loop(): sample, draw, then the game step. The spawner
        takes the rotation the visualiser has just advanced to. The ghost
        results are those of Tick. */
    method Frame(deltaTime: real, frequencies: seq<Byte>, cv: Render.Canvas, params: Render.Params,
                 rendered: seq<Byte>, picks: seq<bool>,
                 cos: real -> real, sin: real -> real, sqrt: real -> real)
      returns (ghost fired: seq<nat>, ghost spawned: seq<Projectile>, ghost bodies: seq<Body>,
               ghost doomed: set<Projectile>)
      requires Valid() && cv.Valid() && cv.pixels != audioData
      requires |rendered| == cv.pixels.Length && |picks| == cv.pixels.Length / 4
      modifies this`prev, this`projectiles, this`timer, audioData, projectiles, cv, cv.pixels
      ensures Valid() && cv.Valid() && score == old(score)
      ensures audioData[..] == Sampled(old(audioData[..]), frequencies)
      ensures var (spawn, t) := TimerStep(old(timer), deltaTime);
        timer == t && prev == (if spawn then Refreshed(old(prev), audioData[..]) else old(prev))
      ensures cv.angleOffset == Render.Spun(old(cv.angleOffset), deltaTime, params.showBars)
      ensures cv.painted == old(cv.painted) + Render.Layers(params, audioData[..], old(cv.angleOffset))
      ensures cv.pixels[..] == Raster.Effected(rendered, cv.width, picks,
                                               params.showNoise, params.showInvert, params.showEmboss)
      ensures fired == if TimerStep(old(timer), deltaTime).0 then FiredBars(audioData[..], old(prev)) else []
      ensures forall j :: 0 <= j < |fired| ==> Stride * fired[j] < audioData.Length
      ensures |spawned| == |old(projectiles)| + |fired| && spawned[..|old(projectiles)|] == old(projectiles)
      ensures forall k :: |old(projectiles)| <= k < |spawned| ==> fresh(spawned[k])
      ensures |bodies| == |spawned|
      ensures forall k :: 0 <= k < |old(projectiles)| ==> bodies[k] == old(projectiles[k].Snapshot())
      ensures bodies[|old(projectiles)|..] == SpawnBodies(audioData[..], fired, canvasHeight, cv.angleOffset, cos, sin)
      ensures doomed == DoomedAmong(spawned, bodies, deltaTime, sqrt)
      ensures projectiles == Survivors(spawned, doomed)
      ensures forall k :: 0 <= k < |spawned| ==>
        spawned[k].Snapshot() == if spawned[k] in Touched(spawned, doomed) then Stepped(bodies[k], deltaTime, sqrt) else bodies[k]
      ensures forall q :: q in projectiles ==> q in old(projectiles) || fresh(q)
    {
      Sample(frequencies);
      cv.Draw(params, audioData[..], deltaTime, rendered, picks);
      assert forall k :: 0 <= k < |projectiles| ==> projectiles[k].Snapshot() == old(projectiles[k].Snapshot());
      fired, spawned, bodies, doomed := Tick(deltaTime, cv.angleOffset, cos, sin, sqrt);
    }

    /** The game step of loop(): the spawn timer, then the game loop. The
        ghost results name the bars that fired (none when the timer has not
        run out), the array the game loop walks (the old projectiles, then
        one new one per fired bar), the fields the game loop finds them with
        and the projectiles a visit flags; the array ends as Survivors. */
    method Tick(deltaTime: real, rotation: real, cos: real -> real, sin: real -> real, sqrt: real -> real)
      returns (ghost fired: seq<nat>, ghost spawned: seq<Projectile>, ghost bodies: seq<Body>,
               ghost doomed: set<Projectile>)
      requires Valid()
      modifies this`prev, this`projectiles, this`timer, projectiles
      ensures Valid() && score == old(score)
      ensures var (spawn, t) := TimerStep(old(timer), deltaTime);
        timer == t && prev == (if spawn then Refreshed(old(prev), audioData[..]) else old(prev))
      ensures fired == if TimerStep(old(timer), deltaTime).0 then FiredBars(audioData[..], old(prev)) else []
      ensures forall j :: 0 <= j < |fired| ==> Stride * fired[j] < audioData.Length
      ensures |spawned| == |old(projectiles)| + |fired| && spawned[..|old(projectiles)|] == old(projectiles)
      ensures forall k :: |old(projectiles)| <= k < |spawned| ==> fresh(spawned[k])
      ensures |bodies| == |spawned|
      ensures forall k :: 0 <= k < |old(projectiles)| ==> bodies[k] == old(projectiles[k].Snapshot())
      ensures bodies[|old(projectiles)|..] == SpawnBodies(audioData[..], fired, canvasHeight, rotation, cos, sin)
      ensures doomed == DoomedAmong(spawned, bodies, deltaTime, sqrt)
      ensures projectiles == Survivors(spawned, doomed)
      ensures forall k :: 0 <= k < |spawned| ==>
        spawned[k].Snapshot() == if spawned[k] in Touched(spawned, doomed) then Stepped(bodies[k], deltaTime, sqrt) else bodies[k]
      ensures forall q :: q in projectiles ==> q in old(projectiles) || fresh(q)
    {
      fired, bodies := SpawnTimer(deltaTime, rotation, cos, sin);
      spawned := projectiles;
      ghost var cur := audioData[..];
      doomed := DoomedOf(projectiles, deltaTime, sqrt);
      DoomedOfIs(spawned, bodies, deltaTime, sqrt);
      GameLoop(deltaTime, sqrt);
      assert audioData[..] == cur;
      forall k | 0 <= k < |spawned| ensures
        spawned[k].Snapshot() == if spawned[k] in Touched(spawned, doomed) then Stepped(bodies[k], deltaTime, sqrt) else bodies[k]
      {
        assert spawned[k] in spawned;
      }
      forall q | q in projectiles ensures q in spawned {
        var k :| 0 <= k < |projectiles| && projectiles[k] == q;
      }
    }

    /** The timer of loop(): it grows by deltaTime, and when it reaches
        SpawnTime the spawner runs and the timer is set back to 0. The ghost
        results are the list of bars that fired, empty when the spawner did
        not run, and the fields of the projectiles afterwards: the old ones
        unchanged, then the SpawnBodies of the fired bars. */
    method SpawnTimer(deltaTime: real, rotation: real, cos: real -> real, sin: real -> real)
      returns (ghost fired: seq<nat>, ghost bodies: seq<Body>)
      requires Valid()
      modifies this`prev, this`projectiles, this`timer
      ensures Valid() && score == old(score)
      ensures var (spawn, t) := TimerStep(old(timer), deltaTime);
        timer == t && prev == (if spawn then Refreshed(old(prev), audioData[..]) else old(prev))
      ensures fired == if TimerStep(old(timer), deltaTime).0 then FiredBars(audioData[..], old(prev)) else []
      ensures forall j :: 0 <= j < |fired| ==> Stride * fired[j] < audioData.Length
      ensures |projectiles| == |old(projectiles)| + |fired| && projectiles[..|old(projectiles)|] == old(projectiles)
      ensures forall k :: |old(projectiles)| <= k < |projectiles| ==> fresh(projectiles[k])
      ensures forall k :: 0 <= k < |projectiles| ==> projectiles[k] in old(projectiles) || fresh(projectiles[k])
      ensures |bodies| == |projectiles| && forall k :: 0 <= k < |projectiles| ==> bodies[k] == projectiles[k].Snapshot()
      ensures forall k :: 0 <= k < |old(projectiles)| ==> bodies[k] == old(projectiles[k].Snapshot())
      ensures bodies[|old(projectiles)|..] == SpawnBodies(audioData[..], fired, canvasHeight, rotation, cos, sin)
    {
      ghost var ps := projectiles;
      fired := [];
      timer := timer + deltaTime;
      if timer >= SpawnTime {
        fired := FiredBars(audioData[..], prev);
        forall j | 0 <= j < |fired| ensures Stride * fired[j] < audioData.Length {
          FiredBarsExactly(audioData[..], prev, fired[j]);
        }
        SpawnProjectiles(rotation, cos, sin);
        timer := 0.0;
      }
      ghost var now := projectiles;
      bodies := seq(|now|, k requires 0 <= k < |now| reads set j | 0 <= j < |now| :: now[j] => now[k].Snapshot());
      ghost var born := SpawnBodies(audioData[..], fired, canvasHeight, rotation, cos, sin);
      forall j | 0 <= j < |fired| ensures bodies[|ps| + j] == born[j] {
        assert bodies[|ps| + j] == projectiles[|ps| + j].Snapshot();
      }
      assert bodies[|ps|..] == born;
      forall k | 0 <= k < |ps| ensures bodies[k] == old(projectiles[k].Snapshot()) {
        assert projectiles[k] == ps[k];
      }
    }
  }
}
