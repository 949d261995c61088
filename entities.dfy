/** The Projectile entity of src/classes.js: a body flying in a straight line
    towards a fixed destination, flagged for removal once it is closer to that
    destination than its own radius. */
module Entities {

  /** The constructor ignores its speed argument and uses this. */
  const FixedSpeed: real := 200.0
  /** The constructor scales its radius argument by this. */
  const RadiusScale: real := 10.0
  /** Damage when the constructor is given none. */
  const DefaultDamage: real := 1.0

  /** The fields of a projectile, as a value. The flag nan stands for the
      position having become NaN, which happens when move() divides by a zero
      distance; x and y are then meaningless. */
  datatype Body = Body(x: real, y: real, xDes: real, yDes: real,
                       damage: real, speed: real, radius: real, destroy: bool, nan: bool)

  /** Squared distance from the position to the destination. */
  function SqDist(b: Body): real {
    (b.x - b.xDes) * (b.x - b.xDes) + (b.y - b.yDes) * (b.y - b.yDes)
  }

  /** A squared distance is never negative, and it is zero on the destination. */
  lemma SqDistSign(b: Body)
    ensures SqDist(b) >= 0.0
    ensures b.x == b.xDes && b.y == b.yDes ==> SqDist(b) == 0.0
  {
    SumOfSquares(b.x - b.xDes, b.y - b.yDes);
  }

  lemma SumOfSquares(dx: real, dy: real)
    ensures dx * dx + dy * dy >= 0.0
    ensures dx == 0.0 && dy == 0.0 ==> dx * dx + dy * dy == 0.0
  {
    SquareSign(dx);
    SquareSign(dy);
  }

  lemma SquareSign(v: real)
    ensures v * v >= 0.0
    ensures v == 0.0 ==> v * v == 0.0
  {
  }

  /** The test of collision(): closer to the destination than the radius,
      compared on squares so that no square root is needed. */
  predicate Reached(b: Body) {
    0.0 < b.radius && SqDist(b) < b.radius * b.radius
  }

  /** Squaring is strictly increasing on the non-negative reals. */
  lemma SquareBelow(d: real, r: real)
    requires 0.0 <= d < r
    ensures d * d < r * r
  {
    ProductPositive(r - d, r + d);
    assert (r - d) * (r + d) == r * r - d * d;
  }

  lemma ProductPositive(a: real, b: real)
    requires 0.0 < a && 0.0 < b
    ensures 0.0 < a * b
  {
  }

  /** The squared comparison agrees with the source's `distance < radius` for
      the true (non-negative) distance d. */
  lemma ReachedIsDistanceBelowRadius(b: Body, d: real)
    requires 0.0 <= d && d * d == SqDist(b)
    ensures Reached(b) <==> d < b.radius
  {
    var r := b.radius;
    if 0.0 < r {
      if d < r {
        SquareBelow(d, r);
      } else if r < d {
        SquareBelow(r, d);
      }
    }
  }

  /** What the constructor stores for its arguments. */
  function Launched(x: real, y: real, xDes: real, yDes: real,
                    speed: real, radius: real, damage: real): (b: Body)
    ensures b.speed == FixedSpeed && b.radius == RadiusScale * radius && !b.destroy && !b.nan
    ensures b.x == x && b.y == y && b.xDes == xDes && b.yDes == yDes && b.damage == damage
  {
    Body(x, y, xDes, yDes, damage, FixedSpeed, RadiusScale * radius, false, false)
  }

  /** The body after move(deltaTime), where dist is what the distance
      computation returned. Dividing by a zero distance gives NaN, and NaN
      stays NaN; only the position is ever changed. */
  function Moved(b: Body, dt: real, dist: real): (r: Body)
    ensures r.(x := b.x, y := b.y, nan := b.nan) == b
    ensures r.nan <==> b.nan || dist == 0.0
  {
    if b.nan then b
    else if dist == 0.0 then b.(nan := true)
    else b.(x := b.x + (b.xDes - b.x) / dist * b.speed * dt,
            y := b.y + (b.yDes - b.y) / dist * b.speed * dt)
  }

  /** A move takes the body speed * dt along the line to its destination: its
      new distance from the destination is |dist - speed * dt|. */
  lemma MovedDistance(b: Body, dt: real, dist: real)
    requires !b.nan && 0.0 < dist && dist * dist == SqDist(b)
    ensures SqDist(Moved(b, dt, dist)) == (dist - b.speed * dt) * (dist - b.speed * dt)
  {
    var m := Moved(b, dt, dist);
    var f := 1.0 - b.speed * dt / dist;
    MovedOffsets(b, dt, dist);
    ScaledSquares(b.x - b.xDes, b.y - b.yDes, f);
    assert SqDist(m) == (dist * dist) * (f * f);
    ScaledDistance(dist, b.speed * dt);
  }

  /** A move scales both offsets from the destination by the same factor. */
  lemma MovedOffsets(b: Body, dt: real, dist: real)
    requires !b.nan && 0.0 < dist
    ensures var m := Moved(b, dt, dist); var f := 1.0 - b.speed * dt / dist;
      m.x - m.xDes == (b.x - b.xDes) * f && m.y - m.yDes == (b.y - b.yDes) * f
  {
    StepTowards(b.x, b.xDes, dist, b.speed * dt);
    StepTowards(b.y, b.yDes, dist, b.speed * dt);
  }

  /** One coordinate of a step of length v along the line to the target, at
      distance dist, scales the offset from the target by 1 - v / dist. */
  lemma StepTowards(c: real, target: real, dist: real, v: real)
    requires dist != 0.0
    ensures (c + (target - c) / dist * v) - target == (c - target) * (1.0 - v / dist)
  {
    assert (target - c) / dist * v == (target - c) * (v / dist);
  }

  lemma ScaledSquares(dx: real, dy: real, f: real)
    ensures (dx * f) * (dx * f) + (dy * f) * (dy * f) == (dx * dx + dy * dy) * (f * f)
  {
  }

  lemma ScaledDistance(dist: real, v: real)
    requires dist != 0.0
    ensures (dist * dist) * ((1.0 - v / dist) * (1.0 - v / dist)) == (dist - v) * (dist - v)
  {
    assert dist * (1.0 - v / dist) == dist - v;
  }

  /** A projectile exactly on its destination: the next move turns its position
      into NaN. */
  lemma OnTargetBecomesNaN(b: Body, dt: real, sqrt: real -> real)
    requires !b.nan && b.x == b.xDes && b.y == b.yDes
    requires sqrt(0.0) == 0.0
    ensures Moved(b, dt, sqrt(SqDist(b))).nan
  {
    SqDistSign(b);
  }

  /** The body after collision(): destroy is set when the destination is
      reached (a NaN distance never compares below the radius), and nothing
      else changes. */
  function Collided(b: Body): (r: Body)
    ensures r.destroy == (b.destroy || (!b.nan && Reached(b)))
    ensures r.(destroy := b.destroy) == b
  {
    if !b.nan && Reached(b) then b.(destroy := true) else b
  }

  /** collision() never clears the flag, and a second call changes nothing. */
  lemma CollisionIdempotent(b: Body)
    ensures b.destroy ==> Collided(b).destroy
    ensures Collided(Collided(b)) == Collided(b)
  {
  }

  /** A body of radius zero or less, or one whose position is NaN, is never
      destroyed by a move followed by collision(), and stays so. A projectile
      built with radius argument 0 is such a body. */
  lemma NeverDestroyed(b: Body, dt: real, dist: real)
    requires (b.radius <= 0.0 || b.nan) && !b.destroy
    ensures var r := Collided(Moved(b, dt, dist)); !r.destroy && (r.radius <= 0.0 || r.nan)
    ensures Launched(b.x, b.y, b.xDes, b.yDes, b.speed, 0.0, b.damage).radius == 0.0
  {
  }

  class Projectile {
    var x: real
    var y: real
    var xDes: real
    var yDes: real
    var damage: real
    var speed: real
    var radius: real
    var destroy: bool
    /** x and y hold NaN. */
    var nan: bool

    /** The fields, as a value. */
    function Snapshot(): Body
      reads this
    {
      Body(x, y, xDes, yDes, damage, speed, radius, destroy, nan)
    }

    function SqDistance(): real
      reads this
    {
      SqDist(Snapshot())
    }

    /** The speed argument is accepted and ignored; the colour and player
        arguments the caller passes as well are dropped by the language. */
    constructor (x: real, y: real, xDes: real, yDes: real,
                 speed: real, radius: real, damage: real := DefaultDamage)
      ensures Snapshot() == Launched(x, y, xDes, yDes, speed, radius, damage)
    {
      this.x := x;
      this.y := y;
      this.xDes := xDes;
      this.yDes := yDes;
      this.damage := damage;
      this.speed := FixedSpeed;
      this.radius := radius * RadiusScale;
      this.destroy := false;
      this.nan := false;
    }

    /** Sets destroy when the destination is reached. Takes no score argument,
        so a score passed by a caller is never touched. */
    method Collision()
      modifies this`destroy
      ensures Snapshot() == Collided(old(Snapshot()))
    {
      if !nan && SqDistance() < radius * radius && 0.0 < radius {
        destroy := true;
      }
    }

    /** One step towards the destination. dist is the distance to it, which
        the source computes with Math.sqrt and divides by; the two branches
        that set nan are what IEEE arithmetic does with 0 / 0 and with NaN. */
    method Move(deltaTime: real, dist: real)
      modifies this`x, this`y, this`nan
      ensures Snapshot() == Moved(old(Snapshot()), deltaTime, dist)
    {
      if nan {
      } else if dist == 0.0 {
        nan := true;
      } else {
        var x0, y0 := x, y;
        x := x0 + ((xDes - x0) / dist) * speed * deltaTime;
        y := y0 + ((yDes - y0) / dist) * speed * deltaTime;
      }
    }
  }
}
