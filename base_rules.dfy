/**
 * The pure rules of the `Denizen` base class: fixed-step tick accounting,
 * the out-of-bounds cull and the render placement, plus JavaScript's `x || d`
 * defaulting of numeric options. Wall-clock time is whole milliseconds.
 */
module BaseRules {
  import opened Vectors
  import opened Results

  /** `PHYSICS_TICK_SIZE_S` in milliseconds of wall-clock time. */
  const TickMs: int := 10
  /** `PHYSICS_TICK_SIZE_S`: the fixed delta, in seconds, every single-tick rule integrates over. */
  const TickS: real := 0.01

  /**
   * The number of whole ticks `calcPhysicsTicks` finds between the checkpoint
   * `last` and `now`: the floor of the elapsed time over the tick size (also
   * when `now` is before `last`, where it is negative).
   */
  function Ticks(last: int, now: int): (n: int)
    ensures n * TickMs <= now - last < (n + 1) * TickMs
  {
    (now - last) / TickMs
  }

  /** The checkpoint `calcPhysicsTicks` leaves behind: `last` moved by whole ticks only. */
  function Advance(last: int, now: int): (next: int)
    ensures (next - last) % TickMs == 0
    ensures 0 <= now - next < TickMs
  {
    last + Ticks(last, now) * TickMs
  }

  /** The floor is unique: whole ticks are determined by the bracketing inequality. */
  lemma TicksUnique(last: int, now: int, n: int)
    requires n * TickMs <= now - last < (n + 1) * TickMs
    ensures Ticks(last, now) == n
  {
  }

  /** A second `calcPhysicsTicks(t)` right after the first finds no tick left. */
  lemma {:induction false} NothingLeftToConsume(last: int, now: int)
    ensures Ticks(Advance(last, now), now) == 0
  {
    TicksUnique(Advance(last, now), now, 0);
  }

  /**
   * Splitting is lossless: the ticks consumed up to `t3` in one call equal
   * those consumed up to `t2` plus those consumed from the new checkpoint to `t3`.
   */
  lemma {:induction false} ConsumptionSplits(last: int, t2: int, t3: int)
    ensures Ticks(last, t3) == Ticks(last, t2) + Ticks(Advance(last, t2), t3)
  {
    var k := Ticks(last, t2);
    var n := Ticks(Advance(last, t2), t3);
    assert Advance(last, t2) == last + k * TickMs;
    assert (n + k) * TickMs <= t3 - last < (n + k + 1) * TickMs;
    TicksUnique(last, t3, n + k);
  }

  /**
   * How many single-tick updates `update(t)` performs as written: its loop
   * condition calls `calcPhysicsTicks(t)` again on every test, and the second
   * test finds nothing left, so at most one of the elapsed ticks is run.
   */
  function TicksRunAsWritten(last: int, now: int): (n: nat)
    ensures n <= 1
    ensures n == 1 <==> now - last >= TickMs
  {
    if Ticks(last, now) > 0 then 1 else 0
  }

  /** How many single-tick updates the fixed-step scheduler is meant to run: every elapsed tick. */
  function TicksIntended(last: int, now: int): (n: nat)
    ensures n == 0 <==> now - last < TickMs
    ensures n > 0 ==> n * TickMs <= now - last < (n + 1) * TickMs
  {
    if Ticks(last, now) > 0 then Ticks(last, now) else 0
  }

  /** Fifty elapsed milliseconds are five ticks, of which `update` as written runs one. */
  lemma {:induction false} FiftyMillisecondsRunOneTick()
    ensures TicksIntended(0, 50) == 5
    ensures TicksRunAsWritten(0, 50) == 1
  {
    TicksUnique(0, 50, 5);
  }

  /** As written, every elapsed tick but the first is dropped: two or more ticks lose ticks. */
  lemma {:induction false} TicksLostAsWritten(last: int, now: int)
    ensures TicksRunAsWritten(last, now) <= TicksIntended(last, now)
    ensures TicksRunAsWritten(last, now) < TicksIntended(last, now) <==> now - last >= 2 * TickMs
  {
    if now - last >= 2 * TickMs {
      TicksUnique(last, now, Ticks(last, now));
    }
  }

  /** `getBounds()`: the tank's current extent. */
  datatype Bounds = Bounds(minX: real, maxX: real, minY: real, maxY: real)

  /** `outOfBounds(bounds)`: the centre is strictly more than five box sizes outside an edge. */
  predicate OutOfBounds(p: Vector, width: real, height: real, b: Bounds): (out: bool)
    ensures 0.0 <= width && 0.0 <= height && b.minX <= p.x <= b.maxX && b.minY <= p.y <= b.maxY ==> !out
    ensures width <= 0.0 && p.x > b.maxX ==> out
  {
    || p.x + 5.0 * width < b.minX
    || p.x - 5.0 * width > b.maxX
    || p.y + 5.0 * height < b.minY
    || p.y - 5.0 * height > b.maxY
  }

  /** The tank's rectangle grown by five box sizes on every side, edges included. */
  predicate InSlackBox(p: Vector, width: real, height: real, b: Bounds)
  {
    && b.minX - 5.0 * width <= p.x <= b.maxX + 5.0 * width
    && b.minY - 5.0 * height <= p.y <= b.maxY + 5.0 * height
  }

  /** The cull test is exactly "outside the closed slack box": the slack edge itself is in bounds. */
  lemma OutOfBoundsOutsideSlackBox(p: Vector, width: real, height: real, b: Bounds)
    ensures OutOfBounds(p, width, height, b) <==> !InSlackBox(p, width, height, b)
  {
  }

  /** At 5.1 widths past the right edge a denizen is culled; at 4.9 or exactly 5 it is not. */
  lemma RightEdgeScenario(b: Bounds, width: real, height: real, y: real)
    requires width > 0.0 && height >= 0.0
    requires b.minX <= b.maxX && b.minY <= y <= b.maxY
    ensures OutOfBounds(Vector(b.maxX + 5.1 * width, y), width, height, b)
    ensures !OutOfBounds(Vector(b.maxX + 4.9 * width, y), width, height, b)
    ensures !OutOfBounds(Vector(b.maxX + 5.0 * width, y), width, height, b)
  {
  }

  /** `renderRules()` without the image: the top-left corner and the box size. */
  datatype Placement = Placement(x: real, y: real, width: real, height: real)

  function HalfFloor(size: real): real
  {
    (size / 2.0).Floor as real
  }

  /**
   * The box is centred on the position up to less than one pixel, and is
   * shifted from it by a whole number of pixels.
   */
  function RenderRules(p: Vector, width: real, height: real): (r: Placement)
    ensures r.width == width && r.height == height
    ensures p.x - width / 2.0 <= r.x < p.x - width / 2.0 + 1.0
    ensures p.y - height / 2.0 <= r.y < p.y - height / 2.0 + 1.0
    ensures (p.x - r.x).Floor as real == p.x - r.x
    ensures (p.y - r.y).Floor as real == p.y - r.y
  {
    Placement(p.x - HalfFloor(width), p.y - HalfFloor(height), width, height)
  }

  /** A box of even whole width and height is centred on the position exactly. */
  lemma {:induction false} EvenBoxCentred(p: Vector, halfWidth: int, halfHeight: int)
    ensures RenderRules(p, 2.0 * halfWidth as real, 2.0 * halfHeight as real).x == p.x - halfWidth as real
    ensures RenderRules(p, 2.0 * halfWidth as real, 2.0 * halfHeight as real).y == p.y - halfHeight as real
  {
    assert HalfFloor(2.0 * halfWidth as real) == halfWidth as real by {
      assert (2.0 * halfWidth as real) / 2.0 == halfWidth as real;
    }
    assert HalfFloor(2.0 * halfHeight as real) == halfHeight as real by {
      assert (2.0 * halfHeight as real) / 2.0 == halfHeight as real;
    }
  }

  /** JavaScript's `option || fallback` on a number: an absent or zero option falls back. */
  function OrElse(option: Option<real>, fallback: real): (r: real)
    ensures r == fallback || (option.Some? && r == option.value && r != 0.0)
    ensures option.Some? && option.value != 0.0 ==> r == option.value
    ensures option.None? || option.value == 0.0 ==> r == fallback
  {
    if option.Some? && option.value != 0.0 then option.value else fallback
  }

  /** JavaScript's `option || undefined`: a zero option becomes absent. */
  function Truthy(option: Option<real>): (r: Option<real>)
    ensures r.Some? ==> r == option && r.value != 0.0
    ensures option.Some? && option.value != 0.0 ==> r == option
  {
    if option.Some? && option.value != 0.0 then option else None
  }
}
