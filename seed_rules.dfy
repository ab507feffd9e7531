/**
 * The pure rules of `Seed` (a falling seed that plants a new denizen when its
 * time to live runs out) and of `Starter`'s launch velocity.
 */
module SeedRules {
  import opened Vectors
  import opened BaseRules

  /** Seed's `waterFriction`: "lose 30% per second". */
  const WaterFriction: real := 0.3
  /** The downward acceleration Seed.updateOneTick applies, per second squared. */
  const Gravity: real := 50.0
  /** The vertical velocity at which friction and gravity cancel: -Gravity / WaterFriction. */
  const TerminalVy: real := -500.0 / 3.0

  /** The part of a seed's state its single-tick rule updates. */
  datatype Faller = Faller(position: Vector, velocity: Vector, ttl: real)

  /**
   * Seed.updateOneTick without the planting: friction scales the velocity,
   * gravity lowers its vertical part, the position moves by the new velocity,
   * and the time to live runs down by one tick.
   */
  function SeedStep(s: Faller): (r: Faller)
    ensures r.ttl == s.ttl - TickS
    ensures r.position == Add(s.position, Scale(r.velocity, TickS))
    ensures r.velocity.y < s.velocity.y <==> s.velocity.y > TerminalVy
    ensures r.velocity.y == s.velocity.y <==> s.velocity.y == TerminalVy
    ensures s.velocity.x > 0.0 ==> 0.0 < r.velocity.x < s.velocity.x
    ensures s.velocity.x < 0.0 ==> s.velocity.x < r.velocity.x < 0.0
    ensures s.velocity.x == 0.0 ==> r.velocity.x == 0.0
  {
    var slowed := Scale(s.velocity, 1.0 - WaterFriction * TickS);
    var velocity := Vector(slowed.x, slowed.y - Gravity * TickS);
    Faller(Add(s.position, Scale(velocity, TickS)), velocity, s.ttl - TickS)
  }

  /** The seed plants itself (spawn, then kill) on the tick that takes its ttl below zero. */
  predicate Plants(after: Faller)
  {
    after.ttl < 0.0
  }

  /** A seed with `ttl = 0.005` plants on its very first tick; one with `ttl = 0.01` does not. */
  lemma ShortTtlPlantsAtOnce(position: Vector, velocity: Vector)
    ensures Plants(SeedStep(Faller(position, velocity, 0.005)))
    ensures !Plants(SeedStep(Faller(position, velocity, 0.01)))
  {
  }

  /** The time to live after `n` ticks of the seed rule. */
  function TtlAfter(s: Faller, n: nat): real
  {
    if n == 0 then s.ttl else SeedStep(Faller(s.position, s.velocity, TtlAfter(s, n - 1))).ttl
  }

  /** The time to live runs down linearly: the seed plants on tick n iff `ttl < n * 0.01`. */
  lemma {:induction false} TtlRunsDownLinearly(s: Faller, n: nat)
    ensures TtlAfter(s, n) == s.ttl - n as real * TickS
    ensures TtlAfter(s, n) < 0.0 <==> s.ttl < n as real * TickS
  {
    if n > 0 {
      TtlRunsDownLinearly(s, n - 1);
    }
  }

  function Abs(x: real): real
  {
    if x < 0.0 then -x else x
  }

  /**
   * Starter.onClick's launch velocity for the sampled horizontal speed `xVel`:
   * horizontal and vertical speed always add up to 400.
   */
  function StarterLaunch(xVel: int): (v: Vector)
    ensures v.x == xVel as real
    ensures Abs(v.x) + v.y == 400.0
    ensures -300 <= xVel <= 300 ==> 100.0 <= v.y <= 400.0
  {
    Vector(xVel as real, 400.0 - Abs(xVel as real))
  }

  /** A launch sampled at 200 flies off at (200, 200). */
  lemma LaunchAt200()
    ensures StarterLaunch(200) == Vector(200.0, 200.0)
  {
  }
}
