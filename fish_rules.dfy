/**
 * The pure rules of `Fish`, `SwitchFish` and `GoFish`: velocity resampling
 * (`generateSwimVelocity`), the swim step with its speed-change countdown, and
 * GoFish's surge that decays toward zero.
 */
module FishRules {
  import opened Vectors
  import opened BaseRules

  /** `this.maxSwimSpeed` set by Fish's constructor. */
  const MaxSwimSpeed: real := 100.0
  /** GoFish's `maxSurge`: seconds of surge a click grants. */
  const MaxSurge: real := 1.0
  /** GoFish's `surgMult`. */
  const SurgeMult: real := 3.0
  /** The minimum magnitude SwitchFish's click asks for. */
  const SwitchMinSpeed: real := 50.0

  /** generateSwimVelocity's `min` after `if (min && min > max) min = 0`. */
  function EffectiveMin(max: real, min: real): (m: real)
    ensures min > max ==> m == 0.0
    ensures min <= max ==> m == min
  {
    if min != 0.0 && min > max then 0.0 else min
  }

  /** A sample ends the resampling loop, which goes on while `min && magnitude < min`. */
  predicate Acceptable(v: Vector, min: real): (ok: bool)
    ensures min <= 0.0 ==> ok
    ensures min > 0.0 ==> (ok <==> MagnitudeSquared(v) >= min * min)
  {
    !(min > 0.0 && MagnitudeSquared(v) < min * min)
  }

  /**
   * The loop test in terms of the magnitude `m` itself: a sample is accepted
   * exactly when `min && m < min` is false, for every value of `min`.
   */
  lemma {:induction false} AcceptableByMagnitude(v: Vector, min: real, m: real)
    requires 0.0 <= m && m * m == MagnitudeSquared(v)
    ensures Acceptable(v, min) <==> !(min != 0.0 && m < min)
  {
    if min > 0.0 {
      SquareMonotone(m, min);
    }
  }

  /** For non-negative reals, squaring keeps strict order both ways. */
  lemma SquareMonotone(a: real, b: real)
    requires 0.0 <= a && 0.0 < b
    ensures a < b <==> a * a < b * b
  {
    if a < b {
      var d := b - a;
      assert b * b == a * a + d * (a + b);
      assert d * (a + b) > 0.0;
    } else {
      var d := a - b;
      assert a * a == b * b + d * (a + b);
      assert d * (a + b) >= 0.0;
    }
  }

  /** The random source eventually yields a sample that passes the loop test. */
  predicate HasAcceptable(samples: seq<Vector>, min: real)
  {
    exists i :: 0 <= i < |samples| && Acceptable(samples[i], min)
  }

  /** With no positive minimum every sample passes, so any non-empty stream will do. */
  lemma {:induction false} AnySampleWithoutMinimum(samples: seq<Vector>, min: real)
    requires samples != [] && min <= 0.0
    ensures HasAcceptable(samples, min)
  {
    assert Acceptable(samples[0], min);
  }

  /** The index of the first sample the loop accepts. */
  function FirstAcceptable(samples: seq<Vector>, min: real): (k: nat)
    requires HasAcceptable(samples, min)
    ensures k < |samples| && Acceptable(samples[k], min)
    ensures forall j :: 0 <= j < k ==> !Acceptable(samples[j], min)
    decreases |samples|
  {
    if Acceptable(samples[0], min) then 0
    else
      var i :| 0 <= i < |samples| && Acceptable(samples[i], min);
      assert 0 <= i - 1 < |samples[1..]| && Acceptable(samples[1..][i - 1], min);
      1 + FirstAcceptable(samples[1..], min)
  }

  /**
   * The velocity generateSwimVelocity(max, min) returns when the random source
   * yields `samples` in order: the first one that passes the loop test.
   */
  function SwimVelocity(max: real, min: real, samples: seq<Vector>): (v: Vector)
    requires HasAcceptable(samples, EffectiveMin(max, min))
    ensures v in samples
    ensures EffectiveMin(max, min) > 0.0 ==> MagnitudeSquared(v) >= min * min
    ensures EffectiveMin(max, min) <= 0.0 ==> v == samples[0]
  {
    samples[FirstAcceptable(samples, EffectiveMin(max, min))]
  }

  /** `generateSwimVelocity(max, min)`, drawing its samples in order from `samples`. */
  method GenerateSwimVelocity(max: real, min: real, samples: seq<Vector>) returns (v: Vector)
    requires HasAcceptable(samples, EffectiveMin(max, min))
    ensures v == SwimVelocity(max, min, samples)
  {
    var m := min;
    if m != 0.0 && m > max {
      m := 0.0;
    }
    var i := 0;
    v := samples[i];
    while !Acceptable(v, m)
      invariant 0 <= i <= FirstAcceptable(samples, m)
      invariant v == samples[i]
      invariant forall j :: 0 <= j < i ==> !Acceptable(samples[j], m)
      decreases FirstAcceptable(samples, m) - i
    {
      i := i + 1;
      v := samples[i];
    }
  }

  /** A SwitchFish click (`makeNewVelocity(50)`) yields a speed of at least 50. */
  lemma {:induction false} SwitchClickIsFast(samples: seq<Vector>)
    requires HasAcceptable(samples, SwitchMinSpeed)
    ensures MagnitudeSquared(SwimVelocity(MaxSwimSpeed, SwitchMinSpeed, samples)) >= SwitchMinSpeed * SwitchMinSpeed
  {
    assert EffectiveMin(MaxSwimSpeed, SwitchMinSpeed) == SwitchMinSpeed;
  }

  /** A minimum above the maximum is dropped: the first sample is returned. */
  lemma {:induction false} MinimumAboveMaximumIgnored(max: real, min: real, samples: seq<Vector>)
    requires min > max && samples != []
    ensures HasAcceptable(samples, EffectiveMin(max, min))
    ensures SwimVelocity(max, min, samples) == samples[0]
  {
    AnySampleWithoutMinimum(samples, EffectiveMin(max, min));
  }

  /** The part of a fish's state its single-tick rule updates. */
  datatype Swimmer = Swimmer(position: Vector, swimVelocity: Vector, countdown: real)

  /**
   * Fish.updateOneTick: move by the velocity held before the tick, run the
   * countdown down by one tick, and on running out pick a new velocity (no
   * minimum, so the first sample) and a countdown of `seconds`.
   */
  function FishStep(s: Swimmer, maxSpeed: real, samples: seq<Vector>, seconds: int): (r: Swimmer)
    requires samples != [] && 0 <= seconds <= 5
    ensures r.position == Add(s.position, Scale(s.swimVelocity, TickS))
    ensures 0.0 <= r.countdown
    ensures s.countdown >= TickS ==> r.swimVelocity == s.swimVelocity && r.countdown == s.countdown - TickS
    ensures s.countdown < TickS ==> r.swimVelocity == samples[0] && r.countdown == seconds as real
  {
    var moved := Add(s.position, Scale(s.swimVelocity, TickS));
    var left := s.countdown - TickS;
    if left < 0.0 then
      AnySampleWithoutMinimum(samples, EffectiveMin(maxSpeed, 0.0));
      Swimmer(moved, SwimVelocity(maxSpeed, 0.0, samples), seconds as real)
    else
      Swimmer(moved, s.swimVelocity, left)
  }

  /** A GoFish's state: a fish plus the seconds of surge it has left. */
  datatype Surger = Surger(swim: Swimmer, surge: real)

  /** `Math.max(a, b)` */
  function Max(a: real, b: real): real
  {
    if a < b then b else a
  }

  /**
   * GoFish.updateOneTick: the swim step with the displacement scaled by
   * `1 + surge * surgeMult`, then the surge decays by one tick, never below 0.
   */
  function GoFishStep(g: Surger, maxSpeed: real, surgeMult: real, samples: seq<Vector>, seconds: int): (r: Surger)
    requires samples != [] && 0 <= seconds <= 5
    ensures r.surge >= 0.0
    ensures g.surge >= 0.0 ==> r.surge <= g.surge
    ensures g.surge > 0.0 ==> r.surge < g.surge
    ensures r.surge == SurgeAfter(g.surge, 1)
    ensures r.swim.swimVelocity == FishStep(g.swim, maxSpeed, samples, seconds).swimVelocity
    ensures r.swim.countdown == FishStep(g.swim, maxSpeed, samples, seconds).countdown
    ensures r.swim.position.x - g.swim.position.x
         == (1.0 + g.surge * surgeMult) * (FishStep(g.swim, maxSpeed, samples, seconds).position.x - g.swim.position.x)
    ensures r.swim.position.y - g.swim.position.y
         == (1.0 + g.surge * surgeMult) * (FishStep(g.swim, maxSpeed, samples, seconds).position.y - g.swim.position.y)
  {
    var moved := Add(g.swim.position, Scale(g.swim.swimVelocity, TickS * (1.0 + g.surge * surgeMult)));
    var left := g.swim.countdown - TickS;
    var swim :=
      if left < 0.0 then
        AnySampleWithoutMinimum(samples, EffectiveMin(maxSpeed, 0.0));
        Swimmer(moved, SwimVelocity(maxSpeed, 0.0, samples), seconds as real)
      else
        Swimmer(moved, g.swim.swimVelocity, left);
    Surger(swim, Max(0.0, g.surge - TickS))
  }

  /** With no surge left a GoFish moves exactly as a plain Fish does. */
  lemma {:induction false} NoSurgeSwimsLikeFish(g: Surger, maxSpeed: real, surgeMult: real, samples: seq<Vector>, seconds: int)
    requires samples != [] && 0 <= seconds <= 5
    requires g.surge == 0.0
    ensures GoFishStep(g, maxSpeed, surgeMult, samples, seconds).swim == FishStep(g.swim, maxSpeed, samples, seconds)
  {
    assert TickS * (1.0 + g.surge * surgeMult) == TickS;
  }

  /** Right after a click (surge 1.0, multiplier 3.0) a GoFish covers four times a plain Fish's distance. */
  lemma {:induction false} ClickedGoFishMovesFourfold(g: Surger, samples: seq<Vector>, seconds: int)
    requires samples != [] && 0 <= seconds <= 5
    requires g.surge == MaxSurge
    ensures var fish := FishStep(g.swim, MaxSwimSpeed, samples, seconds).position;
            var go := GoFishStep(g, MaxSwimSpeed, SurgeMult, samples, seconds).swim.position;
            go.x - g.swim.position.x == 4.0 * (fish.x - g.swim.position.x)
            && go.y - g.swim.position.y == 4.0 * (fish.y - g.swim.position.y)
  {
    assert 1.0 + g.surge * SurgeMult == 4.0;
  }

  /** The surge after `n` ticks of GoFish's decay rule. */
  function SurgeAfter(surge: real, n: nat): real
  {
    if n == 0 then surge else Max(0.0, SurgeAfter(surge, n - 1) - TickS)
  }

  /** The surge decays linearly, one tick size per tick, and then stays at zero. */
  lemma {:induction false} SurgeDecaysLinearly(surge: real, n: nat)
    requires surge >= 0.0
    ensures SurgeAfter(surge, n) == Max(0.0, surge - n as real * TickS)
  {
    if n > 0 {
      SurgeDecaysLinearly(surge, n - 1);
    }
  }

  /** A click's full surge (maxSurge, one second) is spent after 100 ticks. */
  lemma {:induction false} ClickSurgeLastsOneSecond()
    ensures SurgeAfter(MaxSurge, 99) > 0.0
    ensures SurgeAfter(MaxSurge, 100) == 0.0
  {
    SurgeDecaysLinearly(MaxSurge, 99);
    SurgeDecaysLinearly(MaxSurge, 100);
  }
}
