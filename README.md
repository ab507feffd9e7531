# Fish-tank denizens, modelled in Dafny

This project models the entity engine of the fish tank: the denizens (fish,
seeds, effects, the seed-launching starter) and how they advance in time.

- **Fixed-step scheduler.** `update(t)` converts elapsed wall-clock time into whole
  10 ms physics ticks. It moves the `lastTime` checkpoint by whole ticks only, so the
  fractional remainder is kept for the next call.
- **Out-of-bounds cull.** A denizen whose centre is more than five box sizes
  outside the tank is killed at once.
- **Per-class tick rules.**
  - Fish: swim, with a speed-change countdown.
  - GoFish: surge decay.
  - BiteFish: eats the tasty denizens nearby.
  - Seed: friction, gravity, and planting when its time to live runs out.
  - Effect: linger countdown.
- **Click rules.** SwitchFish picks a fast new velocity. GoFish surges. Starter launches
  a Seed. Seed plants early. The base class throws "not implemented".
- **Lifecycle against the tank.** Construction registers the denizen and obtains a
  fresh id. `kill(delay)` removes it at once, or schedules the removal when a delay is
  given.

`public/scripts/entities/bite_fish.js` and `public/scripts/entities/effect.js` repeat
the `BiteFish` and `Effect` classes of `public/scripts/denizens.js` line for line.
Each class is modelled once. The table below cites whichever text states the
property most directly.

Layout:

- `vectors.dfy`: the vector helper.
- `results.dfy`: `Option` and the `Outcome` of a call that may throw.
- `base_rules.dfy`: tick accounting, bounds, render placement and JavaScript's
  `x || default`.
- `fish_rules.dfy`: velocity resampling, and the Fish and GoFish steps.
- `seed_rules.dfy`: the Seed step and the Starter launch.
- `effect_rules.dfy`: the Effect countdown.
- `denizens.dfy`: the `Tank` and `Denizen` classes.

How the model is built:

- Each class's own tick rule is a pure function over the fields it changes. The
  `Denizen` method that updates those fields in place is proved equal to that function.
- The JavaScript class hierarchy becomes one `Denizen` class. Its `kind` tags which
  class the object was built from, and its methods dispatch on it.
- Time is whole milliseconds. Positions, velocities and countdowns are reals.
- Random draws (`randRangeInt`, `getRandomSpecies`) and the clock (`new Date()`) arrive
  in an `Env` value passed to each call. The intended scheduler takes one `Env` per tick.

A fixed-step scheduler is meant to run the single-tick rule once per elapsed tick.
This one does not. The loop condition calls `calcPhysicsTicks(t)` again on every test.
The first test consumes all elapsed ticks, and the second finds none. So at most one
tick runs per `update`, however much time has passed.

- `Denizen.Update` models the code as written and proves this.
- `Denizen.UpdateEveryTick` is the scheduler as intended. It returns the ghost history of
  the moments between its ticks, and each step of that history is one `Ticked` step.
- `UpdateTwiceAsWritten` and `UpdateTwice` call the two versions twice in a row.

See "## Findings".

A falling seed's vertical velocity does not decrease on every tick. Under the code's
friction and gravity it decreases only above the terminal velocity -500/3. `SeedStep` proves the exact condition.

## Model

| member | source | states |
|---|---|---|
| `BaseRules.Ticks` | public/scripts/denizens.js:19-21 | the tick count is the floor of elapsed ms over 10: `n*10 <= now-last < (n+1)*10`, also when time goes backwards |
| `BaseRules.Advance` | public/scripts/denizens.js:22-25 | the new checkpoint moves by whole ticks and leaves `0 <= now - checkpoint < 10` ms unconsumed |
| `BaseRules.TicksUnique` | public/scripts/denizens.js:21 | the bracketing inequality determines the tick count |
| `BaseRules.NothingLeftToConsume` | public/scripts/denizens.js:34 | a second `calcPhysicsTicks(t)` right after the first returns 0 |
| `BaseRules.ConsumptionSplits` | public/scripts/denizens.js:19-27 | consuming up to t2 and then up to t3 consumes as many ticks as consuming up to t3 at once |
| `BaseRules.TicksRunAsWritten` | public/scripts/denizens.js:34-36 | the loop as written runs one tick if at least 10 ms elapsed and none otherwise, never more |
| `BaseRules.TicksIntended` | public/scripts/denizens.js:19-21 | the intended number of single-tick updates is the count of whole elapsed ticks, and 0 when less than one tick elapsed |
| `BaseRules.FiftyMillisecondsRunOneTick` | public/scripts/denizens.js:34 | 50 ms elapsed are 5 ticks, of which the loop as written runs 1 |
| `BaseRules.TicksLostAsWritten` | public/scripts/denizens.js:34 | the loop as written never runs more ticks than intended, and runs fewer exactly when 20 ms or more elapsed |
| `BaseRules.OutOfBounds` | public/scripts/denizens.js:66-74 | a box of non-negative size whose centre is inside the tank is never culled; a box of size 0 is culled as soon as its centre passes the right edge |
| `BaseRules.OutOfBoundsOutsideSlackBox` | public/scripts/denizens.js:66-74 | out of bounds iff the centre is outside the tank grown by 5 widths / 5 heights, edges counting as inside |
| `BaseRules.RightEdgeScenario` | public/scripts/denizens.js:69-70 | 5.1 widths past maxX is culled; 4.9 widths and exactly 5 widths are not |
| `BaseRules.RenderRules` | public/scripts/denizens.js:44-54 | the box keeps width and height; its corner is a whole number of pixels from the position, and the box is centred to within one pixel |
| `BaseRules.EvenBoxCentred` | public/scripts/denizens.js:51-52 | a box of even size is centred exactly on the position |
| `BaseRules.OrElse` | public/scripts/denizens.js:8-9 | `option \|\| fallback`: an absent or zero option gives the fallback, any other gives the option |
| `BaseRules.Truthy` | public/scripts/entities/effect.js:7 | `option \|\| undefined`: zero becomes absent, anything else is kept |
| `FishRules.EffectiveMin` | public/scripts/denizens.js:88-90 | a minimum above the maximum is replaced by 0; otherwise it is kept |
| `FishRules.AnySampleWithoutMinimum` | public/scripts/denizens.js:92 | with no positive minimum the first sample already ends the loop |
| `FishRules.Acceptable` | public/scripts/denizens.js:92 | with no positive minimum every sample ends the loop; with a positive one, exactly the samples whose squared magnitude reaches `min` squared |
| `FishRules.AcceptableByMagnitude` | public/scripts/denizens.js:92 | for a sample of magnitude `m`, the loop stops exactly when `min && m < min` is false, for every `min`, zero and negative included |
| `FishRules.FirstAcceptable` | public/scripts/denizens.js:91-94 | the index the resampling loop stops at: it passes the test and every earlier sample fails it |
| `FishRules.SwimVelocity` | public/scripts/denizens.js:87-96 | the generated velocity is one of the samples; with a positive effective minimum its magnitude is at least `min`; otherwise it is the first sample |
| `FishRules.GenerateSwimVelocity` | public/scripts/denizens.js:87-96 | the resampling loop returns exactly the first sample that passes `!(min && magnitude < min)` |
| `FishRules.SwitchClickIsFast` | public/scripts/denizens.js:114-117 | a SwitchFish click yields a swim speed of at least 50 |
| `FishRules.MinimumAboveMaximumIgnored` | public/scripts/denizens.js:88-90 | with `min > max` the first sample is returned |
| `FishRules.FishStep` | public/scripts/denizens.js:98-105 | the fish moves by the pre-tick velocity times 0.01 s; the countdown drops by one tick while it stays non-negative, and otherwise the first sample and a countdown in [0, 5] replace velocity and countdown; the countdown is never negative afterwards |
| `FishRules.GoFishStep` | public/scripts/denizens.js:128-136 | the surge stays non-negative and never increases, and strictly decreases until it reaches 0; velocity and countdown follow the Fish rule; the move from the old position is the Fish rule's move scaled by `1 + surge * surgeMult` |
| `FishRules.NoSurgeSwimsLikeFish` | public/scripts/denizens.js:129 | with no surge left a GoFish tick is exactly a Fish tick |
| `FishRules.SurgeDecaysLinearly` | public/scripts/denizens.js:135 | after n ticks the surge is `max(0, surge - 0.01 n)` |
| `FishRules.ClickedGoFishMovesFourfold` | public/scripts/denizens.js:124-130 | right after a click (surge 1.0, multiplier 3.0) a GoFish moves four times as far as a Fish would with the same velocity |
| `FishRules.ClickSurgeLastsOneSecond` | public/scripts/denizens.js:124 | the surge from a click (maxSurge = 1.0) is still positive after 99 ticks and is spent after 100 |
| `SeedRules.SeedStep` | public/scripts/denizens.js:200-207 | ttl drops by exactly one tick; the position moves by the post-friction, post-gravity velocity; vertical velocity falls iff it is above the terminal -500/3; horizontal speed shrinks toward 0 without changing sign |
| `SeedRules.ShortTtlPlantsAtOnce` | public/scripts/denizens.js:207-211 | a seed with ttl 0.005 plants on its first tick; one with ttl 0.01 does not |
| `SeedRules.TtlRunsDownLinearly` | public/scripts/denizens.js:207-208 | after n ticks ttl is `ttl - 0.01 n`, negative iff `ttl < 0.01 n` |
| `SeedRules.StarterLaunch` | public/scripts/denizens.js:178-179 | horizontal launch speed plus vertical launch speed is 400; a launch in [-300, 300] gives a vertical speed in [100, 400] |
| `SeedRules.LaunchAt200` | public/scripts/denizens.js:178-183 | a launch sampled at 200 gives velocity (200, 200) |
| `EffectRules.LingerStep` | public/scripts/entities/effect.js:10-13 | `linger` drops by exactly 0.01; the kill is requested iff the new linger is negative, i.e. iff the old one was below 0.01 |
| `EffectRules.DefaultLingerKillsAtOnce` | public/scripts/entities/effect.js:6 | with the default linger 0 the first tick requests the kill |
| `EffectRules.LingerRunsDownLinearly` | public/scripts/entities/effect.js:11 | after n ticks linger is `linger - 0.01 n` |
| `EffectRules.KillRequestedOnTick` | public/scripts/entities/effect.js:11-12 | tick n+1 requests the kill iff `linger < 0.01 (n+1)` |
| `EffectRules.KillRequestPersists` | public/scripts/entities/effect.js:12 | once a tick requests the kill, every later tick requests it too |
| `Denizens.Removed` | public/scripts/denizens.js:60-64 | removal without delay drops only that id from the live set; with a delay the live set is unchanged and the removal is scheduled |
| `Denizens.DistinctIdsCount` | public/scripts/entities/bite_fish.js:14-15 | a list with distinct ids has as many ids as entries, so the feeding count equals the number of entities killed |
| `Denizens.Tasty` | public/scripts/entities/bite_fish.js:13 | the filter keeps exactly the tasty entries and keeps ids distinct |
| `Denizens.FoodIsTastyNear` | public/scripts/entities/bite_fish.js:12-13 | the filtered proximity result is exactly the tasty live denizens within the radius |
| `Denizens.Tank.RegisterDenizen` | public/scripts/denizens.js:15 | the id handed out was not live; the denizen becomes live under it; nothing else changes |
| `Denizens.Tank.RemoveDenizen` | public/scripts/denizens.js:63 | the registry changes as `Removed` says and in no other way |
| `Denizens.Tank.GetProximateDenizens` | public/scripts/entities/bite_fish.js:12 | returns every live denizen within the radius, and only those, each once |
| `Denizens.Denizen.constructor` | public/scripts/denizens.js:5-17 | registers under a fresh id, applies the defaults of each class (sizes 60, or 30 for a Seed; Starter raised by its height; first swim velocity and countdown; surge 0; eaten 2; seed ttl from the option or the draw; linger 0; leave undefined) |
| `Denizens.Denizen.CalcPhysicsTicks` | public/scripts/denizens.js:19-27 | returns the elapsed whole ticks and advances `lastTime` by exactly that many ticks |
| `Denizens.Denizen.Kill` | public/scripts/denizens.js:60-64 | asks the tank to remove this id, with the given delay or at once |
| `Denizens.Denizen.MakeNewVelocity` | public/scripts/denizens.js:107-110 | the new velocity is the generated one and the countdown is the drawn seconds |
| `Denizens.Denizen.SwimTick` | public/scripts/denizens.js:98-105 | the in-place update equals `FishStep` on the fish's fields |
| `Denizens.Denizen.SurgeTick` | public/scripts/denizens.js:128-136 | the in-place update equals `GoFishStep` on the fish's fields |
| `Denizens.Denizen.BiteTick` | public/scripts/entities/bite_fish.js:10-20 | first the full GoFish tick, and the position stays there; then exactly the tasty denizens within 1.5 heights of the new position are removed at once, `eaten` grows by their number, and nothing else in the tank changes; the others' positions are those from before the tick; together this is the BiteFish case of `Ticked` |
| `Denizens.Denizen.Feed` | public/scripts/entities/bite_fish.js:12-19 | after the move, the tasty live denizens within 1.5 heights are all removed at once and counted in `eaten`; nothing else is removed and nothing is scheduled |
| `Denizens.Denizen.Devour` | public/scripts/entities/bite_fish.js:14-19 | the loop over the snapshot counts every entry and removes every entry's id, whatever it removed before |
| `Denizens.Denizen.Spawn` | public/scripts/denizens.js:214-220 | one new denizen of the seed's species, at the seed's position, registered under the next id; it is valid and registered, with the defaults of its class: no `velocity`, the first swim sample and the drawn countdown, size 60, no surge, `eaten` 2 for a BiteFish and 0 otherwise, `lastTime` the current clock |
| `Denizens.Denizen.SeedTick` | public/scripts/denizens.js:200-212 | without a velocity it throws and changes nothing; otherwise the fields follow `SeedStep`, and when ttl goes negative exactly one denizen of its species appears at the new position and the seed is removed at once |
| `Denizens.Denizen.SeedTicked` | public/scripts/denizens.js:200-212 | the Seed tick, stated as the Seed case of `Ticked`: a throw without velocity, else the `SeedStep` fields, and on planting a new object of its species at the seed's new position while the seed is removed |
| `Denizens.Denizen.EffectTick` | public/scripts/entities/effect.js:10-13 | linger follows `LingerStep`; the kill with delay `leave` happens iff linger went negative, and otherwise the tank is untouched |
| `Denizens.Denizen.Planted` | public/scripts/denizens.js:209-210 | after planting, the seed is gone and a fish of its species is live under the next id; when the seed was live, the number of live denizens is unchanged |
| `Denizens.Denizen.Ticked` | public/scripts/denizens.js:98-241 | one tick of any class: it throws exactly for the base class, the Starter and a Seed without velocity, and then changes nothing; it hands out at most one new id; Fish, SwitchFish and GoFish leave the tank untouched; a BiteFish removes exactly the tasty denizens within reach of its new position; a planting seed leaves behind a new object (not among the denizens live before the tick), of its species, at the seed's new position; an Effect removes itself with its `leave` delay iff its linger ran out. The Fish, GoFish and Seed rules are at denizens.js:98-105, 128-136 and 200-212; the BiteFish and Effect rules are bite_fish.js:10-20 and effect.js:10-13, repeated at denizens.js:152-163 and 237-241 |
| `Denizens.Denizen.UpdateOneTick` | public/scripts/denizens.js:40-241 | `updateOneTick()` dispatched on the object's class, from the base class at lines 40-42 to each override: base class and Starter throw "not implemented" and change nothing; every other class performs exactly its own tick rule, a BiteFish removing exactly the tasty denizens within reach of its new position, a planting seed adding a new fish of its species at its own new position (stated as `Ticked` on the state, registry and positions before and after) |
| `Denizens.Denizen.UpdateOneTickInTank` | public/scripts/denizens.js:35 | one `updateOneTick()` call inside the scheduler: it is `Ticked`, and every other denizen live both before and after keeps its position (`OnlySelfMoves`) |
| `Denizens.Denizen.Update` | public/scripts/denizens.js:29-38 | as written. Starter: nothing. Out of bounds: killed at once, no tick, `lastTime` unchanged. Otherwise all elapsed ticks are consumed, but the tick rule runs once if any tick elapsed (`TicksRunAsWritten`) and not at all otherwise; a throw comes from that one tick |
| `Denizens.Denizen.UpdateEveryTick` | public/scripts/denizens.js:29-38 | the scheduler as intended: starter no-op and cull as in `Update`; otherwise all elapsed ticks are consumed, and the state goes through one `Ticked` step per tick run, from the old state to the new one; that is every elapsed tick, or up to and including the first tick that throws; tick `i` uses the `i`-th random draws; in every step only the ticking denizen moves, so the positions recorded between ticks are the tank's real positions at that point |
| `Denizens.Denizen.ChainExtends` | public/scripts/denizens.js:34-36 | a run of passing ticks followed by one more tick, in which only the ticking denizen moves, is a run ending in that tick's outcome |
| `Denizens.Denizen.OnClick` | public/scripts/denizens.js:56-58 | base class, Fish and Effect throw and change nothing; SwitchFish gets a velocity of speed >= 50; GoFish and BiteFish surge to 1.0; Starter registers one Seed at its position with velocity `(x, 400 - abs(x))`, a species from the catalog and the drawn ttl; a Seed plants and is removed at once |
| `Denizens.NewBiteFish` | public/scripts/entities/bite_fish.js:3-8 | a new BiteFish has eaten 2, is not tasty, and is never picked as food |
| `Denizens.NewEffect` | public/scripts/entities/effect.js:3-8 | linger defaults to 0, so the first tick kills; leave defaults to undefined |
| `Denizens.UpdateTwiceAsWritten` | public/scripts/denizens.js:29-38 | two `update(t)` calls as written with the same `t`: the first runs at most one tick, the second none |
| `Denizens.UpdateTwice` | public/scripts/denizens.js:19-27 | two scheduler updates with the same `t`: the first runs at most the elapsed ticks, the second runs none |

## Findings

| source | as written | input that shows it | evidently intended | confidence | as-written member | corrected member |
|---|---|---|---|---|---|---|
| public/scripts/denizens.js:34 | `i < this.calcPhysicsTicks(t)` is re-evaluated on every test. The first test consumes every elapsed tick, so the loop runs `updateOneTick` at most once per `update` | `lastTime` = 0, `t` = 50 ms: 5 ticks are consumed and 1 is run (`FiftyMillisecondsRunOneTick`) | count the ticks once, then run `updateOneTick` that many times | high; not executed | `Denizens.Denizen.Update`, `BaseRules.TicksRunAsWritten`, `BaseRules.TicksLostAsWritten` | `Denizens.Denizen.UpdateEveryTick`, `BaseRules.TicksIntended` |

## Left out

- Floating point: time is whole milliseconds, and positions, velocities and countdowns
  are exact reals. The float artefacts of `0.03 / 0.01` and of the `Date` truncation
  are not reproduced.
- `Vector` and `randRangeInt` are not part of this model. Vectors are value pairs, so
  `clone()` is implicit and `addMut` is a reassignment. Random results are inputs in
  `Env`, and their ranges are stated as closed intervals because whether the bounds are
  inclusive is not known.
- FishRules.GenerateSwimVelocity: the samples are not constrained to the ranges of
  `randRangeInt(-max, max)` and `randRangeInt(-max/2, max/2)`.
- FishRules.GenerateSwimVelocity: the model does not show that the resampling loop
  terminates. It takes a finite sample sequence and requires that some sample passes
  the loop test.
- The tank's internals are not shown and are kept abstract.
  - Only registration, removal, bounds, proximity and the species catalog are modelled.
  - A delayed removal is recorded as pending. The timer that later carries it out is
    not modelled.
  - "Within radius" is taken as distance at most the radius.
  - Catalog entries are taken to be the four fish classes.
- `new Event(...)` in the BiteFish loop creates nothing in these files. It is left out,
  and so are image URIs, the `onClick` binding and the unused click event.
- Denizens.Denizen.OnClick: a Starter requires the species draw to index a non-empty
  catalog. What `getRandomSpecies` does on an empty catalog is not shown. A SwitchFish
  requires that some sample reaches speed 50, for the same reason as
  `GenerateSwimVelocity`.
- A Seed always has a `type` in the model. Seeds are only built by a Starter, which
  always passes one.
