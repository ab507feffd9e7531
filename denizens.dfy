/**
 * The denizens of the fish tank and the tank they live in. Each denizen is an
 * object whose per-tick and click rules depend on its kind (the JavaScript
 * class it was built from); the tank is the registry that hands out ids,
 * removes killed denizens (at once or after a delay) and answers bounds,
 * proximity and species queries.
 */
module Denizens {
  import opened Vectors
  import opened Results
  import opened BaseRules
  import opened FishRules
  import opened SeedRules
  import opened EffectRules

  /** The class a denizen was constructed from. */
  datatype Kind = Plain | Fish | SwitchFish | GoFish | BiteFish | Starter | Seed | Effect
  {
    /** Built by Fish's constructor, which picks a first swim velocity. */
    predicate Swims() { Fish? || SwitchFish? || GoFish? || BiteFish? }

    /** Built by GoFish's constructor: has a surge. */
    predicate Surges() { GoFish? || BiteFish? }

    /** `isTasty`: true from Fish's constructor, reset by BiteFish's, undefined elsewhere. */
    predicate IsTasty() { Fish? || SwitchFish? || GoFish? }

    /** Still has the base class's throwing `updateOneTick`. */
    predicate TickThrows() { Plain? || Starter? }

    /** Still has the base class's throwing `onClick`. */
    predicate ClickThrows() { Plain? || Fish? || Effect? }
  }

  /** What `getRandomSpecies` hands a Seed as its `type`: one of the fish classes. */
  type Species = k: Kind | k.Swims() witness Fish

  /**
   * What one call reads from outside the model: the successive velocity
   * samples `generateSwimVelocity` draws, the countdown `randRangeInt(5)`, the
   * launch speed `randRangeInt(-300, 300)`, the seed lifetime
   * `randRangeInt(3, 6)`, the index `getRandomSpecies` picks, and `new Date()`.
   */
  datatype Env = Env(samples: seq<Vector>, seconds: int, launch: int, ttl: int, pick: nat, clock: int)
  {
    /** The ranges of the draws (both ends admitted, since inclusiveness is not known). */
    predicate InRange()
    {
      samples != [] && 0 <= seconds <= 5 && -300 <= launch <= 300 && 3 <= ttl <= 6
    }
  }

  /** A constructor's `options` object, with `None` for an absent property. */
  datatype Options = Options(
    position: Vector,
    width: Option<real>,
    height: Option<real>,
    velocity: Option<Vector>,
    species: Species,
    ttl: Option<real>,
    linger: Option<real>,
    leave: Option<real>)

  /** `{tank, position}`: the options Seed.spawn passes to the new denizen. */
  function AtPosition(position: Vector): Options
  {
    Options(position, None, None, None, Fish, None, None, None)
  }

  /** A removal the tank has been asked to make after `delay`. */
  datatype Removal = Removal(id: nat, delay: real)

  /** The tank's registry: live denizens by id, the next id, the delayed removals. */
  datatype Registry = Registry(live: map<nat, Denizen>, nextId: nat, pending: set<Removal>)

  /** `removeDenizen(id, delay)`: with no delay the id leaves the live set, otherwise the removal is scheduled. */
  function Removed(r: Registry, id: nat, delay: Option<real>): (r': Registry)
    ensures r'.nextId == r.nextId
    ensures delay.None? ==> id !in r'.live && r'.pending == r.pending
    ensures delay.None? ==> forall k | k in r.live && k != id :: k in r'.live && r'.live[k] == r.live[k]
    ensures delay.None? ==> r'.live.Keys == r.live.Keys - {id}
    ensures delay.Some? ==> r'.live == r.live && r'.pending == r.pending + {Removal(id, delay.value)}
  {
    if delay.None? then r.(live := r.live - {id})
    else r.(pending := r.pending + {Removal(id, delay.value)})
  }

  /** The denizens of `s` have pairwise different ids. */
  predicate DistinctIds(s: seq<Denizen>)
  {
    forall i, j | 0 <= i < |s| && 0 <= j < |s| && i != j :: s[i].id != s[j].id
  }

  /** The ids of the denizens in `s`. */
  function Ids(s: seq<Denizen>): set<nat>
  {
    set d | d in s :: d.id
  }

  /** A list of denizens with distinct ids has as many ids as entries. */
  lemma {:induction false} DistinctIdsCount(s: seq<Denizen>)
    requires DistinctIds(s)
    ensures |Ids(s)| == |s|
  {
    if s != [] {
      var rest := s[1..];
      assert DistinctIds(rest) by {
        forall i, j | 0 <= i < |rest| && 0 <= j < |rest| && i != j
          ensures rest[i].id != rest[j].id
        {
          assert rest[i] == s[i + 1] && rest[j] == s[j + 1];
        }
      }
      DistinctIdsCount(rest);
      assert Ids(s) == {s[0].id} + Ids(rest) by {
        assert s == [s[0]] + rest;
      }
      assert s[0].id !in Ids(rest) by {
        forall d | d in rest
          ensures d.id != s[0].id
        {
          var i :| 0 <= i < |rest| && rest[i] == d;
          assert s[i + 1] == d;
        }
      }
    }
  }

  /** `proximates.filter(individual => individual.isTasty)`, order kept. */
  function Tasty(s: seq<Denizen>): (r: seq<Denizen>)
    ensures forall d | d in r :: d in s && d.kind.IsTasty()
    ensures forall d | d in s && d.kind.IsTasty() :: d in r
    ensures |r| <= |s|
    ensures DistinctIds(s) ==> DistinctIds(r)
  {
    if s == [] then []
    else
      var rest := Tasty(s[1..]);
      assert DistinctIds(s) ==> DistinctIds(s[1..]) by {
        if DistinctIds(s) {
          forall i, j | 0 <= i < |s[1..]| && 0 <= j < |s[1..]| && i != j
            ensures s[1..][i].id != s[1..][j].id
          {
            assert s[1..][i] == s[i + 1] && s[1..][j] == s[j + 1];
          }
        }
      }
      if s[0].kind.IsTasty() then
        assert DistinctIds(s) ==> DistinctIds([s[0]] + rest) by {
          if DistinctIds(s) {
            forall d | d in rest
              ensures d.id != s[0].id
            {
              assert d in s[1..];
              var i :| 0 <= i < |s[1..]| && s[1..][i] == d;
              assert s[i + 1] == d;
            }
            forall i, j | 0 <= i < |[s[0]] + rest| && 0 <= j < |[s[0]] + rest| && i != j
              ensures ([s[0]] + rest)[i].id != ([s[0]] + rest)[j].id
            {
              if i > 0 && j > 0 {
                assert ([s[0]] + rest)[i] == rest[i - 1] && ([s[0]] + rest)[j] == rest[j - 1];
              } else if i == 0 {
                assert ([s[0]] + rest)[j] in rest;
              } else {
                assert ([s[0]] + rest)[i] in rest;
              }
            }
          }
        }
        [s[0]] + rest
      else
        rest
  }

  /** The live denizens a BiteFish may eat: those of a tasty kind. */
  ghost function TastyLive(live: map<nat, Denizen>): set<Denizen>
  {
    set k | k in live && live[k].kind.IsTasty() :: live[k]
  }

  /** The ids of the tasty live denizens within `radius` of `p`. */
  ghost function FoodNear(live: map<nat, Denizen>, p: Vector, radius: real): set<nat>
    reads TastyLive(live)`position
  {
    set k | k in live && live[k].kind.IsTasty() && Near(live[k].position, p, radius)
  }

  /** Where every live denizen is. */
  ghost function Positions(live: map<nat, Denizen>): (where: map<nat, Vector>)
    reads live.Values`position
    ensures where.Keys == live.Keys
  {
    map k | k in live :: live[k].position
  }

  /** The ids of the tasty denizens of `live` within `radius` of `p`, with positions taken from `where`. */
  function FoodAt(live: map<nat, Denizen>, where: map<nat, Vector>, p: Vector, radius: real): set<nat>
  {
    set k | k in live && k in where && live[k].kind.IsTasty() && Near(where[k], p, radius)
  }

  /** What the proximity query answers, filtered to the tasty ones, is exactly the tasty denizens nearby. */
  lemma FoodIsTastyNear(tank: Tank, proximates: seq<Denizen>, p: Vector, radius: real)
    requires tank.Valid()
    requires forall d | d in proximates :: d.id in tank.live && tank.live[d.id] == d && Near(d.position, p, radius)
    requires forall k | k in tank.live && Near(tank.live[k].position, p, radius) :: tank.live[k] in proximates
    ensures Ids(Tasty(proximates)) == FoodNear(tank.live, p, radius)
  {
    var food := FoodNear(tank.live, p, radius);
    forall k | k in food
      ensures k in Ids(Tasty(proximates))
    {
      assert tank.live[k] in Tasty(proximates);
    }
  }

  /** A denizen's state and the tank's registry at one point between ticks. */
  datatype Moment = Moment(state: State, registry: Registry, where: map<nat, Vector>)

  /** The self-contained part of a denizen's state that its rules change (all but `lastTime`). */
  datatype State = State(
    position: Vector,
    velocity: Option<Vector>,
    swimVelocity: Vector,
    countdown: real,
    surge: real,
    eaten: int,
    ttl: real,
    linger: real)

  /** The world a denizen lives in: the tank of the JavaScript, as far as denizens use it. */
  class Tank {
    var live: map<nat, Denizen>
    var nextId: nat
    var pending: set<Removal>
    var bounds: Bounds
    const catalog: seq<Species>

    /** Every live denizen sits under its own id, which was handed out by this tank. */
    ghost predicate Valid()
      reads this
    {
      forall k | k in live :: k < nextId && live[k].id == k && live[k].tank == this
    }

    function View(): Registry
      reads this
    {
      Registry(live, nextId, pending)
    }

    constructor (bounds: Bounds, catalog: seq<Species>)
      ensures Valid()
      ensures View() == Registry(map[], 0, {})
      ensures this.bounds == bounds && this.catalog == catalog
    {
      live, nextId, pending := map[], 0, {};
      this.bounds, this.catalog := bounds, catalog;
    }

    /** `registerDenizen(d)`: a fresh id, under which `d` becomes live. */
    method RegisterDenizen(d: Denizen) returns (id: nat)
      requires Valid()
      requires d.tank == this && d.id == nextId
      modifies this`live, this`nextId
      ensures Valid()
      ensures id == old(nextId) && id !in old(live)
      ensures live == old(live)[id := d] && nextId == old(nextId) + 1
    {
      id := nextId;
      live := live[id := d];
      nextId := nextId + 1;
    }

    /** `removeDenizen(id, delay)` */
    method RemoveDenizen(id: nat, delay: Option<real>)
      requires Valid()
      modifies this`live, this`pending
      ensures Valid()
      ensures View() == Removed(old(View()), id, delay)
    {
      if delay.None? {
        live := live - {id};
      } else {
        pending := pending + {Removal(id, delay.value)};
      }
    }

    /** `getProximateDenizens(p, radius)`: every live denizen within `radius` of `p`, each once. */
    method GetProximateDenizens(p: Vector, radius: real) returns (found: seq<Denizen>)
      requires Valid()
      ensures forall d | d in found :: d.tank == this && d.id in live && live[d.id] == d && Near(d.position, p, radius)
      ensures forall k | k in live && Near(live[k].position, p, radius) :: live[k] in found
      ensures DistinctIds(found)
    {
      var left := live.Keys;
      found := [];
      while left != {}
        invariant left <= live.Keys
        invariant forall d | d in found :: d.tank == this && d.id in live && live[d.id] == d && d.id !in left && Near(d.position, p, radius)
        invariant forall k | k in live && k !in left && Near(live[k].position, p, radius) :: live[k] in found
        invariant DistinctIds(found)
        decreases left
      {
        var k :| k in left;
        if Near(live[k].position, p, radius) {
          found := found + [live[k]];
        }
        left := left - {k};
      }
    }
  }

  /** One denizen: the fields of every JavaScript class, used according to `kind`. */
  class Denizen {
    const kind: Kind
    const tank: Tank
    const id: nat
    const width: real
    const height: real
    /** A Seed's `type`: what it plants. */
    const species: Species
    /** An Effect's `leave`: the removal delay it asks for. */
    const leave: Option<real>
    const maxSwimSpeed: real := MaxSwimSpeed
    const maxSurge: real := MaxSurge
    const surgeMult: real := SurgeMult
    const waterFriction: real := WaterFriction

    var lastTime: int
    var position: Vector
    var velocity: Option<Vector>
    var swimVelocity: Vector
    var timeUntilSpeedChange: real
    var surgeSecondsLeft: real
    var eaten: int
    var ttl: real
    var linger: real

    ghost predicate Valid()
      reads this, tank
    {
      && tank.Valid() && id < tank.nextId && surgeSecondsLeft >= 0.0
    }

    /** While this denizen is live, it is the one the tank holds under its id. */
    ghost predicate Registered()
      reads tank
    {
      id in tank.live ==> tank.live[id] == this
    }

    function Snapshot(): State
      reads this
    {
      State(position, velocity, swimVelocity, timeUntilSpeedChange, surgeSecondsLeft, eaten, ttl, linger)
    }

    function Swimming(): Swimmer
      reads this
    {
      Swimmer(position, swimVelocity, timeUntilSpeedChange)
    }

    function Surging(): Surger
      reads this
    {
      Surger(Swimming(), surgeSecondsLeft)
    }

    function Falling(): Faller
      requires velocity.Some?
      reads this
    {
      Faller(position, velocity.value, ttl)
    }

    /**
     * The constructor of the class `kind`, registering the new denizen with
     * `tank` (which hands out the id `tank.nextId`).
     */
    constructor (kind: Kind, tank: Tank, options: Options, e: Env)
      requires tank.Valid() && e.InRange()
      modifies tank`live, tank`nextId
      ensures Valid() && Registered()
      ensures this.kind == kind && this.tank == tank && id == old(tank.nextId)
      ensures tank.live == old(tank.live)[id := this] && tank.nextId == old(tank.nextId) + 1
      ensures lastTime == e.clock
      ensures height == OrElse(options.height, if kind.Seed? then 30.0 else 60.0)
      ensures width == OrElse(options.width, if kind.Seed? then 30.0 else 60.0)
      ensures position == if kind.Starter? then Vector(options.position.x, options.position.y + height) else options.position
      ensures velocity == options.velocity
      ensures kind.Swims() ==> swimVelocity == e.samples[0] && timeUntilSpeedChange == e.seconds as real
      ensures surgeSecondsLeft == 0.0
      ensures eaten == if kind.BiteFish? then 2 else 0
      ensures species == options.species
      ensures ttl == if kind.Seed? then OrElse(options.ttl, e.ttl as real) else 0.0
      ensures linger == if kind.Effect? then OrElse(options.linger, 0.0) else 0.0
      ensures leave == if kind.Effect? then Truthy(options.leave) else None
    {
      this.kind := kind;
      this.tank := tank;
      id := tank.nextId;
      lastTime := e.clock;
      var size := if kind.Seed? then 30.0 else 60.0;
      height := OrElse(options.height, size);
      width := OrElse(options.width, size);
      position := if kind.Starter? then Vector(options.position.x, options.position.y + OrElse(options.height, size))
                  else options.position;
      velocity := options.velocity;
      var v := Vector(0.0, 0.0);
      if kind.Swims() {
        AnySampleWithoutMinimum(e.samples, EffectiveMin(MaxSwimSpeed, 0.0));
        v := GenerateSwimVelocity(MaxSwimSpeed, 0.0, e.samples);
      }
      swimVelocity := v;
      timeUntilSpeedChange := if kind.Swims() then e.seconds as real else 0.0;
      surgeSecondsLeft := 0.0;
      eaten := if kind.BiteFish? then 2 else 0;
      species := options.species;
      ttl := if kind.Seed? then OrElse(options.ttl, e.ttl as real) else 0.0;
      linger := if kind.Effect? then OrElse(options.linger, 0.0) else 0.0;
      leave := if kind.Effect? then Truthy(options.leave) else None;
      new;
      var registered := tank.RegisterDenizen(this);
    }

    /** `calcPhysicsTicks(now)`: consume the whole ticks elapsed since `lastTime`. */
    method CalcPhysicsTicks(now: int) returns (n: int)
      modifies this`lastTime
      ensures n == Ticks(old(lastTime), now)
      ensures lastTime == Advance(old(lastTime), now)
    {
      n := (now - lastTime) / TickMs;
      lastTime := lastTime + n * TickMs;
    }

    /** `kill(delay)` */
    method Kill(delay: Option<real>)
      requires tank.Valid()
      modifies tank`live, tank`pending
      ensures tank.Valid()
      ensures tank.View() == Removed(old(tank.View()), id, delay)
    {
      tank.RemoveDenizen(id, delay);
    }

    /** `makeNewVelocity(minMag)` */
    method MakeNewVelocity(minMag: real, e: Env)
      requires HasAcceptable(e.samples, EffectiveMin(maxSwimSpeed, minMag))
      modifies this`swimVelocity, this`timeUntilSpeedChange
      ensures swimVelocity == SwimVelocity(maxSwimSpeed, minMag, e.samples)
      ensures timeUntilSpeedChange == e.seconds as real
    {
      swimVelocity := GenerateSwimVelocity(maxSwimSpeed, minMag, e.samples);
      timeUntilSpeedChange := e.seconds as real;
    }

    /** Fish.updateOneTick */
    method SwimTick(e: Env)
      requires e.InRange()
      modifies this`position, this`swimVelocity, this`timeUntilSpeedChange
      ensures Swimming() == FishStep(old(Swimming()), maxSwimSpeed, e.samples, e.seconds)
    {
      var delta := Scale(swimVelocity, TickS);
      position := Add(position, delta);
      timeUntilSpeedChange := timeUntilSpeedChange - TickS;
      if timeUntilSpeedChange < 0.0 {
        AnySampleWithoutMinimum(e.samples, EffectiveMin(maxSwimSpeed, 0.0));
        MakeNewVelocity(0.0, e);
      }
    }

    /** GoFish.updateOneTick */
    method SurgeTick(e: Env)
      requires e.InRange()
      modifies this`position, this`swimVelocity, this`timeUntilSpeedChange, this`surgeSecondsLeft
      ensures Surging() == GoFishStep(old(Surging()), maxSwimSpeed, surgeMult, e.samples, e.seconds)
    {
      var delta := Scale(swimVelocity, TickS * (1.0 + surgeSecondsLeft * surgeMult));
      position := Add(position, delta);
      timeUntilSpeedChange := timeUntilSpeedChange - TickS;
      if timeUntilSpeedChange < 0.0 {
        AnySampleWithoutMinimum(e.samples, EffectiveMin(maxSwimSpeed, 0.0));
        MakeNewVelocity(0.0, e);
      }
      surgeSecondsLeft := Max(0.0, surgeSecondsLeft - TickS);
    }

    /**
     * BiteFish.updateOneTick: the GoFish tick, then every tasty denizen within
     * one and a half heights of the new position is eaten and killed at once.
     */
    method BiteTick(e: Env)
      requires Valid() && e.InRange() && kind.BiteFish?
      modifies this`position, this`swimVelocity, this`timeUntilSpeedChange, this`surgeSecondsLeft, this`eaten
      modifies tank`live, tank`pending
      ensures Valid()
      ensures Surging() == GoFishStep(old(Surging()), maxSwimSpeed, surgeMult, e.samples, e.seconds)
      ensures FoodNear(old(tank.live), position, height * 1.5) <= old(tank.live.Keys)
      ensures eaten == old(eaten) + |FoodNear(old(tank.live), position, height * 1.5)|
      ensures tank.live == old(tank.live) - FoodNear(old(tank.live), position, height * 1.5)
      ensures old(tank.live.Keys) - tank.live.Keys == FoodNear(old(tank.live), position, height * 1.5)
      ensures FoodNear(old(tank.live), position, height * 1.5) == FoodAt(old(tank.live), old(Positions(tank.live)), position, height * 1.5)
      ensures tank.pending == old(tank.pending)
      ensures Ticked(old(Snapshot()), old(tank.View()), old(Positions(tank.live)), Snapshot(), tank.View(), Positions(tank.live), e, Pass)
    {
      ghost var before, rb, where := Snapshot(), tank.View(), Positions(tank.live);
      SurgeTick(e);
      assert FoodNear(tank.live, position, height * 1.5) == FoodAt(tank.live, where, position, height * 1.5) by {
        forall k | k in tank.live && tank.live[k].kind.IsTasty()
          ensures tank.live[k].position == where[k]
        {
          assert tank.live[k] != this;
        }
      }
      ghost var food := FoodNear(tank.live, position, height * 1.5);
      Feed();
      assert food == FoodNear(old(tank.live), position, height * 1.5);
      ghost var r := GoFishStep(Surger(Swimmer(before.position, before.swimVelocity, before.countdown), before.surge),
                                maxSwimSpeed, surgeMult, e.samples, e.seconds);
      assert r == Surging();
      assert Snapshot() == before.(position := r.swim.position, swimVelocity := r.swim.swimVelocity,
                                   countdown := r.swim.countdown, surge := r.surge, eaten := before.eaten + |food|);
      assert tank.View() == rb.(live := rb.live - food);
    }

    /**
     * BiteFish's feeding after its move: the tasty denizens the proximity query
     * finds within one and a half heights are counted and killed at once.
     */
    method Feed()
      requires Valid()
      modifies this`eaten, tank`live, tank`pending
      ensures Valid()
      ensures FoodNear(old(tank.live), position, height * 1.5) <= old(tank.live.Keys)
      ensures eaten == old(eaten) + |FoodNear(old(tank.live), position, height * 1.5)|
      ensures tank.live == old(tank.live) - FoodNear(old(tank.live), position, height * 1.5)
      ensures tank.pending == old(tank.pending)
    {
      var proximates := tank.GetProximateDenizens(position, height * 1.5);
      var nearbyFood := Tasty(proximates);
      FoodIsTastyNear(tank, proximates, position, height * 1.5);
      DistinctIdsCount(nearbyFood);
      ghost var food := FoodNear(tank.live, position, height * 1.5);
      Devour(nearbyFood);
      assert food == FoodNear(old(tank.live), position, height * 1.5);
    }

    /** BiteFish's feeding loop over the snapshot `nearbyFood`: count each one and kill it at once. */
    method Devour(nearbyFood: seq<Denizen>)
      requires tank.Valid()
      requires forall d | d in nearbyFood :: d.tank == tank
      modifies this`eaten, tank`live, tank`pending
      ensures tank.Valid()
      ensures eaten == old(eaten) + |nearbyFood|
      ensures tank.live == old(tank.live) - Ids(nearbyFood)
      ensures tank.pending == old(tank.pending)
    {
      var i := 0;
      while i < |nearbyFood|
        invariant 0 <= i <= |nearbyFood|
        invariant eaten == old(eaten) + i
        invariant tank.Valid()
        invariant tank.live == old(tank.live) - Ids(nearbyFood[..i])
        invariant tank.pending == old(tank.pending)
      {
        eaten := eaten + 1;
        nearbyFood[i].Kill(None);
        assert nearbyFood[..i + 1] == nearbyFood[..i] + [nearbyFood[i]];
        assert Ids(nearbyFood[..i + 1]) == Ids(nearbyFood[..i]) + {nearbyFood[i].id};
        i := i + 1;
      }
      assert nearbyFood[..i] == nearbyFood;
    }

    /** Seed.spawn: a new denizen of the seed's species at the seed's position. */
    method Spawn(e: Env) returns (child: Denizen)
      requires Valid() && e.InRange()
      modifies tank`live, tank`nextId
      ensures Valid() && fresh(child)
      ensures child.kind == species && child.tank == tank && child.position == position
      ensures child.id == old(tank.nextId)
      ensures tank.live == old(tank.live)[child.id := child] && tank.nextId == old(tank.nextId) + 1
      ensures child.Valid() && child.Registered()
      ensures child.velocity.None? && child.swimVelocity == e.samples[0] && child.timeUntilSpeedChange == e.seconds as real
      ensures child.width == 60.0 && child.height == 60.0 && child.surgeSecondsLeft == 0.0
      ensures child.eaten == (if species.BiteFish? then 2 else 0) && child.lastTime == e.clock
    {
      child := new Denizen(species, tank, AtPosition(position), e);
    }

    /**
     * The registry after a seed at `id` planted: one new denizen of its species
     * under the next id, and the seed itself gone at once.
     */
    predicate Planted(rb: Registry, ra: Registry): (planted: bool)
      ensures planted ==> id !in ra.live && rb.nextId in ra.live && ra.live[rb.nextId].kind.Swims()
      ensures planted && id in rb.live && rb.nextId !in rb.live ==> |ra.live| == |rb.live|
    {
      && rb.nextId in ra.live
      && ra.live[rb.nextId].kind == species
      && ra == rb.(live := rb.live[rb.nextId := ra.live[rb.nextId]] - {id}, nextId := rb.nextId + 1)
    }

    /** Seed.updateOneTick */
    method SeedTick(e: Env) returns (outcome: Outcome)
      requires Valid() && e.InRange() && kind.Seed?
      modifies this`position, this`velocity, this`ttl, tank`live, tank`nextId, tank`pending
      ensures Valid()
      ensures old(velocity).None? ==> outcome == Fail(TypeError) && Snapshot() == old(Snapshot()) && tank.View() == old(tank.View())
      ensures old(velocity).Some? ==> outcome == Pass && velocity.Some? && Falling() == SeedStep(old(Falling()))
      ensures old(velocity).Some? && !Plants(Falling()) ==> tank.View() == old(tank.View())
      ensures old(velocity).Some? && Plants(Falling()) ==>
        && Planted(old(tank.View()), tank.View())
        && fresh(tank.live[old(tank.nextId)])
        && tank.live[old(tank.nextId)].position == position
    {
      if velocity.None? {
        return Fail(TypeError);
      }
      var v := Scale(velocity.value, 1.0 - waterFriction * TickS);
      v := Vector(v.x, v.y - Gravity * TickS);
      velocity := Some(v);
      var delta := Scale(v, TickS);
      position := Add(position, delta);
      ttl := ttl - TickS;
      if ttl < 0.0 {
        var child := Spawn(e);
        Kill(None);
      }
      outcome := Pass;
    }

    /** `SeedTick`'s effect, restated as the Seed case of `Ticked`. */
    method SeedTicked(e: Env) returns (outcome: Outcome)
      requires Valid() && e.InRange() && kind.Seed?
      modifies this`position, this`velocity, this`ttl, tank`live, tank`nextId, tank`pending
      ensures Valid()
      ensures Ticked(old(Snapshot()), old(tank.View()), old(Positions(tank.live)), Snapshot(), tank.View(), Positions(tank.live), e, outcome)
    {
      outcome := SeedTick(e);
    }

    /** Effect.updateOneTick */
    method EffectTick()
      requires Valid()
      modifies this`linger, tank`live, tank`pending
      ensures Valid()
      ensures linger == LingerStep(old(linger)).linger
      ensures LingerStep(old(linger)).kill ==> tank.View() == Removed(old(tank.View()), id, leave)
      ensures !LingerStep(old(linger)).kill ==> tank.View() == old(tank.View())
    {
      linger := linger - TickS;
      if linger < 0.0 {
        Kill(leave);
      }
    }

    /**
     * The positions of the live denizens across one tick of this denizen: the
     * snapshots cover exactly the live ids, this denizen's entry is its own
     * position, and every other denizen live before and after keeps its place.
     */
    predicate OnlySelfMoves(before: State, rb: Registry, where: map<nat, Vector>,
                            after: State, ra: Registry, whereAfter: map<nat, Vector>)
    {
      && where.Keys == rb.live.Keys && whereAfter.Keys == ra.live.Keys
      && (id in rb.live ==> where[id] == before.position)
      && (id in ra.live ==> whereAfter[id] == after.position)
      && forall k | k in rb.live && k in ra.live && k != id :: whereAfter[k] == where[k]
    }

    /**
     * What one `updateOneTick` does, from the state, registry and positions
     * before it to those after it.
     */
    predicate Ticked(before: State, rb: Registry, where: map<nat, Vector>,
                     after: State, ra: Registry, whereAfter: map<nat, Vector>, e: Env, outcome: Outcome): (ticked: bool)
      requires e.InRange()
      ensures ticked ==> (outcome.Fail? <==> kind.TickThrows() || (kind.Seed? && before.velocity.None?))
      ensures ticked && outcome.Fail? ==> after == before && ra == rb
      ensures ticked ==> rb.nextId <= ra.nextId <= rb.nextId + 1 && ra.live.Keys - rb.live.Keys <= {rb.nextId}
      ensures ticked && (kind.Fish? || kind.SwitchFish? || kind.GoFish?) ==> ra == rb
      ensures ticked && id in ra.live && id != rb.nextId ==> id in rb.live && ra.live[id] == rb.live[id]
    {
      match kind
      case Plain | Starter =>
        outcome == Fail(NotImplemented) && after == before && ra == rb
      case Fish | SwitchFish =>
        var r := FishStep(Swimmer(before.position, before.swimVelocity, before.countdown), maxSwimSpeed, e.samples, e.seconds);
        && outcome == Pass
        && after == before.(position := r.position, swimVelocity := r.swimVelocity, countdown := r.countdown)
        && ra == rb
      case GoFish =>
        var r := GoFishStep(Surger(Swimmer(before.position, before.swimVelocity, before.countdown), before.surge),
                            maxSwimSpeed, surgeMult, e.samples, e.seconds);
        && outcome == Pass
        && after == before.(position := r.swim.position, swimVelocity := r.swim.swimVelocity,
                            countdown := r.swim.countdown, surge := r.surge)
        && ra == rb
      case BiteFish =>
        var r := GoFishStep(Surger(Swimmer(before.position, before.swimVelocity, before.countdown), before.surge),
                            maxSwimSpeed, surgeMult, e.samples, e.seconds);
        var eatenIds := FoodAt(rb.live, where, r.swim.position, height * 1.5);
        && outcome == Pass
        && after == before.(position := r.swim.position, swimVelocity := r.swim.swimVelocity,
                            countdown := r.swim.countdown, surge := r.surge, eaten := before.eaten + |eatenIds|)
        && ra == rb.(live := rb.live - eatenIds)
      case Seed =>
        if before.velocity.None? then
          outcome == Fail(TypeError) && after == before && ra == rb
        else
          var r := SeedStep(Faller(before.position, before.velocity.value, before.ttl));
          && outcome == Pass
          && after == before.(position := r.position, velocity := Some(r.velocity), ttl := r.ttl)
          && if Plants(r) then
               && Planted(rb, ra)
               && ra.live[rb.nextId] !in rb.live.Values
               && rb.nextId in whereAfter && whereAfter[rb.nextId] == r.position
             else
               ra == rb
      case Effect =>
        var r := LingerStep(before.linger);
        && outcome == Pass
        && after == before.(linger := r.linger)
        && ra == (if r.kill then Removed(rb, id, leave) else rb)
    }

    /** `updateOneTick()`, dispatched on the denizen's class: its own tick rule, as `Ticked` states it. */
    method UpdateOneTick(e: Env) returns (outcome: Outcome)
      requires Valid() && Registered() && e.InRange()
      modifies this`position, this`velocity, this`swimVelocity, this`timeUntilSpeedChange, this`surgeSecondsLeft
      modifies this`eaten, this`ttl, this`linger, tank`live, tank`nextId, tank`pending
      ensures Valid() && Registered()
      ensures Ticked(old(Snapshot()), old(tank.View()), old(Positions(tank.live)), Snapshot(), tank.View(), Positions(tank.live), e, outcome)
    {
      match kind
      case Plain | Starter =>
        outcome := Fail(NotImplemented);
      case Fish | SwitchFish =>
        SwimTick(e);
        outcome := Pass;
      case GoFish =>
        SurgeTick(e);
        outcome := Pass;
      case BiteFish =>
        BiteTick(e);
        outcome := Pass;
      case Seed =>
        outcome := SeedTicked(e);
      case Effect =>
        EffectTick();
        outcome := Pass;
    }

    /**
     * One `updateOneTick()` seen from the whole tank: the tick is `Ticked`, and
     * no other denizen live before and after it changes position.
     */
    method UpdateOneTickInTank(e: Env) returns (outcome: Outcome)
      requires Valid() && Registered() && e.InRange()
      modifies this`position, this`velocity, this`swimVelocity, this`timeUntilSpeedChange, this`surgeSecondsLeft
      modifies this`eaten, this`ttl, this`linger, tank`live, tank`nextId, tank`pending
      ensures Valid() && Registered()
      ensures Ticked(old(Snapshot()), old(tank.View()), old(Positions(tank.live)), Snapshot(), tank.View(), Positions(tank.live), e, outcome)
      ensures OnlySelfMoves(old(Snapshot()), old(tank.View()), old(Positions(tank.live)), Snapshot(), tank.View(), Positions(tank.live))
    {
      ghost var rb, where := tank.View(), Positions(tank.live);
      outcome := UpdateOneTick(e);
      assert OnlySelfMoves(old(Snapshot()), rb, where, Snapshot(), tank.View(), Positions(tank.live)) by {
        forall k | k in rb.live && k in tank.live && k != id
          ensures Positions(tank.live)[k] == where[k]
        {
          assert rb.live[k].id == k;
          assert tank.live[k] == rb.live[k];
        }
      }
    }

    /**
     * `update(t)`: a denizen out of bounds is killed at once and takes no tick;
     * otherwise the loop whose condition calls `calcPhysicsTicks(t)` again on
     * every test runs `updateOneTick` once when a tick has elapsed, and not at
     * all otherwise, while all elapsed ticks are consumed. A Starter overrides
     * `update` to do nothing.
     */
    method Update(t: int, e: Env) returns (outcome: Outcome, ticksRun: nat)
      requires Valid() && Registered() && e.InRange()
      modifies this`lastTime, this`position, this`velocity, this`swimVelocity, this`timeUntilSpeedChange
      modifies this`surgeSecondsLeft, this`eaten, this`ttl, this`linger, tank`live, tank`nextId, tank`pending
      ensures Valid() && Registered()
      ensures outcome.Fail? ==> ticksRun == 1
      ensures kind.Starter? ==>
        && ticksRun == 0 && outcome == Pass && lastTime == old(lastTime)
        && Snapshot() == old(Snapshot()) && tank.View() == old(tank.View())
      ensures !kind.Starter? && old(OutOfBounds(position, width, height, tank.bounds)) ==>
        && ticksRun == 0 && outcome == Pass && lastTime == old(lastTime)
        && Snapshot() == old(Snapshot()) && tank.View() == Removed(old(tank.View()), id, None)
      ensures !kind.Starter? && !old(OutOfBounds(position, width, height, tank.bounds)) ==>
        && lastTime == Advance(old(lastTime), t)
        && ticksRun == TicksRunAsWritten(old(lastTime), t)
      ensures ticksRun == 0 && !kind.Starter? && !old(OutOfBounds(position, width, height, tank.bounds)) ==>
        outcome == Pass && Snapshot() == old(Snapshot()) && tank.View() == old(tank.View())
      ensures ticksRun == 1 ==>
        Ticked(old(Snapshot()), old(tank.View()), old(Positions(tank.live)), Snapshot(), tank.View(), Positions(tank.live), e, outcome)
    {
      outcome, ticksRun := Pass, 0;
      if kind.Starter? {
        return;
      }
      if OutOfBounds(position, width, height, tank.bounds) {
        Kill(None);
        return;
      }
      ghost var where := Positions(tank.live);
      var i := 0;
      while true
        invariant Valid() && Registered()
        invariant 0 <= i <= 1 && ticksRun == i && outcome == Pass
        invariant i == 0 ==> lastTime == old(lastTime) && Snapshot() == old(Snapshot()) && tank.View() == old(tank.View())
        invariant i == 0 ==> Positions(tank.live) == where
        invariant i == 1 ==> Ticks(old(lastTime), t) > 0 && lastTime == Advance(old(lastTime), t)
        invariant i == 1 ==> Ticked(old(Snapshot()), old(tank.View()), where, Snapshot(), tank.View(), Positions(tank.live), e, Pass)
        decreases 1 - i
      {
        NothingLeftToConsume(old(lastTime), t);
        var n := CalcPhysicsTicks(t);
        if !(i < n) {
          break;
        }
        outcome := UpdateOneTick(e);
        ticksRun := ticksRun + 1;
        if outcome.Fail? {
          return;
        }
        i := i + 1;
      }
    }

    /**
     * A run of ticks: each pair of consecutive moments in `history` is one
     * `Ticked` step in which only this denizen moves, tick `i` drawing on
     * `es[i]`; every tick passes but the last, whose outcome is `outcome`.
     */
    predicate Chained(history: seq<Moment>, es: seq<Env>, outcome: Outcome)
      requires |history| <= |es| + 1 && forall i | 0 <= i < |es| :: es[i].InRange()
    {
      forall i | 0 <= i < |history| - 1 ::
        && Ticked(history[i].state, history[i].registry, history[i].where,
                  history[i + 1].state, history[i + 1].registry, history[i + 1].where, es[i],
                  if i + 2 == |history| then outcome else Pass)
        && OnlySelfMoves(history[i].state, history[i].registry, history[i].where,
                         history[i + 1].state, history[i + 1].registry, history[i + 1].where)
    }

    /**
     * A run of passing ticks from `history`, followed by one more tick from its
     * last moment `pre` to `next`, is a run ending in that tick's outcome.
     */
    lemma ChainExtends(history: seq<Moment>, pre: Moment, next: Moment, es: seq<Env>, e: Env, outcome: Outcome)
      requires 1 <= |history| <= |es| && forall i | 0 <= i < |es| :: es[i].InRange()
      requires history[|history| - 1] == pre && es[|history| - 1] == e
      ensures Chained(history, es, Pass)
              && Ticked(pre.state, pre.registry, pre.where, next.state, next.registry, next.where, e, outcome)
              && OnlySelfMoves(pre.state, pre.registry, pre.where, next.state, next.registry, next.where)
              ==> Chained(history + [next], es, outcome)
    {
      var extended := history + [next];
      assert extended[|history| - 1] == pre && extended[|history|] == next;
    }

    /**
     * `update(t)` as the fixed-step scheduler intends it: the elapsed ticks are
     * counted once and `updateOneTick` runs once per elapsed tick, stopping at
     * the first throw. Tick `i` draws its random values from `es[i]`. Culling
     * and the Starter's no-op are as in `Update`.
     */
    method UpdateEveryTick(t: int, es: seq<Env>) returns (outcome: Outcome, ticksRun: nat, ghost history: seq<Moment>)
      requires Valid() && Registered() && TicksIntended(lastTime, t) <= |es|
      requires forall i | 0 <= i < |es| :: es[i].InRange()
      modifies this`lastTime, this`position, this`velocity, this`swimVelocity, this`timeUntilSpeedChange
      modifies this`surgeSecondsLeft, this`eaten, this`ttl, this`linger, tank`live, tank`nextId, tank`pending
      ensures Valid() && Registered()
      ensures |history| == ticksRun + 1 && history[0] == Moment(old(Snapshot()), old(tank.View()), old(Positions(tank.live)))
      ensures kind.Starter? ==>
        && ticksRun == 0 && outcome == Pass && lastTime == old(lastTime)
        && Snapshot() == old(Snapshot()) && tank.View() == old(tank.View())
      ensures !kind.Starter? && old(OutOfBounds(position, width, height, tank.bounds)) ==>
        && ticksRun == 0 && outcome == Pass && lastTime == old(lastTime)
        && Snapshot() == old(Snapshot()) && tank.View() == Removed(old(tank.View()), id, None)
      ensures !kind.Starter? && !old(OutOfBounds(position, width, height, tank.bounds)) ==>
        && lastTime == Advance(old(lastTime), t)
        && (outcome.Pass? ==> ticksRun == TicksIntended(old(lastTime), t))
        && (outcome.Fail? ==> 1 <= ticksRun <= TicksIntended(old(lastTime), t))
        && history[ticksRun] == Moment(Snapshot(), tank.View(), Positions(tank.live))
      ensures ticksRun <= |es| && Chained(history, es, outcome)
    {
      outcome, ticksRun := Pass, 0;
      history := [Moment(Snapshot(), tank.View(), Positions(tank.live))];
      if kind.Starter? {
        return;
      }
      if OutOfBounds(position, width, height, tank.bounds) {
        Kill(None);
        return;
      }
      var n := CalcPhysicsTicks(t);
      while ticksRun < n
        invariant Valid() && Registered()
        invariant ticksRun <= TicksIntended(old(lastTime), t) && outcome == Pass
        invariant n == Ticks(old(lastTime), t) && lastTime == Advance(old(lastTime), t)
        invariant |history| == ticksRun + 1 && history[0] == Moment(old(Snapshot()), old(tank.View()), old(Positions(tank.live)))
        invariant history[ticksRun] == Moment(Snapshot(), tank.View(), Positions(tank.live))
        invariant ticksRun <= |es| && Chained(history, es, Pass)
        decreases n - ticksRun
      {
        ghost var pre := Moment(Snapshot(), tank.View(), Positions(tank.live));
        outcome := UpdateOneTickInTank(es[ticksRun]);
        ghost var next := Moment(Snapshot(), tank.View(), Positions(tank.live));
        ChainExtends(history, pre, next, es, es[ticksRun], outcome);
        history := history + [next];
        ticksRun := ticksRun + 1;
        if outcome.Fail? {
          return;
        }
      }
    }

    /** `onClick()`, dispatched on the denizen's class. */
    method OnClick(e: Env) returns (outcome: Outcome)
      requires Valid() && e.InRange()
      requires kind.SwitchFish? ==> HasAcceptable(e.samples, EffectiveMin(maxSwimSpeed, SwitchMinSpeed))
      requires kind.Starter? ==> e.pick < |tank.catalog|
      modifies this`swimVelocity, this`timeUntilSpeedChange, this`surgeSecondsLeft
      modifies tank`live, tank`nextId, tank`pending
      ensures Valid()
      ensures outcome.Fail? <==> kind.ClickThrows()
      ensures kind.ClickThrows() ==>
        outcome == Fail(NotImplemented) && Snapshot() == old(Snapshot()) && tank.View() == old(tank.View())
      ensures kind.SwitchFish? ==>
        && swimVelocity == SwimVelocity(maxSwimSpeed, SwitchMinSpeed, e.samples)
        && MagnitudeSquared(swimVelocity) >= SwitchMinSpeed * SwitchMinSpeed
        && Snapshot() == old(Snapshot()).(swimVelocity := swimVelocity, countdown := e.seconds as real)
        && tank.View() == old(tank.View())
      ensures kind.Surges() ==>
        Snapshot() == old(Snapshot()).(surge := maxSurge) && tank.View() == old(tank.View())
      ensures kind.Starter? ==>
        && Snapshot() == old(Snapshot())
        && old(tank.nextId) in tank.live
        && tank.live == old(tank.live)[old(tank.nextId) := tank.live[old(tank.nextId)]]
        && tank.nextId == old(tank.nextId) + 1 && tank.pending == old(tank.pending)
        && fresh(tank.live[old(tank.nextId)])
        && tank.live[old(tank.nextId)].kind == Seed
        && tank.live[old(tank.nextId)].position == position
        && tank.live[old(tank.nextId)].velocity == Some(StarterLaunch(e.launch))
        && tank.live[old(tank.nextId)].species == tank.catalog[e.pick]
        && tank.live[old(tank.nextId)].ttl == e.ttl as real
      ensures kind.Seed? ==>
        && Snapshot() == old(Snapshot())
        && Planted(old(tank.View()), tank.View())
        && fresh(tank.live[old(tank.nextId)])
        && tank.live[old(tank.nextId)].position == position
    {
      match kind
      case Plain | Fish | Effect =>
        outcome := Fail(NotImplemented);
      case SwitchFish =>
        MakeNewVelocity(SwitchMinSpeed, e);
        SwitchClickIsFast(e.samples);
        outcome := Pass;
      case GoFish | BiteFish =>
        surgeSecondsLeft := maxSurge;
        outcome := Pass;
      case Starter =>
        var xVel := e.launch;
        var yVel := 400.0 - Abs(xVel as real);
        var seed := new Denizen(Seed, tank,
          Options(position, None, None, Some(Vector(xVel as real, yVel)), tank.catalog[e.pick], None, None, None), e);
        outcome := Pass;
      case Seed =>
        var child := Spawn(e);
        Kill(None);
        outcome := Pass;
    }
  }

  /** `new BiteFish(options)`: a GoFish that starts having eaten 2 and is not itself food. */
  method NewBiteFish(tank: Tank, options: Options, e: Env) returns (fish: Denizen)
    requires tank.Valid() && e.InRange()
    modifies tank`live, tank`nextId
    ensures fresh(fish) && fish.Valid() && fish.kind == BiteFish
    ensures fish.eaten == 2 && !fish.kind.IsTasty() && fish.surgeSecondsLeft == 0.0
    ensures forall s: seq<Denizen> :: fish !in Tasty(s)
    ensures tank.live == old(tank.live)[fish.id := fish] && fish.id == old(tank.nextId)
  {
    fish := new Denizen(BiteFish, tank, options, e);
  }

  /** `new Effect(options)`: `linger` defaults to 0 and `leave` to undefined. */
  method NewEffect(tank: Tank, options: Options, e: Env) returns (effect: Denizen)
    requires tank.Valid() && e.InRange()
    modifies tank`live, tank`nextId
    ensures fresh(effect) && effect.Valid() && effect.kind == Effect
    ensures effect.linger == OrElse(options.linger, 0.0)
    ensures options.linger.None? ==> LingerStep(effect.linger).kill
    ensures effect.leave == Truthy(options.leave)
    ensures options.leave.None? ==> effect.leave.None?
    ensures tank.live == old(tank.live)[effect.id := effect] && effect.id == old(tank.nextId)
  {
    effect := new Denizen(Effect, tank, options, e);
  }

  /** Two `update(t)` calls as written, in a row with the same `t`: the second one runs no tick. */
  method UpdateTwiceAsWritten(d: Denizen, t: int, e: Env) returns (first: nat, second: nat)
    requires d.Valid() && d.Registered() && e.InRange()
    modifies d`lastTime, d`position, d`velocity, d`swimVelocity, d`timeUntilSpeedChange
    modifies d`surgeSecondsLeft, d`eaten, d`ttl, d`linger, d.tank`live, d.tank`nextId, d.tank`pending
    ensures first <= 1 && second == 0
  {
    var outcome;
    outcome, first := d.Update(t, e);
    NothingLeftToConsume(old(d.lastTime), t);
    outcome, second := d.Update(t, e);
  }

  /**
   * Two scheduler updates in a row with the same `t`: the first runs at most the
   * elapsed ticks, the second none, since only a leftover below one tick remains.
   */
  method UpdateTwice(d: Denizen, t: int, es: seq<Env>) returns (first: nat, second: nat)
    requires d.Valid() && d.Registered() && TicksIntended(d.lastTime, t) <= |es|
    requires forall i | 0 <= i < |es| :: es[i].InRange()
    modifies d`lastTime, d`position, d`velocity, d`swimVelocity, d`timeUntilSpeedChange
    modifies d`surgeSecondsLeft, d`eaten, d`ttl, d`linger, d.tank`live, d.tank`nextId, d.tank`pending
    ensures first <= TicksIntended(old(d.lastTime), t) && second == 0
  {
    var outcome;
    ghost var history;
    outcome, first, history := d.UpdateEveryTick(t, es);
    NothingLeftToConsume(old(d.lastTime), t);
    outcome, second, history := d.UpdateEveryTick(t, es);
  }
}
