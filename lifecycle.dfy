/** The mass lifecycle of one particle in `updatePart` (sketch.js:1255-1350): the reset kill,
    the window kill after the particle has moved, the respawn of an id a spawning flow claims,
    and the grow / decay / cutoff rule that ends the pass. `f32` values are modelled as `real`;
    the velocity and position integration in between is floating-point physics and is not
    modelled: the position the particle moved to is an input. */
module Lifecycle {
  import opened Emitters

  /** The uniforms and baked-in constants the mass rule reads: the reset key (`defaultU.right`),
      the clock and window size (`defaultU`), the time step, particle mass, decay rate and grow
      time (`customU`), and the two constants interpolated into the shader text. */
  datatype Uniforms = Uniforms(
    right: int, time: real, windowW: real, windowH: real,
    dt: real, mass: real, massDecay: real, massGrowTime: real,
    massCutoff: real, massGrowSlope: real)

  /** The part of a particle the lifecycle reads and writes: its mass, spawn time `sTime`, grid
      layer `cellPos.z` and flow `cellPos.w`. */
  datatype Particle = Particle(mass: real, sTime: real, layer: int, flow: int)

  /** WGSL `min`, `max` and `step(edge, x)` (1 when `edge <= x`). */
  function FMin(a: real, b: real): (r: real)
    ensures r <= a && r <= b && (r == a || r == b)
  {
    if a <= b then a else b
  }

  function FMax(a: real, b: real): (r: real)
    ensures r >= a && r >= b && (r == a || r == b)
  {
    if a >= b then a else b
  }

  function Step(edge: real, x: real): (r: real)
    ensures r == 1.0 <==> edge <= x
    ensures r == 0.0 <==> x < edge
  {
    if edge <= x then 1.0 else 0.0
  }

  /** The reset kill (sketch.js:1261): holding the reset key zeroes every mass. */
  function ResetKill(mass: real, u: Uniforms): (r: real)
    ensures u.right == 1 ==> r == 0.0
    ensures u.right != 1 ==> r == mass
  {
    if u.right == 1 then 0.0 else mass
  }

  /** `isOutS == 0` (sketch.js:1294-1297): a coordinate is further from the window's centre than
      half the window. */
  predicate OutOfWindow(x: real, y: real, u: Uniforms) {
    var cx, cy := u.windowW * 0.5, u.windowH * 0.5;
    (if x - cx >= 0.0 then x - cx else cx - x) > cx
    || (if y - cy >= 0.0 then y - cy else cy - y) > cy
  }

  /** For a window of non-negative size the centred test is the plain rectangle test. */
  lemma OutOfWindowIsOutsideRect(x: real, y: real, u: Uniforms)
    requires u.windowW >= 0.0 && u.windowH >= 0.0
    ensures OutOfWindow(x, y, u) <==> !(0.0 <= x <= u.windowW && 0.0 <= y <= u.windowH)
  {
  }

  /** The mass that reaches the flow lookup: the reset kill, then, for a particle still alive,
      the window kill at the position it moved to (sketch.js:1261, 1293-1298). */
  function SurvivingMass(mass: real, u: Uniforms, x: real, y: real): (r: real)
    ensures r == 0.0 || r == mass
    ensures r == 0.0 <==> mass == 0.0 || u.right == 1 || OutOfWindow(x, y, u)
  {
    var m := ResetKill(mass, u);
    if m != 0.0 then m * (if OutOfWindow(x, y, u) then 0.0 else 1.0) else m
  }

  /** `decayMass` (sketch.js:1345). */
  function DecayMass(mass: real, u: Uniforms): real {
    mass * (1.0 - u.massDecay * u.dt)
  }

  /** `growMass` (sketch.js:1346): the particle's target mass scaled by how far into the grow
      window it is, never below the cutoff. The `f32` quotient by a zero grow time is an
      infinity; the model takes the cutoff there, which is what `max` then yields. */
  function GrowMass(sTime: real, u: Uniforms): (r: real)
    ensures r >= u.massCutoff
  {
    if u.massGrowTime == 0.0 then u.massCutoff
    else FMax(u.massCutoff, u.mass * GrowFraction(sTime, u))
  }

  /** How far into the grow window a particle is, at most 1. */
  function GrowFraction(sTime: real, u: Uniforms): (r: real)
    requires u.massGrowTime != 0.0
    ensures r <= 1.0
  {
    FMin(1.0, Rate(u.massGrowSlope, u.time - sTime, u.massGrowTime))
  }

  /** `slope * elapsed / growTime`, the unclamped grow fraction. */
  function Rate(slope: real, elapsed: real, growTime: real): real
    requires growTime != 0.0
  {
    slope * elapsed / growTime
  }

  /** Whether a particle spawned at `sTime` is still growing. */
  predicate Growing(sTime: real, u: Uniforms) {
    u.time - sTime < u.massGrowTime
  }

  /** The mass rule (sketch.js:1347): below the cutoff the mass is zero, otherwise it grows
      inside the grow window and decays after it. */
  function MassUpdate(mass: real, sTime: real, u: Uniforms): (r: real)
  {
    Step(u.massCutoff, mass) * (if Growing(sTime, u) then GrowMass(sTime, u) else DecayMass(mass, u))
  }

  /** A mass below the cutoff, a dead particle's included when the cutoff is positive, ends at
      exactly zero. */
  lemma BelowCutoffDies(mass: real, sTime: real, u: Uniforms)
    requires mass < u.massCutoff
    ensures MassUpdate(mass, sTime, u) == 0.0
  {
  }

  /** Inside the grow window a mass at or above the cutoff stays at or above it. */
  lemma GrowingStaysAlive(mass: real, sTime: real, u: Uniforms)
    requires u.massCutoff <= mass && Growing(sTime, u)
    ensures MassUpdate(mass, sTime, u) >= u.massCutoff
  {
  }

  /** Inside the grow window the mass never exceeds the larger of the cutoff and the particle's
      target mass, whatever it was before. */
  lemma GrowthCapped(mass: real, sTime: real, u: Uniforms)
    requires Growing(sTime, u) && u.mass >= 0.0
    ensures MassUpdate(mass, sTime, u) <= FMax(u.massCutoff, u.mass)
  {
    if u.massGrowTime != 0.0 {
      var f := GrowFraction(sTime, u);
      assert u.mass * f <= u.mass by {
        assert u.mass * (1.0 - f) >= 0.0;
      }
      assert GrowMass(sTime, u) == FMax(u.massCutoff, u.mass * f);
      FMaxMonotone(u.massCutoff, u.mass * f, u.mass);
    }
    assert 0.0 <= FMax(u.massCutoff, u.mass);
  }

  /** `min` with a fixed first argument keeps the order of the second. */
  lemma FMinMonotone(a: real, b: real, c: real)
    requires b <= c
    ensures FMin(a, b) <= FMin(a, c)
  {
  }

  /** `max` with a fixed first argument keeps the order of the second. */
  lemma FMaxMonotone(a: real, b: real, c: real)
    requires b <= c
    ensures FMax(a, b) <= FMax(a, c)
  {
  }

  /** With a positive grow time and a non-negative slope, the grow fraction does not decrease
      as the clock advances from `t1` to `t2`. */
  lemma FractionMonotone(sTime: real, u: Uniforms, t1: real, t2: real)
    requires t1 <= t2 && u.massGrowTime > 0.0 && u.massGrowSlope >= 0.0
    ensures GrowFraction(sTime, u.(time := t1)) <= GrowFraction(sTime, u.(time := t2))
  {
    FractionStep(u.massGrowSlope, u.massGrowTime, t1 - sTime, t2 - sTime);
  }

  /** Later in the grow window the grown mass is no smaller: with a positive grow time and a
      non-negative slope and target mass, `growMass` does not decrease as the clock advances
      from `t1` to `t2`. */
  lemma GrowMonotone(sTime: real, u: Uniforms, t1: real, t2: real)
    requires t1 <= t2 && u.massGrowTime > 0.0 && u.massGrowSlope >= 0.0 && u.mass >= 0.0
    ensures GrowMass(sTime, u.(time := t1)) <= GrowMass(sTime, u.(time := t2))
  {
    FractionMonotone(sTime, u, t1, t2);
    ScaleUp(u.mass, GrowFraction(sTime, u.(time := t1)), GrowFraction(sTime, u.(time := t2)));
    FMaxMonotone(u.massCutoff, u.mass * GrowFraction(sTime, u.(time := t1)), u.mass * GrowFraction(sTime, u.(time := t2)));
  }

  /** `min(1, k * d / g)` does not decrease with `d` for `k >= 0` and `g > 0`. */
  lemma FractionStep(k: real, g: real, d1: real, d2: real)
    requires k >= 0.0 && g > 0.0 && d1 <= d2
    ensures FMin(1.0, Rate(k, d1, g)) <= FMin(1.0, Rate(k, d2, g))
  {
    ScaleUp(k, d1, d2);
    DivMonotone(k * d1, k * d2, g);
    FMinMonotone(1.0, Rate(k, d1, g), Rate(k, d2, g));
  }

  /** Multiplying by a non-negative factor keeps the order. */
  lemma ScaleUp(k: real, a: real, b: real)
    requires k >= 0.0 && a <= b
    ensures k * a <= k * b
  {
    assert k * b - k * a == k * (b - a);
  }

  /** Dividing by a positive number keeps the order. */
  lemma DivMonotone(a: real, b: real, g: real)
    requires g > 0.0 && a <= b
    ensures a / g <= b / g
  {
    assert b / g - a / g == (b - a) / g;
  }

  /** From one frame to a later one inside the grow window, a particle at or above the cutoff
      does not lose mass: the mass rule applied twice gives at least what it gave once. */
  lemma GrowingMassNonDecreasing(mass: real, sTime: real, u: Uniforms, t1: real, t2: real)
    requires t1 <= t2 && Growing(sTime, u.(time := t2))
    requires u.massGrowTime > 0.0 && u.massGrowSlope >= 0.0 && u.mass >= 0.0
    requires u.massCutoff <= mass
    ensures u.massCutoff <= MassUpdate(mass, sTime, u.(time := t1))
    ensures MassUpdate(mass, sTime, u.(time := t1))
            <= MassUpdate(MassUpdate(mass, sTime, u.(time := t1)), sTime, u.(time := t2))
  {
    assert Growing(sTime, u.(time := t1));
    assert MassUpdate(mass, sTime, u.(time := t1)) == GrowMass(sTime, u.(time := t1));
    assert MassUpdate(GrowMass(sTime, u.(time := t1)), sTime, u.(time := t2)) == GrowMass(sTime, u.(time := t2));
    GrowMonotone(sTime, u, t1, t2);
  }

  /** After the grow window a live mass decays by the factor `1 - massDecay * dt`: it never
      grows and never turns negative while that factor lies in `[0, 1]`, and it strictly
      shrinks once the factor is below 1. */
  lemma DecayShrinks(mass: real, sTime: real, u: Uniforms)
    requires 0.0 <= u.massCutoff <= mass && !Growing(sTime, u)
    requires 0.0 <= u.massDecay * u.dt <= 1.0
    ensures 0.0 <= MassUpdate(mass, sTime, u) <= mass
    ensures 0.0 < u.massDecay * u.dt && 0.0 < mass ==> MassUpdate(mass, sTime, u) < mass
  {
    var k := 1.0 - u.massDecay * u.dt;
    assert 0.0 <= mass * k <= mass * 1.0;
    if 0.0 < u.massDecay * u.dt && 0.0 < mass {
      assert mass * k < mass * 1.0;
    }
  }

  /** Whether the lookup's flow respawns the particle: a flow claimed the id and is spawning. */
  predicate Respawns(flows: seq<Flow>, id: nat) {
    var f := FirstClaim(flows, id, 0);
    f >= 0 && flows[f].isSpawning
  }

  /** The lifecycle part of `updatePart` for particle `id`, which moved to `(x, y)` if it was
      alive: reset and window kill, the flow lookup, the respawn (mass `massCutoff`, `sTime` the
      current time, the flow's layer and the flow's index), and the mass rule. */
  method UpdatePart(p: Particle, id: nat, flows: seq<Flow>, u: Uniforms, x: real, y: real) returns (q: Particle)
    ensures Respawns(flows, id) ==>
      q == Particle(MassUpdate(u.massCutoff, u.time, u), u.time,
                    flows[FirstClaim(flows, id, 0)].layer, FirstClaim(flows, id, 0))
    ensures !Respawns(flows, id) ==>
      q == p.(mass := MassUpdate(SurvivingMass(p.mass, u, x, y), p.sTime, u))
    ensures !Respawns(flows, id) && SurvivingMass(p.mass, u, x, y) < u.massCutoff ==> q.mass == 0.0
    ensures !Respawns(flows, id) && 0.0 < u.massCutoff && (p.mass == 0.0 || u.right == 1 || OutOfWindow(x, y, u))
            ==> q.mass == 0.0
    ensures Respawns(flows, id) && u.massGrowTime > 0.0 ==> q.mass >= u.massCutoff
  {
    var mass := p.mass;
    mass := if u.right == 1 then 0.0 else mass;
    if mass != 0.0 {
      var isOutS := if OutOfWindow(x, y, u) then 0.0 else 1.0;
      assert mass * isOutS == if OutOfWindow(x, y, u) then 0.0 else mass;
      mass := mass * isOutS;
    }
    assert mass == SurvivingMass(p.mass, u, x, y);
    var flowId, idu := FindFlow(flows, id);
    q := p.(mass := mass);
    if flowId >= 0 && flows[flowId].isSpawning {
      q := q.(layer := flows[flowId].layer, mass := u.massCutoff, sTime := u.time, flow := flowId);
    }
    var decayMass := DecayMass(q.mass, u);
    var growMass := GrowMass(q.sTime, u);
    var newMass := Step(u.massCutoff, q.mass) * (if u.time - q.sTime < u.massGrowTime then growMass else decayMass);
    assert newMass == MassUpdate(q.mass, q.sTime, u);
    q := q.(mass := newMass);
    if flowId >= 0 && flows[flowId].isSpawning {
      if u.massGrowTime > 0.0 {
        GrowingStaysAlive(u.massCutoff, u.time, u);
      }
    } else if mass < u.massCutoff {
      BelowCutoffDies(mass, p.sTime, u);
    }
  }
}
