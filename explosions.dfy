/** Explosions of blood and bone: how one is spawned from the random
    stream, and how its particles age and are pruned tick by tick. */
module Explosions {
  import opened Oracle
  import opened Entities

  /** An explosion is dropped once its clock passes this many ticks. */
  const MaxTime: int := 32

  /** The most blood and bone particles one explosion can hold. */
  const MaxBlood: nat := 24
  const MaxBones: nat := 5

  // ---------------------------------------------------------------------
  // Spawning. One blood particle takes 7 values of the stream and one bone
  // particle 8, read at indices d, d + 1, ... in the order the particle's
  // fields are drawn; each loop test takes one more.

  /** A blood particle of an explosion at (x, y), from the 7 values at d. */
  function BloodParticle(x: real, y: real, env: Env, d: nat): (p: Particle)
    ensures p.Blood? && p.maxLife == 24.0
    ensures 16.0 <= p.life < 36.0 && 2.5 <= p.size < 5.2
    ensures p.color in BloodColors
    ensures Abs(p.x - x) <= 4.0 && Abs(p.y - y) <= 3.5
  {
    var v := Launch(env, env.random(d), 2.0 + env.random(d + 1) * 3.0);
    Blood(x + (env.random(d + 2) - 0.5) * 8.0,
          y + (env.random(d + 3) - 0.5) * 7.0,
          v.0, v.1,
          2.5 + env.random(d + 4) * 2.7,
          BloodColors[Pick(env.random(d + 5), 4)],
          16.0 + env.random(d + 6) * 20.0,
          24.0)
  }

  /** A bone particle of an explosion at (x, y), from the 8 values at d. */
  function BoneParticle(x: real, y: real, env: Env, d: nat): (p: Particle)
    ensures p.Bone? && p.maxLife == 22.0
    ensures 20.0 <= p.life < 34.0 && 2.2 <= p.size < 3.5
    ensures 10.0 <= p.length < 18.0 && 0.0 <= p.angle < 1.0
    ensures Abs(p.x - x) <= 5.0 && Abs(p.y - y) <= 4.0
  {
    var v := Launch(env, env.random(d), 2.0 + env.random(d + 1) * 2.5);
    Bone(x + (env.random(d + 2) - 0.5) * 10.0,
         y + (env.random(d + 3) - 0.5) * 8.0,
         v.0, v.1,
         2.2 + env.random(d + 4) * 1.3,
         10.0 + env.random(d + 5) * 8.0,
         env.random(d + 6),
         20.0 + env.random(d + 7) * 14.0,
         22.0)
  }

  /** The number of passes the blood loop `i < 18 + floor(random() * 7)`
      makes when it is at pass i and reads the stream from d: the bound is
      drawn afresh at every test, the test of pass j is at index d + 8j
      and its particle reads the 7 values after it, so the loop stops at
      the first pass whose fresh bound it has reached. */
  function BloodCount(env: Env, d: nat, i: nat): (n: nat)
    requires i <= MaxBlood
    ensures i <= n <= MaxBlood && (i < 18 ==> 18 <= n)
    decreases MaxBlood - i
  {
    if i < 18 + Pick(env.random(d + 8 * i), 7) then BloodCount(env, d, i + 1) else i
  }

  /** BloodCount unfolded once. */
  lemma BloodCountAt(env: Env, d: nat, i: nat)
    requires i <= MaxBlood
    ensures BloodCount(env, d, i) ==
      if i < 18 + Pick(env.random(d + 8 * i), 7) then BloodCount(env, d, i + 1) else i
  {
  }

  /** The bone loop `i < 3 + floor(random() * 3)` likewise: pass j is
      tested at d + 9j and its particle reads the 8 values after it. */
  function BoneCount(env: Env, d: nat, i: nat): (n: nat)
    requires i <= MaxBones
    ensures i <= n <= MaxBones && (i < 3 ==> 3 <= n)
    decreases MaxBones - i
  {
    if i < 3 + Pick(env.random(d + 9 * i), 3) then BoneCount(env, d, i + 1) else i
  }

  lemma BoneCountAt(env: Env, d: nat, i: nat)
    requires i <= MaxBones
    ensures BoneCount(env, d, i) ==
      if i < 3 + Pick(env.random(d + 9 * i), 3) then BoneCount(env, d, i + 1) else i
  {
  }

  /** The count is the first pass, from i on, whose test fails: every
      earlier test passed and that one did not. */
  lemma {:induction false} BloodCountStops(env: Env, d: nat, i: nat)
    requires i <= MaxBlood
    ensures var n := BloodCount(env, d, i);
      !(n < 18 + Pick(env.random(d + 8 * n), 7)) &&
      forall j :: i <= j < n ==> j < 18 + Pick(env.random(d + 8 * j), 7)
    decreases MaxBlood - i
  {
    if i < 18 + Pick(env.random(d + 8 * i), 7) {
      BloodCountStops(env, d, i + 1);
    }
  }

  lemma {:induction false} BoneCountStops(env: Env, d: nat, i: nat)
    requires i <= MaxBones
    ensures var n := BoneCount(env, d, i);
      !(n < 3 + Pick(env.random(d + 9 * n), 3)) &&
      forall j :: i <= j < n ==> j < 3 + Pick(env.random(d + 9 * j), 3)
    decreases MaxBones - i
  {
    if i < 3 + Pick(env.random(d + 9 * i), 3) {
      BoneCountStops(env, d, i + 1);
    }
  }

  /** The first n blood particles of an explosion at (x, y) spawned from
      index d: the k-th is read just after the k-th test. */
  function BloodOf(x: real, y: real, env: Env, d: nat, n: nat): (ps: seq<Particle>)
    ensures |ps| == n
    ensures forall k :: 0 <= k < n ==> ps[k].Blood? && ps[k].life > 0.0
  {
    seq(n, k requires 0 <= k < n => BloodParticle(x, y, env, d + 8 * k + 1))
  }

  /** The first n bone particles likewise. */
  function BonesOf(x: real, y: real, env: Env, d: nat, n: nat): (ps: seq<Particle>)
    ensures |ps| == n
    ensures forall k :: 0 <= k < n ==> ps[k].Bone? && ps[k].life > 0.0
  {
    seq(n, k requires 0 <= k < n => BoneParticle(x, y, env, d + 9 * k + 1))
  }

  /** One more pass of the blood loop appends one particle. */
  lemma BloodOfSnoc(x: real, y: real, env: Env, d: nat, n: nat)
    ensures BloodOf(x, y, env, d, n + 1) == BloodOf(x, y, env, d, n) + [BloodParticle(x, y, env, d + 8 * n + 1)]
  {
  }

  lemma BonesOfSnoc(x: real, y: real, env: Env, d: nat, n: nat)
    ensures BonesOf(x, y, env, d, n + 1) == BonesOf(x, y, env, d, n) + [BoneParticle(x, y, env, d + 9 * n + 1)]
  {
  }

  /** The stream index after the blood loop: one test per pass plus the
      failing one, 7 values per particle. */
  function AfterBlood(env: Env, d: nat): (e: nat)
    ensures d + 8 * 18 + 1 <= e <= d + 8 * MaxBlood + 1
  {
    d + 8 * BloodCount(env, d, 0) + 1
  }

  function AfterBones(env: Env, d: nat): (e: nat)
    ensures d + 9 * 3 + 1 <= e <= d + 9 * MaxBones + 1
  {
    d + 9 * BoneCount(env, d, 0) + 1
  }

  /** The first `nb` particles are blood and the rest are bone. */
  predicate BloodThenBones(ps: seq<Particle>, nb: nat) {
    nb <= |ps| && forall k :: 0 <= k < |ps| ==> (ps[k].Blood? <==> k < nb)
  }

  lemma BloodThenBonesJoin(a: seq<Particle>, b: seq<Particle>)
    requires forall k :: 0 <= k < |a| ==> a[k].Blood? && a[k].life > 0.0
    requires forall k :: 0 <= k < |b| ==> b[k].Bone? && b[k].life > 0.0
    ensures BloodThenBones(a + b, |a|)
    ensures forall k :: 0 <= k < |a + b| ==> (a + b)[k].life > 0.0
  {
  }

  /** `spawnExplosion(x, y, type)` reading the stream from index d: a new
      explosion at (x, y), its clock at 0, with the blood particles first
      and the bones after them. Returns it and the next stream index. */
  function Spawn(x: real, y: real, kind: EnemyKind, env: Env, d: nat): (r: (Explosion, nat))
    ensures r.0.x == x && r.0.y == y && r.0.kind == kind && r.0.time == 0
    ensures r.1 > d
  {
    var bd := AfterBlood(env, d);
    var blood := BloodOf(x, y, env, d, BloodCount(env, d, 0));
    var bones := BonesOf(x, y, env, bd, BoneCount(env, bd, 0));
    (Explosion(x, y, kind, 0, blood + bones), AfterBones(env, bd))
  }

  /** A spawned explosion holds 18 to 24 blood particles followed by 3 to 5
      bone particles, all alive. */
  lemma SpawnShape(x: real, y: real, kind: EnemyKind, env: Env, d: nat)
    ensures var ps := Spawn(x, y, kind, env, d).0.particles;
      (exists nb :: 18 <= nb <= 24 && 3 <= |ps| - nb <= 5 && BloodThenBones(ps, nb)) &&
      forall k :: 0 <= k < |ps| ==> ps[k].life > 0.0
  {
    var bd := AfterBlood(env, d);
    var blood := BloodOf(x, y, env, d, BloodCount(env, d, 0));
    var bones := BonesOf(x, y, env, bd, BoneCount(env, bd, 0));
    BloodThenBonesJoin(blood, bones);
    var ps := blood + bones;
    assert 18 <= |blood| <= 24 && 3 <= |ps| - |blood| <= 5 && BloodThenBones(ps, |blood|);
  }

  // ---------------------------------------------------------------------
  // Ageing

  /** One tick of a particle: it moves by its velocity, the velocity decays
      (drag on x, lighter drag plus gravity on y) and its life drops by 1. */
  function AgeParticle(p: Particle): (r: Particle)
    ensures r.life == p.life - 1.0 && r.maxLife == p.maxLife
    ensures r.Blood? == p.Blood?
    ensures r.x == p.x + p.vx && r.y == p.y + p.vy
  {
    p.(x := p.x + p.vx, y := p.y + p.vy, vx := p.vx * 0.96, vy := p.vy * 0.98 + 0.12, life := p.life - 1.0)
  }

  /** The `forEach` over the particles. */
  function AgeAll(ps: seq<Particle>): (r: seq<Particle>)
    ensures |r| == |ps| && forall k :: 0 <= k < |ps| ==> r[k] == AgeParticle(ps[k])
  {
    seq(|ps|, k requires 0 <= k < |ps| => AgeParticle(ps[k]))
  }

  /** `particles.filter(p => p.life > 0)`: the live particles, in order. */
  function LiveParticles(ps: seq<Particle>): (r: seq<Particle>)
    ensures |r| <= |ps|
    ensures forall k :: 0 <= k < |r| ==> r[k].life > 0.0
  {
    if ps == [] then []
    else (if ps[0].life > 0.0 then [ps[0]] else []) + LiveParticles(ps[1..])
  }

  /** The filter keeps exactly the live particles: every live one stays and
      nothing else comes in. */
  lemma {:induction false} LiveParticlesExactly(ps: seq<Particle>, p: Particle)
    ensures p in LiveParticles(ps) <==> p in ps && p.life > 0.0
    decreases |ps|
  {
    if ps != [] {
      LiveParticlesExactly(ps[1..], p);
      assert ps == [ps[0]] + ps[1..];
    }
  }

  /** One tick of an explosion: its clock advances and its particles age
      and are pruned. */
  function AgeExplosion(e: Explosion): Explosion {
    e.(time := e.time + 1, particles := LiveParticles(AgeAll(e.particles)))
  }

  /** An explosion is dropped when no particle is left or its clock passed 32. */
  predicate Spent(e: Explosion) {
    |e.particles| == 0 || e.time > MaxTime
  }

  /** The explosions pool after one tick: each explosion aged, the spent
      ones dropped, the order kept. */
  function AgeExplosions(es: seq<Explosion>): seq<Explosion> {
    if es == [] then []
    else
      var e := AgeExplosion(es[0]);
      (if Spent(e) then [] else [e]) + AgeExplosions(es[1..])
  }

  /** The pass never grows the pool, and every explosion left is not spent
      and has its clock at most 32. */
  lemma {:induction false} AgeExplosionsSpentDropped(es: seq<Explosion>)
    ensures |AgeExplosions(es)| <= |es|
    ensures forall k :: 0 <= k < |AgeExplosions(es)| ==>
      !Spent(AgeExplosions(es)[k]) && AgeExplosions(es)[k].time <= MaxTime
    decreases |es|
  {
    if es != [] {
      AgeExplosionsSpentDropped(es[1..]);
    }
  }

  /** AgeExplosions unfolded once at index i of a pool. */
  lemma AgeExplosionsAt(es: seq<Explosion>, i: nat)
    requires i < |es|
    ensures AgeExplosions(es[i..]) ==
      (if Spent(AgeExplosion(es[i])) then [] else [AgeExplosion(es[i])]) + AgeExplosions(es[i + 1..])
  {
    assert es[i..][1..] == es[i + 1..];
  }

  /** An explosion that is not spent after ageing stays in the pool. With
      AgeExplosionsSpentDropped: it is dropped exactly when spent. */
  lemma {:induction false} AgeExplosionsKeeps(es: seq<Explosion>, j: nat)
    requires j < |es| && !Spent(AgeExplosion(es[j]))
    ensures AgeExplosion(es[j]) in AgeExplosions(es)
    decreases j
  {
    if j > 0 {
      AgeExplosionsKeeps(es[1..], j - 1);
    }
  }

  /** What survives a tick is one tick older than what was there. */
  lemma {:induction false} AgeExplosionsOlder(es: seq<Explosion>, t: int)
    requires forall k :: 0 <= k < |es| ==> es[k].time >= t
    ensures forall k :: 0 <= k < |AgeExplosions(es)| ==> AgeExplosions(es)[k].time >= t + 1
    decreases |es|
  {
    if es != [] {
      AgeExplosionsOlder(es[1..], t);
    }
  }

  /** The pool after `n` ticks with nothing spawned in between. */
  function ExplosionsAfter(es: seq<Explosion>, n: nat): seq<Explosion>
    decreases n
  {
    if n == 0 then es else ExplosionsAfter(AgeExplosions(es), n - 1)
  }

  /** After n ticks every explosion still there has lived n more ticks. */
  lemma {:induction false} ExplosionsGrowOld(es: seq<Explosion>, n: nat, t: int)
    requires forall k :: 0 <= k < |es| ==> es[k].time >= t
    ensures forall k :: 0 <= k < |ExplosionsAfter(es, n)| ==> ExplosionsAfter(es, n)[k].time >= t + n
    decreases n
  {
    if n > 0 {
      AgeExplosionsOlder(es, t);
      ExplosionsGrowOld(AgeExplosions(es), n - 1, t + 1);
    }
  }

  /** A pool whose explosions have all reached the time cap empties on the next tick. */
  lemma {:induction false} AgeExplosionsClear(es: seq<Explosion>)
    requires forall k :: 0 <= k < |es| ==> es[k].time >= MaxTime
    ensures AgeExplosions(es) == []
    decreases |es|
  {
    if es != [] {
      AgeExplosionsClear(es[1..]);
    }
  }

  /** No explosion survives more than 33 updates: of explosions spawned
      with their clock at 0, none is left after 33 ticks or more. */
  lemma ExplosionLifetime(es: seq<Explosion>, n: nat)
    requires forall k :: 0 <= k < |es| ==> es[k].time >= 0
    requires n > MaxTime
    ensures ExplosionsAfter(es, n) == []
  {
    ExplosionsGrowOld(es, n - 1, 0);
    var before := ExplosionsAfter(es, n - 1);
    AgeExplosionsClear(before);
    calc {
      ExplosionsAfter(es, n);
      { ExplosionsAfterAdd(es, n - 1, 1); }
      ExplosionsAfter(before, 1);
      ExplosionsAfter(AgeExplosions(before), 0);
    }
  }

  lemma {:induction false} ExplosionsAfterAdd(es: seq<Explosion>, a: nat, b: nat)
    ensures ExplosionsAfter(es, a + b) == ExplosionsAfter(ExplosionsAfter(es, a), b)
    decreases a
  {
    if a > 0 {
      ExplosionsAfterAdd(AgeExplosions(es), a - 1, b);
    }
  }
}
