/** The game object itself: the fields it updates in place, its input
    handlers and its per-frame `update()`, each method proved to do to the
    fields what the matching function of module Simulation does to a World. */
module Game {
  import opened Oracle
  import opened Entities
  import opened Abilities
  import opened Pools
  import opened Explosions
  import opened Simulation

  class ShooterGame {
    /** Where random numbers and trigonometry come from. */
    const env: Env

    var state: GameState
    /** `this.player`, its abilities kept apart in `fudge` and `shield`. */
    var player: Player
    /** `this.player.ability.fudgeOfDoom*`. */
    var fudge: Fudge
    /** `this.player.ability.shield*`. */
    var shield: Shield
    var bullets: seq<Bullet>
    var enemies: seq<Enemy>
    var enemyCooldown: real
    var explosions: seq<Explosion>
    /** The key codes currently held down. */
    var keys: set<string>
    var score: int
    /** How many values of `env.random` have been used so far. */
    var draws: nat

    /** The fields seen as one value. */
    function Model(): World
      reads this
    {
      World(state, player, fudge, shield, bullets, enemies, enemyCooldown, explosions, keys, score, draws)
    }

    constructor (env: Env)
      ensures this.env == env
      ensures Model() == Initial()
    {
      this.env := env;
      state := Menu;
      player := Player(Width / 2.0, Height - 60.0, 0);
      fudge := Fudge(true, 0, false, 0);
      shield := Shield(true, false, 0, 0);
      bullets := [];
      enemies := [];
      enemyCooldown := 0.0;
      explosions := [];
      keys := {};
      score := 0;
      draws := 0;
    }

    /** `Math.random()`: the next value of the stream. */
    method Random() returns (u: real)
      modifies this`draws
      ensures u == env.random(old(draws)) && draws == old(draws) + 1
      ensures 0.0 <= u < 1.0
    {
      u := env.random(draws);
      draws := draws + 1;
    }

    method ResetGame()
      modifies this
      ensures Model() == Reset(old(Model()))
    {
      player := player.(x := Width / 2.0, y := Height - 60.0);
      bullets := [];
      enemies := [];
      explosions := [];
      score := 0;
      player := player.(cooldown := 0);
      enemyCooldown := 0.0;
      fudge := fudge.(ready := true, cooldown := 0, active := false, duration := 0);
      shield := shield.(ready := true, active := false, cooldown := 0, timer := 0);
    }

    method HandleKeyDown(code: string)
      modifies this
      ensures Model() == KeyDown(old(Model()), code, env)
    {
      keys := keys + {code};
      if state == Menu && IsStartKey(code) {
        ResetGame();
        state := Playing;
      }
      if state == GameOver && IsStartKey(code) {
        ResetGame();
        state := Playing;
      }
      if state == Playing {
        if IsFudgeKey(code) && fudge.ready && !fudge.active {
          ActivateFudgeOfDoom();
        }
        if IsShieldKey(code) && shield.ready && !shield.active {
          ActivateShield();
        }
      }
    }

    method HandleKeyUp(code: string)
      modifies this
      ensures Model() == KeyUp(old(Model()), code)
    {
      keys := keys - {code};
    }

    method HandleCanvasClick()
      modifies this
      ensures Model() == Click(old(Model()))
    {
      if state == Menu || state == GameOver {
        ResetGame();
        state := Playing;
      }
    }

    /** The fudge ability turns on and 24 fudge balls are pushed, one per
        24th of a turn. */
    method ActivateFudgeOfDoom()
      modifies this
      ensures Model() == FireFudge(old(Model()), env)
    {
      fudge := fudge.(active := true);
      fudge := fudge.(ready := false);
      fudge := fudge.(duration := FudgeMaxDuration);
      var burst := FudgeBurst(player.x, player.y, env);
      for i := 0 to FudgeCount
        invariant bullets == old(bullets) + burst[..i]
        invariant Model() == old(Model()).(fudge := ActivateFudge(old(fudge)), bullets := bullets)
      {
        var angle := i as real / FudgeCount as real;
        var v := Launch(env, angle, FudgeSpeed);
        bullets := bullets + [FudgeBall(player.x, player.y, FudgeRadius, FudgeSpeed, angle, v.0, v.1, FudgeLife)];
        assert burst[..i + 1] == burst[..i] + [burst[i]];
      }
      assert burst[..FudgeCount] == burst;
    }

    method ActivateShield()
      modifies this
      ensures Model() == old(Model()).(shield := Abilities.ActivateShield(old(Model()).shield))
    {
      shield := shield.(active := true);
      shield := shield.(ready := false);
      shield := shield.(timer := ShieldDuration);
    }

    method UpdateAbilities()
      modifies this
      ensures Model() == TickAbilities(old(Model()))
    {
      if fudge.active {
        fudge := fudge.(duration := fudge.duration - 1);
        if fudge.duration <= 0 {
          fudge := fudge.(active := false);
          fudge := fudge.(cooldown := FudgeMaxCooldown);
        }
      }
      if !fudge.ready {
        if fudge.cooldown > 0 {
          fudge := fudge.(cooldown := fudge.cooldown - 1);
        } else {
          fudge := fudge.(ready := true);
        }
      }
      if shield.active {
        shield := shield.(timer := shield.timer - 1);
        if shield.timer <= 0 {
          shield := shield.(active := false);
          shield := shield.(cooldown := ShieldMaxCooldown);
        }
      }
      if !shield.ready && !shield.active {
        if shield.cooldown > 0 {
          shield := shield.(cooldown := shield.cooldown - 1);
        } else {
          shield := shield.(ready := true);
        }
      }
    }

    /** `update()`: one frame of play, block by block. */
    method Update()
      modifies this
      ensures Model() == Tick(old(Model()), env)
    {
      if state != Playing {
        return;
      }
      UpdateAbilities();
      MovePlayer();
      FireSnowball();
      UpdateBullets();
      SpawnEnemy();
      UpdateEnemies();
      CollideBullets();
      CollidePlayer();
      UpdateExplosions();
    }

    method MovePlayer()
      modifies this
      ensures Model() == Steer(old(Model()))
    {
      if "ArrowLeft" in keys || "KeyA" in keys {
        player := player.(x := player.x - PlayerSpeed);
      }
      if "ArrowRight" in keys || "KeyD" in keys {
        player := player.(x := player.x + PlayerSpeed);
      }
      if "ArrowUp" in keys || "KeyW" in keys {
        player := player.(y := player.y - PlayerSpeed);
      }
      if "ArrowDown" in keys || "KeyS" in keys {
        player := player.(y := player.y + PlayerSpeed);
      }
      player := player.(x := Clamp(PlayerW / 2.0, Width - PlayerW / 2.0, player.x));
      player := player.(y := Clamp(PlayerH / 2.0, Height - PlayerH / 2.0, player.y));
    }

    method FireSnowball()
      modifies this
      ensures Model() == Shoot(old(Model()))
    {
      if ("Space" in keys || "KeyZ" in keys) && player.cooldown <= 0 {
        bullets := bullets + [Snowball(player.x, player.y - PlayerH / 2.0 - 4.0, SnowballRadius, SnowballSpeed)];
        player := player.(cooldown := FireCooldown);
      }
      if player.cooldown > 0 {
        player := player.(cooldown := player.cooldown - 1);
      }
    }

    /** Moves every bullet, from the last down, and splices out those that
        left play. */
    method UpdateBullets()
      modifies this
      ensures Model() == MoveBullets(old(Model()))
    {
      bullets := SteppedPool(bullets);
    }

    /** The loop on the pool: from the last bullet down, each moves and
        is spliced out once out of play. */
    static method SteppedPool(bs: seq<Bullet>) returns (xs: seq<Bullet>)
      ensures xs == StepBullets(bs)
    {
      xs := bs;
      var n := |xs|;
      assert bs[n..] == [] && bs[..n] == bs;
      while n > 0
        invariant n <= |bs|
        invariant xs == bs[..n] + StepBullets(bs[n..])
      {
        xs := StepBulletAt(bs, xs, n - 1);
        n := n - 1;
      }
      assert bs[0..] == bs && bs[..0] == [];
    }

    /** One pass of that loop on the pool `xs`, whose bullets above i have
        already moved: bullet i moves and is spliced out if out of play. */
    static method StepBulletAt(ghost bs: seq<Bullet>, xs: seq<Bullet>, i: nat) returns (ys: seq<Bullet>)
      requires i < |bs| && xs == bs[..i + 1] + StepBullets(bs[i + 1..])
      ensures ys == bs[..i] + StepBullets(bs[i..])
    {
      ghost var p := bs[..i];
      ghost var q := StepBullets(bs[i + 1..]);
      assert bs[..i + 1] == p + [bs[i]];
      var b := Advance(xs[i]);
      SpliceAt(p, bs[i], q, b);
      StepBulletsAt(bs, i);
      if OutOfPlay(b) {
        ys := RemoveAt(xs, i);
        assert [] + q == q;
      } else {
        ys := xs[i := b];
        AppendAssoc(p, [b], q);
      }
    }

    /** With the spawner's countdown run out: x, variant and speed are
        drawn in that order, the enemy is pushed, and the next countdown is
        drawn. */
    method SpawnEnemy()
      modifies this
      ensures Model() == SpawnEnemies(old(Model()), env)
    {
      if enemyCooldown <= 0.0 {
        PushEnemy();
        var uc := Random();
        enemyCooldown := 34.0 + uc * 24.0;
      } else {
        enemyCooldown := enemyCooldown - 1.0;
      }
    }

    /** The new enemy: x, variant and speed from the next three values. */
    method PushEnemy()
      modifies this
      ensures Model() == old(Model()).(enemies := old(enemies) + [NewEnemy(env, old(draws))], draws := old(draws) + 3)
    {
      var ux := Random();
      var ex := 30.0 + ux * (Width - 60.0);
      var uk := Random();
      var kind := KindAt(Pick(uk, 3));
      var us := Random();
      enemies := enemies + [Enemy(ex, -32.0, EnemyW, EnemyH, 2.0 + us * 1.2, 1, kind)];
    }

    /** Every enemy falls by its speed; those past the bottom are dropped. */
    method UpdateEnemies()
      modifies this
      ensures Model() == MoveEnemies(old(Model()))
    {
      ghost var es := enemies;
      for k := 0 to |enemies|
        invariant |enemies| == |es|
        invariant forall m :: 0 <= m < k ==> enemies[m] == Fall(es[m])
        invariant forall m :: k <= m < |enemies| ==> enemies[m] == es[m]
        invariant Model() == old(Model()).(enemies := enemies)
      {
        enemies := enemies[k := enemies[k].(y := enemies[k].y + enemies[k].speed)];
      }
      assert enemies == FallAll(es);
      enemies := KeepOnScreen(enemies);
    }

    /** `spawnExplosion(x, y, type)`: the blood loop, the bone loop, then
        the explosion is pushed. */
    method SpawnExplosion(ex: real, ey: real, kind: EnemyKind)
      modifies this
      ensures Model() == WithExplosion(old(Model()), ex, ey, kind, env)
    {
      var blood, d := BloodLoop(ex, ey, draws);
      var bones, d' := BoneLoop(ex, ey, d);
      explosions := explosions + [Explosion(ex, ey, kind, 0, blood + bones)];
      draws := d';
    }

    /** `for (let i = 0; i < 18 + Math.floor(Math.random() * 7); i++)`
        with the stream at index d: the bound is drawn afresh at every
        test. Returns the particles and the next index. */
    method BloodLoop(ex: real, ey: real, d: nat) returns (particles: seq<Particle>, next: nat)
      ensures particles == BloodOf(ex, ey, env, d, BloodCount(env, d, 0))
      ensures next == AfterBlood(env, d)
    {
      particles := [];
      var i := 0;
      var t := d;
      while i < 18 + Pick(env.random(t), 7)
        invariant i <= MaxBlood && t == d + 8 * i
        invariant BloodCount(env, d, i) == BloodCount(env, d, 0)
        invariant particles == BloodOf(ex, ey, env, d, i)
        decreases MaxBlood - i
      {
        BloodCountAt(env, d, i);
        particles := PushBlood(ex, ey, d, i, particles);
        i := i + 1;
        t := t + 8;
      }
      BloodCountAt(env, d, i);
      next := t + 1;
    }

    /** One pass of the blood loop: the particle read just after the test
        of pass i is pushed. */
    method PushBlood(ex: real, ey: real, d: nat, i: nat, ps: seq<Particle>) returns (ps': seq<Particle>)
      requires ps == BloodOf(ex, ey, env, d, i)
      ensures ps' == BloodOf(ex, ey, env, d, i + 1)
    {
      var p, _ := NewBlood(ex, ey, d + 8 * i + 1);
      BloodOfSnoc(ex, ey, env, d, i);
      ps' := ps + [p];
    }

    /** `for (let i = 0; i < 3 + Math.floor(Math.random() * 3); i++)`, likewise. */
    method BoneLoop(ex: real, ey: real, d: nat) returns (particles: seq<Particle>, next: nat)
      ensures particles == BonesOf(ex, ey, env, d, BoneCount(env, d, 0))
      ensures next == AfterBones(env, d)
    {
      particles := [];
      var i := 0;
      var t := d;
      while i < 3 + Pick(env.random(t), 3)
        invariant i <= MaxBones && t == d + 9 * i
        invariant BoneCount(env, d, i) == BoneCount(env, d, 0)
        invariant particles == BonesOf(ex, ey, env, d, i)
        decreases MaxBones - i
      {
        BoneCountAt(env, d, i);
        particles := PushBone(ex, ey, d, i, particles);
        i := i + 1;
        t := t + 9;
      }
      BoneCountAt(env, d, i);
      next := t + 1;
    }

    method PushBone(ex: real, ey: real, d: nat, i: nat, ps: seq<Particle>) returns (ps': seq<Particle>)
      requires ps == BonesOf(ex, ey, env, d, i)
      ensures ps' == BonesOf(ex, ey, env, d, i + 1)
    {
      var p, _ := NewBone(ex, ey, d + 9 * i + 1);
      BonesOfSnoc(ex, ey, env, d, i);
      ps' := ps + [p];
    }

    /** One blood particle from the seven values at stream index d. */
    method NewBlood(ex: real, ey: real, d: nat) returns (p: Particle, next: nat)
      ensures p == BloodParticle(ex, ey, env, d) && next == d + 7
    {
      var angle := env.random(d);
      var speed := 2.0 + env.random(d + 1) * 3.0;
      var v := Launch(env, angle, speed);
      p := Blood(ex + (env.random(d + 2) - 0.5) * 8.0, ey + (env.random(d + 3) - 0.5) * 7.0, v.0, v.1,
                 2.5 + env.random(d + 4) * 2.7, BloodColors[Pick(env.random(d + 5), 4)],
                 16.0 + env.random(d + 6) * 20.0, 24.0);
      next := d + 7;
    }

    /** One bone particle from the eight values at stream index d. */
    method NewBone(ex: real, ey: real, d: nat) returns (p: Particle, next: nat)
      ensures p == BoneParticle(ex, ey, env, d) && next == d + 8
    {
      var angle := env.random(d);
      var speed := 2.0 + env.random(d + 1) * 2.5;
      var v := Launch(env, angle, speed);
      p := Bone(ex + (env.random(d + 2) - 0.5) * 10.0, ey + (env.random(d + 3) - 0.5) * 8.0, v.0, v.1,
                2.2 + env.random(d + 4) * 1.3, 10.0 + env.random(d + 5) * 8.0, env.random(d + 6),
                20.0 + env.random(d + 7) * 14.0, 22.0);
      next := d + 8;
    }

    /** Bullets against enemies: enemies from the last down. */
    method CollideBullets()
      modifies this
      ensures Model() == BulletHits(old(Model()), env)
    {
      ghost var target := BulletHits(Model(), env);
      var n: nat := |enemies|;
      while n > 0
        invariant n <= |enemies|
        invariant BulletHitsFrom(Model(), n, env) == target
      {
        n := BulletPass(n);
      }
    }

    /** One pass of that loop, on the enemy just below n. */
    method BulletPass(n: nat) returns (next: nat)
      requires 0 < n <= |enemies|
      modifies this
      ensures next == n - 1 && Model() == BulletStep(old(Model()), n, env)
    {
      ShootEnemy(n - 1);
      next := n - 1;
    }

    /** The body of that loop for enemy i: the bullets from the last down
        until the first that hits it (the `break`), and what that hit does. */
    method ShootEnemy(i: nat)
      requires i < |enemies|
      modifies this
      ensures Model() == HitEnemyAt(old(Model()), i, env)
    {
      var j := FindHit(enemies[i]);
      if j >= 0 {
        ApplyHit(i, j);
      }
    }

    /** The inner scan: the index of the last bullet that hits `en`, or -1. */
    method FindHit(en: Enemy) returns (j: int)
      ensures j < 0 <==> LastHit(bullets, en).None?
      ensures j >= 0 ==> LastHit(bullets, en) == Some(j as nat)
    {
      j := |bullets| - 1;
      while j >= 0 && !Hits(bullets[j], en)
        invariant -1 <= j < |bullets|
        invariant forall k :: j < k < |bullets| ==> !Hits(bullets[k], en)
      {
        j := j - 1;
      }
      if j >= 0 {
        LastHitIs(bullets, en, j);
      }
    }

    /** Bullet j hitting enemy i. */
    method ApplyHit(i: nat, j: nat)
      requires i < |enemies| && j < |bullets|
      modifies this
      ensures Model() == HitBy(old(Model()), i, j, env)
    {
      var en := enemies[i];
      var b := bullets[j];
      enemies := enemies[i := en.(hp := en.hp - 1)];
      if !b.FudgeBall? {
        bullets := RemoveAt(bullets, j);
      }
      if enemies[i].hp <= 0 {
        KillEnemy(i);
      }
    }

    /** A killed enemy: its explosion, its removal and the score. */
    method KillEnemy(i: nat)
      requires i < |enemies|
      modifies this
      ensures Model() == Kill(old(Model()), i, env)
    {
      var en := enemies[i];
      SpawnExplosion(en.x, en.y, en.kind);
      enemies := RemoveAt(enemies, i);
      score := score + 100;
    }

    /** The player against enemies, first to last; a removed enemy makes
        the loop look at the same index again. */
    method CollidePlayer()
      modifies this
      ensures Model() == PlayerHits(old(Model()), env)
    {
      ghost var target := PlayerHits(Model(), env);
      var i := 0;
      while i < |enemies|
        invariant 0 <= i <= |enemies|
        invariant PlayerHitsFrom(Model(), i, env) == target
        decreases |enemies| - i
      {
        i := PlayerPass(i);
      }
    }

    /** One pass of that loop at index i; returns the index it goes on with. */
    method PlayerPass(i: nat) returns (next: nat)
      requires i < |enemies|
      modifies this
      ensures (Model(), next) == PlayerStep(old(Model()), i, env)
    {
      var en := enemies[i];
      next := i + 1;
      if Touches(player, en) {
        if !shield.active {
          state := GameOver;
        } else {
          SpawnExplosion(en.x, en.y, en.kind);
          enemies := RemoveAt(enemies, i);
          next := i;
        }
      }
    }

    /** Ages each explosion, from the last down, and splices out the spent. */
    method UpdateExplosions()
      modifies this
      ensures Model() == AgeAllExplosions(old(Model()))
    {
      explosions := AgedPool(explosions);
    }

    /** The loop on the pool: from the last explosion down, each ages and
        the spent ones are spliced out. */
    static method AgedPool(es: seq<Explosion>) returns (xs: seq<Explosion>)
      ensures xs == AgeExplosions(es)
    {
      xs := es;
      var n := |xs|;
      assert es[n..] == [] && es[..n] == es;
      while n > 0
        invariant n <= |es|
        invariant xs == es[..n] + AgeExplosions(es[n..])
      {
        xs := AgeExplosionAt(es, xs, n - 1);
        n := n - 1;
      }
      assert es[0..] == es && es[..0] == [];
    }

    /** One pass of that loop on the pool `xs`, whose explosions above i
        are already aged: explosion i ages and is spliced out if spent. */
    static method AgeExplosionAt(ghost es: seq<Explosion>, xs: seq<Explosion>, i: nat) returns (ys: seq<Explosion>)
      requires i < |es| && xs == es[..i + 1] + AgeExplosions(es[i + 1..])
      ensures ys == es[..i] + AgeExplosions(es[i..])
    {
      ghost var p := es[..i];
      ghost var q := AgeExplosions(es[i + 1..]);
      assert es[..i + 1] == p + [es[i]];
      var e := xs[i];
      var aged := AgeParticles(e.particles);
      e := e.(time := e.time + 1, particles := LiveParticles(aged));
      SpliceAt(p, es[i], q, e);
      AgeExplosionsAt(es, i);
      if |e.particles| == 0 || e.time > MaxTime {
        ys := RemoveAt(xs, i);
        assert [] + q == q;
      } else {
        ys := xs[i := e];
        AppendAssoc(p, [e], q);
      }
    }

    /** The `forEach` over an explosion's particles. */
    static method AgeParticles(ps: seq<Particle>) returns (r: seq<Particle>)
      ensures r == AgeAll(ps)
    {
      r := ps;
      for k := 0 to |r|
        invariant |r| == |ps|
        invariant forall m :: 0 <= m < k ==> r[m] == AgeParticle(ps[m])
        invariant forall m :: k <= m < |r| ==> r[m] == ps[m]
      {
        var p := r[k];
        p := p.(x := p.x + p.vx, y := p.y + p.vy);
        p := p.(vx := p.vx * 0.96);
        p := p.(vy := p.vy * 0.98);
        p := p.(vy := p.vy + 0.12);
        p := p.(life := p.life - 1.0);
        r := r[k := p];
      }
    }
  }
}
