/** The bullet and enemy pools: what one tick of motion does to each
    entity, which entities are pruned, the enemy spawner's draws and the
    two collision tests. */
module Pools {
  import opened Oracle
  import opened Entities

  const SnowballRadius: real := 7.0
  const SnowballSpeed: real := 8.0
  /** Ticks between two snowballs while fire is held. */
  const FireCooldown: int := 12

  const FudgeCount: nat := 24
  const FudgeRadius: real := 11.0
  const FudgeSpeed: real := 12.0
  const FudgeLife: int := 32
  /** How far outside the arena a fudge ball may fly before it is pruned. */
  const FudgeSlack: real := 30.0
  /** How much larger than an enemy the target of a fudge ball is. */
  const FudgeReach: real := 9.0

  const EnemyW: real := 32.0
  const EnemyH: real := 38.0
  /** How much the player's and an enemy's boxes may overlap unharmed. */
  const ContactSlack: real := 4.0

  // ---------------------------------------------------------------------
  // Firing

  /** The snowball the player fires: just above the player's head. */
  function Fired(p: Player): (b: Bullet)
    ensures b.Snowball? && b.x == p.x && b.y == p.y - PlayerH / 2.0 - 4.0
    ensures b.r == SnowballRadius && b.speed == SnowballSpeed
  {
    Snowball(p.x, p.y - PlayerH / 2.0 - 4.0, SnowballRadius, SnowballSpeed)
  }

  /** The i-th ball of a Fudge of Doom fired at (x, y): angle i/24 of a
      turn, velocity 12 along that angle. */
  function FudgeBullet(x: real, y: real, i: nat, env: Env): Bullet {
    var angle := i as real / FudgeCount as real;
    var v := Launch(env, angle, FudgeSpeed);
    FudgeBall(x, y, FudgeRadius, FudgeSpeed, angle, v.0, v.1, FudgeLife)
  }

  /** The whole burst: 24 fudge balls at (x, y), evenly spaced around the
      circle, each of radius 11, speed 12 and life 32. */
  function FudgeBurst(x: real, y: real, env: Env): (r: seq<Bullet>)
    ensures |r| == FudgeCount
    ensures forall i :: 0 <= i < |r| ==>
      r[i].FudgeBall? && r[i].x == x && r[i].y == y &&
      r[i].r == FudgeRadius && r[i].speed == FudgeSpeed && r[i].life == FudgeLife &&
      r[i].angle == i as real / 24.0 &&
      r[i].vx == env.cos(r[i].angle) * 12.0 && r[i].vy == env.sin(r[i].angle) * 12.0
    ensures forall i, j :: 0 <= i < j < |r| ==> r[i].angle < r[j].angle
  {
    seq(FudgeCount, i requires 0 <= i < FudgeCount => FudgeBullet(x, y, i, env))
  }

  // ---------------------------------------------------------------------
  // Bullets

  /** One tick of motion: a snowball rises by its speed; a fudge ball moves
      by its velocity and loses one tick of life. */
  function Advance(b: Bullet): Bullet {
    match b
    case Snowball(x, y, r, speed) => Snowball(x, y - speed, r, speed)
    case FudgeBall(x, y, r, speed, angle, vx, vy, life) =>
      FudgeBall(x + vx, y + vy, r, speed, angle, vx, vy, life - 1)
  }

  /** When a bullet (already moved) is pruned: a snowball once wholly above
      the top edge; a fudge ball once its life is over or it is more than 30
      outside the arena. */
  predicate OutOfPlay(b: Bullet) {
    match b
    case Snowball(_, y, r, _) => y + r < 0.0
    case FudgeBall(x, y, _, _, _, _, _, life) =>
      life <= 0 || x < -FudgeSlack || x > Width + FudgeSlack || y < -FudgeSlack || y > Height + FudgeSlack
  }

  /** The bullet pool after one tick of motion and pruning, order kept. */
  function StepBullets(bs: seq<Bullet>): (r: seq<Bullet>)
    ensures |r| <= |bs|
    ensures forall k :: 0 <= k < |r| ==> !OutOfPlay(r[k])
  {
    if bs == [] then []
    else (if OutOfPlay(Advance(bs[0])) then [] else [Advance(bs[0])]) + StepBullets(bs[1..])
  }

  /** A bullet is in the pool after the tick exactly when it is the moved
      form of one before the tick and not out of play. */
  lemma {:induction false} StepBulletsExactly(bs: seq<Bullet>, b: Bullet)
    ensures b in StepBullets(bs) <==> (exists j :: 0 <= j < |bs| && b == Advance(bs[j])) && !OutOfPlay(b)
    decreases |bs|
  {
    if bs != [] {
      StepBulletsExactly(bs[1..], b);
      if b == Advance(bs[0]) {
      } else if exists j :: 0 <= j < |bs| && b == Advance(bs[j]) {
        var j :| 0 <= j < |bs| && b == Advance(bs[j]);
        assert b == Advance(bs[1..][j - 1]);
      } else {
        assert forall j :: 0 <= j < |bs[1..]| ==> bs[1..][j] == bs[j + 1];
      }
    }
  }

  /** StepBullets unfolded once at index i of a pool. */
  lemma StepBulletsAt(bs: seq<Bullet>, i: nat)
    requires i < |bs|
    ensures StepBullets(bs[i..]) ==
      (if OutOfPlay(Advance(bs[i])) then [] else [Advance(bs[i])]) + StepBullets(bs[i + 1..])
  {
    assert bs[i..][1..] == bs[i + 1..];
  }

  /** A standard bullet rises by its speed and is dropped exactly when its
      bottom edge has passed the top of the arena. */
  lemma SnowballPruned(bs: seq<Bullet>, j: nat)
    requires j < |bs| && bs[j].Snowball?
    ensures Advance(bs[j]) == bs[j].(y := bs[j].y - bs[j].speed)
    ensures Advance(bs[j]) in StepBullets(bs) <==> bs[j].y - bs[j].speed + bs[j].r >= 0.0
  {
    StepBulletsExactly(bs, Advance(bs[j]));
  }

  /** A fudge ball moves by its velocity, loses one tick of life and is
      dropped exactly when its life is over or it left the arena by more
      than 30. */
  lemma FudgeBallPruned(bs: seq<Bullet>, j: nat)
    requires j < |bs| && bs[j].FudgeBall?
    ensures Advance(bs[j]) == bs[j].(x := bs[j].x + bs[j].vx, y := bs[j].y + bs[j].vy, life := bs[j].life - 1)
    ensures Advance(bs[j]) in StepBullets(bs) <==>
      bs[j].life - 1 > 0 &&
      -30.0 <= bs[j].x + bs[j].vx <= Width + 30.0 && -30.0 <= bs[j].y + bs[j].vy <= Height + 30.0
  {
    StepBulletsExactly(bs, Advance(bs[j]));
  }

  // ---------------------------------------------------------------------
  // Enemies

  /** The enemy the spawner makes from the three values at d: x uniform in
      [30, 450), a random variant, speed in [2, 3.2), just above the top
      edge, one hit point. */
  function NewEnemy(env: Env, d: nat): (e: Enemy)
    ensures 30.0 <= e.x < Width - 30.0 && e.y == -32.0
    ensures 2.0 <= e.speed < 3.2 && e.hp == 1
    ensures e.w == EnemyW && e.h == EnemyH
  {
    var x := 30.0 + env.random(d) * (Width - 60.0);
    var kind := KindAt(Pick(env.random(d + 1), 3));
    Enemy(x, -32.0, EnemyW, EnemyH, 2.0 + env.random(d + 2) * 1.2, 1, kind)
  }

  /** The spawner's next countdown from one random value: in [34, 58). */
  function SpawnDelay(u: real): (t: real)
    requires 0.0 <= u < 1.0
    ensures 34.0 <= t < 58.0
  {
    34.0 + u * 24.0
  }

  /** One tick of enemy motion: down by its speed. */
  function Fall(e: Enemy): Enemy {
    e.(y := e.y + e.speed)
  }

  /** The `forEach` moving every enemy. */
  function FallAll(es: seq<Enemy>): (r: seq<Enemy>)
    ensures |r| == |es| && forall k :: 0 <= k < |es| ==> r[k] == Fall(es[k])
  {
    seq(|es|, k requires 0 <= k < |es| => Fall(es[k]))
  }

  /** An enemy is kept while its top edge (y - h) is above the bottom. */
  predicate OnScreen(e: Enemy) {
    e.y - e.h < Height
  }

  /** `enemies.filter(en => en.y - en.h < height)`, order kept. */
  function KeepOnScreen(es: seq<Enemy>): (r: seq<Enemy>)
    ensures |r| <= |es|
    ensures forall k :: 0 <= k < |r| ==> OnScreen(r[k])
  {
    if es == [] then []
    else (if OnScreen(es[0]) then [es[0]] else []) + KeepOnScreen(es[1..])
  }

  /** The filter drops exactly the enemies past the bottom edge. */
  lemma {:induction false} KeepOnScreenExactly(es: seq<Enemy>, e: Enemy)
    ensures e in KeepOnScreen(es) <==> e in es && OnScreen(e)
    decreases |es|
  {
    if es != [] {
      KeepOnScreenExactly(es[1..], e);
      assert es == [es[0]] + es[1..];
    }
  }

  /** An enemy moves down by its speed and is dropped exactly when
      y - h >= height. */
  lemma EnemyPruned(es: seq<Enemy>, j: nat)
    requires j < |es|
    ensures Fall(es[j]).y == es[j].y + es[j].speed
    ensures Fall(es[j]) in KeepOnScreen(FallAll(es)) <==> es[j].y + es[j].speed - es[j].h < Height
  {
    KeepOnScreenExactly(FallAll(es), Fall(es[j]));
  }

  // ---------------------------------------------------------------------
  // Collision tests

  /** A bullet hits an enemy when its centre is strictly inside the
      enemy's box, which is 9 larger on every side for a fudge ball. */
  predicate Hits(b: Bullet, e: Enemy) {
    var reach := if b.FudgeBall? then FudgeReach else 0.0;
    Abs(b.x - e.x) < e.w / 2.0 + reach && Abs(b.y - e.y) < e.h / 2.0 + reach
  }

  /** The hit test as boxes: the bullet's centre lies strictly inside the
      enemy's w × h box centred on it, widened by 9 on every side for a
      fudge ball. */
  lemma HitsWithin(b: Bullet, e: Enemy)
    ensures b.Snowball? ==>
      (Hits(b, e) <==> e.x - e.w / 2.0 < b.x < e.x + e.w / 2.0 && e.y - e.h / 2.0 < b.y < e.y + e.h / 2.0)
    ensures b.FudgeBall? ==>
      (Hits(b, e) <==> e.x - e.w / 2.0 - 9.0 < b.x < e.x + e.w / 2.0 + 9.0 &&
                       e.y - e.h / 2.0 - 9.0 < b.y < e.y + e.h / 2.0 + 9.0)
  {
  }

  /** The bullet that acts on an enemy: the scan goes from the last bullet
      down and stops at the first hit, so it is the highest-index one. */
  function LastHit(bs: seq<Bullet>, e: Enemy): (r: Option<nat>)
    ensures r.None? ==> forall k :: 0 <= k < |bs| ==> !Hits(bs[k], e)
    ensures r.Some? ==> r.value < |bs| && Hits(bs[r.value], e) &&
                        forall k :: r.value < k < |bs| ==> !Hits(bs[k], e)
    decreases |bs|
  {
    if bs == [] then None
    else if Hits(bs[|bs| - 1], e) then Some(|bs| - 1)
    else LastHit(bs[..|bs| - 1], e)
  }

  /** The scan from the top stops at the first bullet that hits. */
  lemma {:induction false} LastHitIs(bs: seq<Bullet>, e: Enemy, j: nat)
    requires j < |bs| && Hits(bs[j], e)
    requires forall k :: j < k < |bs| ==> !Hits(bs[k], e)
    ensures LastHit(bs, e) == Some(j)
    decreases |bs|
  {
    if j < |bs| - 1 {
      LastHitIs(bs[..|bs| - 1], e, j);
    }
  }

  /** The player touches an enemy when the boxes overlap by more than the
      4-unit slack on both axes. */
  predicate Touches(p: Player, e: Enemy) {
    Abs(p.x - e.x) < PlayerW / 2.0 + e.w / 2.0 - ContactSlack &&
    Abs(p.y - e.y) < PlayerH / 2.0 + e.h / 2.0 - ContactSlack
  }

  /** The contact test as boxes: the player's and the enemy's centres are
      closer than the sum of their half sizes less 4 on both axes, so the
      two boxes overlap by more than 4 each way. */
  lemma TouchesWithin(p: Player, e: Enemy)
    ensures Touches(p, e) <==>
      -(19.0 + e.w / 2.0 - 4.0) < p.x - e.x < 19.0 + e.w / 2.0 - 4.0 &&
      -(19.0 + e.h / 2.0 - 4.0) < p.y - e.y < 19.0 + e.h / 2.0 - 4.0
  {
  }

  /** The enemies the player does not touch, order kept. */
  function Untouched(p: Player, es: seq<Enemy>): (r: seq<Enemy>)
    ensures |r| <= |es|
    ensures forall k :: 0 <= k < |r| ==> !Touches(p, r[k])
  {
    if es == [] then []
    else (if Touches(p, es[0]) then [] else [es[0]]) + Untouched(p, es[1..])
  }
}
