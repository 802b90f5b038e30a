/** The whole game state as one value, and what each input event and each
    block of the per-frame `update()` does to it. The class in module Game
    runs these same steps in place; the functions here are what its
    methods are proved against, and the lemmas here are the properties. */
module Simulation {
  import opened Oracle
  import opened Entities
  import opened Abilities
  import opened Pools
  import opened Explosions

  /** Everything the game updates: the top-level state, the player and
      its abilities, the three pools, the spawner's countdown, the keys
      held down, the score, and how many random values have been used. */
  datatype World = World(
    state: GameState,
    player: Player,
    fudge: Fudge,
    shield: Shield,
    bullets: seq<Bullet>,
    enemies: seq<Enemy>,
    enemyCooldown: real,
    explosions: seq<Explosion>,
    keys: set<string>,
    score: int,
    draws: nat)

  /** Where the player starts: centred, 60 above the bottom edge. */
  const StartX: real := Width / 2.0
  const StartY: real := Height - 60.0

  /** The state right after a game starts (or restarts). */
  predicate FreshRound(w: World) {
    w.player == Player(StartX, StartY, 0) &&
    w.fudge == FudgeAtStart && w.shield == ShieldAtStart &&
    w.bullets == [] && w.enemies == [] && w.explosions == [] &&
    w.enemyCooldown == 0.0 && w.score == 0
  }

  /** The state the constructor builds: the menu. */
  function Initial(): (w: World)
    ensures w.state == Menu && FreshRound(w) && w.keys == {} && w.draws == 0
  {
    World(Menu, Player(StartX, StartY, 0), FudgeAtStart, ShieldAtStart, [], [], 0.0, [], {}, 0, 0)
  }

  /** The player box lies inside the arena. */
  predicate InArena(p: Player) {
    PlayerW / 2.0 <= p.x <= Width - PlayerW / 2.0 && PlayerH / 2.0 <= p.y <= Height - PlayerH / 2.0
  }

  /** Every enemy still has its one hit point. */
  predicate AllUnhurt(es: seq<Enemy>) {
    forall k :: 0 <= k < |es| ==> es[k].hp == 1
  }

  // ---------------------------------------------------------------------
  // Input events

  predicate IsStartKey(code: string) { code == "Enter" || code == "Space" }
  predicate IsFudgeKey(code: string) { code == "KeyX" || code == "KeyF" }
  predicate IsShieldKey(code: string) { code == "KeyC" || code == "KeyS" }

  /** `resetGame()`: a fresh round; the state, the keys held and the
      random stream are left alone. */
  function Reset(w: World): (r: World)
    ensures FreshRound(r)
    ensures r.state == w.state && r.keys == w.keys && r.draws == w.draws
  {
    w.(player := Player(StartX, StartY, 0), bullets := [], enemies := [], explosions := [],
       score := 0, enemyCooldown := 0.0, fudge := FudgeAtStart, shield := ShieldAtStart)
  }

  /** `activateFudgeOfDoom()`: the ability turns on and the 24-ball burst
      is appended at the player's position. */
  function FireFudge(w: World, env: Env): World
  {
    w.(fudge := ActivateFudge(w.fudge), bullets := w.bullets + FudgeBurst(w.player.x, w.player.y, env))
  }

  /** `handleKeyDown(e)` for the key code `code`. */
  function KeyDown(w: World, code: string, env: Env): (r: World)
    ensures r.keys == w.keys + {code} && r.draws == w.draws
    // start and restart
    ensures w.state != Playing && IsStartKey(code) ==> r.state == Playing && FreshRound(r)
    ensures w.state != Playing && !IsStartKey(code) ==> r == w.(keys := w.keys + {code})
    // while playing, only the gated activations change anything
    ensures w.state == Playing ==>
      r.state == Playing && r.player == w.player && r.enemies == w.enemies &&
      r.explosions == w.explosions && r.score == w.score && r.enemyCooldown == w.enemyCooldown
    ensures w.state == Playing ==>
      if IsFudgeKey(code) && CanActivateFudge(w.fudge)
      then r.fudge == ActivateFudge(w.fudge) && r.bullets == w.bullets + FudgeBurst(w.player.x, w.player.y, env)
      else r.fudge == w.fudge && r.bullets == w.bullets
    ensures w.state == Playing ==>
      r.shield == if IsShieldKey(code) && CanActivateShield(w.shield) then ActivateShield(w.shield) else w.shield
  {
    var w1 := w.(keys := w.keys + {code});
    assert w1.state.Menu? || w1.state.Playing? || w1.state.GameOver?;
    var w2 := if w1.state == Menu && IsStartKey(code) then Reset(w1.(state := Playing)) else w1;
    var w3 := if w2.state == GameOver && IsStartKey(code) then Reset(w2.(state := Playing)) else w2;
    var w4 := if w3.state == Playing && IsFudgeKey(code) && CanActivateFudge(w3.fudge)
              then FireFudge(w3, env) else w3;
    if w4.state == Playing && IsShieldKey(code) && CanActivateShield(w4.shield)
    then w4.(shield := ActivateShield(w4.shield)) else w4
  }

  /** `handleKeyUp(e)`. */
  function KeyUp(w: World, code: string): (r: World)
    ensures code !in r.keys
    ensures forall c :: c != code ==> (c in r.keys <==> c in w.keys)
    ensures r == w.(keys := r.keys)
  {
    w.(keys := w.keys - {code})
  }

  /** `handleCanvasClick()`: starts or restarts outside play, else nothing. */
  function Click(w: World): (r: World)
    ensures w.state != Playing ==> r.state == Playing
    ensures w.state != Playing ==> FreshRound(r)
    ensures w.state != Playing ==> r.keys == w.keys
    ensures w.state != Playing ==> r.draws == w.draws
    ensures w.state == Playing ==> r == w
  {
    if w.state != Playing then Reset(w.(state := Playing)) else w
  }

  /** "KeyS" is both a movement key and a shield key: pressed while
      playing with the shield available, it turns the shield on and, held,
      makes the next tick move the player down. */
  lemma ShieldKeyAlsoMovesDown(w: World, env: Env)
    requires w.state == Playing && CanActivateShield(w.shield)
    requires !Held(w, "ArrowUp", "KeyW")
    ensures KeyDown(w, "KeyS", env).shield.active
    ensures var r := TickAbilities(KeyDown(w, "KeyS", env));
            Steer(r).player.y == Clamp(PlayerH / 2.0, Height - PlayerH / 2.0, w.player.y + PlayerSpeed)
  {
  }

  /** The shield is never both ready and active: a fresh game starts
      without it, and neither a key press, a click nor a tick creates it. */
  lemma ShieldNeverReadyAndActive(w: World, code: string, env: Env)
    ensures !(Initial().shield.ready && Initial().shield.active)
    ensures !(w.shield.ready && w.shield.active) ==>
      var k := KeyDown(w, code, env).shield; !(k.ready && k.active)
    ensures !(w.shield.ready && w.shield.active) ==>
      var u := KeyUp(w, code).shield; !(u.ready && u.active)
    ensures !(w.shield.ready && w.shield.active) ==>
      var c := Click(w).shield; !(c.ready && c.active)
    ensures !(w.shield.ready && w.shield.active) ==>
      var t := Tick(w, env).shield; !(t.ready && t.active)
  {
  }

  /** Every enemy in play has its one hit point: a fresh game has none,
      and no key press, key release, click or tick breaks it, so the
      premise of EveryHitKills holds in every state a game reaches. */
  lemma EnemiesAlwaysUnhurt(w: World, code: string, env: Env)
    ensures AllUnhurt(Initial().enemies)
    ensures AllUnhurt(w.enemies) ==> AllUnhurt(KeyDown(w, code, env).enemies)
    ensures AllUnhurt(w.enemies) ==> AllUnhurt(KeyUp(w, code).enemies)
    ensures AllUnhurt(w.enemies) ==> AllUnhurt(Click(w).enemies)
    ensures AllUnhurt(w.enemies) ==> AllUnhurt(Tick(w, env).enemies)
  {
  }

  /** Every fudge a game reaches is settled: a fresh game starts settled,
      and no key press, key release, click or tick unsettles it. With
      FudgeStaysSettled, every activation starts from cooldown 0 or 300. */
  lemma FudgeAlwaysSettled(w: World, code: string, env: Env)
    ensures FudgeSettled(Initial().fudge)
    ensures FudgeSettled(w.fudge) ==> FudgeSettled(KeyDown(w, code, env).fudge)
    ensures FudgeSettled(w.fudge) ==> FudgeSettled(KeyUp(w, code).fudge)
    ensures FudgeSettled(w.fudge) ==> FudgeSettled(Click(w).fudge)
    ensures FudgeSettled(w.fudge) ==> FudgeSettled(Tick(w, env).fudge)
  {
    if FudgeSettled(w.fudge) {
      FudgeStaysSettled(w.fudge);
    }
  }

  // ---------------------------------------------------------------------
  // The blocks of update(), in order

  /** `updateAbilities()`. */
  function TickAbilities(w: World): World
  {
    w.(fudge := TickFudge(w.fudge), shield := TickShield(w.shield))
  }

  predicate Held(w: World, a: string, b: string) { a in w.keys || b in w.keys }

  /** The movement block: each held direction moves the player by 5, then
      the position is clamped so that the player box stays in the arena. */
  function Steer(w: World): (r: World)
    ensures InArena(r.player)
    ensures r == w.(player := r.player) && r.player.cooldown == w.player.cooldown
    ensures r.player.x == Clamp(PlayerW / 2.0, Width - PlayerW / 2.0,
              w.player.x - (if Held(w, "ArrowLeft", "KeyA") then PlayerSpeed else 0.0)
                         + (if Held(w, "ArrowRight", "KeyD") then PlayerSpeed else 0.0))
    ensures r.player.y == Clamp(PlayerH / 2.0, Height - PlayerH / 2.0,
              w.player.y - (if Held(w, "ArrowUp", "KeyW") then PlayerSpeed else 0.0)
                         + (if Held(w, "ArrowDown", "KeyS") then PlayerSpeed else 0.0))
  {
    var x0 := w.player.x;
    var x1 := if Held(w, "ArrowLeft", "KeyA") then x0 - PlayerSpeed else x0;
    var x2 := if Held(w, "ArrowRight", "KeyD") then x1 + PlayerSpeed else x1;
    var y0 := w.player.y;
    var y1 := if Held(w, "ArrowUp", "KeyW") then y0 - PlayerSpeed else y0;
    var y2 := if Held(w, "ArrowDown", "KeyS") then y1 + PlayerSpeed else y1;
    w.(player := w.player.(x := Clamp(PlayerW / 2.0, Width - PlayerW / 2.0, x2),
                           y := Clamp(PlayerH / 2.0, Height - PlayerH / 2.0, y2)))
  }

  /** The fire keys. */
  predicate Firing(w: World) { Held(w, "Space", "KeyZ") }

  /** Whether a snowball leaves this tick, and the cooldown after the tick. */
  predicate Triggers(cooldown: int, firing: bool) { firing && cooldown <= 0 }

  function NextCooldown(cooldown: int, firing: bool): int {
    var c := if Triggers(cooldown, firing) then FireCooldown else cooldown;
    if c > 0 then c - 1 else c
  }

  /** The shooting block: with fire held and the cooldown run out, exactly
      one snowball is appended and the cooldown is left at 11. */
  function Shoot(w: World): (r: World)
    ensures r == w.(bullets := r.bullets, player := r.player)
    ensures r.player.x == w.player.x && r.player.y == w.player.y
    ensures Triggers(w.player.cooldown, Firing(w)) ==>
      r.bullets == w.bullets + [Fired(w.player)] && r.player.cooldown == FireCooldown - 1
    ensures !Triggers(w.player.cooldown, Firing(w)) ==>
      r.bullets == w.bullets && r.player.cooldown == NextCooldown(w.player.cooldown, false)
  {
    var shot := Triggers(w.player.cooldown, Firing(w));
    var bullets := if shot then w.bullets + [Fired(w.player)] else w.bullets;
    w.(bullets := bullets, player := w.player.(cooldown := NextCooldown(w.player.cooldown, Firing(w))))
  }

  /** The cooldown after n ticks with fire held throughout, from 0. */
  function HeldCooldown(n: nat): int
    decreases n
  {
    if n == 0 then 0 else NextCooldown(HeldCooldown(n - 1), true)
  }

  /** With fire held from a cooldown of 0, a snowball leaves on tick k
      (counting from 0) exactly when k is a multiple of 12. */
  lemma {:induction false} FireCadence(k: nat)
    ensures HeldCooldown(k) == if k % FireCooldown == 0 then 0 else FireCooldown - k % FireCooldown
    ensures Triggers(HeldCooldown(k), true) <==> k % FireCooldown == 0
    decreases k
  {
    if k > 0 {
      FireCadence(k - 1);
    }
  }

  /** The bullet block. */
  function MoveBullets(w: World): World
  {
    w.(bullets := StepBullets(w.bullets))
  }

  /** The spawner: when its countdown has run out it takes four random
      values, appends one enemy and restarts the countdown in [34, 58);
      otherwise the countdown drops by one. */
  function SpawnEnemies(w: World, env: Env): (r: World)
    ensures r == w.(enemies := r.enemies, enemyCooldown := r.enemyCooldown, draws := r.draws)
    ensures w.enemyCooldown <= 0.0 ==>
      r.enemies == w.enemies + [NewEnemy(env, w.draws)] && r.draws == w.draws + 4 &&
      34.0 <= r.enemyCooldown < 58.0
    ensures w.enemyCooldown > 0.0 ==>
      r.enemies == w.enemies && r.draws == w.draws && r.enemyCooldown == w.enemyCooldown - 1.0
  {
    if w.enemyCooldown <= 0.0 then
      w.(enemies := w.enemies + [NewEnemy(env, w.draws)],
         enemyCooldown := SpawnDelay(env.random(w.draws + 3)),
         draws := w.draws + 4)
    else
      w.(enemyCooldown := w.enemyCooldown - 1.0)
  }

  /** The enemy block: every enemy falls by its speed, then those past the
      bottom edge are dropped, with no score. */
  function MoveEnemies(w: World): (r: World)
    ensures r == w.(enemies := r.enemies) && |r.enemies| <= |w.enemies|
    ensures AllUnhurt(w.enemies) ==> AllUnhurt(r.enemies)
  {
    var r := w.(enemies := KeepOnScreen(FallAll(w.enemies)));
    HpSurvivesFilter(FallAll(w.enemies));
    r
  }

  lemma {:induction false} HpSurvivesFilter(es: seq<Enemy>)
    ensures AllUnhurt(es) ==> AllUnhurt(KeepOnScreen(es))
    decreases |es|
  {
    if es != [] {
      HpSurvivesFilter(es[1..]);
    }
  }

  /** `spawnExplosion(x, y, type)` on the whole state. */
  function WithExplosion(w: World, x: real, y: real, kind: EnemyKind, env: Env): (r: World)
    ensures r == w.(explosions := r.explosions, draws := r.draws)
    ensures |r.explosions| == |w.explosions| + 1 && r.explosions[..|w.explosions|] == w.explosions
    ensures var e := r.explosions[|w.explosions|]; e.x == x && e.y == y && e.kind == kind && e.time == 0
    ensures r.draws > w.draws
  {
    var spawned := Spawn(x, y, kind, env, w.draws);
    w.(explosions := w.explosions + [spawned.0], draws := spawned.1)
  }

  // ---------------------------------------------------------------------
  // Bullets against enemies

  /** The inner loop for enemy i: the highest-index bullet that hits it, if
      any, takes one hit point; a snowball is used up, a fudge ball goes on;
      an enemy left with no hit point explodes, is removed and scores 100. */
  function HitEnemyAt(w: World, i: nat, env: Env): World
    requires i < |w.enemies|
  {
    match LastHit(w.bullets, w.enemies[i])
    case None => w
    case Some(j) => HitBy(w, i, j, env)
  }

  /** What the inner loop does to the state: the bullet that acts is the
      last one that hits; a snowball is used up; an enemy it kills is
      removed, explodes and scores 100; an enemy it only wounds keeps its
      place; without a hit nothing changes. */
  lemma HitEnemyAtEffect(w: World, i: nat, env: Env)
    requires i < |w.enemies|
    ensures var r := HitEnemyAt(w, i, env);
            r == w.(bullets := r.bullets, enemies := r.enemies, explosions := r.explosions,
                    score := r.score, draws := r.draws)
    ensures HitEnemyAt(w, i, env).draws >= w.draws
    ensures LastHit(w.bullets, w.enemies[i]).None? ==> HitEnemyAt(w, i, env) == w
    ensures var r := HitEnemyAt(w, i, env);
      LastHit(w.bullets, w.enemies[i]).Some? ==>
      var j := LastHit(w.bullets, w.enemies[i]).value;
      r.bullets == if w.bullets[j].FudgeBall? then w.bullets else RemoveAt(w.bullets, j)
    ensures var r := HitEnemyAt(w, i, env);
      var killed := LastHit(w.bullets, w.enemies[i]).Some? && w.enemies[i].hp <= 1;
      (killed ==> r.enemies == RemoveAt(w.enemies, i) && r.score == w.score + 100 &&
                  r.explosions == w.explosions + [Spawn(w.enemies[i].x, w.enemies[i].y, w.enemies[i].kind, env, w.draws).0]) &&
      (!killed ==> r.score == w.score && r.explosions == w.explosions && r.draws == w.draws &&
                   |r.enemies| == |w.enemies| && r.enemies[..i] == w.enemies[..i])
    ensures AllUnhurt(w.enemies) ==> AllUnhurt(HitEnemyAt(w, i, env).enemies)
  {
  }

  /** Bullet j hits enemy i: the enemy loses a hit point and a snowball is
      used up; an enemy left with no hit point is killed. */
  function HitBy(w: World, i: nat, j: nat, env: Env): World
    requires i < |w.enemies| && j < |w.bullets|
  {
    var v := Wound(w, i, j);
    if v.enemies[i].hp <= 0 then Kill(v, i, env) else v
  }

  function Wound(w: World, i: nat, j: nat): (v: World)
    requires i < |w.enemies| && j < |w.bullets|
    ensures |v.enemies| == |w.enemies|
  {
    var en := w.enemies[i];
    w.(bullets := if w.bullets[j].FudgeBall? then w.bullets else RemoveAt(w.bullets, j),
       enemies := w.enemies[i := en.(hp := en.hp - 1)])
  }

  /** A killed enemy explodes where it stood, is removed and scores 100. */
  function Kill(w: World, i: nat, env: Env): World
    requires i < |w.enemies|
  {
    var en := w.enemies[i];
    WithExplosion(w, en.x, en.y, en.kind, env).(enemies := RemoveAt(w.enemies, i), score := w.score + 100)
  }

  /** The outer loop, from enemy n - 1 down to enemy 0. */
  function BulletHitsFrom(w: World, n: nat, env: Env): World
    requires n <= |w.enemies|
    decreases n
  {
    if n == 0 then w
    else BulletHitsFrom(BulletStep(w, n, env), n - 1, env)
  }

  /** One pass of that loop, on the enemy just below n; the loop goes on
      with the enemies below it, all still there. */
  function BulletStep(w: World, n: nat, env: Env): (r: World)
    requires 0 < n <= |w.enemies|
    ensures n - 1 <= |r.enemies|
  {
    HitEnemyAtEffect(w, n - 1, env);
    HitEnemyAt(w, n - 1, env)
  }

  /** What the outer loop does: only bullets, enemies, explosions, score
      and draws change; every enemy removed scores 100 and leaves one
      explosion after those already there. */
  lemma {:induction false} BulletHitsFromEffect(w: World, n: nat, env: Env)
    requires n <= |w.enemies|
    ensures var r := BulletHitsFrom(w, n, env);
      r == w.(bullets := r.bullets, enemies := r.enemies, explosions := r.explosions,
              score := r.score, draws := r.draws) &&
      |r.enemies| <= |w.enemies| && |r.bullets| <= |w.bullets| && r.draws >= w.draws &&
      r.score == w.score + 100 * (|w.enemies| - |r.enemies|) &&
      |r.explosions| == |w.explosions| + (|w.enemies| - |r.enemies|) &&
      r.explosions[..|w.explosions|] == w.explosions
    ensures AllUnhurt(w.enemies) ==> AllUnhurt(BulletHitsFrom(w, n, env).enemies)
    decreases n
  {
    if n > 0 {
      var w1 := BulletStep(w, n, env);
      HitEnemyAtEffect(w, n - 1, env);
      BulletHitsFromEffect(w1, n - 1, env);
      var r := BulletHitsFrom(w1, n - 1, env);
      assert r.explosions[..|w.explosions|] == r.explosions[..|w1.explosions|][..|w.explosions|];
    }
  }

  /** The bullet-against-enemy block. */
  function BulletHits(w: World, env: Env): World {
    BulletHitsFrom(w, |w.enemies|, env)
  }

  /** Every hit kills: while all enemies have their one hit point, a hit
      on enemy i removes it, adds exactly one explosion at its place and
      exactly 100 to the score. */
  lemma EveryHitKills(w: World, i: nat, env: Env)
    requires i < |w.enemies| && AllUnhurt(w.enemies)
    requires LastHit(w.bullets, w.enemies[i]).Some?
    ensures HitEnemyAt(w, i, env).enemies == RemoveAt(w.enemies, i)
    ensures HitEnemyAt(w, i, env).score == w.score + 100
    ensures |HitEnemyAt(w, i, env).explosions| == |w.explosions| + 1
    ensures var e := HitEnemyAt(w, i, env).explosions[|w.explosions|];
            e.x == w.enemies[i].x && e.y == w.enemies[i].y && e.time == 0
  {
    HitEnemyAtEffect(w, i, env);
  }

  // ---------------------------------------------------------------------
  // The player against enemies

  /** One pass of the loop at index i: a touched enemy ends the game
      without the shield and, with the shield, explodes and is removed, the
      loop then looking at the same index again (the `i--`). Returns the
      state after the pass and the index the loop goes on with. */
  function PlayerStep(w: World, i: nat, env: Env): (s: (World, nat))
    requires i < |w.enemies|
    ensures s.0 == w.(state := s.0.state, enemies := s.0.enemies, explosions := s.0.explosions, draws := s.0.draws)
    ensures s.1 <= |s.0.enemies| && |s.0.enemies| - s.1 < |w.enemies| - i
  {
    var en := w.enemies[i];
    if !Touches(w.player, en) then (w, i + 1)
    else if !w.shield.active then (w.(state := GameOver), i + 1)
    else (WithExplosion(w.(enemies := RemoveAt(w.enemies, i)), en.x, en.y, en.kind, env), i)
  }

  /** The loop from enemy i on. */
  function PlayerHitsFrom(w: World, i: nat, env: Env): (r: World)
    requires i <= |w.enemies|
    ensures r == w.(state := r.state, enemies := r.enemies, explosions := r.explosions, draws := r.draws)
    ensures r.state == w.state || r.state == GameOver
    ensures r.draws >= w.draws
    decreases |w.enemies| - i
  {
    if i == |w.enemies| then w
    else
      var s := PlayerStep(w, i, env);
      PlayerHitsFrom(s.0, s.1, env)
  }

  /** Without the shield nothing but the state changes, and the game is
      over exactly when it already was or the player touches some enemy
      from index i on. */
  lemma {:induction false} PlayerHitsUnshielded(w: World, i: nat, env: Env)
    requires i <= |w.enemies| && !w.shield.active
    ensures var r := PlayerHitsFrom(w, i, env);
      r == w.(state := r.state) &&
      (r.state == GameOver <==> w.state == GameOver || exists k :: i <= k < |w.enemies| && Touches(w.player, w.enemies[k])) &&
      (r.state != GameOver ==> r.state == w.state)
    decreases |w.enemies| - i
  {
    if i < |w.enemies| {
      if Touches(w.player, w.enemies[i]) {
        PlayerHitsUnshielded(w.(state := GameOver), i + 1, env);
      } else {
        PlayerHitsUnshielded(w, i + 1, env);
        var r := PlayerHitsFrom(w, i, env);
        if exists k :: i <= k < |w.enemies| && Touches(w.player, w.enemies[k]) {
          var k :| i <= k < |w.enemies| && Touches(w.player, w.enemies[k]);
          assert i + 1 <= k;
        }
      }
    }
  }

  /** With the shield the state is kept, exactly the touched enemies from
      index i on are removed (the rest keep their order), and each removed
      enemy leaves one explosion appended to the pool. */
  lemma {:induction false} PlayerHitsShielded(w: World, i: nat, env: Env)
    requires i <= |w.enemies| && w.shield.active
    ensures var r := PlayerHitsFrom(w, i, env);
      r.state == w.state &&
      r.enemies == w.enemies[..i] + Untouched(w.player, w.enemies[i..]) &&
      |r.explosions| == |w.explosions| + (|w.enemies| - |r.enemies|) &&
      r.explosions[..|w.explosions|] == w.explosions
    decreases |w.enemies| - i
  {
    var es := w.enemies;
    if i == |es| {
      assert es[..i] == es;
    } else {
      UntouchedAt(w.player, es, i);
      if Touches(w.player, es[i]) {
        ShieldedTouch(w, i, env);
      } else {
        ShieldedMiss(w, i, env);
      }
    }
  }

  /** The step of PlayerHitsShielded where enemy i is not touched. */
  lemma {:induction false} ShieldedMiss(w: World, i: nat, env: Env)
    requires i < |w.enemies| && w.shield.active && !Touches(w.player, w.enemies[i])
    requires Untouched(w.player, w.enemies[i..]) == [w.enemies[i]] + Untouched(w.player, w.enemies[i + 1..])
    ensures var r := PlayerHitsFrom(w, i, env);
      r.state == w.state &&
      r.enemies == w.enemies[..i] + Untouched(w.player, w.enemies[i..]) &&
      |r.explosions| == |w.explosions| + (|w.enemies| - |r.enemies|) &&
      r.explosions[..|w.explosions|] == w.explosions
    decreases |w.enemies| - i, 0
  {
    var es := w.enemies;
    assert PlayerHitsFrom(w, i, env) == PlayerHitsFrom(w, i + 1, env);
    PlayerHitsShielded(w, i + 1, env);
    assert es[..i + 1] == es[..i] + [es[i]];
    AppendAssoc(es[..i], [es[i]], Untouched(w.player, es[i + 1..]));
  }

  /** The step of PlayerHitsShielded where enemy i is touched. */
  lemma {:induction false} ShieldedTouch(w: World, i: nat, env: Env)
    requires i < |w.enemies| && w.shield.active && Touches(w.player, w.enemies[i])
    requires Untouched(w.player, w.enemies[i..]) == Untouched(w.player, w.enemies[i + 1..])
    ensures var r := PlayerHitsFrom(w, i, env);
      r.state == w.state &&
      r.enemies == w.enemies[..i] + Untouched(w.player, w.enemies[i..]) &&
      |r.explosions| == |w.explosions| + (|w.enemies| - |r.enemies|) &&
      r.explosions[..|w.explosions|] == w.explosions
    decreases |w.enemies| - i, 0
  {
    var es := w.enemies;
    var en := es[i];
    var w1 := WithExplosion(w.(enemies := RemoveAt(es, i)), en.x, en.y, en.kind, env);
    assert PlayerHitsFrom(w, i, env) == PlayerHitsFrom(w1, i, env);
    PlayerHitsShielded(w1, i, env);
    var r := PlayerHitsFrom(w1, i, env);
    assert w1.enemies[..i] == es[..i];
    assert w1.enemies[i..] == es[i + 1..];
    assert r.explosions[..|w.explosions|] == r.explosions[..|w1.explosions|][..|w.explosions|];
  }

  /** Untouched unfolded once at index i. */
  lemma UntouchedAt(p: Player, es: seq<Enemy>, i: nat)
    requires i < |es|
    ensures Untouched(p, es[i..]) == (if Touches(p, es[i]) then [] else [es[i]]) + Untouched(p, es[i + 1..])
  {
    assert es[i..][1..] == es[i + 1..];
  }

  /** No branch of the loop changes a surviving enemy. */
  lemma PlayerHitsUnhurt(w: World, env: Env)
    ensures AllUnhurt(w.enemies) ==> AllUnhurt(PlayerHitsFrom(w, 0, env).enemies)
  {
    if w.shield.active {
      PlayerHitsShielded(w, 0, env);
      assert w.enemies[..0] == [] && w.enemies[0..] == w.enemies;
      UntouchedUnhurt(w.player, w.enemies);
    } else {
      PlayerHitsUnshielded(w, 0, env);
    }
  }

  /** The player-against-enemy block. */
  function PlayerHits(w: World, env: Env): World {
    PlayerHitsFrom(w, 0, env)
  }

  lemma {:induction false} UntouchedUnhurt(p: Player, es: seq<Enemy>)
    ensures AllUnhurt(es) ==> AllUnhurt(Untouched(p, es))
    decreases |es|
  {
    if es != [] {
      UntouchedUnhurt(p, es[1..]);
    }
  }

  /** The explosion block. */
  function AgeAllExplosions(w: World): World
  {
    w.(explosions := AgeExplosions(w.explosions))
  }

  // ---------------------------------------------------------------------
  // The tick

  /** The blocks of `update()` before the collisions: the abilities tick,
      the player moves and fires, the bullets move, the spawner runs and
      the enemies move. */
  function TickMotion(w: World, env: Env): (r: World)
    ensures r.state == w.state && r.keys == w.keys && r.score == w.score && r.draws >= w.draws
    ensures InArena(r.player)
    ensures r.player.cooldown == NextCooldown(w.player.cooldown, Firing(w))
    ensures r.fudge == TickFudge(w.fudge) && r.shield == TickShield(w.shield)
    ensures AllUnhurt(w.enemies) ==> AllUnhurt(r.enemies)
  {
    var w1 := TickAbilities(w);
    var w2 := Steer(w1);
    var w3 := Shoot(w2);
    var w4 := MoveBullets(w3);
    var w5 := SpawnEnemies(w4, env);
    MoveEnemies(w5)
  }

  /** The two collision blocks of `update()`: bullets against enemies,
      then the player against enemies. */
  function Collisions(w: World, env: Env): (r: World)
    ensures r.player == w.player && r.fudge == w.fudge && r.shield == w.shield && r.keys == w.keys
    ensures r.state == w.state || r.state == GameOver
    ensures r.score >= w.score && (r.score - w.score) % 100 == 0
    ensures r.draws >= w.draws
    ensures AllUnhurt(w.enemies) ==> AllUnhurt(r.enemies)
  {
    var w7 := BulletHits(w, env);
    BulletHitsFromEffect(w, |w.enemies|, env);
    var r := PlayerHits(w7, env);
    PlayerHitsUnhurt(w7, env);
    Hundreds(w.score, r.score, |w.enemies| - |w7.enemies|);
    r
  }

  lemma Hundreds(a: int, b: int, n: nat)
    requires b == a + 100 * n
    ensures b >= a && (b - a) % 100 == 0
  {
  }

  /** `update()`: nothing outside play; otherwise the blocks in order. */
  function Tick(w: World, env: Env): (r: World)
    ensures w.state != Playing ==> r == w
    ensures w.state == Playing ==> r.state == Playing || r.state == GameOver
    ensures w.state == Playing ==> InArena(r.player)
    ensures w.state == Playing ==> r.player.cooldown == NextCooldown(w.player.cooldown, Firing(w))
    ensures w.state == Playing ==> r.fudge == TickFudge(w.fudge) && r.shield == TickShield(w.shield)
    ensures r.score >= w.score && (r.score - w.score) % 100 == 0
    ensures r.keys == w.keys && r.draws >= w.draws
    ensures AllUnhurt(w.enemies) ==> AllUnhurt(r.enemies)
    ensures w.state == Playing ==> forall k :: 0 <= k < |r.explosions| ==> r.explosions[k].time <= MaxTime
  {
    if w.state != Playing then w
    else
      var c := Collisions(TickMotion(w, env), env);
      AgeExplosionsSpentDropped(c.explosions);
      AgeAllExplosions(c)
  }
}
