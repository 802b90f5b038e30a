# South Park shooter: the simulation core

A model of the per-frame simulation of the browser arcade shooter in
`game.js` (class `SouthParkShooterGame`), with its drawing and DOM work
removed.

The game is a three-state machine: `menu`, `playing` and `gameover`. It has:

- a player who moves in a 480 × 640 arena and throws snowballs;
- two special abilities, the Fudge of Doom (a 24-ball radial burst) and
  the Cheesy Poofs shield;
- a spawner of falling enemies;
- two collision passes;
- blood-and-bone explosions whose particles age and die.

The model has six modules, one file each:

- `oracle.dfy` (`Oracle`): what the game consults but cannot compute.
  - The random generator is a stream of reals in [0, 1), read through a
    cursor.
  - Cosine and sine are supplied functions. Their angles are in turns,
    so `2π·i/24` is the exact value `i/24`.
- `entities.dfy` (`Entities`): the values: player, bullets, enemies,
  particles and explosions, plus the arena constants.
- `abilities.dfy` (`Abilities`): the fudge and shield state machines.
  - Their activation gates, activations and per-tick countdowns.
  - The lifecycle lemmas: 28 ticks active, 90 ticks shielded, ready
    again 570 ticks after a shield activation.
  - The fudge's quirk: it can be ready again while still active.
- `pools.dfy` (`Pools`): one tick of motion and pruning for bullets and
  enemies, the spawner's draws, the two collision tests, and which bullet
  acts on an enemy.
- `explosions.dfy` (`Explosions`): how an explosion draws its 18–24 blood
  and 3–5 bone particles from the stream, and how its particles and its
  clock age.
- `simulation.dfy` (`Simulation`): the whole game state as one value,
  `World`, with what every input event and every block of `update()` does
  to it.
  - These functions are the specification.
  - The lemmas here state the properties of the game.
- `game.dfy` (`Game`): class `ShooterGame`, whose fields are the game's
  fields.
  - Its methods change those fields in place, with the loops, `push`es
    and `splice`s of `game.js`.
  - Each input handler and each block of `update()` is proved to leave
    `Model()` equal to what the matching `Simulation` function does to the
    old `Model()`. The helper methods for one loop pass, one push or one
    random draw are proved against the field updates or sequence values
    they compute.

Three behaviours of `game.js` worth knowing:

- The blood and bone loops compare their counter with a bound that is
  drawn afresh at every test (`18 + floor(random·7)` and
  `3 + floor(random·3)`). The counts stay within 18–24 and 3–5, because
  `floor(random·n) <= n - 1`, but the redrawing makes them unevenly
  likely: 3, 4 and 5 bones come with chances 1/3, 4/9 and 2/9.
- The fire cooldown is left at 11 after a shot, because it is set to 12
  and decremented in the same tick.
- Fudge balls pass through enemies. Only snowballs are used up.

## Model

Some definitions carry no contract of their own and are stated by the
lemma or method in the row named here: `Advance` and `OutOfPlay` by
`SnowballPruned` and `FudgeBallPruned`; `KeepOnScreen` by
`KeepOnScreenExactly`; `Hits` by `HitsWithin`; `Touches` by
`TouchesWithin`; `TickAbilities` by `UpdateAbilities`; `HitEnemyAt`,
`HitBy` and `Kill` by `HitEnemyAtEffect`, `ApplyHit` and `KillEnemy`;
`BulletHitsFrom` by `BulletHitsFromEffect`; `AgeExplosion`, `Spent` and
`AgeExplosions` by `AgeExplosionsSpentDropped` and `AgeExplosionsKeeps`.

| member | source | states |
|---|---|---|
| Game.ShooterGame.constructor | game.js:17-58 | The game starts in the menu with the player at (240, 580), cooldowns 0, both abilities ready and inactive, empty pools, no keys held, score 0 |
| Simulation.Initial | game.js:17-58 | The constructor's state is the menu with a fresh round, no keys held and no random value used |
| Game.ShooterGame.Random | game.js:286 | Each call to `Math.random()` returns the next value of the stream, which lies in [0, 1), and advances the cursor by one |
| Simulation.Reset | game.js:104-122 | A reset gives a fresh round: player at (width/2, height-60), empty pools, score, player cooldown and spawner countdown 0, both abilities ready, inactive, counters 0; state, held keys and the random stream are untouched |
| Game.ShooterGame.ResetGame | game.js:104-122 | Resetting the fields in place leaves exactly the state Reset describes |
| Simulation.KeyDown | game.js:124-147 | A key press records the key. Enter/Space outside play starts a fresh round in `playing`; any other key outside play changes nothing else. In play only X/F (when the fudge is ready and inactive) and C/S (when the shield is ready and inactive) change anything, and they change only their ability and, for the fudge, the bullets |
| Game.ShooterGame.HandleKeyDown | game.js:124-147 | The handler changes the fields as KeyDown says, activating an ability through its own routine |
| Simulation.KeyUp | game.js:149-151 | Releasing a key makes it no longer held, keeps every other key as it was, and changes nothing else |
| Game.ShooterGame.HandleKeyUp | game.js:149-151 | The handler changes the fields as KeyUp says |
| Simulation.Click | game.js:153-158 | A click in `menu` or `gameover` starts a fresh round in `playing`, keeping the held keys and the stream; a click in play changes nothing |
| Game.ShooterGame.HandleCanvasClick | game.js:153-158 | The handler changes the fields as Click says |
| Simulation.ShieldKeyAlsoMovesDown | game.js:143 | KeyS turns the shield on and, held, makes the next tick's movement block move the player down 5 (before the clamp), since it is also the down key |
| Pools.FudgeBurst | game.js:167-182 | The burst is 24 fudge balls at the player's position, with radius 11, speed 12, life 32, angle i/24 of a turn for ball i, velocity (cos, sin) × 12 of that angle, and strictly increasing angles |
| Game.ShooterGame.ActivateFudgeOfDoom | game.js:162-183 | Activation sets the fudge active, not ready, duration 28, and its push loop appends exactly the burst to the bullets |
| Abilities.ActivateFudge | game.js:164-166 | Activating the fudge makes it active and not ready with duration 28, keeping its cooldown |
| Abilities.ActivateShield | game.js:185-190 | Activating the shield makes it active and not ready with timer 90, keeping its cooldown |
| Game.ShooterGame.ActivateShield | game.js:185-190 | Only the shield changes, as ActivateShield says |
| Abilities.TickFudge | game.js:194-207 | One fudge tick: it stays active exactly while the duration is above 1 and the duration counts down only while active. An expiry arms the cooldown at 300, already counted down once unless the fudge was ready. A ready fudge stays ready |
| Abilities.TickShield | game.js:210-223 | One shield tick: active exactly while the timer is above 1, and the timer counts down only while active. An expiry arms the cooldown at 480, already counted down once. A shield that is not both ready and active stays so, and a ready one stays ready |
| Game.ShooterGame.UpdateAbilities | game.js:192-224 | The in-place countdowns do to the two abilities exactly what TickFudge and TickShield do, and nothing else changes |
| Abilities.ShieldLifecycle | game.js:185-223 | After an activation the shield is active for ticks 0-89 and off after tick 90, with the cooldown at 479. It is not ready before tick 570 and ready, with all counters 0, at tick 570 |
| Simulation.EnemiesAlwaysUnhurt | game.js:295 | Every enemy has its one hit point in every reachable state: none at the start, and no key press, key release, click or tick breaks it, so EveryHitKills applies to every game |
| Abilities.FudgeStaysSettled | game.js:162-207 | A tick and an activation keep the fudge's cooldown in [0, 300] with a ready fudge at 0 or 300, so an activation starts from cooldown 0 or 300 |
| Simulation.FudgeAlwaysSettled | game.js:104-122 | The fudge is settled at the start and after every key press, key release, click and tick, so FudgeReadyWhileActive and FudgeFullCycle cover every activation a game can make |
| Simulation.ShieldNeverReadyAndActive | game.js:210-223 | The shield is never ready and active at once: not at the start, and not after any key press, key release, click or tick |
| Abilities.FudgeActiveFor28 | game.js:194-199 | After an activation with any non-negative cooldown, the fudge is active for ticks 0-27 and inactive after tick 28 |
| Abilities.FudgeReadyWhileActive | game.js:201-207 | Activated with cooldown 0, as after a reset, the fudge is ready again after one tick while still active, and after 28 ticks it is ready, inactive, with cooldown 300 |
| Abilities.FudgeFullCycle | game.js:194-207 | Activated with at least 27 ticks of cooldown left, the fudge is off with cooldown 299 after tick 28. It is not ready before tick 328, and ready with all counters 0 at tick 328 |
| Simulation.TickMotion | game.js:226-305 | The blocks before the collisions keep the state, keys and score, leave the player in the arena, advance the fire cooldown and both abilities by one tick, only advance the stream, and keep unhurt enemies unhurt |
| Simulation.Collisions | game.js:307-352 | The two collision blocks keep the player, abilities and keys, keep the state or end the game, raise the score by a multiple of 100, only advance the stream, and keep unhurt enemies unhurt |
| Simulation.Tick | game.js:226-373 | Outside play a tick changes nothing. In play the state stays `playing` or becomes `gameover`; the player ends inside the arena; the fire cooldown and both abilities advance by one tick; every explosion left has time ≤ 32. Score never drops and grows by multiples of 100, the keys are kept, the stream only advances, and unhurt enemies stay unhurt |
| Game.ShooterGame.Update | game.js:226-373 | One frame in place runs the blocks in the source's order and matches Tick, including doing nothing outside play |
| Simulation.Steer | game.js:233-248 | Each held direction moves the player 5, and then both coordinates are clamped into [19, 461] × [19, 621], so the player is always inside the arena |
| Game.ShooterGame.MovePlayer | game.js:233-248 | The in-place moves and clamps give exactly Steer's position |
| Simulation.Shoot | game.js:250-260 | With Space/Z held and the cooldown run out, exactly one snowball is appended at (x, y-23) and the cooldown is left at 11. Otherwise no bullet is added and the cooldown drops by one if positive |
| Pools.Fired | game.js:251-257 | A fired snowball is at (x, y - h/2 - 4) with radius 7 and speed 8 |
| Game.ShooterGame.FireSnowball | game.js:250-260 | The fields change as Shoot says |
| Simulation.FireCadence | game.js:250-260 | With fire held from cooldown 0, a snowball leaves on tick k exactly when k is a multiple of 12 |
| Pools.StepBullets | game.js:263-282 | The bullet pass never grows the pool, and no bullet left after it is out of play |
| Pools.StepBulletsExactly | game.js:263-282 | A bullet is in the pool after the pass exactly when it is the moved form of a bullet before it and is not out of play |
| Pools.SnowballPruned | game.js:277-280 | A snowball rises by its speed and is kept exactly when its bottom edge y + r is still ≥ 0 |
| Pools.FudgeBallPruned | game.js:266-275 | A fudge ball moves by (vx, vy) and loses one life. It is kept exactly when its life stays above 0 and it is within [-30, width+30] × [-30, height+30] |
| Game.ShooterGame.UpdateBullets | game.js:263-282 | The reverse loop with in-place moves and splices leaves the bullets as StepBullets, order kept |
| Game.ShooterGame.SteppedPool | game.js:263-282 | Run from the last bullet down to the first, the loop yields StepBullets of the pool it started from |
| Game.ShooterGame.StepBulletAt | game.js:264-281 | With every bullet above i already moved or spliced out, the pass at i moves bullet i and splices it out when out of play, so that one more index is done |
| Simulation.SpawnEnemies | game.js:285-301 | With the countdown run out, one enemy built from the next three stream values is appended, four values are used, and the countdown restarts in [34, 58). Otherwise only the countdown drops by 1 |
| Pools.NewEnemy | game.js:286-297 | A spawned enemy is 32 × 38 with x in [30, 450), y = -32, speed in [2, 3.2) and one hit point |
| Game.ShooterGame.PushEnemy | game.js:286-297 | The three draws, taken in the order x, variant, speed, append NewEnemy of the cursor's position and use exactly three values; nothing else changes |
| Game.ShooterGame.SpawnEnemy | game.js:285-301 | The spawner reads x, variant, speed and countdown from the stream in that order, as SpawnEnemies says |
| Pools.EnemyPruned | game.js:304-305 | An enemy falls by its speed and is kept exactly while y - h < height after the fall |
| Pools.KeepOnScreenExactly | game.js:305 | The filter keeps exactly the on-screen enemies |
| Simulation.MoveEnemies | game.js:304-305 | The enemy pass changes only the enemies, never adds one, and leaves every remaining enemy unhurt if all were |
| Game.ShooterGame.UpdateEnemies | game.js:304-305 | The in-place fall of every enemy followed by the filter gives MoveEnemies' pool |
| Pools.HitsWithin | game.js:313-322 | A bullet hits an enemy exactly when its centre is strictly inside the enemy's w × h box, the box widened by 9 on every side for a fudge ball |
| Pools.LastHit | game.js:310-312 | The bullet acting on an enemy is the highest-index one that hits it; None means no bullet hits it |
| Pools.LastHitIs | game.js:310-333 | A scan from the top that stops at the first hit finds exactly LastHit's bullet |
| Simulation.HitEnemyAtEffect | game.js:309-334 | Enemy i is affected by at most one bullet, LastHit's. With no hit nothing changes. A hit removes that bullet only if it is a snowball. A kill removes the enemy, appends its explosion and adds exactly 100; otherwise score, explosions, stream and the enemies below i are unchanged |
| Simulation.EveryHitKills | game.js:295 | While every enemy has its single hit point, any hit removes the enemy, appends one explosion at its position with time 0, and adds exactly 100 |
| Simulation.BulletHitsFromEffect | game.js:308-336 | Over the whole pass the score rises by exactly 100 per enemy removed, one explosion is appended per enemy removed, earlier explosions are kept, and no pool grows |
| Game.ShooterGame.FindHit | game.js:310-333 | The inner scan returns LastHit's index, or -1 exactly when no bullet hits |
| Game.ShooterGame.ShootEnemy | game.js:309-334 | One pass of the outer loop changes the fields as HitEnemyAt says |
| Game.ShooterGame.ApplyHit | game.js:323-333 | Bullet j's hit on enemy i takes one hit point, splices the bullet out only if it is a snowball, and kills the enemy once no hit point is left, as HitBy says |
| Game.ShooterGame.KillEnemy | game.js:327-332 | A killed enemy leaves its explosion at its position, is spliced out and adds 100, as Kill says |
| Simulation.BulletStep | game.js:308-336 | A pass on the enemy below index n leaves at least n - 1 enemies, so the reverse loop's next index is still in range |
| Game.ShooterGame.BulletPass | game.js:308-336 | One pass of the reverse loop changes the fields as BulletStep says and moves the index down by one |
| Game.ShooterGame.CollideBullets | game.js:308-336 | The reverse loop over enemies gives BulletHits' state |
| Pools.TouchesWithin | game.js:341-342 | The player touches an enemy exactly when their centres are closer than the sum of their half sizes less 4, on both axes |
| Simulation.PlayerStep | game.js:340-351 | One pass of the player loop changes only the state, enemies, explosions and stream. The number of enemies left minus the next index strictly shrinks, so the loop ends |
| Simulation.PlayerHitsUnshielded | game.js:339-352 | Without the shield only the state can change, and the game is over afterwards exactly when it already was or the player touches some enemy |
| Simulation.PlayerHitsShielded | game.js:339-352 | With the shield the state is kept, exactly the touched enemies are removed with the rest in order, one explosion is appended per removed enemy, and earlier explosions are kept |
| Simulation.PlayerHitsFrom | game.js:339-352 | The player pass changes only state, enemies, explosions and stream; the state is kept or becomes `gameover`; the score is untouched |
| Game.ShooterGame.PlayerPass | game.js:340-351 | One pass at index i, including the `i--` after a splice, changes the fields as PlayerStep says |
| Game.ShooterGame.CollidePlayer | game.js:339-352 | The forward loop gives PlayerHits' state |
| Explosions.AgeParticle | game.js:359-364 | A particle moves by its velocity and loses one life |
| Explosions.LiveParticlesExactly | game.js:367 | The particle filter keeps exactly the particles with life > 0 |
| Explosions.AgeExplosionsSpentDropped | game.js:355-372 | The explosion pass never grows the pool, and every explosion left is not spent and has time ≤ 32 |
| Explosions.AgeExplosionsKeeps | game.js:369-371 | An explosion that is not spent after ageing stays in the pool |
| Explosions.ExplosionLifetime | game.js:355-372 | Explosions spawned with time 0 are all gone after 33 ticks or more |
| Game.ShooterGame.UpdateExplosions | game.js:355-372 | The reverse loop that ages each explosion and splices out the spent ones gives AgeExplosions' pool |
| Game.ShooterGame.AgedPool | game.js:355-372 | Run from the last explosion down to the first, the loop yields AgeExplosions of the pool it started from |
| Game.ShooterGame.AgeExplosionAt | game.js:356-371 | With every explosion above i already aged or spliced out, the pass at i ages explosion i and splices it out when spent, so that one more index is done |
| Game.ShooterGame.AgeParticles | game.js:358-365 | The per-particle pass leaves each particle as AgeParticle makes it |
| Explosions.BloodParticle | game.js:891-903 | A blood particle is within 4 × 3.5 of the centre, with size in [2.5, 5.2), one of the four colours, life in [16, 36) and maximum life 24 |
| Explosions.BoneParticle | game.js:907-920 | A bone particle is within 5 × 4 of the centre, with size in [2.2, 3.5), length in [10, 18), angle in [0, 1) turn, life in [20, 34) and maximum life 22 |
| Explosions.BloodCount | game.js:890 | The blood loop, whose bound is drawn afresh at every test, makes between 18 and 24 passes |
| Explosions.BloodCountStops | game.js:890 | The blood loop stops at the first test whose fresh bound is reached; every earlier test passed |
| Explosions.BoneCount | game.js:906 | The bone loop makes between 3 and 5 passes |
| Explosions.BoneCountStops | game.js:906 | The bone loop stops at the first test whose fresh bound is reached |
| Game.ShooterGame.BloodLoop | game.js:890-904 | The push loop yields BloodCount's number of blood particles, each read just after its test, and ends at the stream index AfterBlood |
| Game.ShooterGame.BoneLoop | game.js:906-921 | The push loop yields BoneCount's number of bone particles and ends at AfterBones |
| Game.ShooterGame.NewBlood | game.js:891-903 | A blood particle is built from the seven next values, as BloodParticle says |
| Game.ShooterGame.NewBone | game.js:907-920 | A bone particle is built from the eight next values, as BoneParticle says |
| Explosions.Spawn | game.js:883-927 | The new explosion is at the given position with the given variant and time 0, and the stream advances |
| Explosions.SpawnShape | game.js:883-927 | A new explosion holds 18 to 24 blood particles followed by 3 to 5 bone particles, all alive |
| Simulation.WithExplosion | game.js:922-926 | Spawning appends exactly one explosion, at the given position with the given variant and time 0, keeps the earlier ones, advances the stream and changes nothing else |
| Game.ShooterGame.SpawnExplosion | game.js:883-927 | The method appends exactly WithExplosion's explosion and advances the cursor to match |

## Left out

- Drawing: the characters, the background, the snowfall, the ability overlays and the menu and game-over screens. These are canvas output only.
- DOM and canvas plumbing: resizing, canvas creation, event-listener registration, focus, the `requestAnimationFrame` loop and `initGame`. The renderer's one relevant fact is that it calls `update` only while playing, and `Update` states that itself.
- `Math.random()`: an explicitly supplied stream of reals in [0, 1) with a cursor, rather than a generator.
- `Math.cos` and `Math.sin`: supplied functions about which nothing is assumed. Angles are in turns rather than radians, so the model's angle is the source's angle divided by 2π.
- Floating point: positions, speeds and particle physics use exact reals. Rounding is not modelled.
- The player's ability object: kept as two value fields, `fudge` and `shield`, instead of twelve nested properties. The size, speed and the constant maxima live as constants.
- The key map: `this.keys[code] = true/false` is the set of codes currently held.
- `update()`: split into one method per block, called in the source's order.
- The inner bullet loop with `break`: written as a search loop (`FindHit`) followed by the hit's effect (`ApplyHit`), which is the same scan.
- Each loop pass is its own method: `BulletPass`, `PlayerPass`, `StepBulletAt`, `AgeExplosionAt`, `PushBlood`, `PushBone`, and `PushEnemy` for the spawner's push. The inner hit's effect is likewise split into `ApplyHit` and `KillEnemy`.
- The bullet loop and the explosion loop run on a local copy of the pool (`SteppedPool`, `AgedPool`), which is assigned back to the field afterwards. Nothing else reads the pool while they run, so the result is the same; in-place mutation of an element shared through another reference is not modelled.
- Enemy and explosion variants only influence drawing. The model keeps them as data.
