/** The values the game is made of: the arena, the top-level state, the
    player, bullets, enemies and the particles of an explosion. Positions
    are reals; counters are integers. */
module Entities {

  /** The logical arena; the canvas is always reset to this size. */
  const Width: real := 480.0
  const Height: real := 640.0

  /** The player's fixed size and step. */
  const PlayerW: real := 38.0
  const PlayerH: real := 38.0
  const PlayerSpeed: real := 5.0

  datatype Option<T> = None | Some(value: T)

  /** The top-level state machine. */
  datatype GameState = Menu | Playing | GameOver

  /** The three enemy variants; the variant only changes how it is drawn. */
  datatype EnemyKind = Kenny | Stan | Kyle

  /** `['kenny', 'stan', 'kyle'][k]`. */
  function KindAt(k: int): EnemyKind
    requires 0 <= k < 3
  {
    if k == 0 then Kenny else if k == 1 then Stan else Kyle
  }

  /** The player's position and fire cooldown (its abilities are kept apart). */
  datatype Player = Player(x: real, y: real, cooldown: int)

  /** A snowball flies straight up; a fudge ball flies along a fixed
      velocity (vx, vy) for a limited number of ticks. `angle` is in turns. */
  datatype Bullet =
    | Snowball(x: real, y: real, r: real, speed: real)
    | FudgeBall(x: real, y: real, r: real, speed: real, angle: real, vx: real, vy: real, life: int)

  datatype Enemy = Enemy(x: real, y: real, w: real, h: real, speed: real, hp: int, kind: EnemyKind)

  /** A particle of an explosion; `angle` of a bone is in turns. */
  datatype Particle =
    | Blood(x: real, y: real, vx: real, vy: real, size: real, color: string, life: real, maxLife: real)
    | Bone(x: real, y: real, vx: real, vy: real, size: real, length: real, angle: real, life: real, maxLife: real)

  datatype Explosion = Explosion(x: real, y: real, kind: EnemyKind, time: int, particles: seq<Particle>)

  /** The four colours a blood particle is drawn in. */
  const BloodColors: seq<string> := ["#c80019", "#a00011", "#e03636", "#932222"]

  function Abs(v: real): (r: real)
    ensures r >= 0.0 && (r == v || r == -v)
  {
    if v < 0.0 then -v else v
  }

  /** `Math.max(lo, Math.min(hi, v))`. */
  function Clamp(lo: real, hi: real, v: real): (r: real)
    requires lo <= hi
    ensures lo <= r <= hi
    ensures lo <= v <= hi ==> r == v
    ensures v < lo ==> r == lo
    ensures v > hi ==> r == hi
  {
    if hi < v then hi else if v < lo then lo else v
  }

  /** `array.splice(i, 1)` on a sequence. */
  function RemoveAt<T>(s: seq<T>, i: nat): (r: seq<T>)
    requires i < |s|
    ensures |r| == |s| - 1
    ensures forall k :: 0 <= k < i ==> r[k] == s[k]
    ensures forall k :: i <= k < |r| ==> r[k] == s[k + 1]
  {
    s[..i] + s[i + 1..]
  }

  /** Removing or replacing the element between p and q. */
  lemma SpliceAt<T>(p: seq<T>, x: T, q: seq<T>, y: T)
    ensures |p + [x] + q| > |p| && (p + [x] + q)[|p|] == x
    ensures RemoveAt(p + [x] + q, |p|) == p + q
    ensures (p + [x] + q)[|p| := y] == p + [y] + q
  {
    assert (p + [x] + q)[..|p|] == p;
    assert (p + [x] + q)[|p| + 1..] == q;
  }

  lemma AppendAssoc<T>(a: seq<T>, b: seq<T>, c: seq<T>)
    ensures a + b + c == a + (b + c)
  {
  }
}
