/** The outside world the simulation consults but cannot compute: the
    pseudo-random generator and the two trigonometric functions. */
module Oracle {

  /** A stream of values standing for successive results of the platform's
      random generator; like it, every value lies in [0, 1). The n-th call
      returns the value at index n. */
  type Stream = f: nat -> real | forall n :: 0.0 <= f(n) < 1.0 witness (n: nat) => 0.0

  /** The collaborators of one game: the random stream and cosine and sine.
      Angles are measured in turns (radians divided by 2π), so that the
      angles the game uses, i/24 of a circle or a random fraction of one,
      are exact. Nothing is assumed about `cos` and `sin`. */
  datatype Env = Env(random: Stream, cos: real -> real, sin: real -> real)

  /** The velocity `(cos(angle) * speed, sin(angle) * speed)` of something
      launched at `angle` (in turns) with `speed`. */
  function Launch(env: Env, angle: real, speed: real): (real, real) {
    (env.cos(angle) * speed, env.sin(angle) * speed)
  }

  /** Index of the element picked by `list[floor(u * n)]` for a random `u`. */
  function Pick(u: real, n: nat): (k: int)
    requires 0.0 <= u < 1.0
    requires 0 < n <= 7
    ensures 0 <= k < n
  {
    PickBelow(u, n);
    (u * n as real).Floor
  }

  /** `floor(u * n) < n` when `u < 1`: the one step the solver needs spelled out. */
  lemma PickBelow(u: real, n: nat)
    requires 0.0 <= u < 1.0
    requires 0 < n <= 7
    ensures 0 <= (u * n as real).Floor < n
  {
    if n == 1 { } else if n == 2 { } else if n == 3 { } else if n == 4 { }
    else if n == 5 { } else if n == 6 { } else { }
  }
}
