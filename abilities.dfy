/** The two special abilities of the player and their per-tick state
    machines: the Fudge of Doom (a radial burst of bullets) and the Cheesy
    Poofs shield (invulnerability). All counters are in ticks. */
module Abilities {

  const FudgeMaxCooldown: int := 300
  const FudgeMaxDuration: int := 28
  const ShieldMaxCooldown: int := 480
  const ShieldDuration: int := 90

  datatype Fudge = Fudge(ready: bool, cooldown: int, active: bool, duration: int)
  datatype Shield = Shield(ready: bool, active: bool, cooldown: int, timer: int)

  /** Both abilities as the constructor and a game reset leave them. */
  const FudgeAtStart: Fudge := Fudge(true, 0, false, 0)
  const ShieldAtStart: Shield := Shield(true, false, 0, 0)

  /** The gate a key press must pass before an activation happens. */
  predicate CanActivateFudge(f: Fudge) { f.ready && !f.active }
  predicate CanActivateShield(s: Shield) { s.ready && !s.active }

  /** The state change of an activation (the burst of bullets is in Simulation). */
  function ActivateFudge(f: Fudge): (r: Fudge)
    ensures r.active && !r.ready && r.duration == FudgeMaxDuration
    ensures r.cooldown == f.cooldown
  {
    f.(active := true, ready := false, duration := FudgeMaxDuration)
  }

  function ActivateShield(s: Shield): (r: Shield)
    ensures r.active && !r.ready && r.timer == ShieldDuration
    ensures r.cooldown == s.cooldown
  {
    s.(active := true, ready := false, timer := ShieldDuration)
  }

  /** One tick of the fudge machine. Its cooldown branch tests only
      `!ready`, so a fudge activated while its cooldown is 0 becomes ready
      again while still active (see FudgeReadyWhileActive). */
  function TickFudge(f: Fudge): (r: Fudge)
    ensures r.active <==> f.active && f.duration > 1
    ensures f.active ==> r.duration == f.duration - 1
    ensures !f.active ==> r.duration == f.duration
    ensures f.ready ==> r.ready
    ensures f.active && f.duration <= 1 ==>
      r.cooldown == if f.ready then FudgeMaxCooldown else FudgeMaxCooldown - 1
  {
    var f1 :=
      if !f.active then f
      else if f.duration - 1 <= 0 then f.(duration := f.duration - 1, active := false, cooldown := FudgeMaxCooldown)
      else f.(duration := f.duration - 1);
    if f1.ready then f1
    else if f1.cooldown > 0 then f1.(cooldown := f1.cooldown - 1)
    else f1.(ready := true)
  }

  /** One tick of the shield machine. Its cooldown branch also tests
      `!active`, so the shield is never ready while it is active. */
  function TickShield(s: Shield): (r: Shield)
    ensures !(s.ready && s.active) ==> !(r.ready && r.active)
    ensures r.active <==> s.active && s.timer > 1
    ensures s.active ==> r.timer == s.timer - 1
    ensures !s.active ==> r.timer == s.timer
    ensures s.ready ==> r.ready
    ensures s.active && s.timer <= 1 ==>
      r.cooldown == if s.ready then ShieldMaxCooldown else ShieldMaxCooldown - 1
  {
    var s1 :=
      if !s.active then s
      else if s.timer - 1 <= 0 then s.(timer := s.timer - 1, active := false, cooldown := ShieldMaxCooldown)
      else s.(timer := s.timer - 1);
    if s1.ready || s1.active then s1
    else if s1.cooldown > 0 then s1.(cooldown := s1.cooldown - 1)
    else s1.(ready := true)
  }

  /** What a fudge can look like in a game: its cooldown lies in [0, 300],
      and a ready fudge has cooldown 0 or, once off again, 300. */
  predicate FudgeSettled(f: Fudge) {
    0 <= f.cooldown <= FudgeMaxCooldown &&
    (f.ready ==> f.cooldown == 0 || (f.cooldown == FudgeMaxCooldown && !f.active))
  }

  /** An activation and a tick keep a fudge settled; so every activation a
      game can make starts from cooldown 0 or 300, the two cases that
      FudgeReadyWhileActive and FudgeFullCycle cover. */
  lemma FudgeStaysSettled(f: Fudge)
    requires FudgeSettled(f)
    ensures FudgeSettled(TickFudge(f))
    ensures CanActivateFudge(f) ==> FudgeSettled(ActivateFudge(f))
    ensures CanActivateFudge(f) ==> f.cooldown == 0 || f.cooldown == FudgeMaxCooldown
  {
  }

  /** The machines after `n` ticks. */
  function FudgeAfter(f: Fudge, n: nat): Fudge
    decreases n
  {
    if n == 0 then f else FudgeAfter(TickFudge(f), n - 1)
  }

  function ShieldAfter(s: Shield, n: nat): Shield
    decreases n
  {
    if n == 0 then s else ShieldAfter(TickShield(s), n - 1)
  }

  // ---------------------------------------------------------------------
  // Shield lifecycle

  lemma {:induction false} ShieldAfterAdd(s: Shield, a: nat, b: nat)
    ensures ShieldAfter(s, a + b) == ShieldAfter(ShieldAfter(s, a), b)
    decreases a
  {
    if a > 0 {
      ShieldAfterAdd(TickShield(s), a - 1, b);
    }
  }

  /** While the timer runs, only the timer moves. */
  lemma {:induction false} ShieldCountsDown(s: Shield, k: nat)
    requires s.active && !s.ready && k < s.timer
    ensures ShieldAfter(s, k) == s.(timer := s.timer - k)
    decreases k
  {
    if k > 0 {
      ShieldCountsDown(TickShield(s), k - 1);
    }
  }

  /** While cooling down, only the cooldown moves; one tick after it reaches
      0 the shield is ready. */
  lemma {:induction false} ShieldCoolsDown(s: Shield, k: nat)
    requires !s.active && !s.ready && k <= s.cooldown
    ensures ShieldAfter(s, k) == s.(cooldown := s.cooldown - k)
    decreases k
  {
    if k > 0 {
      ShieldCoolsDown(TickShield(s), k - 1);
    }
  }

  /** After an activation the shield is active during exactly 90 ticks: it
      is still active after 89 of them and off after the 90th, whose tick
      arms the cooldown at 480 and already counts it down once. It becomes
      ready again on the 570th tick after activation (90 + 480) and not before. */
  lemma ShieldLifecycle(s: Shield)
    requires CanActivateShield(s)
    ensures forall n: nat :: n < ShieldDuration ==> ShieldAfter(ActivateShield(s), n).active
    ensures ShieldAfter(ActivateShield(s), ShieldDuration)
            == Shield(false, false, ShieldMaxCooldown - 1, 0)
    ensures forall n: nat :: n < ShieldDuration + ShieldMaxCooldown ==> !ShieldAfter(ActivateShield(s), n).ready
    ensures ShieldAfter(ActivateShield(s), ShieldDuration + ShieldMaxCooldown)
            == Shield(true, false, 0, 0)
  {
    var a := ActivateShield(s);
    ShieldCountsDown(a, ShieldDuration - 1);
    ShieldAfterAdd(a, ShieldDuration - 1, 1);
    var off := ShieldAfter(a, ShieldDuration);
    assert off == Shield(false, false, ShieldMaxCooldown - 1, 0);
    forall n: nat | n < ShieldDuration + ShieldMaxCooldown
      ensures !ShieldAfter(a, n).ready && (n < ShieldDuration ==> ShieldAfter(a, n).active)
    {
      if n < ShieldDuration {
        ShieldCountsDown(a, n);
      } else {
        ShieldAfterAdd(a, ShieldDuration, n - ShieldDuration);
        ShieldCoolsDown(off, n - ShieldDuration);
      }
    }
    ShieldAfterAdd(a, ShieldDuration, ShieldMaxCooldown - 1);
    ShieldCoolsDown(off, ShieldMaxCooldown - 1);
    ShieldAfterAdd(a, ShieldDuration + ShieldMaxCooldown - 1, 1);
  }

  // ---------------------------------------------------------------------
  // Fudge lifecycle

  lemma {:induction false} FudgeAfterAdd(f: Fudge, a: nat, b: nat)
    ensures FudgeAfter(f, a + b) == FudgeAfter(FudgeAfter(f, a), b)
    decreases a
  {
    if a > 0 {
      FudgeAfterAdd(TickFudge(f), a - 1, b);
    }
  }

  /** Active and not ready: the duration and the cooldown both count down. */
  lemma {:induction false} FudgeCountsDownCooling(f: Fudge, k: nat)
    requires f.active && !f.ready && k < f.duration && k <= f.cooldown
    ensures FudgeAfter(f, k) == f.(duration := f.duration - k, cooldown := f.cooldown - k)
    decreases k
  {
    if k > 0 {
      FudgeCountsDownCooling(TickFudge(f), k - 1);
    }
  }

  /** Active and already ready: only the duration counts down. */
  lemma {:induction false} FudgeCountsDownReady(f: Fudge, k: nat)
    requires f.active && f.ready && k < f.duration
    ensures FudgeAfter(f, k) == f.(duration := f.duration - k)
    decreases k
  {
    if k > 0 {
      FudgeCountsDownReady(TickFudge(f), k - 1);
    }
  }

  lemma {:induction false} FudgeCoolsDown(f: Fudge, k: nat)
    requires !f.active && !f.ready && k <= f.cooldown
    ensures FudgeAfter(f, k) == f.(cooldown := f.cooldown - k)
    decreases k
  {
    if k > 0 {
      FudgeCoolsDown(TickFudge(f), k - 1);
    }
  }

  /** The fudge stays active for exactly 28 ticks after an activation,
      whatever its cooldown: active after 27 ticks, off after the 28th. */
  lemma FudgeActiveFor28(f: Fudge)
    requires CanActivateFudge(f) && f.cooldown >= 0
    ensures forall n: nat :: n < FudgeMaxDuration ==> FudgeAfter(ActivateFudge(f), n).active
    ensures !FudgeAfter(ActivateFudge(f), FudgeMaxDuration).active
  {
    var a := ActivateFudge(f);
    forall n: nat | n < FudgeMaxDuration
      ensures FudgeAfter(a, n).active && FudgeAfter(a, n).duration == FudgeMaxDuration - n
    {
      var k: nat := if n <= f.cooldown then n else f.cooldown;
      FudgeCountsDownCooling(a, k);
      if k < n {
        // the cooldown ran out after k ticks; the next tick makes it ready
        FudgeAfterAdd(a, k, 1);
        var b := FudgeAfter(a, k + 1);
        FudgeCountsDownReady(b, n - k - 1);
        FudgeAfterAdd(a, k + 1, n - k - 1);
      }
    }
    FudgeAfterAdd(a, FudgeMaxDuration - 1, 1);
  }

  /** The quirk of the source: activated with its cooldown at 0, as it is
      after a reset, the fudge is ready again one tick later while still
      active. So "never ready and active" does not hold for the fudge. */
  lemma FudgeReadyWhileActive(f: Fudge)
    requires CanActivateFudge(f) && f.cooldown == 0
    ensures FudgeAfter(ActivateFudge(f), 1).ready
    ensures FudgeAfter(ActivateFudge(f), 1).active
    ensures FudgeAfter(ActivateFudge(f), FudgeMaxDuration) == Fudge(true, FudgeMaxCooldown, false, 0)
  {
    var a := ActivateFudge(f);
    var b := TickFudge(a);
    assert FudgeAfter(a, 1) == b;
    FudgeCountsDownReady(b, FudgeMaxDuration - 2);
    FudgeAfterAdd(a, 1, FudgeMaxDuration - 2);
    FudgeAfterAdd(a, FudgeMaxDuration - 1, 1);
  }

  /** Activated with at least 27 ticks of cooldown left (300 after a use
      that skipped the cooldown), the fudge goes through the full cycle: it
      is not ready for 328 ticks (28 active + 300 cooling) and ready on the
      328th. */
  lemma FudgeFullCycle(f: Fudge)
    requires CanActivateFudge(f) && f.cooldown >= FudgeMaxDuration - 1
    ensures FudgeAfter(ActivateFudge(f), FudgeMaxDuration)
            == Fudge(false, FudgeMaxCooldown - 1, false, 0)
    ensures forall n: nat :: n < FudgeMaxDuration + FudgeMaxCooldown ==> !FudgeAfter(ActivateFudge(f), n).ready
    ensures FudgeAfter(ActivateFudge(f), FudgeMaxDuration + FudgeMaxCooldown)
            == Fudge(true, 0, false, 0)
  {
    var a := ActivateFudge(f);
    FudgeCountsDownCooling(a, FudgeMaxDuration - 1);
    FudgeAfterAdd(a, FudgeMaxDuration - 1, 1);
    var off := FudgeAfter(a, FudgeMaxDuration);
    assert off == Fudge(false, FudgeMaxCooldown - 1, false, 0);
    forall n: nat | n < FudgeMaxDuration + FudgeMaxCooldown
      ensures !FudgeAfter(a, n).ready
    {
      if n < FudgeMaxDuration {
        FudgeCountsDownCooling(a, n);
      } else {
        FudgeAfterAdd(a, FudgeMaxDuration, n - FudgeMaxDuration);
        FudgeCoolsDown(off, n - FudgeMaxDuration);
      }
    }
    FudgeAfterAdd(a, FudgeMaxDuration, FudgeMaxCooldown - 1);
    FudgeCoolsDown(off, FudgeMaxCooldown - 1);
    FudgeAfterAdd(a, FudgeMaxDuration + FudgeMaxCooldown - 1, 1);
  }
}
