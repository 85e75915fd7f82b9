/** 32-bit millisecond time. `Stamp(t)` is what the clock shows at unbounded time `t`. */
module TimerAsm {
  import opened Prelude

  const HALF := 0x8000_0000

  type u32 = x: int | 0 <= x < WRAP

  function Stamp(t: int): u32 {
    t % WRAP
  }

  // Unsigned 32-bit subtraction.
  function Sub32(a: u32, b: u32): u32 {
    (a - b) % WRAP
  }

  // Unsigned 32-bit addition.
  function Add32(a: u32, b: u32): u32 {
    (a + b) % WRAP
  }

  // is_timer_expired on the target: one minus the sign bit of current - next.
  predicate IsTimerExpired(current: u32, next: u32) {
    1 - Sub32(current, next) / HALF == 1
  }

  // calculate_drift: the difference read as a signed number.
  function CalculateDrift(current: u32, scheduled: u32): int {
    var d := Sub32(current, scheduled);
    if d < HALF then d else d - WRAP
  }

  // The heap order of the timers: (long)(a - b) > 0.
  predicate Later(a: u32, b: u32) {
    CalculateDrift(a, b) > 0
  }

  lemma StampAdd(t: int, d: u32)
    ensures Add32(Stamp(t), d) == Stamp(t + d)
  {
  }

  // Less than 2^31 ms apart, 32-bit differences are the true differences ...
  lemma DriftIsTrue(a: int, b: int)
    requires -HALF <= a - b < HALF
    ensures CalculateDrift(Stamp(a), Stamp(b)) == a - b
    ensures Later(Stamp(a), Stamp(b)) <==> a > b
    ensures IsTimerExpired(Stamp(a), Stamp(b)) <==> a >= b
    ensures a >= b ==> Sub32(Stamp(a), Stamp(b)) == a - b
  {
    assert Sub32(Stamp(a), Stamp(b)) == (a - b) % WRAP;
  }

  // ... and outside that window the expiry test is exactly the true one shifted by whole wraps.
  lemma ExpiryIsPeriodic(now: int, deadline: int)
    ensures IsTimerExpired(Stamp(now), Stamp(deadline)) <==> exists k :: 0 <= now - deadline + k * WRAP < HALF
  {
    var d := now - deadline;
    assert Sub32(Stamp(now), Stamp(deadline)) == d % WRAP;
    Residue(d, -(d / WRAP));
    forall k | 0 <= d + k * WRAP < HALF ensures d % WRAP < HALF { Residue(d, k); }
  }

  // A deadline still to come is taken for expired exactly when it is more than 2^31 ms away.
  lemma ExpiryIsEarly(now: int, deadline: int)
    requires deadline - now < WRAP
    ensures IsTimerExpired(Stamp(now), Stamp(deadline)) && now < deadline <==> deadline - now > HALF
  {
    var d := now - deadline;
    assert Sub32(Stamp(now), Stamp(deadline)) == d % WRAP;
    if d < 0 { Residue(d, 1); }
  }

  lemma Residue(d: int, k: int)
    ensures 0 <= d + k * WRAP < WRAP ==> d % WRAP == d + k * WRAP
    ensures k == -(d / WRAP) ==> d + k * WRAP == d % WRAP
  {
    assert d == (d / WRAP) * WRAP + d % WRAP;
    assert d + k * WRAP == (d / WRAP + k) * WRAP + d % WRAP;
  }

  // The difference the other way round.
  lemma SubNegated(a: int, b: int)
    ensures Sub32(Stamp(a), Stamp(b)) == (a - b) % WRAP && Sub32(Stamp(b), Stamp(a)) == (b - a) % WRAP
    ensures (b - a) % WRAP == if (a - b) % WRAP == 0 then 0 else WRAP - (a - b) % WRAP
  {
    var d := a - b;
    Residue(-d, d / WRAP + 1);
    Residue(-d, d / WRAP);
    assert d == (d / WRAP) * WRAP + d % WRAP;
  }
}
