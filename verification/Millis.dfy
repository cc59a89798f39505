/** Wrap-around millisecond time: 32-bit clock readings beside the unbounded time they stand for. */
module Millis {
  import opened Decimal

  const WRAP := 0x1_0000_0000
  const HALF := 0x8000_0000

  /** The 32-bit reading of a true time. */
  function Reading(true_ms: int): uint32 {
    (true_ms % WRAP) as uint32
  }

  function Add32(a: uint32, b: uint32): uint32 {
    ((a as int + b as int) % WRAP) as uint32
  }

  function Sub32(a: uint32, b: uint32): uint32 {
    ((a as int - b as int) % WRAP) as uint32
  }

  function DeadlineReached(now: uint32, deadline: uint32): bool {
    Sub32(now, deadline) < 0x8000_0000
  }

  lemma ModUnique(x: int, q: int, r: int)
    requires x == q * WRAP + r && 0 <= r < WRAP
    ensures x % WRAP == r
  {
  }

  lemma ReadingAdds(a: int, b: nat)
    requires b < HALF
    ensures Add32(Reading(a), b as uint32) == Reading(a + b)
  {
    var q, r := a / WRAP, a % WRAP;
    if r + b < WRAP {
      ModUnique(a + b, q, r + b);
    } else {
      ModUnique(a + b, q + 1, r + b - WRAP);
      ModUnique(r + b, 1, r + b - WRAP);
    }
  }

  lemma ReadingSubtracts(a: int, b: int)
    ensures Sub32(Reading(a), Reading(b)) as int == (a - b) % WRAP
  {
    var x, y := a % WRAP, b % WRAP;
    var r := (a - b) % WRAP;
    var q := (a - b) / WRAP - a / WRAP + b / WRAP;
    assert x - y == q * WRAP + r;
    ModUnique(x - y, q, r);
  }

  /**
   For a deadline at most 2^31 ms ahead, the 32-bit comparison decides as unbounded time does
   exactly when the deadline is still ahead or the time since it is in the lower half of the wrap.
   */
  lemma ComparisonExact(now: int, deadline: int)
    requires deadline - now <= HALF
    ensures (DeadlineReached(Reading(now), Reading(deadline)) <==> now >= deadline) <==>
            (now < deadline || (now - deadline) % WRAP < HALF)
  {
    ReadingSubtracts(now, deadline);
    if now < deadline {
      ModUnique(now - deadline, -1, now - deadline + WRAP);
    }
  }

  /** In particular it is right when the deadline is looked at within 2^31 ms of passing. */
  lemma ComparisonRight(now: int, deadline: int)
    requires deadline - HALF <= now < deadline + HALF
    ensures DeadlineReached(Reading(now), Reading(deadline)) <==> now >= deadline
  {
    ComparisonExact(now, deadline);
  }

  /** A tick that comes too late to tell: 2^31 ms after the deadline it still looks ahead. */
  lemma ComparisonFailsLate()
    ensures !DeadlineReached(Reading(1000 + HALF), Reading(1000))
  {
  }
}
