/**
 timer/timer.h and timer/timers.cpp: deadlines are 32-bit milliseconds that wrap around.
 */
module Timers {
  import opened MachineWord
  import opened RedBlackOrder

  const HALF := 0x8000_0000

  type Msec = Word

  datatype Timer = Timer(msec: Msec, handler: nat, id: nat)

  // The conversion of an unsigned difference to int.
  function ToInt(u: Msec): int {
    if u < HALF then u else u - WORD
  }

  // timer::operator-; operator< is whether the result is negative, operator== compares the words.
  function Minus(a: Timer, b: Timer): int {
    ToInt((a.msec - b.msec) % WORD)
  }

  // Where a deadline lies after `base`, on the unwrapped time axis.
  function Unwrap(base: int, t: Timer): int {
    base + (t.msec - base) % WORD
  }

  ghost predicate InWindow(base: int, s: set<Timer>) {
    forall t :: t in s ==> Unwrap(base, t) < base + HALF
  }

  /** Inside a window narrower than half the range, the wrapping comparison agrees with unwrapped time. */
  lemma {:induction false} WindowOrder(base: int, s: set<Timer>)
    requires InWindow(base, s)
    ensures forall a, b :: a in s && b in s ==> Minus(a, b) == Unwrap(base, a) - Unwrap(base, b)
    ensures StrictWeak(Minus, s)
  {
    forall a, b | a in s && b in s
      ensures Minus(a, b) == Unwrap(base, a) - Unwrap(base, b)
    {
      UnwrapMinus(base, a, b);
    }
  }

  lemma {:induction false} UnwrapMinus(base: int, a: Timer, b: Timer)
    requires Unwrap(base, a) < base + HALF && Unwrap(base, b) < base + HALF
    ensures Minus(a, b) == Unwrap(base, a) - Unwrap(base, b)
  {
    var d := Unwrap(base, a) - Unwrap(base, b);
    ModDifference(a.msec - base, b.msec - base);
    assert (a.msec - b.msec) % WORD == d % WORD;
  }

  lemma {:induction false} ModDifference(x: int, y: int)
    ensures (x - y) % WORD == (x % WORD - y % WORD) % WORD
  {
    var i, j := x / WORD, y / WORD;
    assert x - y == (x % WORD - y % WORD) + WORD * (i - j);
    ModShift(x % WORD - y % WORD, i - j);
  }

  lemma {:induction false} ModShift(x: int, k: int)
    ensures (x + WORD * k) % WORD == x % WORD
  {
  }

  /** The bound is sharp: two deadlines half the range apart are each less than the other. */
  lemma {:induction false} WindowSharp(a: Timer, b: Timer)
    requires (a.msec - b.msec) % WORD == HALF
    ensures Minus(a, b) < 0 && Minus(b, a) < 0 && !StrictWeak(Minus, {a, b})
  {
  }

  // The test in handle_expired, on words and without wrapping.
  predicate StillRunning(now: Msec, t: Timer) {
    now < t.msec
  }

  /**
   For a deadline d and a time n less than half the range apart, the test tells whether the deadline is still
   ahead exactly when no multiple of 2^32 milliseconds lies between them.
   */
  lemma {:induction false} ExpiryTestExact(n: int, d: int, t: Timer)
    requires -HALF < d - n < HALF && t.msec == d % WORD
    ensures (StillRunning(n % WORD, t) <==> n < d) <==> n / WORD == d / WORD
  {
    assert n == WORD * (n / WORD) + n % WORD && d == WORD * (d / WORD) + d % WORD;
    if n / WORD == d / WORD {
    } else if n / WORD < d / WORD {
      EpochStep(n / WORD, d / WORD);
    } else {
      EpochStep(d / WORD, n / WORD);
    }
  }

  lemma {:induction false} EpochStep(i: int, j: int)
    requires i < j
    ensures WORD * (j - i) >= WORD
  {
  }

  lemma {:induction false} UnwrapDeadline(base: int, t: Timer, d: int)
    requires t.msec == d % WORD && base <= d < base + WORD
    ensures Unwrap(base, t) == d
  {
    var k := d / WORD;
    assert t.msec - base == d - base + WORD * -k;
    ModShift(d - base, -k);
  }
}
