/** The two numeric animation helpers the queue screens use
    (client/lib/animations.ts). JavaScript numbers are modelled as exact
    reals; rounding and NaN are not modelled. */
module Animations {

  /** `entrance.staggerDelay`: milliseconds between consecutive items. */
  const DefaultStaggerDelay: real := 50.0

  function Min(a: real, b: real): real {
    if a <= b then a else b
  }

  function Max(a: real, b: real): real {
    if a >= b then a else b
  }

  /** `Math.min(Math.max(value, min), max)`. */
  function Clamp(value: real, min: real, max: real): (r: real)
    ensures r <= max
    ensures min <= max ==> min <= r
    ensures min <= value <= max ==> r == value
    ensures min > max ==> r == max
    ensures value < min <= max ==> r == min
    ensures min <= max < value ==> r == max
  {
    Min(Max(value, min), max)
  }

  /** Clamping twice into the same range changes nothing more. */
  lemma ClampIdempotent(value: real, min: real, max: real)
    ensures Clamp(Clamp(value, min, max), min, max) == Clamp(value, min, max)
  {
  }

  /** Clamping preserves order. */
  lemma ClampMonotone(a: real, b: real, min: real, max: real)
    requires a <= b
    ensures Clamp(a, min, max) <= Clamp(b, min, max)
  {
  }

  function StaggerDelay(index: real, baseDelay: real): real {
    index * baseDelay
  }

  /** `getStaggerDelay(index)` with the default base delay. */
  function DefaultStagger(index: real): real {
    StaggerDelay(index, DefaultStaggerDelay)
  }

  /** With the default base delay, item `n` waits `50 * n` milliseconds:
      items enter every 50 ms, in order, starting at once. */
  lemma DefaultStaggerSpacing(i: real, j: real)
    requires 0.0 <= i <= j
    ensures DefaultStagger(0.0) == 0.0
    ensures DefaultStagger(i + 1.0) - DefaultStagger(i) == 50.0
    ensures DefaultStagger(i) <= DefaultStagger(j)
  {
    StaggerDelayOrdered(i, j, DefaultStaggerDelay);
  }

  /** The first item starts at once, later items never earlier than earlier
      ones, and consecutive items are exactly one base delay apart. */
  lemma StaggerDelayOrdered(i: real, j: real, baseDelay: real)
    requires baseDelay >= 0.0
    requires 0.0 <= i <= j
    ensures StaggerDelay(0.0, baseDelay) == 0.0
    ensures 0.0 <= StaggerDelay(i, baseDelay) <= StaggerDelay(j, baseDelay)
    ensures StaggerDelay(i + 1.0, baseDelay) - StaggerDelay(i, baseDelay) == baseDelay
  {
    assert (j - i) * baseDelay >= 0.0;
  }
}
