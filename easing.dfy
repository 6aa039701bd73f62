// Timing shared by the frame loops: the progress of an animation after some
// elapsed time, the ease-out cubic curve and Math.round, on real numbers.

module Easing {

  /** Math.min((time - startTime) / duration, 1): capped at 1, and not floored at 0. */
  function Progress(elapsed: real, duration: real): (p: real)
    requires duration > 0.0
    ensures p <= 1.0
    ensures p == 1.0 <==> elapsed >= duration
    ensures elapsed >= 0.0 ==> p >= 0.0
  {
    var ratio := elapsed / duration;
    if ratio < 1.0 then ratio else 1.0
  }

  function Cube(x: real): real { x * x * x }

  /** The ease-out cubic curve 1 - (1 - p)^3. */
  function EaseOutCubic(p: real): real
  {
    1.0 - Cube(1.0 - p)
  }

  /** start + (target - start) * eased: the value an eased frame shows between two ends. */
  function Lerp(start: real, target: real, eased: real): real
  {
    start + (target - start) * eased
  }

  /** Math.round: the nearest integer, halves rounded up. */
  function Round(x: real): (n: int)
    ensures x - 0.5 < n as real <= x + 0.5
  {
    (x + 0.5).Floor
  }

  lemma CubeMonotone(a: real, b: real)
    requires 0.0 <= a <= b
    ensures Cube(a) <= Cube(b)
  {
    assert a * a <= b * b by {
      assert a * a <= a * b;
      assert a * b <= b * b;
    }
    assert a * a * a <= b * b * a;
    assert b * b * a <= b * b * b;
  }

  /** The curve starts at 0, ends at 1 and stays within [0, 1] in between. */
  lemma EaseBounds(p: real)
    requires 0.0 <= p <= 1.0
    ensures 0.0 <= EaseOutCubic(p) <= 1.0
    ensures p == 0.0 ==> EaseOutCubic(p) == 0.0
    ensures p == 1.0 ==> EaseOutCubic(p) == 1.0
  {
    CubeMonotone(0.0, 1.0 - p);
    CubeMonotone(1.0 - p, 1.0);
  }

  /** The curve never goes back: up to progress 1, later progress is eased at least as far. */
  lemma EaseMonotone(p: real, q: real)
    requires p <= q <= 1.0
    ensures EaseOutCubic(p) <= EaseOutCubic(q)
  {
    CubeMonotone(1.0 - q, 1.0 - p);
  }

  /** Progress never goes back as time advances. */
  lemma ProgressMonotone(e1: real, e2: real, duration: real)
    requires duration > 0.0 && e1 <= e2
    ensures Progress(e1, duration) <= Progress(e2, duration)
  {
    assert e1 / duration <= e2 / duration by {
      assert e2 / duration - e1 / duration == (e2 - e1) / duration;
    }
  }

  lemma RoundMonotone(x: real, y: real)
    requires x <= y
    ensures Round(x) <= Round(y)
  {
  }

  /** Math.round leaves integers as they are. */
  lemma RoundOfInt(n: int)
    ensures Round(n as real) == n
  {
  }
}
