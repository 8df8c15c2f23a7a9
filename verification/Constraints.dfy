/** `RangeConstraint` and `ChoiceConstraint`: which values satisfy a constraint,
    and what a range constraint rounds a value to. */
module Constraints {
  import opened Types

  function SatisfiedInt(min: int32, max: int32, step: nat, s: int32): bool {
    min <= s <= max && (step == 0 || (s - min) % step == 0)
  }

  function ApplyInt(min: int32, max: int32, step: nat, s: int32): int {
    if s < min then min
    else if s > max then max
    else if step != 0 && (s - min) % step != 0 then s - (s - min) % step
    else s
  }

  /** `std::round`: halves go away from zero. */
  function Round(x: real): int {
    if x >= 0.0 then (x + 0.5).Floor else -((0.5 - x).Floor)
  }

  /** The multiple of `step` above `min` that is nearest to `x`. */
  function GridPoint(min: real, step: real, x: real): real
    requires step != 0.0
  {
    Round((x - min) / step) as real * step + min
  }

  function ApplyFloat(min: real, max: real, step: real, x: real): real {
    if x < min then min
    else if x > max then max
    else if step != 0.0 then
      var y := GridPoint(min, step, x);
      if y < min then min else if y > max then max else y
    else x
  }

  function Abs(x: real): real { if x < 0.0 then -x else x }

  function SatisfiedFloat(min: real, max: real, step: real, x: real): bool {
    min <= x <= max && (step == 0.0 || Abs(ApplyFloat(min, max, step, x) - x) < step * 0.0001)
  }

  /** `IConstraint::satisfied`. The int choice reads the int of any message. */
  predicate Satisfied(c: Constraint, w: Wire) {
    match c
    case IntRange(min, max, step) => w.Int32Wire? && SatisfiedInt(min, max, step, w.i)
    case FloatRange(min, max, step) => w.Float32Wire? && SatisfiedFloat(min, max, step, w.f)
    case IntChoice(choices) => w.Int32Value() in choices
    case StringChoice(strict, choices) => !strict || w.StringValue() in choices
  }

  /** `IConstraint::apply`: an empty message unless a range meets its own kind. */
  function Apply(c: Constraint, w: Wire): Wire {
    match c
    case IntRange(min, max, step) =>
      if w.Int32Wire? then
        ApplyIntFits(min, max, step, w.i);
        Int32Wire(ApplyInt(min, max, step, w.i))
      else KindNotSet
    case FloatRange(min, max, step) =>
      if w.Float32Wire? then Float32Wire(ApplyFloat(min, max, step, w.f)) else KindNotSet
    case _ => KindNotSet
  }

  lemma ApplyIntFits(min: int32, max: int32, step: nat, s: int32)
    ensures -0x8000_0000 <= ApplyInt(min, max, step, s) <= 0x7fff_ffff
  {
    if min <= s <= max && step != 0 { assert (s - min) % step <= s - min; }
  }

  // ---------------------------------------------------------------- integers

  lemma ApplyIntInRange(min: int32, max: int32, step: nat, s: int32)
    requires min <= max
    ensures min <= ApplyInt(min, max, step, s) <= max
  {
    if min <= s <= max && step != 0 { assert (s - min) % step <= s - min; }
  }

  /** Inside the range the result is the greatest grid point not above the input. */
  lemma ApplyIntIsGreatestGridPoint(min: int32, max: int32, step: nat, s: int32, k: nat)
    requires min <= s <= max && step > 0
    ensures var r := ApplyInt(min, max, step, s);
            && r <= s < r + step
            && (r - min) % step == 0
            && (min + k * step <= s ==> min + k * step <= r)
  {
    var d := s - min;
    var q := d / step;
    assert d == q * step + d % step;
    DivModUnique(q * step, step, q, 0);
    assert (q + 1) * step == q * step + step;
    if k <= q { MulMonotone(k, q, step); } else { MulMonotone(q + 1, k, step); }
  }

  lemma MulMonotone(a: int, b: int, d: int)
    requires a <= b && 0 <= d
    ensures a * d <= b * d
  {
    assert (b - a) * d >= 0;
  }

  lemma DivModUnique(x: int, d: int, q: int, r: int)
    requires 0 <= r < d && x == q * d + r
    ensures x / d == q && x % d == r
  {
    var q', r' := x / d, x % d;
    assert x == q' * d + r';
    assert (q + 1) * d == q * d + d && (q' + 1) * d == q' * d + d;
    if q' < q { MulMonotone(q' + 1, q, d); } else if q < q' { MulMonotone(q + 1, q', d); }
  }

  lemma ApplyIntMonotone(min: int32, max: int32, step: nat, s: int32, s': int32)
    requires min <= max && s <= s'
    ensures ApplyInt(min, max, step, s) <= ApplyInt(min, max, step, s')
  {
    ApplyIntInRange(min, max, step, s);
    ApplyIntInRange(min, max, step, s');
    if min <= s && s' <= max && step != 0 {
      var k := (s - min) / step;
      assert s - min == k * step + (s - min) % step;
      ApplyIntIsGreatestGridPoint(min, max, step, s', k);
    }
  }

  /** `satisfied` accepts exactly the fixed points of `apply`. */
  lemma SatisfiedIffFixed(min: int32, max: int32, step: nat, s: int32)
    requires min <= max
    ensures SatisfiedInt(min, max, step, s) <==> ApplyInt(min, max, step, s) == s
  {
  }

  /** `apply` read back as an int32. */
  function ClampedInt(min: int32, max: int32, step: nat, s: int32): int32 {
    ApplyIntFits(min, max, step, s);
    ApplyInt(min, max, step, s)
  }

  /** Two applications always reach a satisfying value... */
  lemma ApplyIntTwice(min: int32, max: int32, step: nat, s: int32)
    requires min <= max
    ensures SatisfiedInt(min, max, step, ClampedInt(min, max, step, ClampedInt(min, max, step, s)))
  {
    ApplyIntInRange(min, max, step, s);
    if step != 0 { ApplyIntIsGreatestGridPoint(min, max, step, ClampedInt(min, max, step, s), 0); }
  }

  /** ... and one application does so for every input exactly when the maximum is
      on the grid, or nothing lies above it: clamping does not look at the grid. */
  lemma ApplyIntOnceIff(min: int32, max: int32, step: nat)
    requires min <= max
    ensures (forall s: int32 :: SatisfiedInt(min, max, step, ClampedInt(min, max, step, s)))
       <==> step == 0 || (max - min) % step == 0 || max == 0x7fff_ffff
  {
    if step == 0 || (max - min) % step == 0 || max == 0x7fff_ffff {
      forall s: int32
        ensures SatisfiedInt(min, max, step, ClampedInt(min, max, step, s))
      {
        ApplyIntTwice(min, max, step, s);
        if min <= s <= max && step != 0 { ApplyIntIsGreatestGridPoint(min, max, step, s, 0); }
      }
    } else {
      var s: int32 := max + 1;
      assert ClampedInt(min, max, step, s) == max;
      assert !SatisfiedInt(min, max, step, ClampedInt(min, max, step, s));
    }
  }

  // ------------------------------------------------------------------ floats

  lemma ApplyFloatInRange(min: real, max: real, step: real, x: real)
    requires min <= max
    ensures min <= ApplyFloat(min, max, step, x) <= max
  {
  }

  /** The grid above `min`. */
  function GridAt(min: real, step: real, n: nat): real { min + n as real * step }

  lemma GridApart(min: real, step: real, m: nat, n: nat)
    requires step > 0.0 && m < n
    ensures GridAt(min, step, m) + step <= GridAt(min, step, n)
  {
    var k: nat := n - m - 1;
    Product(k as real, step);
    assert n as real == m as real + k as real + 1.0;
    assert (m as real + k as real + 1.0) * step == m as real * step + k as real * step + step;
  }

  lemma Product(a: real, b: real)
    requires a >= 0.0 && b > 0.0
    ensures a * b >= 0.0
  {
  }

  lemma Distribute(a: real, b: real, c: real)
    ensures (a + b) * c == a * c + b * c && (a - b) * c == a * c - b * c
  {
  }

  lemma Scaled(a: real, b: real, c: real)
    requires c > 0.0
    ensures a <= b ==> a * c <= b * c
    ensures a < b ==> a * c < b * c
  {
    Distribute(b, a, c);
    if a < b { assert (b - a) * c > 0.0; }
  }

  /** Rounding the quotient gives the grid point at most half a step away. */
  lemma Rounded(min: real, step: real, x: real) returns (n: nat)
    requires x >= min && step > 0.0
    ensures GridPoint(min, step, x) == GridAt(min, step, n)
    ensures -0.5 * step <= x - GridAt(min, step, n) < 0.5 * step
  {
    var z;
    z, n := RoundedQuotient(min, step, x);
    hide GridPoint;
    var moved := HalfStep(z, n as real, step);
    assert x - GridAt(min, step, n) == moved;
  }

  lemma RoundedQuotient(min: real, step: real, x: real) returns (z: real, n: nat)
    requires x >= min && step > 0.0
    ensures z * step == x - min
    ensures n as real - 0.5 <= z < n as real + 0.5
    ensures GridPoint(min, step, x) == GridAt(min, step, n)
  {
    z := (x - min) / step;
    n := Round(z);
  }

  lemma HalfStep(z: real, n: real, step: real) returns (moved: real)
    requires step > 0.0 && n - 0.5 <= z < n + 0.5
    ensures -0.5 * step <= moved < 0.5 * step && moved == z * step - n * step
  {
    moved := ScaledHalf(z - n, step);
    Distribute(z, n, step);
  }

  lemma ScaledHalf(y: real, step: real) returns (moved: real)
    requires step > 0.0 && -0.5 <= y < 0.5
    ensures -0.5 * step <= moved < 0.5 * step && moved == y * step
  {
    moved := y * step;
    Scaled(y, 0.5, step);
    Scaled(-0.5, y, step);
  }

  lemma GridPointOf(min: real, step: real, n: nat)
    requires step > 0.0
    ensures GridAt(min, step, n) >= min && GridPoint(min, step, GridAt(min, step, n)) == GridAt(min, step, n)
  {
    Product(n as real, step);
    hide GridPoint, GridAt;
    var m := Rounded(min, step, GridAt(min, step, n));
    if m < n { GridApart(min, step, m, n); }
    if n < m { GridApart(min, step, n, m); }
  }

  lemma GridMonotone(min: real, step: real, x: real, x': real)
    requires min <= x <= x' && step > 0.0
    ensures GridPoint(min, step, x) <= GridPoint(min, step, x')
  {
    hide GridPoint, GridAt;
    var n := Rounded(min, step, x);
    var n' := Rounded(min, step, x');
    if n < n' { GridApart(min, step, n, n'); }
    if n' < n { GridApart(min, step, n', n); }
  }

  /** Rounding moves an in-range value by at most half a step. */
  lemma ApplyFloatIsNearest(min: real, max: real, step: real, x: real)
    requires min <= x <= max && step > 0.0
    ensures Abs(ApplyFloat(min, max, step, x) - x) <= 0.5 * step
  {
    var n := Rounded(min, step, x);
    hide GridPoint, GridAt;
  }

  /** Greater inputs never give smaller results. */
  lemma ApplyFloatMonotone(min: real, max: real, step: real, x: real, x': real)
    requires min <= max && step >= 0.0 && x <= x'
    ensures ApplyFloat(min, max, step, x) <= ApplyFloat(min, max, step, x')
  {
    if min <= x && x' <= max && step > 0.0 { GridMonotone(min, step, x, x'); }
  }

  /** The grid point nearest to `x`, the upper one of two. */
  ghost predicate Nearest(min: real, step: real, x: real, n: nat) {
    -0.5 * step <= x - GridAt(min, step, n) < 0.5 * step
  }

  /** A float satisfies a range with a step exactly if it is in the range and within a ten
      thousandth of the step from the grid point nearest to it, or from the maximum if that
      lies above. */
  lemma SatisfiedFloatIff(min: real, max: real, step: real, x: real)
    requires min <= max && step > 0.0
    ensures SatisfiedFloat(min, max, step, x) <==>
              && min <= x <= max
              && exists n: nat :: Nearest(min, step, x, n) &&
                   var y := if GridAt(min, step, n) > max then max else GridAt(min, step, n);
                   -0.0001 * step < x - y < 0.0001 * step
  {
    if min <= x <= max {
      var n := Rounded(min, step, x);
      GridPointOf(min, step, n);
      hide GridPoint, GridAt;
      forall m: nat | Nearest(min, step, x, m) ensures m == n {
        if n < m { GridApart(min, step, n, m); }
        if m < n { GridApart(min, step, m, n); }
      }
      assert Nearest(min, step, x, n);
    }
  }

  ghost predicate OnGrid(min: real, step: real, x: real) {
    exists n: nat :: x == GridAt(min, step, n)
  }

  /** The grid point nearest to the maximum lies above it. */
  ghost predicate RoundsPast(min: real, max: real, step: real) {
    exists n: nat :: max < GridAt(min, step, n) <= max + 0.5 * step
  }

  /** What a range leaves alone: what is on the grid, and the maximum if it rounds up. */
  ghost predicate SettledFloat(min: real, max: real, step: real, x: real) {
    min <= x <= max && (step == 0.0 || OnGrid(min, step, x) || (x == max && RoundsPast(min, max, step)))
  }

  lemma ApplyFloatFixedIff(min: real, max: real, step: real, x: real)
    requires min <= max && step >= 0.0
    ensures ApplyFloat(min, max, step, x) == x <==> SettledFloat(min, max, step, x)
  {
    if min <= x <= max && step > 0.0 {
      var n := Rounded(min, step, x);
      GridPointOf(min, step, n);
      hide GridPoint, GridAt;
      if OnGrid(min, step, x) {
        var m: nat :| x == GridAt(min, step, m);
        GridPointOf(min, step, m);
      }
      if x == max && RoundsPast(min, max, step) {
        var m: nat :| max < GridAt(min, step, m) <= max + 0.5 * step;
        if n < m { GridApart(min, step, n, m); }
        if m < n { GridApart(min, step, m, n); }
      }
    }
  }

  /** From inside the range one application settles, so from anywhere two do. */
  lemma ApplyFloatTwice(min: real, max: real, step: real, x: real)
    requires min <= max && step >= 0.0
    ensures var twice := ApplyFloat(min, max, step, ApplyFloat(min, max, step, x));
            ApplyFloat(min, max, step, twice) == twice
  {
    if step > 0.0 { ApplyFloatSettles(min, max, step, ApplyFloat(min, max, step, x)); }
  }

  lemma ApplyFloatSettles(min: real, max: real, step: real, x: real)
    requires min <= x <= max && step > 0.0
    ensures var once := ApplyFloat(min, max, step, x);
            ApplyFloat(min, max, step, once) == once
  {
    var n := Rounded(min, step, x);
    GridPointOf(min, step, n);
    // if rounding up passed the maximum, the maximum itself rounds up as well
    GridMonotone(min, step, x, max);
    hide GridPoint, GridAt;
  }
}
