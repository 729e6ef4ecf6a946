/** Scalar helpers the reel uses from the engine's maths library, stated exactly
    over the reals, and the arithmetic of counting slot-width crossings. */
module Motion {

  function Abs(x: real): (r: real)
    ensures r >= 0.0 && (r == x || r == -x)
  {
    if x < 0.0 then -x else x
  }

  /** The engine's sign: zero counts as positive. */
  function Sign(x: real): (r: real)
    ensures (r == 1.0 || r == -1.0) && r * x == Abs(x)
    ensures x == 0.0 ==> r == 1.0
  {
    if x >= 0.0 then 1.0 else -1.0
  }

  function Clamp01(t: real): (r: real)
    ensures 0.0 <= r <= 1.0
    ensures 0.0 <= t <= 1.0 ==> r == t
  {
    if t < 0.0 then 0.0 else if t > 1.0 then 1.0 else t
  }

  /** `x` lies on the closed segment between `a` and `b`, in either order. */
  predicate Between(x: real, a: real, b: real) {
    (a <= x <= b) || (b <= x <= a)
  }

  /** Interpolation with the parameter clamped to [0, 1]: the result never
      leaves the segment between the two end points and is one of them once the
      parameter is outside the unit interval. */
  function Lerp(a: real, b: real, t: real): (r: real)
    ensures Between(r, a, b)
    ensures t <= 0.0 ==> r == a
    ensures t >= 1.0 ==> r == b
  {
    var c := Clamp01(t);
    var d := b - a;
    var m := d * c;
    ScaleWithin(d, c);
    assert t <= 0.0 ==> m == 0.0;
    assert t >= 1.0 ==> m == d;
    a + m
  }

  lemma MulMonotone(a: real, b: real, c: real)
    requires a <= b && c >= 0.0
    ensures a * c <= b * c
  {
    assert b * c - a * c == (b - a) * c;
  }

  lemma MulStrict(a: real, b: real, c: real)
    requires a < b && c > 0.0
    ensures a * c < b * c
  {
    assert b * c - a * c == (b - a) * c;
  }

  /** A distance at least `a` widths and below `b` widths puts `a` below `b`. */
  lemma MulCancel(a: real, b: real, c: real, x: real)
    requires c > 0.0 && a * c <= x < b * c
    ensures a < b
  {
    if b <= a {
      MulMonotone(b, a, c);
    }
  }

  /** Scaling `d` by a factor in [0, 1] stays between 0 and `d`. */
  lemma ScaleWithin(d: real, c: real)
    requires 0.0 <= c <= 1.0
    ensures Between(d * c, 0.0, d)
  {
    if d >= 0.0 {
      MulMonotone(c, 1.0, d);
    } else {
      MulMonotone(c, 1.0, -d);
    }
  }

  /** The number of whole slot widths in a displacement `d`: the `k` with
      `k * spacing <= |d| < (k + 1) * spacing`. */
  function Crossings(d: real, spacing: real): (k: nat)
    requires spacing > 0.0
    ensures k as real * spacing <= Abs(d) < (k + 1) as real * spacing
  {
    FloorBrackets(Abs(d), spacing);
    (Abs(d) / spacing).Floor
  }

  lemma FloorBrackets(x: real, spacing: real)
    requires x >= 0.0 && spacing > 0.0
    ensures (x / spacing).Floor >= 0
    ensures (x / spacing).Floor as real * spacing <= x < ((x / spacing).Floor + 1) as real * spacing
  {
    FloorBelow(x, spacing);
    FloorAbove(x, spacing);
  }

  lemma FloorBelow(x: real, spacing: real)
    requires x >= 0.0 && spacing > 0.0
    ensures (x / spacing).Floor >= 0
    ensures (x / spacing).Floor as real * spacing <= x
  {
    var q := x / spacing;
    assert 0.0.Floor <= q.Floor;
    assert x == q * spacing;
    var kr := q.Floor as real;
    MulMonotone(kr, q, spacing);
  }

  lemma FloorAbove(x: real, spacing: real)
    requires x >= 0.0 && spacing > 0.0
    ensures x < ((x / spacing).Floor + 1) as real * spacing
  {
    var q := x / spacing;
    var next := (q.Floor + 1) as real;
    assert x == q * spacing;
    assert q < next;
    MulStrict(q, next, spacing);
    assert q * spacing < next * spacing;
  }

  /** The crossing count is the only `k` that brackets the displacement. */
  lemma CrossingsUnique(d: real, spacing: real, k: int)
    requires spacing > 0.0
    requires k as real * spacing <= Abs(d) < (k + 1) as real * spacing
    ensures Crossings(d, spacing) == k
  {
    var c := Crossings(d, spacing);
    if c < k {
      SingleBracket(c, k, Abs(d), spacing);
    } else if c > k {
      SingleBracket(k, c, Abs(d), spacing);
    }
  }

  /** A distance below `lo + 1` widths is below every larger whole count. */
  lemma SingleBracket(lo: int, hi: int, x: real, spacing: real)
    requires lo < hi && spacing > 0.0
    requires x < (lo + 1) as real * spacing
    ensures x < hi as real * spacing
  {
    var l1, h := (lo + 1) as real, hi as real;
    MulMonotone(l1, h, spacing);
  }

  /** A jump of three and a half slot widths, in either direction, is three
      crossings: not one, not four. */
  lemma ThreeAndAHalfWidthsCrossThree(newX: real, last: real, spacing: real)
    requires spacing > 0.0
    requires newX - last == 3.5 * spacing || newX - last == -3.5 * spacing
    ensures Crossings(newX - last, spacing) == 3
  {
    CrossingsUnique(newX - last, spacing, 3);
  }

  /** One step of the crossing loop: moving `last` one width toward `x` when
      at least one width separates them keeps `last` between its old value and
      `x`, and takes exactly one width off the gap. */
  lemma StepToward(x: real, last: real, spacing: real)
    requires spacing > 0.0 && Abs(x - last) >= spacing
    ensures Abs(x - (last + Sign(x - last) * spacing)) == Abs(x - last) - spacing
    ensures Between(last + Sign(x - last) * spacing, last, x)
  {
  }

  /** Taking one width off a gap of at least one width takes one crossing
      off its count; a gap below one width has none. */
  lemma CrossingsStep(d: real, d': real, spacing: real)
    requires spacing > 0.0 && Abs(d) >= spacing && Abs(d') == Abs(d) - spacing
    ensures Crossings(d, spacing) >= 1
    ensures Crossings(d', spacing) == Crossings(d, spacing) - 1
  {
    var c := Crossings(d, spacing);
    var below, at := (c - 1) as real, c as real;
    assert below * spacing == at * spacing - spacing;
    assert ((c - 1) + 1) as real * spacing == at * spacing;
    CrossingsUnique(d', spacing, c - 1);
  }

  /** Without a positive spacing the crossing loop's guard holds before and
      after every step, so the loop never ends. */
  lemma GuardHoldsWithoutSpacing(x: real, last: real, spacing: real)
    requires spacing <= 0.0
    ensures Abs(x - last) >= spacing
    ensures Abs(x - (last + Sign(x - last) * spacing)) >= spacing
  {
  }

  lemma CrossingsNone(d: real, spacing: real)
    requires spacing > 0.0 && Abs(d) < spacing
    ensures Crossings(d, spacing) == 0
  {
    CrossingsUnique(d, spacing, 0);
  }

  /** A point between two points of a segment lies on the segment. */
  lemma BetweenTransitive(x: real, a: real, b: real, lo: real, hi: real)
    requires Between(a, lo, hi) && Between(b, lo, hi) && Between(x, a, b)
    ensures Between(x, lo, hi)
  {
  }

  /** While at least one width is left, `last` has not passed `x`: its moves
      so far all went the way the first one did. */
  lemma SameDirection(x: real, last0: real, last: real, moved: real, spacing: real)
    requires spacing > 0.0 && moved >= 0.0
    requires last == last0 + Sign(x - last0) * moved
    requires Abs(x - last) == Abs(x - last0) - moved
    requires Abs(x - last) >= spacing
    ensures Sign(x - last) == Sign(x - last0)
  {
  }
}
