/** The affine map behind `d3.scaleLinear().domain([d0, d1]).range([r0, r1])`. */
module Scale {
  datatype Linear = Linear(d0: real, d1: real, r0: real, r1: real) {
    /** A scale built from valid data has a non-degenerate domain. */
    predicate Valid() {
      d0 != d1
    }

    function Apply(x: real): real
      requires Valid()
    {
      r0 + (x - d0) / (d1 - d0) * (r1 - r0)
    }
  }

  /** The point a fraction `t` along the domain maps to the point `t` along the range. */
  lemma ApplyFraction(s: Linear, t: real)
    requires s.Valid()
    ensures s.Apply(s.d0 + t * (s.d1 - s.d0)) == s.r0 + t * (s.r1 - s.r0)
  {
    var w := s.d1 - s.d0;
    assert (s.d0 + t * w - s.d0) / w == t;
  }

  /** The domain's endpoints map to the range's endpoints. */
  lemma Endpoints(s: Linear)
    requires s.Valid()
    ensures s.Apply(s.d0) == s.r0 && s.Apply(s.d1) == s.r1
  {
    ApplyFraction(s, 0.0);
    ApplyFraction(s, 1.0);
  }

  /**
   * On an increasing range of width `w`, the point `v` reached at the
   * fraction `t` lies between the endpoints exactly when `t` is in [0, 1].
   */
  lemma BetweenUp(r0: real, w: real, t: real, v: real)
    requires w > 0.0 && v == r0 + t * w
    ensures (0.0 <= t <= 1.0) <==> r0 <= v <= r0 + w
  {
    Scaled(0.0, t, w);
    Scaled(t, 1.0, w);
  }

  /** The same on a decreasing range, of negative width `w`. */
  lemma BetweenDown(r0: real, w: real, t: real, v: real)
    requires w < 0.0 && v == r0 + t * w
    ensures (0.0 <= t <= 1.0) <==> r0 + w <= v <= r0
  {
    ScaledDown(0.0, t, w);
    ScaledDown(t, 1.0, w);
  }

  lemma Scaled(a: real, b: real, w: real)
    requires w > 0.0
    ensures a <= b <==> a * w <= b * w
  {
    if a <= b {
      assert (b - a) * w >= 0.0;
    } else {
      assert (a - b) * w > 0.0;
    }
  }

  lemma ScaledDown(a: real, b: real, w: real)
    requires w < 0.0
    ensures a <= b <==> b * w <= a * w
  {
    if a <= b {
      assert (b - a) * w <= 0.0;
    } else {
      assert (a - b) * w < 0.0;
    }
  }
}
