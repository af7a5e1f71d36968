/** Points, rounding and the circle predicates of the annotation engine.

    The editor measures Euclidean distances with a square root and compares
    them with radii. Here every comparison is stated on the squared distance,
    which for non-negative lengths is the same comparison; the lemmas at the
    end of the module prove that equivalence for any value a square root
    could return. */
module Geometry {

  datatype Option<T> = None | Some(value: T)

  /** A pointer position in viewport coordinates (fractional). */
  datatype Point = Point(x: real, y: real)

  /** An integer position: an image pixel, or a rounded viewport offset. */
  datatype Pixel = Pixel(x: int, y: int)

  /** A circle: integer centre in image pixels and a real radius. */
  datatype Circle = Circle(center: Pixel, radius: real)

  /** Python's `round(x)` to an integer. Ties are rounded up here, where
      Python rounds them to the even neighbour. */
  function Round(x: real): (r: int)
    ensures x - 0.5 < r as real <= x + 0.5
  {
    (x + 0.5).Floor
  }

  /** Rounding gives `n` exactly for the half-open interval of width one
      around `n`. */
  lemma RoundIs(x: real, n: int)
    ensures Round(x) == n <==> n as real - 0.5 <= x < n as real + 0.5
  {
  }

  /** `round(x, 5)` compared through its integer numerator. */
  function Round5(x: real): (r: int)
    ensures x * 100000.0 - 0.5 < r as real <= x * 100000.0 + 0.5
  {
    Round(x * 100000.0)
  }

  /** Squared Euclidean distance between two pixels. */
  function DistSq(a: Pixel, b: Pixel): (d: int)
    ensures d >= 0
    ensures d == 0 <==> a == b
  {
    (b.x - a.x) * (b.x - a.x) + (b.y - a.y) * (b.y - a.y)
  }

  /** The closed disc test `sqrt(dx^2 + dy^2) <= radius` of the remove tool. */
  predicate InDisc(p: Pixel, c: Circle)
  {
    c.radius >= 0.0 && DistSq(p, c.center) as real <= c.radius * c.radius
  }

  /** `circles_intersect`: the distance of the centres is strictly less than
      the sum of the radii. */
  predicate Intersect(a: Circle, b: Circle)
  {
    var s := a.radius + b.radius;
    s > 0.0 && DistSq(a.center, b.center) as real < s * s
  }

  /** For non-negative reals, comparing squares compares the values. */
  lemma SquareMonotone(u: real, v: real)
    requires u >= 0.0 && v >= 0.0
    ensures u <= v <==> u * u <= v * v
    ensures u < v <==> u * u < v * v
  {
    if u < v {
      var uu, uv, vv := u * u, u * v, v * v;
      assert uv - uu >= 0.0;
      assert vv - uv > 0.0;
    } else if u > v {
      var uu, uv, vv := u * u, u * v, v * v;
      assert uv - vv >= 0.0;
      assert uu - uv > 0.0;
    }
  }

  /** `InDisc` is the source's test: for the distance `d` that `math.sqrt`
      returns (the non-negative root of the squared distance),
      `d <= radius` holds exactly when the pixel is in the disc. */
  lemma InDiscIsDistanceTest(p: Pixel, c: Circle, d: real)
    requires d >= 0.0 && d * d == DistSq(p, c.center) as real
    ensures InDisc(p, c) <==> d <= c.radius
  {
    if c.radius >= 0.0 {
      SquareMonotone(d, c.radius);
    }
  }

  /** `Intersect` is the source's test `distance < r1 + r2`, for the
      distance `d` that `math.sqrt` returns. */
  lemma IntersectIsDistanceTest(a: Circle, b: Circle, d: real)
    requires d >= 0.0 && d * d == DistSq(a.center, b.center) as real
    ensures Intersect(a, b) <==> d < a.radius + b.radius
  {
    var s := a.radius + b.radius;
    if s > 0.0 {
      SquareMonotone(d, s);
    }
  }

  /** Intersection does not depend on the order of the two circles. */
  lemma IntersectSymmetric(a: Circle, b: Circle)
    ensures Intersect(a, b) <==> Intersect(b, a)
  {
    assert DistSq(a.center, b.center) == DistSq(b.center, a.center);
  }
}
