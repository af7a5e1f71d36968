/** The overlay mask, kept abstract.

    Every annotation is drawn with the same translucent fill and the mask
    starts fully transparent, so what an "over" composite leaves in a pixel
    is determined by the circles composited into it since the pixel was last
    cleared, in order. That sequence is what a pixel holds here. Painting
    appends a circle to the pixels it covers; erasing clears them. */
module Compositor {
  import opened Geometry

  /** Circles composited over a transparent pixel, oldest first. */
  type Layers = seq<Circle>

  /** A mask gives every pixel position its layers. */
  type Mask = Pixel -> Layers

  /** A fully transparent mask, the one made when no mask file exists. */
  function Blank(): Mask
  {
    p => []
  }

  /** Pixels that `add_mezo_to_viewer` draws for a circle: the filled disc
      with its outline, and the centre dot of radius 2 drawn on top. */
  predicate PaintCovers(c: Circle, p: Pixel)
  {
    InDisc(p, c) || DistSq(p, c.center) <= 4
  }

  /** Pixels that `remove_mezo_from_viewer` makes transparent: the disc. */
  predicate EraseCovers(c: Circle, p: Pixel)
  {
    InDisc(p, c)
  }

  function Paint(m: Mask, c: Circle): Mask
  {
    p => if PaintCovers(c, p) then m(p) + [c] else m(p)
  }

  function Erase(m: Mask, c: Circle): Mask
  {
    p => if EraseCovers(c, p) then [] else m(p)
  }

  /** The circles are erased one after the other, first to last. */
  function EraseAll(m: Mask, cs: seq<Circle>): Mask
    decreases |cs|
  {
    if cs == [] then m else EraseAll(Erase(m, cs[0]), cs[1..])
  }

  /** The circles are painted one after the other, first to last. */
  function PaintAll(m: Mask, cs: seq<Circle>): Mask
    decreases |cs|
  {
    if cs == [] then m else PaintAll(Paint(m, cs[0]), cs[1..])
  }

  /** Some circle of `cs` clears pixel `p` when erased. */
  predicate ErasedBy(cs: seq<Circle>, p: Pixel)
  {
    exists i :: 0 <= i < |cs| && EraseCovers(cs[i], p)
  }

  /** The circles of `cs` that paint pixel `p`, in the order of `cs`. */
  function Covering(cs: seq<Circle>, p: Pixel): (r: seq<Circle>)
    ensures |r| <= |cs|
    ensures forall c :: c in r <==> c in cs && PaintCovers(c, p)
    decreases |cs|
  {
    if cs == [] then []
    else (if PaintCovers(cs[0], p) then [cs[0]] else []) + Covering(cs[1..], p)
  }

  lemma {:induction false} EraseAllAppend(m: Mask, a: seq<Circle>, b: seq<Circle>)
    ensures EraseAll(m, a + b) == EraseAll(EraseAll(m, a), b)
    decreases |a|
  {
    if a != [] {
      assert (a + b)[0] == a[0] && (a + b)[1..] == a[1..] + b;
      EraseAllAppend(Erase(m, a[0]), a[1..], b);
    } else {
      assert a + b == b;
    }
  }

  lemma {:induction false} PaintAllAppend(m: Mask, a: seq<Circle>, b: seq<Circle>)
    ensures PaintAll(m, a + b) == PaintAll(PaintAll(m, a), b)
    decreases |a|
  {
    if a != [] {
      assert (a + b)[0] == a[0] && (a + b)[1..] == a[1..] + b;
      PaintAllAppend(Paint(m, a[0]), a[1..], b);
    } else {
      assert a + b == b;
    }
  }

  /** After a sequence of erasures a pixel is transparent exactly when one
      of the circles covers it, and untouched otherwise. */
  lemma {:induction false} EraseAllAt(m: Mask, cs: seq<Circle>, p: Pixel)
    ensures EraseAll(m, cs)(p) == if ErasedBy(cs, p) then [] else m(p)
    decreases |cs|
  {
    if cs != [] {
      EraseAllAt(Erase(m, cs[0]), cs[1..], p);
      if ErasedBy(cs[1..], p) {
        var i :| 0 <= i < |cs[1..]| && EraseCovers(cs[1..][i], p);
        assert EraseCovers(cs[i + 1], p);
      }
    }
  }

  /** After a sequence of paints a pixel holds its old layers followed by
      the circles that cover it, in painting order. */
  lemma {:induction false} PaintAllAt(m: Mask, cs: seq<Circle>, p: Pixel)
    ensures PaintAll(m, cs)(p) == m(p) + Covering(cs, p)
    decreases |cs|
  {
    if cs != [] {
      PaintAllAt(Paint(m, cs[0]), cs[1..], p);
    }
  }

  /** Erasing a set of circles and then painting a sequence of them leaves
      each pixel either cleared or untouched, followed by the circles of the
      painted sequence that cover it. */
  lemma EraseThenPaintAt(m: Mask, erased: seq<Circle>, painted: seq<Circle>, p: Pixel)
    ensures PaintAll(EraseAll(m, erased), painted)(p)
         == (if ErasedBy(erased, p) then [] else m(p)) + Covering(painted, p)
  {
    PaintAllAt(EraseAll(m, erased), painted, p);
    EraseAllAt(m, erased, p);
  }

  /** A circle whose radius is at least 2 contains its centre dot, so
      erasing it clears everything painting it drew. */
  lemma EraseClearsPaint(c: Circle, p: Pixel)
    requires c.radius >= 2.0
    ensures PaintCovers(c, p) <==> EraseCovers(c, p)
  {
    if DistSq(p, c.center) <= 4 {
      assert DistSq(p, c.center) as real <= 4.0 <= c.radius * c.radius;
    }
  }

  /** A circle of radius below 1 (a manual selection whose two clicks are
      close together) keeps part of its centre dot after erasing: the pixel
      next to the centre is painted but not cleared. */
  lemma SmallCircleLeavesDot(c: Circle)
    requires 0.0 <= c.radius < 1.0
    ensures PaintCovers(c, Pixel(c.center.x + 1, c.center.y))
    ensures !EraseCovers(c, Pixel(c.center.x + 1, c.center.y))
  {
    assert DistSq(Pixel(c.center.x + 1, c.center.y), c.center) == 1;
    SquareMonotone(c.radius, 1.0);
    assert 1.0 * 1.0 == 1.0;
  }
}
