/** The traversal behind `recursive_removing` and `recursive_adding`.

    Both walk `all_mezo` in order; for each row that intersects the current
    start row, they handle that row and recurse with it as the new start and
    with a copy of the list without it. There is no global visited set: the
    sibling calls each get their own copy, so a row reachable along several
    paths is handled once per path. */
module Overlap {
  import opened Geometry
  import opened Store
  import opened Compositor

  /** `all_mezo.copy()` followed by `pop(i)`. */
  function Without(all: seq<MezoRow>, i: nat): (r: seq<MezoRow>)
    requires i < |all|
    ensures |r| == |all| - 1
    ensures forall x :: x in all && x != all[i] ==> x in r
    ensures forall x :: x in r ==> x in all
  {
    all[..i] + all[i + 1..]
  }

  /** Whether the loop at index `i` handles row `all[i]`. */
  predicate Hits(start: MezoRow, row: MezoRow)
  {
    Intersect(RowCircle(start), RowCircle(row))
  }

  /** The rows handled by the loop over the first `i` entries of `all`
      (and by the calls it makes), in the order they are handled. */
  function VisitUpTo(start: MezoRow, all: seq<MezoRow>, i: nat): (v: seq<MezoRow>)
    requires i <= |all|
    ensures forall x :: x in v ==> x in all
    decreases |all|, i
  {
    if i == 0 then []
    else
      var w := Without(all, i - 1);
      VisitUpTo(start, all, i - 1)
      + (if Hits(start, all[i - 1]) then [all[i - 1]] + VisitUpTo(all[i - 1], w, |w|) else [])
  }

  /** The rows `recursive_removing(start, all)` erases, and
      `recursive_adding(start, all)` paints, in that order. */
  function Visit(start: MezoRow, all: seq<MezoRow>): seq<MezoRow>
  {
    VisitUpTo(start, all, |all|)
  }

  function Circles(rows: seq<MezoRow>): (cs: seq<Circle>)
    ensures |cs| == |rows|
    ensures forall k :: 0 <= k < |rows| ==> cs[k] == RowCircle(rows[k])
  {
    seq(|rows|, k requires 0 <= k < |rows| => RowCircle(rows[k]))
  }

  lemma CirclesAppend(a: seq<MezoRow>, b: seq<MezoRow>)
    ensures Circles(a + b) == Circles(a) + Circles(b)
  {
  }

  /** One iteration of `recursive_removing`: when the entry intersects the
      start row, its disc is erased and then the rows of the call made for
      it; otherwise the mask stays as it is. */
  lemma EraseVisitStep(m: Mask, start: MezoRow, all: seq<MezoRow>, k: nat)
    requires k < |all|
    ensures var before := EraseAll(m, Circles(VisitUpTo(start, all, k)));
      EraseAll(m, Circles(VisitUpTo(start, all, k + 1)))
      == if Hits(start, all[k]) then EraseAll(Erase(before, RowCircle(all[k])), Circles(Visit(all[k], Without(all, k))))
         else before
  {
    VisitStep(start, all, k);
    var pre := VisitUpTo(start, all, k);
    if Hits(start, all[k]) {
      var sub := Visit(all[k], Without(all, k));
      CirclesAppend(pre, [all[k]] + sub);
      CirclesAppend([all[k]], sub);
      EraseAllAppend(m, Circles(pre), Circles([all[k]] + sub));
      var cs := Circles([all[k]] + sub);
      assert cs != [] && cs[0] == RowCircle(all[k]) && cs[1..] == Circles(sub);
    } else {
      assert pre + [] == pre;
    }
  }

  /** One iteration of `recursive_adding`, in the same way. */
  lemma PaintVisitStep(m: Mask, start: MezoRow, all: seq<MezoRow>, k: nat)
    requires k < |all|
    ensures var before := PaintAll(m, Circles(VisitUpTo(start, all, k)));
      PaintAll(m, Circles(VisitUpTo(start, all, k + 1)))
      == if Hits(start, all[k]) then PaintAll(Paint(before, RowCircle(all[k])), Circles(Visit(all[k], Without(all, k))))
         else before
  {
    VisitStep(start, all, k);
    var pre := VisitUpTo(start, all, k);
    if Hits(start, all[k]) {
      var sub := Visit(all[k], Without(all, k));
      CirclesAppend(pre, [all[k]] + sub);
      CirclesAppend([all[k]], sub);
      PaintAllAppend(m, Circles(pre), Circles([all[k]] + sub));
      var cs := Circles([all[k]] + sub);
      assert cs != [] && cs[0] == RowCircle(all[k]) && cs[1..] == Circles(sub);
    } else {
      assert pre + [] == pre;
    }
  }

  /** The mask after `remove_mezo_from_viewer(target)`,
      `recursive_removing(target, rows)` and `recursive_adding(target, rows)`. */
  function Removal(m: Mask, target: MezoRow, rows: seq<MezoRow>): Mask
  {
    var v := Circles(Visit(target, rows));
    PaintAll(EraseAll(Erase(m, RowCircle(target)), v), v)
  }

  /** Every row handled is a row of the list; so a row absent from the list
      (the deleted target) is never repainted. */
  lemma VisitedAreRows(start: MezoRow, all: seq<MezoRow>, id: nat)
    requires forall x :: x in all ==> x.id != id
    ensures forall x :: x in Visit(start, all) ==> x in all && x.id != id
  {
  }

  /** The traversal handles nothing exactly when no row intersects the
      start row. */
  lemma {:induction false} VisitEmptyIff(start: MezoRow, all: seq<MezoRow>, i: nat)
    requires i <= |all|
    ensures VisitUpTo(start, all, i) == [] <==> forall k :: 0 <= k < i ==> !Hits(start, all[k])
    decreases i
  {
    if i > 0 {
      VisitEmptyIff(start, all, i - 1);
    }
  }

  /** One step of the loop: the entry at index `k` adds itself and the rows
      of the call made for it when it intersects the start row. */
  lemma VisitStep(start: MezoRow, all: seq<MezoRow>, k: nat)
    requires k < |all|
    ensures VisitUpTo(start, all, k + 1)
         == VisitUpTo(start, all, k)
          + (if Hits(start, all[k]) then [all[k]] + VisitUpTo(all[k], Without(all, k), |all| - 1) else [])
  {
  }

  /** The rows handled by the first iterations are handled first. */
  lemma {:induction false} VisitPrefix(start: MezoRow, all: seq<MezoRow>, i: nat, j: nat)
    requires i <= j <= |all|
    ensures VisitUpTo(start, all, i) <= VisitUpTo(start, all, j)
    decreases j
  {
    if i < j {
      VisitPrefix(start, all, i, j - 1);
      VisitStep(start, all, j - 1);
    }
  }

  /** The row at index `k`, when it intersects the start row, is handled,
      and so is every row that the call made for it handles. */
  lemma SubVisitIncluded(start: MezoRow, all: seq<MezoRow>, k: nat, y: MezoRow)
    requires k < |all| && Hits(start, all[k])
    requires y == all[k] || y in VisitUpTo(all[k], Without(all, k), |all| - 1)
    ensures y in Visit(start, all)
  {
    VisitStep(start, all, k);
    VisitPrefix(start, all, k + 1, |all|);
    var pre := VisitUpTo(start, all, k + 1);
    assert y in pre;
    var n :| 0 <= n < |pre| && pre[n] == y;
    assert Visit(start, all)[n] == y;
  }

  /** Every row intersecting the start row is handled. */
  lemma NeighboursVisited(start: MezoRow, all: seq<MezoRow>, k: nat)
    requires k < |all| && Hits(start, all[k])
    ensures all[k] in Visit(start, all)
  {
    SubVisitIncluded(start, all, k, all[k]);
  }

  /** The handled rows are closed under intersection within the list:
      a row of the list intersecting a handled row is handled too. With
      NeighboursVisited, every row connected to the start row through a
      chain of intersecting rows of the list is handled. */
  lemma {:induction false} VisitClosed(start: MezoRow, all: seq<MezoRow>, i: nat, x: MezoRow, y: MezoRow)
    requires i <= |all|
    requires x in VisitUpTo(start, all, i) && y in all && Hits(x, y)
    ensures y in Visit(start, all)
    decreases |all|, i
  {
    var k := i - 1;
    VisitStep(start, all, k);
    if x in VisitUpTo(start, all, k) {
      VisitClosed(start, all, k, x, y);
    } else {
      var w := Without(all, k);
      var sub := VisitUpTo(all[k], w, |w|);
      assert Hits(start, all[k]) && (x == all[k] || x in sub);
      if y != all[k] {
        assert y in w;
        if x == all[k] {
          var j :| 0 <= j < |w| && w[j] == y;
          NeighboursVisited(all[k], w, j);
        } else {
          VisitClosed(all[k], w, |w|, x, y);
        }
      }
      SubVisitIncluded(start, all, k, y);
    }
  }

  /** Every handled row intersects the start row or a row handled before
      it: the traversal only follows intersections. */
  predicate Chained(start: MezoRow, v: seq<MezoRow>)
  {
    forall k :: 0 <= k < |v| ==>
      Hits(start, v[k]) || exists j :: 0 <= j < k && Hits(v[j], v[k])
  }

  lemma {:induction false} VisitChained(start: MezoRow, all: seq<MezoRow>, i: nat)
    requires i <= |all|
    ensures Chained(start, VisitUpTo(start, all, i))
    decreases |all|, i
  {
    if i > 0 {
      var w := Without(all, i - 1);
      var a := VisitUpTo(start, all, i - 1);
      VisitChained(start, all, i - 1);
      if Hits(start, all[i - 1]) {
        var sub := VisitUpTo(all[i - 1], w, |w|);
        VisitChained(all[i - 1], w, |w|);
        var b := [all[i - 1]] + sub;
        forall k | 0 <= k < |b| ensures Hits(start, b[k]) || exists j :: 0 <= j < k && Hits(b[j], b[k]) {
          if k > 0 && !Hits(start, b[k]) {
            assert b[k] == sub[k - 1];
            if Hits(all[i - 1], sub[k - 1]) {
              assert 0 < k && Hits(b[0], b[k]);
            } else {
              var j :| 0 <= j < k - 1 && Hits(sub[j], sub[k - 1]);
              assert b[j + 1] == sub[j];
              assert j + 1 < k && Hits(b[j + 1], b[k]);
            }
          }
        }
        ChainedAppend(start, a, b);
      } else {
        assert VisitUpTo(start, all, i) == a + [];
        assert a + [] == a;
      }
    }
  }

  lemma ChainedAppend(start: MezoRow, a: seq<MezoRow>, b: seq<MezoRow>)
    requires Chained(start, a) && Chained(start, b)
    ensures Chained(start, a + b)
  {
    var v := a + b;
    forall k | 0 <= k < |v| ensures Hits(start, v[k]) || exists j :: 0 <= j < k && Hits(v[j], v[k]) {
      if k < |a| {
        assert v[k] == a[k];
        if !Hits(start, a[k]) {
          var j :| 0 <= j < k && Hits(a[j], a[k]);
          assert v[j] == a[j];
        }
      } else {
        assert v[k] == b[k - |a|];
        if !Hits(start, b[k - |a|]) {
          var j :| 0 <= j < k - |a| && Hits(b[j], b[k - |a|]);
          assert v[j + |a|] == b[j];
        }
      }
    }
  }

  /** After a removal, a pixel that the target or a handled row covers is
      cleared and then holds exactly the handled rows that repaint it, in
      traversal order; any other pixel keeps its layers, followed by the
      handled rows whose paint reaches it. */
  lemma RemovalAt(m: Mask, target: MezoRow, rows: seq<MezoRow>, p: Pixel)
    ensures var v := Circles(Visit(target, rows));
      Removal(m, target, rows)(p)
      == (if EraseCovers(RowCircle(target), p) || ErasedBy(v, p) then [] else m(p)) + Covering(v, p)
  {
    var v := Circles(Visit(target, rows));
    EraseThenPaintAt(m, [RowCircle(target)] + v, v, p);
    assert ([RowCircle(target)] + v)[1..] == v;
    if ErasedBy([RowCircle(target)] + v, p) && !EraseCovers(RowCircle(target), p) {
      var i :| 0 <= i < |[RowCircle(target)] + v| && EraseCovers(([RowCircle(target)] + v)[i], p);
      assert EraseCovers(v[i - 1], p);
    }
    if ErasedBy(v, p) {
      var i :| 0 <= i < |v| && EraseCovers(v[i], p);
      assert EraseCovers(([RowCircle(target)] + v)[i + 1], p);
    }
  }

  /** The row sequence can repeat rows: with a start row and two rows that
      all intersect each other, each of the two rows is handled twice. */
  lemma VisitCanRepeat()
    ensures var s := MezoRow(1, 1, Pixel(0, 0), 2.0, Square(2.0));
      var a := MezoRow(2, 1, Pixel(1, 0), 2.0, Square(2.0));
      var b := MezoRow(3, 1, Pixel(0, 1), 2.0, Square(2.0));
      Visit(s, [a, b]) == [a, b, b, a]
  {
    var s := MezoRow(1, 1, Pixel(0, 0), 2.0, Square(2.0));
    var a := MezoRow(2, 1, Pixel(1, 0), 2.0, Square(2.0));
    var b := MezoRow(3, 1, Pixel(0, 1), 2.0, Square(2.0));
    assert Hits(s, a) && Hits(s, b) && Hits(a, b) && Hits(b, a);
    assert Without([a, b], 0) == [b] && Without([a, b], 1) == [a];
    assert Without([b], 0) == [] && Without([a], 0) == [];
    assert VisitUpTo(a, [b], 1) == [b];
    assert VisitUpTo(b, [a], 1) == [a];
  }

  /** Removing the middle one of three rows A, B, C, where A and C each
      intersect B but not each other, erases and repaints A and then C. */
  lemma VisitMiddleOfThree(a: MezoRow, b: MezoRow, c: MezoRow)
    requires Hits(b, a) && Hits(b, c) && !Hits(a, c)
    ensures Visit(b, [a, c]) == [a, c]
  {
    IntersectSymmetric(RowCircle(c), RowCircle(a));
    assert Without([a, c], 0) == [c] && Without([a, c], 1) == [a];
    assert Without([c], 0) == [] && Without([a], 0) == [];
    VisitStep(a, [c], 0);
    VisitStep(c, [a], 0);
    VisitStep(b, [a, c], 0);
    VisitStep(b, [a, c], 1);
  }

  /** Removing the middle one of three circles A, B, C painted in that order
      onto a transparent mask, where A and C each intersect B but not each
      other, gives the mask of A and C painted without B. The radii are at
      least 2, so each disc contains its centre dot. */
  lemma RemoveMiddleOfThree(a: MezoRow, b: MezoRow, c: MezoRow, p: Pixel)
    requires RowCircle(a).radius >= 2.0 && RowCircle(b).radius >= 2.0 && RowCircle(c).radius >= 2.0
    requires Hits(b, a) && Hits(b, c) && !Hits(a, c)
    ensures Removal(PaintAll(Blank(), Circles([a, b, c])), b, [a, c])(p)
         == PaintAll(Blank(), Circles([a, c]))(p)
  {
    VisitMiddleOfThree(a, b, c);
    var ca, cb, cc := RowCircle(a), RowCircle(b), RowCircle(c);
    assert Circles([a, c]) == [ca, cc];
    assert Circles([a, b, c]) == [ca, cb, cc];
    RemovalAt(PaintAll(Blank(), [ca, cb, cc]), b, [a, c], p);
    ThreeLayers(ca, cb, cc, p);
    EraseClearsPaint(ca, p);
    EraseClearsPaint(cb, p);
    EraseClearsPaint(cc, p);
    TwoErase(ca, cc, p);
  }

  lemma ThreeLayers(ca: Circle, cb: Circle, cc: Circle, p: Pixel)
    ensures PaintAll(Blank(), [ca, cb, cc])(p) == Covering([ca, cb, cc], p)
    ensures PaintAll(Blank(), [ca, cc])(p) == Covering([ca, cc], p)
    ensures Covering([ca, cb, cc], p)
         == (if PaintCovers(ca, p) then [ca] else []) + (if PaintCovers(cb, p) then [cb] else [])
          + (if PaintCovers(cc, p) then [cc] else [])
    ensures Covering([ca, cc], p)
         == (if PaintCovers(ca, p) then [ca] else []) + (if PaintCovers(cc, p) then [cc] else [])
  {
    PaintAllAt(Blank(), [ca, cb, cc], p);
    PaintAllAt(Blank(), [ca, cc], p);
    assert [ca, cb, cc][1..] == [cb, cc] && [cb, cc][1..] == [cc] && [cc][1..] == [];
    assert [ca, cc][1..] == [cc];
  }

  lemma TwoErase(ca: Circle, cc: Circle, p: Pixel)
    ensures ErasedBy([ca, cc], p) <==> EraseCovers(ca, p) || EraseCovers(cc, p)
  {
    if EraseCovers(ca, p) { assert EraseCovers([ca, cc][0], p); }
    if EraseCovers(cc, p) { assert EraseCovers([ca, cc][1], p); }
  }
}
