/** The `mezo_data` table, held in memory.

    Rows keep their insertion order, which is also the order of their ids:
    the table's `mezo_id` is an AUTOINCREMENT key, so a new row gets an id
    above every id ever handed out and ids are never reused. */
module Store {
  import opened Geometry

  /** `math.pi` as a double. */
  const Pi: real := 3.141592653589793

  /** One annotation record: `(mezo_id, image_id, center_x, center_y,
      diameter, square)`. */
  datatype MezoRow = MezoRow(id: nat, imageId: nat, center: Pixel, diameter: real, square: real)

  /** The circle a row stands for, as the editor unpacks it:
      `(row[2], row[3], row[4] / 2)`. */
  function RowCircle(row: MezoRow): Circle
  {
    Circle(row.center, row.diameter / 2.0)
  }

  /** `0.25 * math.pi * math.pow(diameter, 2)`, the area of the disc. */
  function Square(diameter: real): (s: real)
    ensures s >= 0.0
  {
    0.25 * Pi * (diameter * diameter)
  }

  /** The square is the area of the disc the diameter spans. */
  lemma SquareIsDiscArea(diameter: real)
    ensures Square(diameter) == Pi * (diameter / 2.0) * (diameter / 2.0)
  {
  }

  /** Ids are positive, below the next id to be handed out, and increase
      along the table. */
  predicate Wellformed(rows: seq<MezoRow>, nextId: nat)
  {
    && (forall i :: 0 <= i < |rows| ==> 0 < rows[i].id < nextId)
    && (forall i, j :: 0 <= i < j < |rows| ==> rows[i].id < rows[j].id)
  }

  /** `SELECT * FROM mezo_data WHERE image_id = ?`: the rows of one image,
      in table order. */
  function RowsOf(rows: seq<MezoRow>, imageId: nat): (r: seq<MezoRow>)
    ensures |r| <= |rows|
    ensures forall x :: x in r <==> x in rows && x.imageId == imageId
    decreases |rows|
  {
    if rows == [] then []
    else (if rows[0].imageId == imageId then [rows[0]] else []) + RowsOf(rows[1..], imageId)
  }

  /** `INSERT INTO mezo_data ...`: a new row with the next id, the square
      computed from the diameter. */
  function Insert(rows: seq<MezoRow>, nextId: nat, imageId: nat, center: Pixel, diameter: real): seq<MezoRow>
  {
    rows + [MezoRow(nextId, imageId, center, diameter, Square(diameter))]
  }

  /** `DELETE FROM mezo_data WHERE mezo_id = ?`. */
  function Delete(rows: seq<MezoRow>, id: nat): (r: seq<MezoRow>)
    ensures forall x :: x in r <==> x in rows && x.id != id
    decreases |rows|
  {
    if rows == [] then []
    else (if rows[0].id == id then [] else [rows[0]]) + Delete(rows[1..], id)
  }

  /** `SELECT * FROM mezo_data WHERE mezo_id = ?` and `fetchone()`. */
  function FindId(rows: seq<MezoRow>, id: nat): (r: Option<MezoRow>)
    ensures r.Some? ==> r.value in rows && r.value.id == id
    ensures r.None? ==> forall i :: 0 <= i < |rows| ==> rows[i].id != id
    decreases |rows|
  {
    if rows == [] then None
    else if rows[0].id == id then Some(rows[0])
    else FindId(rows[1..], id)
  }

  /** `... WHERE image_id = ? ORDER BY mezo_id DESC LIMIT 1`: the newest
      row of the image, if it has any. */
  function LastRowOf(rows: seq<MezoRow>, imageId: nat): Option<MezoRow>
  {
    var own := RowsOf(rows, imageId);
    if own == [] then None else Some(own[|own| - 1])
  }

  /** The rows of an image keep the table's order. */
  lemma {:induction false} RowsOfOrdered(rows: seq<MezoRow>, nextId: nat, imageId: nat)
    requires Wellformed(rows, nextId)
    ensures Wellformed(RowsOf(rows, imageId), nextId)
    decreases |rows|
  {
    if rows != [] {
      RowsOfOrdered(rows[1..], nextId, imageId);
      HeadBelowTail(rows, nextId);
      if rows[0].imageId == imageId {
        ConsWellformed(rows[0], RowsOf(rows[1..], imageId), nextId);
      }
    }
  }

  /** The row that an undo deletes has the largest id of its image, and it
      is one of the image's rows. */
  lemma LastRowHasLargestId(rows: seq<MezoRow>, nextId: nat, imageId: nat)
    requires Wellformed(rows, nextId)
    ensures LastRowOf(rows, imageId).None? <==> forall x :: x in rows ==> x.imageId != imageId
    ensures LastRowOf(rows, imageId).Some? ==>
      var last := LastRowOf(rows, imageId).value;
      && last in rows && last.imageId == imageId
      && forall x :: x in rows && x.imageId == imageId ==> x.id <= last.id
  {
    var own := RowsOf(rows, imageId);
    RowsOfOrdered(rows, nextId, imageId);
    if own != [] {
      var last := own[|own| - 1];
      forall x | x in rows && x.imageId == imageId ensures x.id <= last.id {
        var k :| 0 <= k < |own| && own[k] == x;
      }
    }
  }

  /** Inserting keeps the table well formed and appends the new row to its
      image's rows; other images' rows are unchanged. */
  lemma InsertAppends(rows: seq<MezoRow>, nextId: nat, imageId: nat, center: Pixel, diameter: real, other: nat)
    requires Wellformed(rows, nextId) && nextId > 0
    ensures Wellformed(Insert(rows, nextId, imageId, center, diameter), nextId + 1)
    ensures RowsOf(Insert(rows, nextId, imageId, center, diameter), imageId)
         == RowsOf(rows, imageId) + [MezoRow(nextId, imageId, center, diameter, Square(diameter))]
    ensures other != imageId ==> RowsOf(Insert(rows, nextId, imageId, center, diameter), other) == RowsOf(rows, other)
  {
    var row := MezoRow(nextId, imageId, center, diameter, Square(diameter));
    var r := rows + [row];
    forall i, j | 0 <= i < j < |r| ensures r[i].id < r[j].id {
      if j < |rows| {
        assert r[i] == rows[i] && r[j] == rows[j];
      } else {
        assert r[i] == rows[i] && r[j] == row;
      }
    }
    RowsOfAppend(rows, [row], imageId);
    RowsOfAppend(rows, [row], other);
    assert [row][1..] == [];
  }

  /** A row placed in front of a well-formed table, with an id below all of
      its ids, gives a well-formed table. */
  lemma ConsWellformed(x: MezoRow, rest: seq<MezoRow>, nextId: nat)
    requires Wellformed(rest, nextId) && 0 < x.id < nextId
    requires forall y :: y in rest ==> x.id < y.id
    ensures Wellformed([x] + rest, nextId)
  {
    var r := [x] + rest;
    forall i, j | 0 <= i < j < |r| ensures r[i].id < r[j].id {
      assert r[j] == rest[j - 1];
      if i > 0 {
        assert r[i] == rest[i - 1];
      }
    }
  }

  lemma {:induction false} RowsOfAppend(a: seq<MezoRow>, b: seq<MezoRow>, imageId: nat)
    ensures RowsOf(a + b, imageId) == RowsOf(a, imageId) + RowsOf(b, imageId)
    decreases |a|
  {
    if a == [] {
      assert a + b == b;
    } else {
      assert (a + b)[0] == a[0] && (a + b)[1..] == a[1..] + b;
      RowsOfAppend(a[1..], b, imageId);
    }
  }

  /** Deleting keeps the table well formed. */
  lemma {:induction false} DeleteKeepsOrder(rows: seq<MezoRow>, nextId: nat, id: nat)
    requires Wellformed(rows, nextId)
    ensures Wellformed(Delete(rows, id), nextId)
    decreases |rows|
  {
    if rows != [] {
      DeleteKeepsOrder(rows[1..], nextId, id);
      HeadBelowTail(rows, nextId);
      if rows[0].id != id {
        ConsWellformed(rows[0], Delete(rows[1..], id), nextId);
      }
    }
  }

  /** The first row's id is below the id of every later row. */
  lemma HeadBelowTail(rows: seq<MezoRow>, nextId: nat)
    requires Wellformed(rows, nextId) && rows != []
    ensures forall x :: x in rows[1..] ==> rows[0].id < x.id
  {
    forall x | x in rows[1..] ensures rows[0].id < x.id {
      var k :| 0 <= k < |rows[1..]| && rows[1..][k] == x;
      assert rows[k + 1] == x;
    }
  }

  /** Deleting a row and then selecting an image's rows is selecting and
      then deleting. */
  lemma {:induction false} DeleteCommutesWithRowsOf(rows: seq<MezoRow>, id: nat, imageId: nat)
    ensures RowsOf(Delete(rows, id), imageId) == Delete(RowsOf(rows, imageId), id)
    decreases |rows|
  {
    if rows != [] {
      DeleteCommutesWithRowsOf(rows[1..], id, imageId);
      var head := if rows[0].id == id then [] else [rows[0]];
      RowsOfAppend(head, Delete(rows[1..], id), imageId);
      assert RowsOf(head, imageId) == Delete(if rows[0].imageId == imageId then [rows[0]] else [], id) by {
        assert [rows[0]][1..] == [];
      }
      DeleteAppend(if rows[0].imageId == imageId then [rows[0]] else [], RowsOf(rows[1..], imageId), id);
    }
  }

  lemma {:induction false} DeleteAppend(a: seq<MezoRow>, b: seq<MezoRow>, id: nat)
    ensures Delete(a + b, id) == Delete(a, id) + Delete(b, id)
    decreases |a|
  {
    if a == [] {
      assert a + b == b;
    } else {
      assert (a + b)[0] == a[0] && (a + b)[1..] == a[1..] + b;
      DeleteAppend(a[1..], b, id);
    }
  }

  /** The hit test of the remove tool: the rows are scanned newest first
      and the first one whose disc holds the click is chosen. */
  method LastContaining(rows: seq<MezoRow>, p: Pixel) returns (found: Option<nat>)
    ensures found.None? <==> forall k :: 0 <= k < |rows| ==> !InDisc(p, RowCircle(rows[k]))
    ensures found.Some? ==>
      exists k :: 0 <= k < |rows| && rows[k].id == found.value && InDisc(p, RowCircle(rows[k]))
              && forall j :: k < j < |rows| ==> !InDisc(p, RowCircle(rows[j]))
  {
    found := None;
    var i := |rows|;
    while i > 0
      invariant 0 <= i <= |rows|
      invariant forall j :: i <= j < |rows| ==> !InDisc(p, RowCircle(rows[j]))
    {
      i := i - 1;
      if InDisc(p, RowCircle(rows[i])) {
        found := Some(rows[i].id);
        return;
      }
    }
  }
}
