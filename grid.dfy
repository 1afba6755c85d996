/** Cells of a rectangular tile grid and counting facts about them: how many
    cells a `w` by `h` grid has, and that a body occupying fewer cells than
    that leaves a cell free. */
module Grid {

  /** A grid cell, `java.awt.Point` used with integer coordinates. */
  datatype Point = Point(x: int, y: int)

  predicate InBlock(p: Point, w: int, h: int)
  {
    0 <= p.x < w && 0 <= p.y < h
  }

  /** The cells `(0, y) .. (w - 1, y)` of one row. */
  function Row(w: nat, y: int): (s: set<Point>)
    ensures forall p :: p in s <==> 0 <= p.x < w && p.y == y
    ensures |s| == w
  {
    if w == 0 then {} else Row(w - 1, y) + {Point(w - 1, y)}
  }

  /** All cells of a `w` by `h` grid. */
  function Block(w: nat, h: nat): (s: set<Point>)
    ensures forall p :: p in s <==> InBlock(p, w, h)
    ensures |s| == w * h
  {
    if h == 0 then {}
    else
      var lower, top := Block(w, h - 1), Row(w, h - 1);
      assert lower * top == {};
      assert |lower + top| == w * (h - 1) + w;
      lower + top
  }

  /** Any set holding exactly the cells of a `w` by `h` grid has `w * h` elements. */
  lemma BlockCard(s: set<Point>, w: nat, h: nat)
    requires forall p :: p in s <==> InBlock(p, w, h)
    ensures |s| == w * h
  {
    assert s == Block(w, h);
  }

  /** The set of cells a sequence of cells holds. */
  function Elements(s: seq<Point>): (r: set<Point>)
    ensures forall x :: x in r <==> x in s
    ensures |r| <= |s|
    ensures Distinct(s) ==> |r| == |s|
  {
    if s == [] then {}
    else
      var rest := Elements(s[1..]);
      assert Distinct(s) ==> Distinct(s[1..]) && s[0] !in s[1..];
      {s[0]} + rest
  }

  /** No value occurs twice in `s`. */
  predicate Distinct<T(==)>(s: seq<T>)
  {
    forall i, j :: 0 <= i < j < |s| ==> s[i] != s[j]
  }

  lemma SubsetCard<T>(a: set<T>, b: set<T>)
    requires a <= b
    ensures |a| <= |b|
    ensures |a| == |b| ==> a == b
  {
    assert b == a + (b - a);
    assert a * (b - a) == {};
  }

  /** Pigeonhole: a body of fewer than `w * h` cells leaves a cell of the
      grid uncovered. */
  lemma FreeCellExists(body: seq<Point>, w: nat, h: nat)
    requires |body| < w * h
    ensures exists p :: InBlock(p, w, h) && p !in body
  {
    var cells, used := Block(w, h), Elements(body);
    if cells <= used {
      SubsetCard(cells, used);
      assert false;
    }
    var p :| p in cells && p !in used;
  }

  /** A duplicate-free body inside the grid covers at most all of it, and
      covers every cell exactly when it has `w * h` cells. */
  lemma BodyBound(body: seq<Point>, w: nat, h: nat)
    requires Distinct(body)
    requires forall p :: p in body ==> InBlock(p, w, h)
    ensures |body| <= w * h
    ensures |body| == w * h <==> forall p :: InBlock(p, w, h) ==> p in body
  {
    var cells, used := Block(w, h), Elements(body);
    SubsetCard(used, cells);
    if |body| < w * h {
      FreeCellExists(body, w, h);
    }
  }
}
