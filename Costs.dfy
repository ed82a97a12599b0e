/**
 * Costs of points of a box, by recursion on indices: the edit distance from
 * the box's top-left corner to a point (Fd, recursion on the last bytes) and
 * from a point to the bottom-right corner (Bd, recursion on the next bytes),
 * with the local facts about them that the frontier invariants are built from.
 * Bd of the top-left corner is the edit distance of the two ranges.
 */
module Costs {
  import opened Bytes
  import opened EditDistance
  import opened DiffOps

  function Abs(n: int): nat { if n < 0 then -n else n }

  predicate InBox(box: Box, p: Point)
  {
    box.left <= p.x <= box.right && box.top <= p.y <= box.bottom
  }

  /** Cost of reaching p from the top-left corner. */
  function Fd(A: seq<byte>, B: seq<byte>, box: Box, p: Point): nat
    requires BoxIn(A, B, box) && InBox(box, p)
    decreases (p.x - box.left) + (p.y - box.top)
  {
    if p.x == box.left || p.y == box.top then (p.x - box.left) + (p.y - box.top)
    else if A[p.x - 1] == B[p.y - 1] then Fd(A, B, box, Point(p.x - 1, p.y - 1))
    else 1 + Min(Fd(A, B, box, Point(p.x - 1, p.y)), Fd(A, B, box, Point(p.x, p.y - 1)))
  }

  /** Cost of reaching the bottom-right corner from p. */
  function Bd(A: seq<byte>, B: seq<byte>, box: Box, p: Point): nat
    requires BoxIn(A, B, box) && InBox(box, p)
    decreases (box.right - p.x) + (box.bottom - p.y)
  {
    if p.x == box.right || p.y == box.bottom then (box.right - p.x) + (box.bottom - p.y)
    else if A[p.x] == B[p.y] then Bd(A, B, box, Point(p.x + 1, p.y + 1))
    else 1 + Min(Bd(A, B, box, Point(p.x + 1, p.y)), Bd(A, B, box, Point(p.x, p.y + 1)))
  }

  /** The edit distance of the whole box. */
  function Whole(A: seq<byte>, B: seq<byte>, box: Box): nat
    requires BoxIn(A, B, box)
  {
    Bd(A, B, box, Point(box.left, box.top))
  }

  /** Bd is the edit distance of the rest of both ranges. */
  lemma {:induction false} BdIsDist(A: seq<byte>, B: seq<byte>, box: Box, p: Point)
    requires BoxIn(A, B, box) && InBox(box, p)
    ensures Bd(A, B, box, p) == Dist(A[p.x..box.right], B[p.y..box.bottom])
    decreases (box.right - p.x) + (box.bottom - p.y)
  {
    var a := A[p.x..box.right];
    var b := B[p.y..box.bottom];
    if p.x < box.right && p.y < box.bottom {
      assert a[0] == A[p.x] && b[0] == B[p.y];
      assert a[1..] == A[p.x + 1..box.right] && b[1..] == B[p.y + 1..box.bottom];
      BdIsDist(A, B, box, Point(p.x + 1, p.y + 1));
      BdIsDist(A, B, box, Point(p.x + 1, p.y));
      BdIsDist(A, B, box, Point(p.x, p.y + 1));
    }
  }

  /** The whole box costs the edit distance of its two ranges. */
  lemma WholeIsDist(A: seq<byte>, B: seq<byte>, box: Box)
    requires BoxIn(A, B, box)
    ensures Whole(A, B, box) == Dist(A[box.left..box.right], B[box.top..box.bottom])
  {
    BdIsDist(A, B, box, Point(box.left, box.top));
  }

  /** On the top or left edge only insertions or only deletions are possible. */
  lemma FdEdge(A: seq<byte>, B: seq<byte>, box: Box, p: Point)
    requires BoxIn(A, B, box) && InBox(box, p)
    ensures p.x == box.left ==> Fd(A, B, box, p) == p.y - box.top
    ensures p.y == box.top ==> Fd(A, B, box, p) == p.x - box.left
  {
  }

  lemma BdEdge(A: seq<byte>, B: seq<byte>, box: Box, p: Point)
    requires BoxIn(A, B, box) && InBox(box, p)
    ensures p.x == box.right ==> Bd(A, B, box, p) == box.bottom - p.y
    ensures p.y == box.bottom ==> Bd(A, B, box, p) == box.right - p.x
  {
  }

  /** The recursion of Fd at p: through the diagonal if the bytes before p match, else one step less. */
  lemma FdStep(A: seq<byte>, B: seq<byte>, box: Box, p: Point)
    requires BoxIn(A, B, box) && InBox(box, p) && p.x > box.left && p.y > box.top
    ensures A[p.x - 1] == B[p.y - 1] ==>
      Fd(A, B, box, p) == Fd(A, B, box, Point(p.x - 1, p.y - 1))
    ensures A[p.x - 1] != B[p.y - 1] ==>
      Fd(A, B, box, p) == 1 + Min(Fd(A, B, box, Point(p.x - 1, p.y)), Fd(A, B, box, Point(p.x, p.y - 1)))
  {
  }

  /** The recursion of Bd at p. */
  lemma BdStep(A: seq<byte>, B: seq<byte>, box: Box, p: Point)
    requires BoxIn(A, B, box) && InBox(box, p) && p.x < box.right && p.y < box.bottom
    ensures A[p.x] == B[p.y] ==>
      Bd(A, B, box, p) == Bd(A, B, box, Point(p.x + 1, p.y + 1))
    ensures A[p.x] != B[p.y] ==>
      Bd(A, B, box, p) == 1 + Min(Bd(A, B, box, Point(p.x + 1, p.y)), Bd(A, B, box, Point(p.x, p.y + 1)))
  {
  }

  /** n + m = 2h makes n and m of the same parity. */
  lemma SameParity(n: int, m: int, h: int)
    requires n + m == 2 * h
    ensures n % 2 == m % 2
  {
    var q, r := m / 2, m % 2;
    assert m == 2 * q + r && 0 <= r < 2;
    assert n == 2 * (h - q - r) + r;
  }

  /** Lower and upper bounds: a point off the main diagonal by j costs at least |j|. */
  lemma {:induction false} FdBounds(A: seq<byte>, B: seq<byte>, box: Box, p: Point)
    requires BoxIn(A, B, box) && InBox(box, p)
    ensures Fd(A, B, box, p) >= Abs((p.x - box.left) - (p.y - box.top))
    ensures Fd(A, B, box, p) <= (p.x - box.left) + (p.y - box.top)
    decreases (p.x - box.left) + (p.y - box.top)
  {
    if p.x > box.left && p.y > box.top {
      if A[p.x - 1] == B[p.y - 1] {
        FdBounds(A, B, box, Point(p.x - 1, p.y - 1));
      } else {
        FdBounds(A, B, box, Point(p.x - 1, p.y));
        FdBounds(A, B, box, Point(p.x, p.y - 1));
      }
    }
  }

  /** Fd has the parity of the number of steps from the top-left corner: with them it sums to 2h. */
  lemma {:induction false} FdParity(A: seq<byte>, B: seq<byte>, box: Box, p: Point) returns (h: int)
    requires BoxIn(A, B, box) && InBox(box, p)
    ensures Fd(A, B, box, p) + (p.x - box.left) + (p.y - box.top) == 2 * h
    decreases (p.x - box.left) + (p.y - box.top)
  {
    var dx, dy := p.x - box.left, p.y - box.top;
    if dx == 0 || dy == 0 {
      h := dx + dy;
    } else if A[p.x - 1] == B[p.y - 1] {
      var h' := FdParity(A, B, box, Point(p.x - 1, p.y - 1));
      h := h' + 1;
    } else {
      var l, u := Point(p.x - 1, p.y), Point(p.x, p.y - 1);
      if Fd(A, B, box, l) <= Fd(A, B, box, u) {
        var h' := FdParity(A, B, box, l);
        h := h' + 1;
      } else {
        var h' := FdParity(A, B, box, u);
        h := h' + 1;
      }
    }
  }


  lemma {:induction false} BdBounds(A: seq<byte>, B: seq<byte>, box: Box, p: Point)
    requires BoxIn(A, B, box) && InBox(box, p)
    ensures Bd(A, B, box, p) >= Abs((box.right - p.x) - (box.bottom - p.y))
    ensures Bd(A, B, box, p) <= (box.right - p.x) + (box.bottom - p.y)
    decreases (box.right - p.x) + (box.bottom - p.y)
  {
    if p.x < box.right && p.y < box.bottom {
      if A[p.x] == B[p.y] {
        BdBounds(A, B, box, Point(p.x + 1, p.y + 1));
      } else {
        BdBounds(A, B, box, Point(p.x + 1, p.y));
        BdBounds(A, B, box, Point(p.x, p.y + 1));
      }
    }
  }

  /** Bd has the parity of the number of steps to the bottom-right corner: with them it sums to 2h. */
  lemma {:induction false} BdParity(A: seq<byte>, B: seq<byte>, box: Box, p: Point) returns (h: int)
    requires BoxIn(A, B, box) && InBox(box, p)
    ensures Bd(A, B, box, p) + (box.right - p.x) + (box.bottom - p.y) == 2 * h
    decreases (box.right - p.x) + (box.bottom - p.y)
  {
    var dx, dy := box.right - p.x, box.bottom - p.y;
    if dx == 0 || dy == 0 {
      h := dx + dy;
    } else if A[p.x] == B[p.y] {
      var h' := BdParity(A, B, box, Point(p.x + 1, p.y + 1));
      h := h' + 1;
    } else {
      var r, w := Point(p.x + 1, p.y), Point(p.x, p.y + 1);
      if Bd(A, B, box, r) <= Bd(A, B, box, w) {
        var h' := BdParity(A, B, box, r);
        h := h' + 1;
      } else {
        var h' := BdParity(A, B, box, w);
        h := h' + 1;
      }
    }
  }

  /** The whole distance lies between |delta| and the size. */
  lemma WholeRange(A: seq<byte>, B: seq<byte>, box: Box)
    requires BoxIn(A, B, box)
    ensures Abs(box.Delta()) <= Whole(A, B, box) <= box.Size()
  {
    BdBounds(A, B, box, Point(box.left, box.top));
  }

  /** The whole distance lies between |delta| and the size, and has the parity of the size. */
  lemma WholeBounds(A: seq<byte>, B: seq<byte>, box: Box)
    requires BoxIn(A, B, box)
    ensures Abs(box.Delta()) <= Whole(A, B, box) <= box.Size()
    ensures Whole(A, B, box) % 2 == box.Size() % 2
  {
    var o := Point(box.left, box.top);
    BdBounds(A, B, box, o);
    var h := BdParity(A, B, box, o);
    SameParity(Whole(A, B, box), box.Size(), h);
  }

  /** Neighbours in a row differ in Fd by at most one. */
  lemma {:induction false} FdUnitX(A: seq<byte>, B: seq<byte>, box: Box, q: Point)
    requires BoxIn(A, B, box) && InBox(box, q) && q.x > box.left
    ensures Fd(A, B, box, q) <= Fd(A, B, box, Point(q.x - 1, q.y)) + 1
    ensures Fd(A, B, box, Point(q.x - 1, q.y)) <= Fd(A, B, box, q) + 1
    decreases (q.x - box.left) + (q.y - box.top)
  {
    if q.y > box.top {
      FdUnitY(A, B, box, Point(q.x - 1, q.y));
      if A[q.x - 1] != B[q.y - 1] {
        FdUnitX(A, B, box, Point(q.x, q.y - 1));
      }
    }
  }

  /** Neighbours in a column differ in Fd by at most one. */
  lemma {:induction false} FdUnitY(A: seq<byte>, B: seq<byte>, box: Box, q: Point)
    requires BoxIn(A, B, box) && InBox(box, q) && q.y > box.top
    ensures Fd(A, B, box, q) <= Fd(A, B, box, Point(q.x, q.y - 1)) + 1
    ensures Fd(A, B, box, Point(q.x, q.y - 1)) <= Fd(A, B, box, q) + 1
    decreases (q.x - box.left) + (q.y - box.top)
  {
    if q.x > box.left {
      FdUnitX(A, B, box, Point(q.x, q.y - 1));
      if A[q.x - 1] != B[q.y - 1] {
        FdUnitY(A, B, box, Point(q.x - 1, q.y));
      }
    }
  }

  /** Neighbours in a row differ in Bd by at most one. */
  lemma {:induction false} BdUnitX(A: seq<byte>, B: seq<byte>, box: Box, q: Point)
    requires BoxIn(A, B, box) && InBox(box, q) && q.x < box.right
    ensures Bd(A, B, box, q) <= Bd(A, B, box, Point(q.x + 1, q.y)) + 1
    ensures Bd(A, B, box, Point(q.x + 1, q.y)) <= Bd(A, B, box, q) + 1
    decreases (box.right - q.x) + (box.bottom - q.y)
  {
    if q.y < box.bottom {
      BdUnitY(A, B, box, Point(q.x + 1, q.y));
      if A[q.x] != B[q.y] {
        BdUnitX(A, B, box, Point(q.x, q.y + 1));
      }
    }
  }

  /** Neighbours in a column differ in Bd by at most one. */
  lemma {:induction false} BdUnitY(A: seq<byte>, B: seq<byte>, box: Box, q: Point)
    requires BoxIn(A, B, box) && InBox(box, q) && q.y < box.bottom
    ensures Bd(A, B, box, q) <= Bd(A, B, box, Point(q.x, q.y + 1)) + 1
    ensures Bd(A, B, box, Point(q.x, q.y + 1)) <= Bd(A, B, box, q) + 1
    decreases (box.right - q.x) + (box.bottom - q.y)
  {
    if q.x < box.right {
      BdUnitX(A, B, box, Point(q.x, q.y + 1));
      if A[q.x] != B[q.y] {
        BdUnitY(A, B, box, Point(q.x + 1, q.y));
      }
    }
  }

  /** One horizontal or vertical step costs at most one more. */
  lemma FdUnit(A: seq<byte>, B: seq<byte>, box: Box, p: Point)
    requires BoxIn(A, B, box) && InBox(box, p)
    ensures p.x < box.right ==> Fd(A, B, box, Point(p.x + 1, p.y)) <= Fd(A, B, box, p) + 1
    ensures p.y < box.bottom ==> Fd(A, B, box, Point(p.x, p.y + 1)) <= Fd(A, B, box, p) + 1
  {
    if p.x < box.right {
      FdUnitX(A, B, box, Point(p.x + 1, p.y));
    }
    if p.y < box.bottom {
      FdUnitY(A, B, box, Point(p.x, p.y + 1));
    }
  }

  lemma BdUnit(A: seq<byte>, B: seq<byte>, box: Box, p: Point)
    requires BoxIn(A, B, box) && InBox(box, p)
    ensures p.x > box.left ==> Bd(A, B, box, Point(p.x - 1, p.y)) <= Bd(A, B, box, p) + 1
    ensures p.y > box.top ==> Bd(A, B, box, Point(p.x, p.y - 1)) <= Bd(A, B, box, p) + 1
  {
    if p.x > box.left {
      BdUnitX(A, B, box, Point(p.x - 1, p.y));
    }
    if p.y > box.top {
      BdUnitY(A, B, box, Point(p.x, p.y - 1));
    }
  }

  /** Fd grows by at most the number of steps between two points. */
  lemma {:induction false} FdUpper(A: seq<byte>, B: seq<byte>, box: Box, p: Point, q: Point)
    requires BoxIn(A, B, box) && InBox(box, p) && InBox(box, q) && p.x <= q.x && p.y <= q.y
    ensures Fd(A, B, box, q) <= Fd(A, B, box, p) + (q.x - p.x) + (q.y - p.y)
    decreases (q.x - p.x) + (q.y - p.y)
  {
    if q.x > p.x {
      FdUpper(A, B, box, p, Point(q.x - 1, q.y));
      FdUnitX(A, B, box, q);
    } else if q.y > p.y {
      FdUpper(A, B, box, p, Point(q.x, q.y - 1));
      FdUnitY(A, B, box, q);
    }
  }

  /** Bd grows by at most the number of steps between two points. */
  lemma {:induction false} BdUpper(A: seq<byte>, B: seq<byte>, box: Box, p: Point, q: Point)
    requires BoxIn(A, B, box) && InBox(box, p) && InBox(box, q) && p.x <= q.x && p.y <= q.y
    ensures Bd(A, B, box, p) <= Bd(A, B, box, q) + (q.x - p.x) + (q.y - p.y)
    decreases (q.x - p.x) + (q.y - p.y)
  {
    if q.x > p.x {
      BdUpper(A, B, box, Point(p.x + 1, p.y), q);
      BdUnitX(A, B, box, p);
    } else if q.y > p.y {
      BdUpper(A, B, box, Point(p.x, p.y + 1), q);
      BdUnitY(A, B, box, p);
    }
  }

  /** Reaching the bottom-right corner through p costs no more than Fd(p) + Bd(p). */
  lemma {:induction false} ThroughEnd(A: seq<byte>, B: seq<byte>, box: Box, p: Point)
    requires BoxIn(A, B, box) && InBox(box, p)
    ensures Fd(A, B, box, Point(box.right, box.bottom)) <= Fd(A, B, box, p) + Bd(A, B, box, p)
    decreases (box.right - p.x) + (box.bottom - p.y)
  {
    var e := Point(box.right, box.bottom);
    if p.x == box.right || p.y == box.bottom {
      FdUpper(A, B, box, p, e);
    } else if A[p.x] == B[p.y] {
      ThroughEnd(A, B, box, Point(p.x + 1, p.y + 1));
    } else {
      FdUnit(A, B, box, p);
      ThroughEnd(A, B, box, Point(p.x + 1, p.y));
      ThroughEnd(A, B, box, Point(p.x, p.y + 1));
    }
  }

  /** Leaving the top-left corner through p costs no more than Fd(p) + Bd(p). */
  lemma {:induction false} ThroughStart(A: seq<byte>, B: seq<byte>, box: Box, p: Point)
    requires BoxIn(A, B, box) && InBox(box, p)
    ensures Whole(A, B, box) <= Fd(A, B, box, p) + Bd(A, B, box, p)
    decreases (p.x - box.left) + (p.y - box.top)
  {
    var s := Point(box.left, box.top);
    if p.x == box.left || p.y == box.top {
      BdUpper(A, B, box, s, p);
    } else if A[p.x - 1] == B[p.y - 1] {
      ThroughStart(A, B, box, Point(p.x - 1, p.y - 1));
    } else {
      BdUnit(A, B, box, p);
      ThroughStart(A, B, box, Point(p.x - 1, p.y));
      ThroughStart(A, B, box, Point(p.x, p.y - 1));
    }
  }

  /** Both corners of the box cost the whole distance from the other. */
  lemma Corners(A: seq<byte>, B: seq<byte>, box: Box)
    requires BoxIn(A, B, box)
    ensures Fd(A, B, box, Point(box.right, box.bottom)) == Whole(A, B, box)
    ensures Bd(A, B, box, Point(box.left, box.top)) == Whole(A, B, box)
    ensures Fd(A, B, box, Point(box.left, box.top)) == 0
    ensures Bd(A, B, box, Point(box.right, box.bottom)) == 0
  {
    ThroughEnd(A, B, box, Point(box.left, box.top));
    ThroughStart(A, B, box, Point(box.right, box.bottom));
  }

  /** Going through p costs at least the whole distance. */
  lemma Through(A: seq<byte>, B: seq<byte>, box: Box, p: Point)
    requires BoxIn(A, B, box) && InBox(box, p)
    ensures Whole(A, B, box) <= Fd(A, B, box, p) + Bd(A, B, box, p)
  {
    ThroughStart(A, B, box, p);
  }

  /** One diagonal step never lowers Fd. */
  lemma FdDiagStep(A: seq<byte>, B: seq<byte>, box: Box, p: Point)
    requires BoxIn(A, B, box) && InBox(box, p) && p.x < box.right && p.y < box.bottom
    ensures Fd(A, B, box, p) <= Fd(A, B, box, Point(p.x + 1, p.y + 1))
  {
    if A[p.x] != B[p.y] {
      FdUnitY(A, B, box, Point(p.x, p.y + 1));
      FdUnitX(A, B, box, Point(p.x + 1, p.y));
    }
  }

  /** One diagonal step never raises Bd. */
  lemma BdDiagStep(A: seq<byte>, B: seq<byte>, box: Box, p: Point)
    requires BoxIn(A, B, box) && InBox(box, p) && p.x < box.right && p.y < box.bottom
    ensures Bd(A, B, box, Point(p.x + 1, p.y + 1)) <= Bd(A, B, box, p)
  {
    if A[p.x] != B[p.y] {
      BdUnitY(A, B, box, Point(p.x + 1, p.y));
      BdUnitX(A, B, box, Point(p.x, p.y + 1));
    }
  }

  /** Along a diagonal Fd never decreases and Bd never increases. */
  lemma {:induction false} DiagMonotone(A: seq<byte>, B: seq<byte>, box: Box, p: Point, q: Point)
    requires BoxIn(A, B, box) && InBox(box, p) && InBox(box, q)
    requires q.x - p.x == q.y - p.y >= 0
    ensures Fd(A, B, box, p) <= Fd(A, B, box, q)
    ensures Bd(A, B, box, q) <= Bd(A, B, box, p)
    decreases q.x - p.x
  {
    if q.x > p.x {
      FdDiagStep(A, B, box, p);
      BdDiagStep(A, B, box, p);
      DiagMonotone(A, B, box, Point(p.x + 1, p.y + 1), q);
    }
  }

  /** Along a run of equal bytes both costs stay the same. */
  lemma {:induction false} DiagEqual(A: seq<byte>, B: seq<byte>, box: Box, p: Point, q: Point)
    requires BoxIn(A, B, box) && InBox(box, p) && InBox(box, q)
    requires q.x - p.x == q.y - p.y >= 0 && A[p.x..q.x] == B[p.y..q.y]
    ensures Fd(A, B, box, p) == Fd(A, B, box, q)
    ensures Bd(A, B, box, p) == Bd(A, B, box, q)
    decreases q.x - p.x
  {
    if q.x > p.x {
      var p' := Point(p.x + 1, p.y + 1);
      assert A[p.x] == B[p.y] by {
        assert A[p.x..q.x][0] == B[p.y..q.y][0];
      }
      assert A[p'.x..q.x] == B[p'.y..q.y] by {
        assert A[p'.x..q.x] == A[p.x..q.x][1..];
        assert B[p'.y..q.y] == B[p.y..q.y][1..];
      }
      DiagEqual(A, B, box, p', q);
      assert Fd(A, B, box, p') == Fd(A, B, box, p);
    }
  }

  /** One step back from q along a cheapest path to q. */
  lemma BackStep(A: seq<byte>, B: seq<byte>, box: Box, q: Point) returns (q': Point)
    requires BoxIn(A, B, box) && InBox(box, q) && (q.x > box.left || q.y > box.top)
    ensures InBox(box, q') && q'.x <= q.x && q'.y <= q.y && q'.x + q'.y < q.x + q.y
    ensures Fd(A, B, box, q) - 1 <= Fd(A, B, box, q') <= Fd(A, B, box, q)
    ensures Bd(A, B, box, q') <= Bd(A, B, box, q) + (Fd(A, B, box, q) - Fd(A, B, box, q'))
  {
    var l, u := Point(q.x - 1, q.y), Point(q.x, q.y - 1);
    if q.x == box.left || q.y == box.top {
      q' := if q.x == box.left then u else l;
      assert Fd(A, B, box, q') + 1 == Fd(A, B, box, q);
      BdUnit(A, B, box, q);
    } else if A[q.x - 1] == B[q.y - 1] {
      q' := Point(q.x - 1, q.y - 1);
      assert Fd(A, B, box, q') == Fd(A, B, box, q);
      assert Bd(A, B, box, q') == Bd(A, B, box, q);
    } else {
      q' := if Fd(A, B, box, l) <= Fd(A, B, box, u) then l else u;
      assert Fd(A, B, box, q') + 1 == Fd(A, B, box, q);
      BdUnit(A, B, box, q);
    }
  }

  /** Walking back from q along a cheapest path reaches a point of every cost up to Fd(q). */
  lemma {:induction false} SplitFrom(A: seq<byte>, B: seq<byte>, box: Box, q: Point, t: int) returns (p: Point)
    requires BoxIn(A, B, box) && InBox(box, q)
    requires Fd(A, B, box, q) + Bd(A, B, box, q) == Whole(A, B, box) && 0 <= t <= Fd(A, B, box, q)
    ensures InBox(box, p)
    ensures Fd(A, B, box, p) == t && Bd(A, B, box, p) == Whole(A, B, box) - t
    decreases (q.x - box.left) + (q.y - box.top)
  {
    if Fd(A, B, box, q) == t {
      p := q;
    } else {
      assert q.x > box.left || q.y > box.top;
      var q' := BackStep(A, B, box, q);
      Through(A, B, box, q');
      p := SplitFrom(A, B, box, q', t);
    }
  }

  /** For every t up to the whole distance some point costs t from the start and the rest from the end. */
  lemma SplitPoint(A: seq<byte>, B: seq<byte>, box: Box, t: int) returns (p: Point)
    requires BoxIn(A, B, box) && 0 <= t <= Whole(A, B, box)
    ensures InBox(box, p)
    ensures Fd(A, B, box, p) == t && Bd(A, B, box, p) == Whole(A, B, box) - t
  {
    Corners(A, B, box);
    p := SplitFrom(A, B, box, Point(box.right, box.bottom), t);
  }

  /** A box of distance zero and positive size ends in two equal bytes. */
  lemma WholeZero(A: seq<byte>, B: seq<byte>, box: Box)
    requires BoxIn(A, B, box) && Whole(A, B, box) == 0 && box.Size() > 0
    ensures box.left < box.right && box.top < box.bottom
    ensures A[box.right - 1] == B[box.bottom - 1]
  {
    WholeBounds(A, B, box);
    Corners(A, B, box);
    assert A[box.right - 1] == B[box.bottom - 1] by {
      FdUnitX(A, B, box, Point(box.right, box.bottom));
    }
  }

  /**
   * A middle snake worth having: inside the box, running forward, making progress,
   * with at most one non-diagonal step, and lying on a cheapest path through the box.
   */
  predicate GoodSnake(A: seq<byte>, B: seq<byte>, box: Box, s: Snake)
  {
    BoxIn(A, B, box) && InBox(box, s.start) && InBox(box, s.finish)
    && s.start.x <= s.finish.x && s.start.y <= s.finish.y
    && 0 < s.Dx() + s.Dy() && Abs(s.Dx() - s.Dy()) <= 1
    && Fd(A, B, box, s.start) + Abs(s.Dx() - s.Dy()) + Bd(A, B, box, s.finish) == Whole(A, B, box)
  }

  /** The non-diagonal step, if any, comes first and equal bytes follow (a forward snake). */
  predicate StepFirst(A: seq<byte>, B: seq<byte>, box: Box, s: Snake)
  {
    GoodSnake(A, B, box, s)
    && (s.Dy() > s.Dx() ==> A[s.start.x..s.finish.x] == B[s.start.y + 1..s.finish.y])
    && (s.Dx() > s.Dy() ==> A[s.start.x + 1..s.finish.x] == B[s.start.y..s.finish.y])
    && (s.Dx() == s.Dy() ==> A[s.start.x..s.finish.x] == B[s.start.y..s.finish.y])
  }

  /** Equal bytes come first and the non-diagonal step, if any, last (a backward snake). */
  predicate StepLast(A: seq<byte>, B: seq<byte>, box: Box, s: Snake)
  {
    GoodSnake(A, B, box, s)
    && (s.Dy() > s.Dx() ==> A[s.start.x..s.finish.x] == B[s.start.y..s.finish.y - 1])
    && (s.Dx() > s.Dy() ==> A[s.start.x..s.finish.x - 1] == B[s.start.y..s.finish.y])
    && (s.Dx() == s.Dy() ==> A[s.start.x..s.finish.x] == B[s.start.y..s.finish.y])
  }
}
