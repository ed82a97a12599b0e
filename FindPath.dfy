/**
 * What the recursive path search appends for a box, as a function, and the
 * theorems about it: the edit-script length of diff(A, B) is the edit
 * distance of A and B, so it is 0 exactly when A == B, at most |A| + |B|,
 * of the parity of |A| + |B|, symmetric, and the cost of a cheapest script.
 */
module FindPath {
  import opened Bytes
  import opened EditDistance
  import opened DiffOps
  import opened Costs
  import opened MiddleSnake
  import opened EditScript

  /** The unit operation a snake stands for, placed at the snake's start as the search does. */
  function UnitOp(B: seq<byte>, s: Snake): (ops: seq<DiffOp>)
    requires s.Dy() > s.Dx() ==> 0 <= s.start.y < |B|
    ensures s.Dy() > s.Dx() ==> ops == [Insert(s.start.x, [B[s.start.y]])]
    ensures s.Dx() > s.Dy() ==> ops == [Delete(s.start.x, 1)]
    ensures s.Dx() == s.Dy() ==> ops == []
  {
    if s.Dy() > s.Dx() then
      assert B[s.start.y..s.start.y + 1] == [B[s.start.y]];
      [Insert(s.start.x, B[s.start.y..s.start.y + 1])]
    else if s.Dx() > s.Dy() then [Delete(s.start.x, 1)]
    else []
  }

  /** The sub-box before a snake's start and the sub-box after its finish. */
  function Before(box: Box, s: Snake): Box { Box(box.left, box.top, s.start.x, s.start.y) }
  function After(box: Box, s: Snake): Box { Box(s.finish.x, s.finish.y, box.right, box.bottom) }

  /** The operations the search appends for a box, in the order it appends them. */
  function FindPathOps(A: seq<byte>, B: seq<byte>, box: Box): seq<DiffOp>
    requires BoxIn(A, B, box)
    decreases box.Size()
  {
    MidpointGood(A, B, box);
    match Midpoint(A, B, box)
    case None => []
    case Some(s) =>
      if box.Width() == 0 then
        (if box.Height() > 0 then [Insert(box.left, B[box.top..box.bottom])] else [])
      else if box.Height() == 0 then
        (if box.Width() > 0 then [Delete(box.left, box.right - box.left)] else [])
      else
        UnitOp(B, s) + FindPathOps(A, B, Before(box, s)) + FindPathOps(A, B, After(box, s))
  }

  function FullBox(A: seq<byte>, B: seq<byte>): Box { Box(0, 0, |A|, |B|) }

  /** diff(): the operations for the whole of A against B. */
  function Diff(A: seq<byte>, B: seq<byte>): seq<DiffOp>
  {
    FindPathOps(A, B, FullBox(A, B))
  }

  /** ses(): the edit-script length of diff(). */
  function Ses(A: seq<byte>, B: seq<byte>): int
  {
    SumEsLen(Diff(A, B))
  }

  /** A box of size 0 appends nothing; a column appends one Insert of all of it, a row one Delete of all of it. */
  lemma FindPathDegenerate(A: seq<byte>, B: seq<byte>, box: Box)
    requires BoxIn(A, B, box) && (box.Width() == 0 || box.Height() == 0)
    ensures box.Size() == 0 ==> FindPathOps(A, B, box) == []
    ensures box.Width() == 0 && box.Height() > 0 ==> FindPathOps(A, B, box) == [Insert(box.left, B[box.top..box.bottom])]
    ensures box.Height() == 0 && box.Width() > 0 ==> FindPathOps(A, B, box) == [Delete(box.left, box.Width())]
  {
    MidpointGood(A, B, box);
  }

  /**
   * A box with both sides non-empty appends the unit operation of its middle
   * snake, then the operations of the sub-box before the snake, then those of
   * the sub-box after it; both sub-boxes are smaller.
   */
  lemma FindPathSplit(A: seq<byte>, B: seq<byte>, box: Box) returns (s: Snake)
    requires BoxIn(A, B, box) && box.Width() > 0 && box.Height() > 0
    ensures Midpoint(A, B, box) == Some(s) && GoodSnake(A, B, box, s)
    ensures BoxIn(A, B, Before(box, s)) && BoxIn(A, B, After(box, s))
    ensures Before(box, s).Size() < box.Size() && After(box, s).Size() < box.Size()
    ensures FindPathOps(A, B, box) == UnitOp(B, s) + FindPathOps(A, B, Before(box, s)) + FindPathOps(A, B, After(box, s))
  {
    MidpointGood(A, B, box);
    s := Midpoint(A, B, box).value;
  }

  /** Fd does not depend on where the box ends. */
  lemma {:induction false} FdSubBox(A: seq<byte>, B: seq<byte>, box: Box, sub: Box, p: Point)
    requires BoxIn(A, B, box) && BoxIn(A, B, sub) && sub.left == box.left && sub.top == box.top
    requires InBox(box, p) && InBox(sub, p)
    ensures Fd(A, B, box, p) == Fd(A, B, sub, p)
    decreases (p.x - box.left) + (p.y - box.top)
  {
    if p.x > box.left && p.y > box.top {
      FdSubBox(A, B, box, sub, Point(p.x - 1, p.y - 1));
      FdSubBox(A, B, box, sub, Point(p.x - 1, p.y));
      FdSubBox(A, B, box, sub, Point(p.x, p.y - 1));
    }
  }

  /** The cost from the start to a point of the box is the distance of the sub-box it closes. */
  lemma FdIsWhole(A: seq<byte>, B: seq<byte>, box: Box, p: Point)
    requires BoxIn(A, B, box) && InBox(box, p)
    ensures Fd(A, B, box, p) == Whole(A, B, Box(box.left, box.top, p.x, p.y))
  {
    var sub := Box(box.left, box.top, p.x, p.y);
    FdSubBox(A, B, box, sub, p);
    Corners(A, B, sub);
  }

  /** The cost from a point of the box to its end is the distance of the sub-box it opens. */
  lemma BdIsWhole(A: seq<byte>, B: seq<byte>, box: Box, q: Point)
    requires BoxIn(A, B, box) && InBox(box, q)
    ensures Bd(A, B, box, q) == Whole(A, B, Box(q.x, q.y, box.right, box.bottom))
  {
    BdIsDist(A, B, box, q);
    WholeIsDist(A, B, Box(q.x, q.y, box.right, box.bottom));
  }

  /** The operations appended for a box add up to the box's edit distance. */
  lemma {:induction false} FindPathCost(A: seq<byte>, B: seq<byte>, box: Box)
    requires BoxIn(A, B, box)
    ensures SumEsLen(FindPathOps(A, B, box)) == Whole(A, B, box)
    decreases box.Size()
  {
    WholeRange(A, B, box);
    if box.Width() == 0 || box.Height() == 0 {
      FindPathDegenerate(A, B, box);
      var ops := FindPathOps(A, B, box);
      assert ops == [] || (|ops| == 1 && ops[..0] == []);
    } else {
      var s := FindPathSplit(A, B, box);
      var u := UnitOp(B, s);
      var l := FindPathOps(A, B, Before(box, s));
      var r := FindPathOps(A, B, After(box, s));
      assert SumEsLen(u) == Abs(s.Dx() - s.Dy()) by {
        if u != [] {
          assert u[..0] == [];
        }
      }
      FindPathCost(A, B, Before(box, s));
      FindPathCost(A, B, After(box, s));
      SumEsLenAppend(u, l);
      SumEsLenAppend(u + l, r);
      FdIsWhole(A, B, box, s.start);
      BdIsWhole(A, B, box, s.finish);
    }
  }

  /** Every operation of the list stands for at least one edit. */
  predicate AllUnits(ops: seq<DiffOp>)
  {
    forall i :: 0 <= i < |ops| ==> EsLen(ops[i]) >= 1
  }

  lemma AllUnitsAppend(xs: seq<DiffOp>, ys: seq<DiffOp>)
    requires AllUnits(xs) && AllUnits(ys)
    ensures AllUnits(xs + ys)
  {
    forall i | 0 <= i < |xs + ys|
      ensures EsLen((xs + ys)[i]) >= 1
    {
      if i >= |xs| {
        assert (xs + ys)[i] == ys[i - |xs|];
      }
    }
  }

  /** Every appended operation stands for at least one edit. */
  lemma {:induction false} FindPathUnits(A: seq<byte>, B: seq<byte>, box: Box)
    requires BoxIn(A, B, box)
    ensures AllUnits(FindPathOps(A, B, box))
    decreases box.Size()
  {
    if box.Width() == 0 || box.Height() == 0 {
      FindPathDegenerate(A, B, box);
    } else {
      var s := FindPathSplit(A, B, box);
      var u := UnitOp(B, s);
      var l := FindPathOps(A, B, Before(box, s));
      var r := FindPathOps(A, B, After(box, s));
      FindPathUnits(A, B, Before(box, s));
      FindPathUnits(A, B, After(box, s));
      assert AllUnits(u);
      AllUnitsAppend(u, l);
      AllUnitsAppend(u + l, r);
    }
  }

  /** Every operation sits at a column in [lo, hi] and stands for at most `size` edits. */
  predicate Within(ops: seq<DiffOp>, lo: int, hi: int, size: int)
  {
    forall i :: 0 <= i < |ops| ==> lo <= ops[i].position <= hi && EsLen(ops[i]) <= size
  }

  lemma WithinAppend(xs: seq<DiffOp>, ys: seq<DiffOp>, lo: int, hi: int, size: int)
    requires Within(xs, lo, hi, size) && Within(ys, lo, hi, size)
    ensures Within(xs + ys, lo, hi, size)
  {
    forall i | 0 <= i < |xs + ys|
      ensures lo <= (xs + ys)[i].position <= hi && EsLen((xs + ys)[i]) <= size
    {
      if i >= |xs| {
        assert (xs + ys)[i] == ys[i - |xs|];
      }
    }
  }

  /** The parts FindPathSplit cuts a box into, in the terms Within needs: sub-boxes inside the box, a unit operation inside it. */
  lemma WithinParts(A: seq<byte>, B: seq<byte>, box: Box) returns (s: Snake)
    requires BoxIn(A, B, box) && box.Width() > 0 && box.Height() > 0
    ensures BoxIn(A, B, Before(box, s)) && BoxIn(A, B, After(box, s))
    ensures Before(box, s).Size() < box.Size() && After(box, s).Size() < box.Size()
    ensures box.left <= Before(box, s).left && Before(box, s).right <= box.right
    ensures box.left <= After(box, s).left && After(box, s).right <= box.right
    ensures s.Dy() > s.Dx() ==> 0 <= s.start.y < |B|
    ensures FindPathOps(A, B, box) == UnitOp(B, s) + FindPathOps(A, B, Before(box, s)) + FindPathOps(A, B, After(box, s))
    ensures Within(UnitOp(B, s), box.left, box.right, box.Size())
  {
    s := FindPathSplit(A, B, box);
  }

  /** Operations within two sub-boxes, after a unit operation, are within a box holding both. */
  lemma WithinJoin(u: seq<DiffOp>, l: seq<DiffOp>, r: seq<DiffOp>, box: Box, before: Box, after: Box)
    requires Within(u, box.left, box.right, box.Size())
    requires Within(l, before.left, before.right, before.Size())
    requires Within(r, after.left, after.right, after.Size())
    requires box.left <= before.left && before.right <= box.right && before.Size() <= box.Size()
    requires box.left <= after.left && after.right <= box.right && after.Size() <= box.Size()
    ensures Within(u + l + r, box.left, box.right, box.Size())
  {
    WithinAppend(u, l, box.left, box.right, box.Size());
    WithinAppend(u + l, r, box.left, box.right, box.Size());
  }

  /** The operations appended for a box lie within its columns, and none stands for more edits than the box holds. */
  lemma {:induction false} FindPathWithin(A: seq<byte>, B: seq<byte>, box: Box)
    requires BoxIn(A, B, box)
    ensures Within(FindPathOps(A, B, box), box.left, box.right, box.Size())
    decreases box.Size()
  {
    if box.Width() == 0 || box.Height() == 0 {
      FindPathDegenerate(A, B, box);
    } else {
      var s := WithinParts(A, B, box);
      FindPathWithin(A, B, Before(box, s));
      FindPathWithin(A, B, After(box, s));
      WithinJoin(UnitOp(B, s), FindPathOps(A, B, Before(box, s)), FindPathOps(A, B, After(box, s)), box, Before(box, s), After(box, s));
    }
  }

  /** ses() is the insert/delete edit distance of A and B. */
  lemma SesIsDist(A: seq<byte>, B: seq<byte>)
    ensures Ses(A, B) == Dist(A, B)
  {
    FindPathCost(A, B, FullBox(A, B));
    WholeIsDist(A, B, FullBox(A, B));
    assert A[0..|A|] == A && B[0..|B|] == B;
  }

  /** diff(A, B) is empty, and ses(A, B) is 0, exactly when A == B. */
  lemma DiffEmpty(A: seq<byte>, B: seq<byte>)
    ensures Diff(A, B) == [] <==> A == B
    ensures Ses(A, B) == 0 <==> A == B
  {
    SesIsDist(A, B);
    DistZero(A, B);
    FindPathUnits(A, B, FullBox(A, B));
    SumEsLenAtLeastCount(Diff(A, B));
  }

  /** ses(A, B) lies between ||A| - |B|| and |A| + |B| and has the parity of |A| + |B|. */
  lemma SesBounds(A: seq<byte>, B: seq<byte>)
    ensures Abs(|A| - |B|) <= Ses(A, B) <= |A| + |B|
    ensures Ses(A, B) % 2 == (|A| + |B|) % 2
  {
    FindPathCost(A, B, FullBox(A, B));
    FullBounds(A, B, Ses(A, B));
  }

  lemma FullBounds(A: seq<byte>, B: seq<byte>, n: int)
    requires n == Whole(A, B, FullBox(A, B))
    ensures Abs(|A| - |B|) <= n <= |A| + |B| && n % 2 == (|A| + |B|) % 2
  {
    WholeBounds(A, B, FullBox(A, B));
  }

  /** ses is symmetric. */
  lemma SesSymmetric(A: seq<byte>, B: seq<byte>)
    ensures Ses(A, B) == Ses(B, A)
  {
    SesIsDist(A, B);
    SesIsDist(B, A);
    DistSymmetric(A, B);
  }

  /** ses(A, B) is the length of a shortest keep/insert/remove script from A to B. */
  lemma SesIsShortest(A: seq<byte>, B: seq<byte>)
    ensures exists s :: Transforms(s, A, B) && Cost(s) == Ses(A, B)
    ensures forall s :: Transforms(s, A, B) ==> Ses(A, B) <= Cost(s)
  {
    SesIsDist(A, B);
    DistIsMinimalCost(A, B);
  }
}
