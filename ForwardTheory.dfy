/**
 * What a forward frontier entry means. After forward round e the entry of
 * diagonal k is the column x of a point that is never above or left of the
 * box, costs at most e from the top-left corner when it is inside the box,
 * leaves the box only when the whole box is cheap, and is furthest: no point of
 * the box on diagonal k that costs at most e lies beyond it.
 */
module ForwardTheory {
  import opened Bytes
  import opened EditDistance
  import opened DiffOps
  import opened Frontier
  import opened Costs

  predicate InBoxF(box: Box, k: int, x: int)
  {
    InBox(box, Point(x, FY(box, k, x)))
  }

  /** Cost from the top-left corner of the point in column x of diagonal k. */
  function FwdCost(A: seq<byte>, B: seq<byte>, box: Box, k: int, x: int): nat
    requires BoxIn(A, B, box) && InBoxF(box, k, x)
  {
    Fd(A, B, box, Point(x, FY(box, k, x)))
  }

  /** The bytes just before the point in column x of diagonal k are equal. */
  predicate FwdDiag(A: seq<byte>, B: seq<byte>, box: Box, k: int, x: int)
    requires BoxIn(A, B, box) && InBoxF(box, k, x)
  {
    x > box.left && FY(box, k, x) > box.top && A[x - 1] == B[FY(box, k, x) - 1]
  }

  /** Column x is the furthest-reaching point of cost e on diagonal k. */
  ghost predicate FwdReach(A: seq<byte>, B: seq<byte>, box: Box, e: int, k: int, x: int)
  {
    BoxIn(A, B, box) && x >= box.left && FY(box, k, x) >= box.top
    && (InBoxF(box, k, x) ==> FwdCost(A, B, box, k, x) <= e)
    && (!InBoxF(box, k, x) ==> Whole(A, B, box) <= e + Abs(k - box.Delta()) - 1)
    && (forall px {:trigger FwdCost(A, B, box, k, px)} :: InBoxF(box, k, px) && FwdCost(A, B, box, k, px) <= e ==> px <= x)
  }

  /** What FwdReach says about the point itself: its cost, or how cheap the box is when the point has left it. */
  predicate FwdBound(A: seq<byte>, B: seq<byte>, box: Box, e: int, k: int, p: Point)
  {
    BoxIn(A, B, box) && p.x >= box.left && p.y >= box.top
    && (InBox(box, p) ==> Fd(A, B, box, p) <= e)
    && (!InBox(box, p) ==> Whole(A, B, box) <= e + Abs(k - box.Delta()) - 1)
  }

  lemma FwdReachBound(A: seq<byte>, B: seq<byte>, box: Box, e: int, k: int, x: int)
    requires FwdReach(A, B, box, e, k, x)
    ensures FwdBound(A, B, box, e, k, Point(x, FY(box, k, x)))
  {
  }

  /** The same for a point before its slide: furthest among the points not entered diagonally. */
  ghost predicate FwdEntryOk(A: seq<byte>, B: seq<byte>, box: Box, e: int, k: int, x: int)
  {
    BoxIn(A, B, box) && x >= box.left && FY(box, k, x) >= box.top
    && (InBoxF(box, k, x) ==> FwdCost(A, B, box, k, x) <= e)
    && (!InBoxF(box, k, x) ==> Whole(A, B, box) <= e + Abs(k - box.Delta()) - 1)
    && (forall px {:trigger FwdCost(A, B, box, k, px)} :: InBoxF(box, k, px) && FwdCost(A, B, box, k, px) <= e && !FwdDiag(A, B, box, k, px) ==> px <= x)
  }

  /** Every entry of forward round e means what FwdReach says. */
  ghost predicate FwdFront(A: seq<byte>, B: seq<byte>, box: Box, vf: Line, e: int)
  {
    forall k {:trigger FwdReach(A, B, box, e, k, Get(vf, k).value)} :: -e <= k <= e && (k + e) % 2 == 0 ==>
      FwdOk(box, vf, k) && FwdReach(A, B, box, e, k, Get(vf, k).value)
  }

  /** What the forward step reads and where it goes. */
  lemma FwdMoveFacts(box: Box, vf: Line, d: int, k: int)
    requires FwdReady(box, vf, d) && -d <= k <= d && (k + d) % 2 == 0
    ensures var mv := FwdMove(box, vf, d, k);
      (d == 0 ==> mv.prev == mv.entry && mv.entry.x == Get(vf, 1).value)
      && (d > 0 ==>
        (k != -d ==> FwdOk(box, vf, k - 1) && mv.entry.x >= Get(vf, k - 1).value + 1)
        && (k != d ==> FwdOk(box, vf, k + 1) && mv.entry.x >= Get(vf, k + 1).value)
        && ((k != d && mv.prev.x == Get(vf, k + 1).value && mv.prev.y == FY(box, k + 1, mv.prev.x)
             && mv.entry == Point(mv.prev.x, mv.prev.y + 1))
         || (k != -d && mv.prev.x == Get(vf, k - 1).value && mv.prev.y == FY(box, k - 1, mv.prev.x)
             && mv.entry == Point(mv.prev.x + 1, mv.prev.y))))
  {
    Parity(k, d);
    if d > 0 {
      assert k != -d ==> FwdOk(box, vf, k - 1);
      assert k != d ==> FwdOk(box, vf, k + 1);
    }
  }

  /** A down step from a furthest point of round e-1 on diagonal k+1. */
  lemma FwdDownStep(A: seq<byte>, B: seq<byte>, box: Box, e: int, k: int, x: int)
    requires FwdReach(A, B, box, e - 1, k + 1, x)
    ensures InBoxF(box, k, x) ==> FwdCost(A, B, box, k, x) <= e
    ensures !InBoxF(box, k, x) ==> Whole(A, B, box) <= e + Abs(k - box.Delta()) - 1
  {
    var p := Point(x, FY(box, k + 1, x));
    if InBox(box, p) {
      BdEdge(A, B, box, p);
      Through(A, B, box, p);
      FdUnit(A, B, box, p);
    }
  }

  /** A right step from a furthest point of round e-1 on diagonal k-1. */
  lemma FwdRightStep(A: seq<byte>, B: seq<byte>, box: Box, e: int, k: int, x: int)
    requires FwdReach(A, B, box, e - 1, k - 1, x)
    ensures InBoxF(box, k, x + 1) ==> FwdCost(A, B, box, k, x + 1) <= e
    ensures !InBoxF(box, k, x + 1) ==> Whole(A, B, box) <= e + Abs(k - box.Delta()) - 1
  {
    var p := Point(x, FY(box, k - 1, x));
    if InBox(box, p) {
      BdEdge(A, B, box, p);
      Through(A, B, box, p);
      FdUnit(A, B, box, p);
    }
  }

  /** A point whose left neighbour costs at most d-1 is at most one past the left neighbour diagonal's entry. */
  lemma FwdLandLeft(A: seq<byte>, B: seq<byte>, box: Box, d: int, k: int, x0: int, vl: int, px: int)
    requires BoxIn(A, B, box) && -d <= k <= d
    requires k != -d ==> FwdReach(A, B, box, d - 1, k - 1, vl) && x0 >= vl + 1
    requires InBoxF(box, k, px) && px > box.left
    requires Fd(A, B, box, Point(px - 1, FY(box, k, px))) <= d - 1
    ensures px <= x0
  {
    var l := Point(px - 1, FY(box, k, px));
    FdBounds(A, B, box, l);
    assert FwdCost(A, B, box, k - 1, px - 1) == Fd(A, B, box, l);
  }

  /** A point whose upper neighbour costs at most d-1 is no further than the upper neighbour diagonal's entry. */
  lemma FwdLandUp(A: seq<byte>, B: seq<byte>, box: Box, d: int, k: int, x0: int, vr: int, px: int)
    requires BoxIn(A, B, box) && -d <= k <= d
    requires k != d ==> FwdReach(A, B, box, d - 1, k + 1, vr) && x0 >= vr
    requires InBoxF(box, k, px) && FY(box, k, px) > box.top
    requires Fd(A, B, box, Point(px, FY(box, k, px) - 1)) <= d - 1
    ensures px <= x0
  {
    var u := Point(px, FY(box, k, px) - 1);
    FdBounds(A, B, box, u);
    assert FwdCost(A, B, box, k + 1, px) == Fd(A, B, box, u);
  }

  /**
   * A point of diagonal k not entered diagonally is no further than a landing
   * point x0 that is at least one past the left neighbour's entry vl and at least
   * the right neighbour's entry vr.
   */
  lemma FwdLandingComplete(A: seq<byte>, B: seq<byte>, box: Box, d: int, k: int, x0: int, vl: int, vr: int, px: int)
    requires BoxIn(A, B, box) && -d <= k <= d && x0 >= box.left && FY(box, k, x0) >= box.top
    requires k != -d ==> FwdReach(A, B, box, d - 1, k - 1, vl) && x0 >= vl + 1
    requires k != d ==> FwdReach(A, B, box, d - 1, k + 1, vr) && x0 >= vr
    requires InBoxF(box, k, px) && FwdCost(A, B, box, k, px) <= d && !FwdDiag(A, B, box, k, px)
    ensures px <= x0
  {
    var p := Point(px, FY(box, k, px));
    FdEdge(A, B, box, p);
    if px > box.left && p.y > box.top {
      FdStep(A, B, box, p);
      if Fd(A, B, box, Point(px - 1, p.y)) <= d - 1 {
        FwdLandLeft(A, B, box, d, k, x0, vl, px);
      } else {
        FwdLandUp(A, B, box, d, k, x0, vr, px);
      }
    }
  }

  /** A point of diagonal k not entered diagonally is no further than where the step lands. */
  lemma FwdEntryComplete(A: seq<byte>, B: seq<byte>, box: Box, vf: Line, d: int, k: int, px: int)
    requires BoxIn(A, B, box) && FwdReady(box, vf, d) && -d <= k <= d && (k + d) % 2 == 0
    requires d == 0 ==> Get(vf, 1) == Some(box.left)
    requires d > 0 ==> FwdFront(A, B, box, vf, d - 1)
    requires InBoxF(box, k, px) && FwdCost(A, B, box, k, px) <= d && !FwdDiag(A, B, box, k, px)
    ensures px <= FwdMove(box, vf, d, k).entry.x
  {
    var x0 := FwdMove(box, vf, d, k).entry.x;
    FwdMoveFacts(box, vf, d, k);
    Parity(k, d);
    var vl := if k != -d then Get(vf, k - 1).value else 0;
    var vr := if k != d then Get(vf, k + 1).value else 0;
    assert k != -d ==> FwdReach(A, B, box, d - 1, k - 1, vl);
    assert k != d ==> FwdReach(A, B, box, d - 1, k + 1, vr);
    FwdLandingComplete(A, B, box, d, k, x0, vl, vr, px);
  }

  /** Before its slide the point of diagonal k already has all properties but full furthestness. */
  lemma FwdEntryReach(A: seq<byte>, B: seq<byte>, box: Box, vf: Line, d: int, k: int)
    requires BoxIn(A, B, box) && FwdReady(box, vf, d) && -d <= k <= d && (k + d) % 2 == 0
    requires d == 0 ==> Get(vf, 1) == Some(box.left)
    requires d > 0 ==> FwdFront(A, B, box, vf, d - 1)
    ensures FwdEntryOk(A, B, box, d, k, FwdMove(box, vf, d, k).entry.x)
  {
    var mv := FwdMove(box, vf, d, k);
    var x0 := mv.entry.x;
    FwdMoveFacts(box, vf, d, k);
    Parity(k, d);
    if d == 0 {
      Corners(A, B, box);
    } else if k != d && mv.prev.x == Get(vf, k + 1).value && mv.entry == Point(mv.prev.x, mv.prev.y + 1) {
      assert FwdReach(A, B, box, d - 1, k + 1, Get(vf, k + 1).value);
      FwdDownStep(A, B, box, d, k, mv.prev.x);
    } else {
      assert FwdReach(A, B, box, d - 1, k - 1, Get(vf, k - 1).value);
      FwdRightStep(A, B, box, d, k, mv.prev.x);
    }
    forall px | InBoxF(box, k, px) && FwdCost(A, B, box, k, px) <= d && !FwdDiag(A, B, box, k, px)
      ensures px <= x0
    {
      FwdEntryComplete(A, B, box, vf, d, k, px);
    }
  }

  /** Every point of diagonal k costing at most e is reached by the slide from the step's landing point. */
  lemma FwdCover(A: seq<byte>, B: seq<byte>, box: Box, e: int, k: int, x0: int, px: int)
    requires FwdEntryOk(A, B, box, e, k, x0)
    requires InBoxF(box, k, px) && FwdCost(A, B, box, k, px) <= e
    ensures px <= SlideFwd(A, B, box, Point(x0, FY(box, k, x0))).x
    decreases px - box.left
  {
    if FwdDiag(A, B, box, k, px) {
      var p := Point(px, FY(box, k, px));
      FdStep(A, B, box, p);
      assert FwdCost(A, B, box, k, px - 1) == Fd(A, B, box, Point(px - 1, p.y - 1));
      FwdCover(A, B, box, e, k, x0, px - 1);
    }
  }

  /** Sliding turns the landing point into the furthest-reaching point of the round. */
  lemma FwdSlideReach(A: seq<byte>, B: seq<byte>, box: Box, e: int, k: int, x0: int)
    requires FwdEntryOk(A, B, box, e, k, x0)
    ensures var f := SlideFwd(A, B, box, Point(x0, FY(box, k, x0)));
      f.y == FY(box, k, f.x) && FwdReach(A, B, box, e, k, f.x)
  {
    var p := Point(x0, FY(box, k, x0));
    var f := SlideFwd(A, B, box, p);
    SlideFwdMatch(A, B, box, p);
    if InBoxF(box, k, f.x) && f != p {
      DiagEqual(A, B, box, p, f);
    }
    forall px | InBoxF(box, k, px) && FwdCost(A, B, box, k, px) <= e
      ensures px <= f.x
    {
      FwdCover(A, B, box, e, k, x0, px);
    }
  }

  /** One step and slide of forward round d keeps the meaning of the entries. */
  lemma FwdStepReach(A: seq<byte>, B: seq<byte>, box: Box, vf: Line, d: int, k: int)
    requires BoxIn(A, B, box) && FwdReady(box, vf, d) && -d <= k <= d && (k + d) % 2 == 0
    requires d == 0 ==> Get(vf, 1) == Some(box.left)
    requires d > 0 ==> FwdFront(A, B, box, vf, d - 1)
    ensures var f := SlideFwd(A, B, box, FwdMove(box, vf, d, k).entry);
      f.y == FY(box, k, f.x) && FwdReach(A, B, box, d, k, f.x)
  {
    FwdEntryReach(A, B, box, vf, d, k);
    FwdSlideReach(A, B, box, d, k, FwdMove(box, vf, d, k).entry.x);
  }

  /** The point a forward step starts from: set, in the quadrant, one step before the landing point. */
  lemma FwdPrev(A: seq<byte>, B: seq<byte>, box: Box, vf: Line, d: int, k: int)
    requires BoxIn(A, B, box) && FwdReady(box, vf, d) && -d <= k <= d && (k + d) % 2 == 0
    requires d > 0 && FwdFront(A, B, box, vf, d - 1)
    ensures var mv := FwdMove(box, vf, d, k);
      mv.prev.x >= box.left && mv.prev.y >= box.top
      && (InBox(box, mv.prev) ==> Fd(A, B, box, mv.prev) <= d - 1)
      && (mv.entry == Point(mv.prev.x, mv.prev.y + 1) || mv.entry == Point(mv.prev.x + 1, mv.prev.y))
  {
    var mv := FwdMove(box, vf, d, k);
    FwdMoveFacts(box, vf, d, k);
    Parity(k, d);
    if k != d && mv.prev.x == Get(vf, k + 1).value && mv.entry == Point(mv.prev.x, mv.prev.y + 1) {
      assert FwdReach(A, B, box, d - 1, k + 1, Get(vf, k + 1).value);
      assert InBox(box, mv.prev) ==> FwdCost(A, B, box, k + 1, mv.prev.x) == Fd(A, B, box, mv.prev);
    } else {
      assert FwdReach(A, B, box, d - 1, k - 1, Get(vf, k - 1).value);
      assert InBox(box, mv.prev) ==> FwdCost(A, B, box, k - 1, mv.prev.x) == Fd(A, B, box, mv.prev);
    }
  }
}
