/**
 * What a backward frontier entry means, mirroring the forward side. After
 * backward round e the entry of diagonal c is the row y of a point that is never
 * below or right of the box, costs at most e to the bottom-right corner when it
 * is inside the box, leaves the box only when the whole box is cheap, and is
 * furthest: no point of the box on diagonal c that costs at most e lies above it.
 */
module BackwardTheory {
  import opened Bytes
  import opened EditDistance
  import opened DiffOps
  import opened Frontier
  import opened Costs

  predicate InBoxB(box: Box, c: int, y: int)
  {
    InBox(box, Point(BX(box, c, y), y))
  }

  /** Cost to the bottom-right corner of the point in row y of backward diagonal c. */
  function BwdCost(A: seq<byte>, B: seq<byte>, box: Box, c: int, y: int): nat
    requires BoxIn(A, B, box) && InBoxB(box, c, y)
  {
    Bd(A, B, box, Point(BX(box, c, y), y))
  }

  /** The bytes just after the point in row y of diagonal c are equal. */
  predicate BwdDiag(A: seq<byte>, B: seq<byte>, box: Box, c: int, y: int)
    requires BoxIn(A, B, box) && InBoxB(box, c, y)
  {
    BX(box, c, y) < box.right && y < box.bottom && A[BX(box, c, y)] == B[y]
  }

  /** Row y is the furthest-reaching point of cost e on backward diagonal c. */
  ghost predicate BwdReach(A: seq<byte>, B: seq<byte>, box: Box, e: int, c: int, y: int)
  {
    BoxIn(A, B, box) && y <= box.bottom && BX(box, c, y) <= box.right
    && (InBoxB(box, c, y) ==> BwdCost(A, B, box, c, y) <= e)
    && (!InBoxB(box, c, y) ==> Whole(A, B, box) <= e + Abs(c + box.Delta()) - 1)
    && (forall py {:trigger BwdCost(A, B, box, c, py)} :: InBoxB(box, c, py) && BwdCost(A, B, box, c, py) <= e ==> py >= y)
  }

  /** What BwdReach says about the point itself: its cost, or how cheap the box is when the point has left it. */
  predicate BwdBound(A: seq<byte>, B: seq<byte>, box: Box, e: int, c: int, p: Point)
  {
    BoxIn(A, B, box) && p.y <= box.bottom && p.x <= box.right
    && (InBox(box, p) ==> Bd(A, B, box, p) <= e)
    && (!InBox(box, p) ==> Whole(A, B, box) <= e + Abs(c + box.Delta()) - 1)
  }

  lemma BwdReachBound(A: seq<byte>, B: seq<byte>, box: Box, e: int, c: int, y: int)
    requires BwdReach(A, B, box, e, c, y)
    ensures BwdBound(A, B, box, e, c, Point(BX(box, c, y), y))
  {
  }

  /** The same for a point before its slide: furthest among the points not entered diagonally. */
  ghost predicate BwdEntryOk(A: seq<byte>, B: seq<byte>, box: Box, e: int, c: int, y: int)
  {
    BoxIn(A, B, box) && y <= box.bottom && BX(box, c, y) <= box.right
    && (InBoxB(box, c, y) ==> BwdCost(A, B, box, c, y) <= e)
    && (!InBoxB(box, c, y) ==> Whole(A, B, box) <= e + Abs(c + box.Delta()) - 1)
    && (forall py {:trigger BwdCost(A, B, box, c, py)} :: InBoxB(box, c, py) && BwdCost(A, B, box, c, py) <= e && !BwdDiag(A, B, box, c, py) ==> py >= y)
  }

  /** Every entry of backward round e means what BwdReach says. */
  ghost predicate BwdFront(A: seq<byte>, B: seq<byte>, box: Box, vb: Line, e: int)
  {
    forall c {:trigger BwdReach(A, B, box, e, c, Get(vb, c).value)} :: -e <= c <= e && (c + e) % 2 == 0 ==>
      BwdOk(box, vb, c) && BwdReach(A, B, box, e, c, Get(vb, c).value)
  }

  /** What the backward step reads and where it goes. */
  lemma BwdMoveFacts(box: Box, vb: Line, d: int, c: int)
    requires BwdReady(box, vb, d) && -d <= c <= d && (c + d) % 2 == 0
    ensures var mv := BwdMove(box, vb, d, c);
      (d == 0 ==> mv.prev == mv.entry && mv.entry.y == Get(vb, 1).value)
      && (d > 0 ==>
        (c != -d ==> BwdOk(box, vb, c - 1) && mv.entry.y <= Get(vb, c - 1).value - 1)
        && (c != d ==> BwdOk(box, vb, c + 1) && mv.entry.y <= Get(vb, c + 1).value)
        && ((c != d && mv.prev.y == Get(vb, c + 1).value && mv.prev.x == BX(box, c + 1, mv.prev.y)
             && mv.entry == Point(mv.prev.x - 1, mv.prev.y))
         || (c != -d && mv.prev.y == Get(vb, c - 1).value && mv.prev.x == BX(box, c - 1, mv.prev.y)
             && mv.entry == Point(mv.prev.x, mv.prev.y - 1))))
  {
    Parity(c, d);
    if d > 0 {
      assert c != -d ==> BwdOk(box, vb, c - 1);
      assert c != d ==> BwdOk(box, vb, c + 1);
    }
  }

  /** A left step from a furthest point of round e-1 on diagonal c+1. */
  lemma BwdLeftStep(A: seq<byte>, B: seq<byte>, box: Box, e: int, c: int, y: int)
    requires BwdReach(A, B, box, e - 1, c + 1, y)
    ensures InBoxB(box, c, y) ==> BwdCost(A, B, box, c, y) <= e
    ensures !InBoxB(box, c, y) ==> Whole(A, B, box) <= e + Abs(c + box.Delta()) - 1
  {
    var p := Point(BX(box, c + 1, y), y);
    if InBox(box, p) {
      FdEdge(A, B, box, p);
      Through(A, B, box, p);
      BdUnit(A, B, box, p);
    }
  }

  /** An up step from a furthest point of round e-1 on diagonal c-1. */
  lemma BwdUpStep(A: seq<byte>, B: seq<byte>, box: Box, e: int, c: int, y: int)
    requires BwdReach(A, B, box, e - 1, c - 1, y)
    ensures InBoxB(box, c, y - 1) ==> BwdCost(A, B, box, c, y - 1) <= e
    ensures !InBoxB(box, c, y - 1) ==> Whole(A, B, box) <= e + Abs(c + box.Delta()) - 1
  {
    var p := Point(BX(box, c - 1, y), y);
    if InBox(box, p) {
      FdEdge(A, B, box, p);
      Through(A, B, box, p);
      BdUnit(A, B, box, p);
    }
  }

  /** A point whose right neighbour costs at most d-1 is no higher than the right neighbour diagonal's entry. */
  lemma BwdLandRight(A: seq<byte>, B: seq<byte>, box: Box, d: int, c: int, y0: int, vr: int, py: int)
    requires BoxIn(A, B, box) && -d <= c <= d
    requires c != d ==> BwdReach(A, B, box, d - 1, c + 1, vr) && y0 <= vr
    requires InBoxB(box, c, py) && BX(box, c, py) < box.right
    requires Bd(A, B, box, Point(BX(box, c, py) + 1, py)) <= d - 1
    ensures py >= y0
  {
    var r := Point(BX(box, c, py) + 1, py);
    BdBounds(A, B, box, r);
    assert BwdCost(A, B, box, c + 1, py) == Bd(A, B, box, r);
  }

  /** A point whose lower neighbour costs at most d-1 is at most one above the lower neighbour diagonal's entry. */
  lemma BwdLandDown(A: seq<byte>, B: seq<byte>, box: Box, d: int, c: int, y0: int, vl: int, py: int)
    requires BoxIn(A, B, box) && -d <= c <= d
    requires c != -d ==> BwdReach(A, B, box, d - 1, c - 1, vl) && y0 <= vl - 1
    requires InBoxB(box, c, py) && py < box.bottom
    requires Bd(A, B, box, Point(BX(box, c, py), py + 1)) <= d - 1
    ensures py >= y0
  {
    var dn := Point(BX(box, c, py), py + 1);
    BdBounds(A, B, box, dn);
    assert BwdCost(A, B, box, c - 1, py + 1) == Bd(A, B, box, dn);
  }

  /**
   * A point of diagonal c not entered diagonally is no further than a landing
   * row y0 that is at least one above the lower neighbour's entry vl and no
   * lower than the right neighbour's entry vr.
   */
  lemma BwdLandingComplete(A: seq<byte>, B: seq<byte>, box: Box, d: int, c: int, y0: int, vl: int, vr: int, py: int)
    requires BoxIn(A, B, box) && -d <= c <= d && y0 <= box.bottom && BX(box, c, y0) <= box.right
    requires c != -d ==> BwdReach(A, B, box, d - 1, c - 1, vl) && y0 <= vl - 1
    requires c != d ==> BwdReach(A, B, box, d - 1, c + 1, vr) && y0 <= vr
    requires InBoxB(box, c, py) && BwdCost(A, B, box, c, py) <= d && !BwdDiag(A, B, box, c, py)
    ensures py >= y0
  {
    var p := Point(BX(box, c, py), py);
    BdEdge(A, B, box, p);
    if p.x < box.right && py < box.bottom {
      BdStep(A, B, box, p);
      if Bd(A, B, box, Point(p.x + 1, py)) <= d - 1 {
        BwdLandRight(A, B, box, d, c, y0, vr, py);
      } else {
        BwdLandDown(A, B, box, d, c, y0, vl, py);
      }
    }
  }

  /** A point of diagonal c not entered diagonally is no further than where the step lands. */
  lemma BwdEntryComplete(A: seq<byte>, B: seq<byte>, box: Box, vb: Line, d: int, c: int, py: int)
    requires BoxIn(A, B, box) && BwdReady(box, vb, d) && -d <= c <= d && (c + d) % 2 == 0
    requires d == 0 ==> Get(vb, 1) == Some(box.bottom)
    requires d > 0 ==> BwdFront(A, B, box, vb, d - 1)
    requires InBoxB(box, c, py) && BwdCost(A, B, box, c, py) <= d && !BwdDiag(A, B, box, c, py)
    ensures py >= BwdMove(box, vb, d, c).entry.y
  {
    var y0 := BwdMove(box, vb, d, c).entry.y;
    BwdMoveFacts(box, vb, d, c);
    Parity(c, d);
    var vl := if c != -d then Get(vb, c - 1).value else 0;
    var vr := if c != d then Get(vb, c + 1).value else 0;
    assert c != -d ==> BwdReach(A, B, box, d - 1, c - 1, vl);
    assert c != d ==> BwdReach(A, B, box, d - 1, c + 1, vr);
    BwdLandingComplete(A, B, box, d, c, y0, vl, vr, py);
  }

  /** Before its slide the point of diagonal c already has all properties but full furthestness. */
  lemma BwdEntryReach(A: seq<byte>, B: seq<byte>, box: Box, vb: Line, d: int, c: int)
    requires BoxIn(A, B, box) && BwdReady(box, vb, d) && -d <= c <= d && (c + d) % 2 == 0
    requires d == 0 ==> Get(vb, 1) == Some(box.bottom)
    requires d > 0 ==> BwdFront(A, B, box, vb, d - 1)
    ensures BwdEntryOk(A, B, box, d, c, BwdMove(box, vb, d, c).entry.y)
  {
    var mv := BwdMove(box, vb, d, c);
    var y0 := mv.entry.y;
    BwdMoveFacts(box, vb, d, c);
    Parity(c, d);
    if d == 0 {
      Corners(A, B, box);
    } else if c != d && mv.prev.y == Get(vb, c + 1).value && mv.entry == Point(mv.prev.x - 1, mv.prev.y) {
      assert BwdReach(A, B, box, d - 1, c + 1, Get(vb, c + 1).value);
      BwdLeftStep(A, B, box, d, c, mv.prev.y);
    } else {
      assert BwdReach(A, B, box, d - 1, c - 1, Get(vb, c - 1).value);
      BwdUpStep(A, B, box, d, c, mv.prev.y);
    }
    forall py | InBoxB(box, c, py) && BwdCost(A, B, box, c, py) <= d && !BwdDiag(A, B, box, c, py)
      ensures py >= y0
    {
      BwdEntryComplete(A, B, box, vb, d, c, py);
    }
  }

  /** Every point of diagonal c costing at most e is reached by the slide from the step's landing point. */
  lemma BwdCover(A: seq<byte>, B: seq<byte>, box: Box, e: int, c: int, y0: int, py: int)
    requires BwdEntryOk(A, B, box, e, c, y0)
    requires InBoxB(box, c, py) && BwdCost(A, B, box, c, py) <= e
    ensures py >= SlideBwd(A, B, box, Point(BX(box, c, y0), y0)).y
    decreases box.bottom - py
  {
    if BwdDiag(A, B, box, c, py) {
      var p := Point(BX(box, c, py), py);
      BdStep(A, B, box, p);
      assert BwdCost(A, B, box, c, py + 1) == Bd(A, B, box, Point(p.x + 1, py + 1));
      BwdCover(A, B, box, e, c, y0, py + 1);
    }
  }

  /** Sliding turns the landing point into the furthest-reaching point of the round. */
  lemma BwdSlideReach(A: seq<byte>, B: seq<byte>, box: Box, e: int, c: int, y0: int)
    requires BwdEntryOk(A, B, box, e, c, y0)
    ensures var f := SlideBwd(A, B, box, Point(BX(box, c, y0), y0));
      f.x == BX(box, c, f.y) && BwdReach(A, B, box, e, c, f.y)
  {
    var p := Point(BX(box, c, y0), y0);
    var f := SlideBwd(A, B, box, p);
    SlideBwdMatch(A, B, box, p);
    if InBoxB(box, c, f.y) && f != p {
      DiagEqual(A, B, box, f, p);
    }
    forall py | InBoxB(box, c, py) && BwdCost(A, B, box, c, py) <= e
      ensures py >= f.y
    {
      BwdCover(A, B, box, e, c, y0, py);
    }
  }

  /** One step and slide of backward round d keeps the meaning of the entries. */
  lemma BwdStepReach(A: seq<byte>, B: seq<byte>, box: Box, vb: Line, d: int, c: int)
    requires BoxIn(A, B, box) && BwdReady(box, vb, d) && -d <= c <= d && (c + d) % 2 == 0
    requires d == 0 ==> Get(vb, 1) == Some(box.bottom)
    requires d > 0 ==> BwdFront(A, B, box, vb, d - 1)
    ensures var f := SlideBwd(A, B, box, BwdMove(box, vb, d, c).entry);
      f.x == BX(box, c, f.y) && BwdReach(A, B, box, d, c, f.y)
  {
    BwdEntryReach(A, B, box, vb, d, c);
    BwdSlideReach(A, B, box, d, c, BwdMove(box, vb, d, c).entry.y);
  }

  /** The point a backward step starts from: set, in the quadrant, one step after the landing point. */
  lemma BwdPrev(A: seq<byte>, B: seq<byte>, box: Box, vb: Line, d: int, c: int)
    requires BoxIn(A, B, box) && BwdReady(box, vb, d) && -d <= c <= d && (c + d) % 2 == 0
    requires d > 0 && BwdFront(A, B, box, vb, d - 1)
    ensures var mv := BwdMove(box, vb, d, c);
      mv.prev.x <= box.right && mv.prev.y <= box.bottom
      && (InBox(box, mv.prev) ==> Bd(A, B, box, mv.prev) <= d - 1)
      && (mv.entry == Point(mv.prev.x - 1, mv.prev.y) || mv.entry == Point(mv.prev.x, mv.prev.y - 1))
  {
    var mv := BwdMove(box, vb, d, c);
    BwdMoveFacts(box, vb, d, c);
    Parity(c, d);
    if c != d && mv.prev.y == Get(vb, c + 1).value && mv.entry == Point(mv.prev.x - 1, mv.prev.y) {
      assert BwdReach(A, B, box, d - 1, c + 1, Get(vb, c + 1).value);
      assert InBox(box, mv.prev) ==> BwdCost(A, B, box, c + 1, mv.prev.y) == Bd(A, B, box, mv.prev);
    } else {
      assert BwdReach(A, B, box, d - 1, c - 1, Get(vb, c - 1).value);
      assert InBox(box, mv.prev) ==> BwdCost(A, B, box, c - 1, mv.prev.y) == Bd(A, B, box, mv.prev);
    }
  }
}
