/**
 * Where the two searches meet. A diagonal whose forward point has passed the
 * backward frontier (or the other way round) yields a middle snake worth having,
 * and when the whole distance is exactly what round d can reach, some diagonal
 * of round d is bound to fire. Together with the frontier meanings this makes
 * each scan correct: either it returns a good snake, or its round is complete
 * and the whole distance is larger.
 */
module Crossing {
  import opened Bytes
  import opened EditDistance
  import opened DiffOps
  import opened Frontier
  import opened Costs
  import opened ForwardTheory
  import opened BackwardTheory

  /**
   * A forward point of round d that lies beyond the backward point of round d-1
   * on the same diagonal is inside the box, on a cheapest path, d from the start.
   */
  lemma FwdCross(A: seq<byte>, B: seq<byte>, box: Box, d: int, k: int, c: int, f: Point, q: Point)
    requires BoxIn(A, B, box) && -d <= k <= d && c == k - box.Delta() && -(d - 1) <= c <= d - 1
    requires Whole(A, B, box) >= 2 * d - 1
    requires f.y == FY(box, k, f.x) && FwdBound(A, B, box, d, k, f)
    requires q.x == BX(box, c, q.y) && BwdBound(A, B, box, d - 1, c, q)
    requires f.y >= q.y
    ensures InBox(box, f) && Whole(A, B, box) == 2 * d - 1
    ensures Fd(A, B, box, f) == d && Bd(A, B, box, f) == d - 1
  {
    assert InBox(box, q) && InBox(box, f);
    assert Bd(A, B, box, f) <= d - 1 by {
      DiagMonotone(A, B, box, q, f);
    }
    Through(A, B, box, f);
  }

  /** The start of a forward snake that lands d from the start is d-1 from the start. */
  lemma FwdSnakeStart(A: seq<byte>, B: seq<byte>, box: Box, d: int, p: Point, e: Point)
    requires BoxIn(A, B, box) && InBox(box, e) && Whole(A, B, box) == 2 * d - 1
    requires Bd(A, B, box, e) == d - 1
    requires p.x >= box.left && p.y >= box.top && (InBox(box, p) ==> Fd(A, B, box, p) <= d - 1)
    requires e == Point(p.x, p.y + 1) || e == Point(p.x + 1, p.y)
    ensures InBox(box, p) && Fd(A, B, box, p) == d - 1
  {
    assert InBox(box, p);
    assert Bd(A, B, box, p) <= d by {
      if e == Point(p.x, p.y + 1) {
        BdUnitY(A, B, box, p);
      } else {
        BdUnitX(A, B, box, p);
      }
    }
    Through(A, B, box, p);
  }

  /** A snake is step-first when it makes one step and then follows equal bytes, on a cheapest path. */
  lemma StepFirstShape(A: seq<byte>, B: seq<byte>, box: Box, p: Point, e: Point, f: Point)
    requires BoxIn(A, B, box) && InBox(box, p) && InBox(box, f)
    requires e == Point(p.x, p.y + 1) || e == Point(p.x + 1, p.y)
    requires f.x - e.x == f.y - e.y >= 0 && (f == e || A[e.x..f.x] == B[e.y..f.y])
    requires Fd(A, B, box, p) + 1 + Bd(A, B, box, f) == Whole(A, B, box)
    ensures StepFirst(A, B, box, Snake(p, f))
  {
  }

  /** One step from p to e and a run of equal bytes from e to f form a step-first snake. */
  lemma FwdSnake(A: seq<byte>, B: seq<byte>, box: Box, d: int, p: Point, e: Point, f: Point)
    requires BoxIn(A, B, box) && InBox(box, f) && Whole(A, B, box) == 2 * d - 1
    requires Fd(A, B, box, f) == d && Bd(A, B, box, f) == d - 1
    requires p.x >= box.left && p.y >= box.top && (InBox(box, p) ==> Fd(A, B, box, p) <= d - 1)
    requires e == Point(p.x, p.y + 1) || e == Point(p.x + 1, p.y)
    requires f.x - e.x == f.y - e.y >= 0 && (f == e || A[e.x..f.x] == B[e.y..f.y])
    ensures StepFirst(A, B, box, Snake(p, f))
  {
    assert InBox(box, e);
    if e != f {
      DiagEqual(A, B, box, e, f);
    }
    FwdSnakeStart(A, B, box, d, p, e);
    StepFirstShape(A, B, box, p, e, f);
  }

  /** The point a firing forward diagonal slides to is d from the start and d-1 from the end. */
  lemma FwdFireCross(A: seq<byte>, B: seq<byte>, box: Box, vf: Line, vb: Line, d: int, k: int, c: int, f: Point)
    requires BoxIn(A, B, box) && FwdReady(box, vf, d) && BwdReady(box, vb, d)
    requires -d <= k <= d && (k + d) % 2 == 0
    requires d == 0 ==> Get(vf, 1) == Some(box.left)
    requires d > 0 ==> FwdFront(A, B, box, vf, d - 1) && BwdFront(A, B, box, vb, d - 1)
    requires Whole(A, B, box) >= 2 * d - 1
    requires f == SlideFwd(A, B, box, FwdMove(box, vf, d, k).entry)
    requires c == k - box.Delta() && d > 0 && -(d - 1) <= c <= d - 1 && (c + (d - 1)) % 2 == 0
    requires BwdOk(box, vb, c) && f.y >= Get(vb, c).value
    ensures InBox(box, f) && Whole(A, B, box) == 2 * d - 1
    ensures Fd(A, B, box, f) == d && Bd(A, B, box, f) == d - 1
  {
    assert f.y == FY(box, k, f.x) && FwdBound(A, B, box, d, k, f) by {
      FwdStepReach(A, B, box, vf, d, k);
      FwdReachBound(A, B, box, d, k, f.x);
    }
    var q := Point(BX(box, c, Get(vb, c).value), Get(vb, c).value);
    assert BwdBound(A, B, box, d - 1, c, q) by {
      BwdFrontAt(A, B, box, vb, d - 1, c);
      BwdReachBound(A, B, box, d - 1, c, Get(vb, c).value);
    }
    FwdCross(A, B, box, d, k, c, f, q);
  }

  /** A forward diagonal that fires returns a snake on a cheapest path, step first. */
  lemma FwdFireGood(A: seq<byte>, B: seq<byte>, box: Box, vf: Line, vb: Line, d: int, k: int)
    requires BoxIn(A, B, box) && FwdReady(box, vf, d) && BwdReady(box, vb, d)
    requires -d <= k <= d && (k + d) % 2 == 0
    requires d == 0 ==> Get(vf, 1) == Some(box.left)
    requires d > 0 ==> FwdFront(A, B, box, vf, d - 1) && BwdFront(A, B, box, vb, d - 1)
    requires Whole(A, B, box) >= 2 * d - 1
    requires FwdFires(box, vb, d, k, SlideFwd(A, B, box, FwdMove(box, vf, d, k).entry).y)
    ensures var mv := FwdMove(box, vf, d, k);
      StepFirst(A, B, box, Snake(mv.prev, SlideFwd(A, B, box, mv.entry)))
  {
    var mv := FwdMove(box, vf, d, k);
    var f := SlideFwd(A, B, box, mv.entry);
    var c := k - box.Delta();
    FwdFiresFacts(box, vb, d, k, c, f.y);
    FwdPrev(A, B, box, vf, d, k);
    assert InBox(box, f) && Whole(A, B, box) == 2 * d - 1 && Fd(A, B, box, f) == d && Bd(A, B, box, f) == d - 1 by {
      FwdFireCross(A, B, box, vf, vb, d, k, c, f);
    }
    SlideFwdMatch(A, B, box, mv.entry);
    FwdSnake(A, B, box, d, mv.prev, mv.entry, f);
  }

  /** A cost n at least |a - b| and of the parity of a + b bounds the diagonal a - b (or b - a). */
  lemma DiagonalOf(n: int, a: int, b: int, k: int, h: int)
    requires k == a - b || k == b - a
    requires n >= Abs(a - b) && n + a + b == 2 * h
    ensures 0 <= k + n && k <= n && (k + n) % 2 == 0
  {
    if k == a - b {
      assert k + n == 2 * (h - b);
    } else {
      assert k + n == 2 * (h - a);
    }
  }

  /** The diagonal of a point that costs e from the start: within -e..e and of e's parity. */
  lemma FdDiagonal(A: seq<byte>, B: seq<byte>, box: Box, p: Point)
    requires BoxIn(A, B, box) && InBox(box, p)
    ensures var k := (p.x - box.left) - (p.y - box.top);
      0 <= k + Fd(A, B, box, p) && k <= Fd(A, B, box, p) && (k + Fd(A, B, box, p)) % 2 == 0
  {
    FdBounds(A, B, box, p);
    var h := FdParity(A, B, box, p);
    DiagonalOf(Fd(A, B, box, p), p.x - box.left, p.y - box.top, (p.x - box.left) - (p.y - box.top), h);
  }

  /** The same diagonal seen from the end: c = k - delta lies within the cost to the end. */
  lemma BdDiagonal(A: seq<byte>, B: seq<byte>, box: Box, p: Point)
    requires BoxIn(A, B, box) && InBox(box, p)
    ensures var c := (p.x - box.left) - (p.y - box.top) - box.Delta();
      0 <= c + Bd(A, B, box, p) && c <= Bd(A, B, box, p) && (c + Bd(A, B, box, p)) % 2 == 0
  {
    BdBounds(A, B, box, p);
    var h := BdParity(A, B, box, p);
    DiagonalOf(Bd(A, B, box, p), box.right - p.x, box.bottom - p.y, (p.x - box.left) - (p.y - box.top) - box.Delta(), h);
  }

  /**
   * A point of a cheapest path that costs t from the start, with its forward
   * diagonal k and backward diagonal k - delta in range of rounds t and Whole - t.
   */
  lemma MeetPoint(A: seq<byte>, B: seq<byte>, box: Box, t: int, u: int) returns (p: Point, k: int)
    requires BoxIn(A, B, box) && 0 <= t && 0 <= u && t + u == Whole(A, B, box)
    ensures InBox(box, p) && Fd(A, B, box, p) == t && Bd(A, B, box, p) == u
    ensures k == (p.x - box.left) - (p.y - box.top)
    ensures -t <= k <= t && (k + t) % 2 == 0
    ensures -u <= k - box.Delta() <= u && (k - box.Delta() + u) % 2 == 0
  {
    p := SplitPoint(A, B, box, t);
    FdDiagonal(A, B, box, p);
    BdDiagonal(A, B, box, p);
    k := (p.x - box.left) - (p.y - box.top);
  }

  lemma FwdFrontAt(A: seq<byte>, B: seq<byte>, box: Box, vf: Line, e: int, k: int)
    requires FwdFront(A, B, box, vf, e) && -e <= k <= e && (k + e) % 2 == 0
    ensures FwdOk(box, vf, k) && FwdReach(A, B, box, e, k, Get(vf, k).value)
  {
  }

  lemma BwdFrontAt(A: seq<byte>, B: seq<byte>, box: Box, vb: Line, e: int, c: int)
    requires BwdFront(A, B, box, vb, e) && -e <= c <= e && (c + e) % 2 == 0
    ensures BwdOk(box, vb, c) && BwdReach(A, B, box, e, c, Get(vb, c).value)
  {
  }

  /** A point of diagonal k costing e from the start is no further than the forward entry of round e. */
  lemma FwdCovers(A: seq<byte>, B: seq<byte>, box: Box, vf: Line, e: int, p: Point, k: int)
    requires BoxIn(A, B, box) && InBox(box, p) && Fd(A, B, box, p) == e
    requires k == (p.x - box.left) - (p.y - box.top) && -e <= k <= e && (k + e) % 2 == 0
    requires FwdFront(A, B, box, vf, e)
    ensures FwdOk(box, vf, k) && p.x <= Get(vf, k).value
  {
    FwdFrontAt(A, B, box, vf, e, k);
    assert FwdCost(A, B, box, k, p.x) == Fd(A, B, box, p);
  }

  /** A point of diagonal c costing e to the end is no further than the backward entry of round e. */
  lemma BwdCovers(A: seq<byte>, B: seq<byte>, box: Box, vb: Line, e: int, p: Point, c: int)
    requires BoxIn(A, B, box) && InBox(box, p) && Bd(A, B, box, p) == e
    requires c == (p.x - box.left) - (p.y - box.top) - box.Delta() && -e <= c <= e && (c + e) % 2 == 0
    requires BwdFront(A, B, box, vb, e)
    ensures BwdOk(box, vb, c) && p.y >= Get(vb, c).value
  {
    BwdFrontAt(A, B, box, vb, e, c);
    assert BwdCost(A, B, box, c, p.y) == Bd(A, B, box, p);
  }

  /** When the whole distance is 2d-1 (delta odd), some diagonal of forward round d fires. */
  lemma FwdMustFire(A: seq<byte>, B: seq<byte>, box: Box, vf: Line, vb: Line, d: int) returns (k: int)
    requires BoxIn(A, B, box) && BwdReady(box, vb, d) && d > 0
    requires box.Delta() % 2 == 1 && Whole(A, B, box) == 2 * d - 1
    requires FwdFront(A, B, box, vf, d) && BwdFront(A, B, box, vb, d - 1)
    ensures -d <= k <= d && (k + d) % 2 == 0 && FwdOk(box, vf, k)
    ensures FwdFires(box, vb, d, k, FY(box, k, Get(vf, k).value))
  {
    var p;
    p, k := MeetPoint(A, B, box, d, d - 1);
    FwdCovers(A, B, box, vf, d, p, k);
    BwdCovers(A, B, box, vb, d - 1, p, k - box.Delta());
  }

  /** The diagonals of forward round d before k were recorded as furthest-reaching and did not fire. */
  ghost predicate FwdScanned(A: seq<byte>, B: seq<byte>, box: Box, vf: Line, vb: Line, d: int, k: int)
    requires BwdReady(box, vb, d)
  {
    forall j {:trigger Get(vf, j)} :: -d <= j < k && j <= d && (j + d) % 2 == 0 ==>
      FwdOk(box, vf, j) && FwdReach(A, B, box, d, j, Get(vf, j).value)
      && !FwdFires(box, vb, d, j, FY(box, j, Get(vf, j).value))
  }

  /** Recording diagonal k of round d leaves round d-1's diagonals, of the other parity, as they were. */
  lemma FwdFrontKept(A: seq<byte>, B: seq<byte>, box: Box, vf: Line, d: int, k: int, x: int)
    requires |vf| == LineLen(box) && 0 < d <= Half(box.Size()) && -d <= k <= d && (k + d) % 2 == 0
    requires FwdFront(A, B, box, vf, d - 1)
    ensures FwdFront(A, B, box, Set(vf, k, Some(x)), d - 1)
  {
    var vf' := Set(vf, k, Some(x));
    forall j | -(d - 1) <= j <= d - 1 && (j + d - 1) % 2 == 0
      ensures FwdOk(box, vf', j) && FwdReach(A, B, box, d - 1, j, Get(vf', j).value)
    {
      Parity(j, d);
      Parity(k, d);
      GetSet(vf, Half(box.Size()), k, j, Some(x));
      FwdFrontAt(A, B, box, vf, d - 1, j);
    }
  }

  /** Recording a furthest-reaching column that did not fire extends FwdScanned by one diagonal. */
  lemma FwdRecordScanned(A: seq<byte>, B: seq<byte>, box: Box, vf: Line, vb: Line, d: int, k: int, x: int)
    requires BoxIn(A, B, box) && FwdReady(box, vf, d) && BwdReady(box, vb, d)
    requires -d <= k <= d && (k + d) % 2 == 0
    requires d > 0 ==> FwdFront(A, B, box, vf, d - 1)
    requires FwdScanned(A, B, box, vf, vb, d, k)
    requires FwdReach(A, B, box, d, k, x) && !FwdFires(box, vb, d, k, FY(box, k, x))
    ensures FwdReady(box, Set(vf, k, Some(x)), d)
    ensures d > 0 ==> FwdFront(A, B, box, Set(vf, k, Some(x)), d - 1)
    ensures FwdScanned(A, B, box, Set(vf, k, Some(x)), vb, d, k + 2)
  {
    var vf' := Set(vf, k, Some(x));
    assert forall j :: -d <= j < k && (j + d) % 2 == 0 ==> FwdOk(box, vf, j);
    FwdRecord(box, vf, d, k, x);
    forall j | -d <= j <= d && j != k
      ensures Get(vf', j) == Get(vf, j)
    {
      GetSet(vf, Half(box.Size()), k, j, Some(x));
    }
    GetSet(vf, Half(box.Size()), k, k, Some(x));
    if d > 0 {
      FwdFrontKept(A, B, box, vf, d, k, x);
    }
    forall j | -d <= j < k + 2 && j <= d && (j + d) % 2 == 0
      ensures FwdOk(box, vf', j) && FwdReach(A, B, box, d, j, Get(vf', j).value)
        && !FwdFires(box, vb, d, j, FY(box, j, Get(vf', j).value))
    {
      Parity(j, d);
      Parity(k, d);
      if j < k {
        assert Get(vf', j) == Get(vf, j);
      } else {
        assert j == k;
      }
    }
  }

  /** A forward round that has scanned all its diagonals without firing is complete, and the distance exceeds what it can reach. */
  lemma FwdScanEnd(A: seq<byte>, B: seq<byte>, box: Box, vf: Line, vb: Line, d: int, k: int)
    requires BoxIn(A, B, box) && FwdReady(box, vf, d) && BwdReady(box, vb, d) && k > d
    requires d > 0 ==> BwdFront(A, B, box, vb, d - 1)
    requires Whole(A, B, box) >= 2 * d - 1
    requires FwdScanned(A, B, box, vf, vb, d, k)
    ensures FwdFront(A, B, box, vf, d)
    ensures box.Delta() % 2 == 1 ==> Whole(A, B, box) >= 2 * d + 1
  {
    assert FwdFront(A, B, box, vf, d);
    if box.Delta() % 2 == 1 && Whole(A, B, box) < 2 * d + 1 {
      WholeBounds(A, B, box);
      assert Whole(A, B, box) == 2 * d - 1;
      var j := FwdMustFire(A, B, box, vf, vb, d);
      assert false;
    }
  }

  /** A firing diagonal ends forward round d with the snake from the step's start to the slid point. */
  lemma FwdScanFires(A: seq<byte>, B: seq<byte>, box: Box, vf: Line, vb: Line, d: int, k: int, f: Point)
    requires BoxIn(A, B, box) && FwdReady(box, vf, d) && BwdReady(box, vb, d)
    requires -d <= k <= d && (k + d) % 2 == 0
    requires forall j :: -d <= j < k && (j + d) % 2 == 0 ==> FwdOk(box, vf, j)
    requires f == SlideFwd(A, B, box, FwdMove(box, vf, d, k).entry) && FwdFires(box, vb, d, k, f.y)
    ensures ForwardScan(A, B, box, vf, vb, d, k) == (Set(vf, k, Some(f.x)), Some(Snake(FwdMove(box, vf, d, k).prev, f)))
  {
  }

  /** A diagonal that does not fire hands forward round d on to the next diagonal. */
  lemma FwdScanPasses(A: seq<byte>, B: seq<byte>, box: Box, vf: Line, vb: Line, d: int, k: int, f: Point)
    requires BoxIn(A, B, box) && FwdReady(box, vf, d) && BwdReady(box, vb, d)
    requires -d <= k <= d && (k + d) % 2 == 0
    requires forall j :: -d <= j < k && (j + d) % 2 == 0 ==> FwdOk(box, vf, j)
    requires f == SlideFwd(A, B, box, FwdMove(box, vf, d, k).entry) && !FwdFires(box, vb, d, k, f.y)
    ensures FwdReady(box, Set(vf, k, Some(f.x)), d)
    ensures forall j :: -d <= j < k + 2 && (j + d) % 2 == 0 ==> FwdOk(box, Set(vf, k, Some(f.x)), j)
    ensures ForwardScan(A, B, box, vf, vb, d, k) == ForwardScan(A, B, box, Set(vf, k, Some(f.x)), vb, d, k + 2)
  {
    FwdRecord(box, vf, d, k, f.x);
  }

  /** A diagonal that does not fire leaves forward round d ready for the next diagonal. */
  lemma FwdScanStep(A: seq<byte>, B: seq<byte>, box: Box, vf: Line, vb: Line, d: int, k: int, f: Point)
    requires BoxIn(A, B, box) && FwdReady(box, vf, d) && BwdReady(box, vb, d)
    requires -d <= k <= d && (k + d) % 2 == 0
    requires d == 0 ==> Get(vf, 1) == Some(box.left)
    requires d > 0 ==> FwdFront(A, B, box, vf, d - 1)
    requires forall j :: -d <= j < k && (j + d) % 2 == 0 ==> FwdOk(box, vf, j)
    requires FwdScanned(A, B, box, vf, vb, d, k)
    requires f == SlideFwd(A, B, box, FwdMove(box, vf, d, k).entry) && !FwdFires(box, vb, d, k, f.y)
    ensures FwdReady(box, Set(vf, k, Some(f.x)), d)
    ensures forall j :: -d <= j < k + 2 && (j + d) % 2 == 0 ==> FwdOk(box, Set(vf, k, Some(f.x)), j)
    ensures d == 0 ==> Get(Set(vf, k, Some(f.x)), 1) == Some(box.left)
    ensures d > 0 ==> FwdFront(A, B, box, Set(vf, k, Some(f.x)), d - 1)
    ensures FwdScanned(A, B, box, Set(vf, k, Some(f.x)), vb, d, k + 2)
    ensures ForwardScan(A, B, box, vf, vb, d, k) == ForwardScan(A, B, box, Set(vf, k, Some(f.x)), vb, d, k + 2)
  {
    assert f.y == FY(box, k, f.x) && FwdReach(A, B, box, d, k, f.x) by {
      FwdStepReach(A, B, box, vf, d, k);
    }
    FwdRecordScanned(A, B, box, vf, vb, d, k, f.x);
    FwdScanPasses(A, B, box, vf, vb, d, k, f);
    if d == 0 {
      GetSet(vf, Half(box.Size()), k, 1, Some(f.x));
    }
  }

  /**
   * Forward round d from diagonal k on, given that the diagonals before k were
   * recorded as furthest-reaching and did not fire: the scan returns a good
   * snake, or completes the round and shows the whole distance exceeds 2d-1.
   */
  lemma {:induction false} ForwardScanCorrect(A: seq<byte>, B: seq<byte>, box: Box, vf: Line, vb: Line, d: int, k: int)
    requires BoxIn(A, B, box) && FwdReady(box, vf, d) && BwdReady(box, vb, d)
    requires -d <= k <= d + 2 && (k + d) % 2 == 0
    requires d == 0 ==> Get(vf, 1) == Some(box.left)
    requires d > 0 ==> FwdFront(A, B, box, vf, d - 1) && BwdFront(A, B, box, vb, d - 1)
    requires Whole(A, B, box) >= 2 * d - 1
    requires forall j :: -d <= j < k && (j + d) % 2 == 0 ==> FwdOk(box, vf, j)
    requires FwdScanned(A, B, box, vf, vb, d, k)
    ensures var r := ForwardScan(A, B, box, vf, vb, d, k);
      (r.1.Some? ==> StepFirst(A, B, box, r.1.value))
      && (r.1.None? ==> FwdFront(A, B, box, r.0, d))
      && (r.1.None? && box.Delta() % 2 == 1 ==> Whole(A, B, box) >= 2 * d + 1)
    decreases d + 2 - k
  {
    if k > d {
      FwdScanEnd(A, B, box, vf, vb, d, k);
    } else {
      var f := SlideFwd(A, B, box, FwdMove(box, vf, d, k).entry);
      if FwdFires(box, vb, d, k, f.y) {
        FwdScanFires(A, B, box, vf, vb, d, k, f);
        FwdFireGood(A, B, box, vf, vb, d, k);
      } else {
        FwdScanStep(A, B, box, vf, vb, d, k, f);
        NextParity(k, d);
        ForwardScanCorrect(A, B, box, Set(vf, k, Some(f.x)), vb, d, k + 2);
      }
    }
  }

  /**
   * A backward point of round d that lies beyond the forward point of round d
   * on the same diagonal is inside the box, on a cheapest path, d from either end.
   */
  lemma BwdCross(A: seq<byte>, B: seq<byte>, box: Box, d: int, c: int, k: int, b: Point, q: Point)
    requires BoxIn(A, B, box) && -d <= c <= d && k == c + box.Delta() && -d <= k <= d
    requires Whole(A, B, box) >= 2 * d
    requires b.x == BX(box, c, b.y) && BwdBound(A, B, box, d, c, b)
    requires q.y == FY(box, k, q.x) && FwdBound(A, B, box, d, k, q)
    requires b.x <= q.x
    ensures InBox(box, b) && Whole(A, B, box) == 2 * d
    ensures Fd(A, B, box, b) == d && Bd(A, B, box, b) == d
  {
    assert InBox(box, b) && InBox(box, q);
    assert Fd(A, B, box, b) <= d by {
      DiagMonotone(A, B, box, b, q);
    }
    Through(A, B, box, b);
  }

  /** The finish of a backward snake that starts d from the start is d-1 from the end. */
  lemma BwdSnakeEnd(A: seq<byte>, B: seq<byte>, box: Box, d: int, p: Point, e: Point)
    requires BoxIn(A, B, box) && InBox(box, e) && Whole(A, B, box) == 2 * d
    requires Fd(A, B, box, e) == d
    requires p.x <= box.right && p.y <= box.bottom && (InBox(box, p) ==> Bd(A, B, box, p) <= d - 1)
    requires e == Point(p.x - 1, p.y) || e == Point(p.x, p.y - 1)
    ensures InBox(box, p) && Bd(A, B, box, p) == d - 1
  {
    assert InBox(box, p);
    assert Fd(A, B, box, p) <= d + 1 by {
      if e == Point(p.x - 1, p.y) {
        FdUnitX(A, B, box, p);
      } else {
        FdUnitY(A, B, box, p);
      }
    }
    Through(A, B, box, p);
  }

  /** A snake is step-last when it follows equal bytes and then makes one step, on a cheapest path. */
  lemma StepLastShape(A: seq<byte>, B: seq<byte>, box: Box, b: Point, e: Point, p: Point)
    requires BoxIn(A, B, box) && InBox(box, b) && InBox(box, p)
    requires e == Point(p.x - 1, p.y) || e == Point(p.x, p.y - 1)
    requires e.x - b.x == e.y - b.y >= 0 && (b == e || A[b.x..e.x] == B[b.y..e.y])
    requires Fd(A, B, box, b) + 1 + Bd(A, B, box, p) == Whole(A, B, box)
    ensures StepLast(A, B, box, Snake(b, p))
  {
  }

  /** A run of equal bytes from b to e and one step from e to p form a step-last snake. */
  lemma BwdSnake(A: seq<byte>, B: seq<byte>, box: Box, d: int, p: Point, e: Point, b: Point)
    requires BoxIn(A, B, box) && InBox(box, b) && Whole(A, B, box) == 2 * d
    requires Fd(A, B, box, b) == d && Bd(A, B, box, b) == d
    requires p.x <= box.right && p.y <= box.bottom && (InBox(box, p) ==> Bd(A, B, box, p) <= d - 1)
    requires e == Point(p.x - 1, p.y) || e == Point(p.x, p.y - 1)
    requires e.x - b.x == e.y - b.y >= 0 && (b == e || A[b.x..e.x] == B[b.y..e.y])
    ensures StepLast(A, B, box, Snake(b, p))
  {
    assert InBox(box, e);
    if e != b {
      DiagEqual(A, B, box, b, e);
    }
    BwdSnakeEnd(A, B, box, d, p, e);
    StepLastShape(A, B, box, b, e, p);
  }

  /** In round 0 a backward fire means the box costs nothing; the snake is the run of equal bytes ending at the corner. */
  lemma BwdFireZero(A: seq<byte>, B: seq<byte>, box: Box, b: Point)
    requires BoxIn(A, B, box) && box.Size() > 0 && Whole(A, B, box) == 0 && InBox(box, b)
    requires b == SlideBwd(A, B, box, Point(box.right, box.bottom))
    ensures StepLast(A, B, box, Snake(b, Point(box.right, box.bottom)))
  {
    var e := Point(box.right, box.bottom);
    WholeZero(A, B, box);
    assert b != e;
    SlideBwdMatch(A, B, box, e);
    DiagEqual(A, B, box, b, e);
    Corners(A, B, box);
  }

  /** The point a firing backward diagonal slides to is d from either end. */
  lemma BwdFireCross(A: seq<byte>, B: seq<byte>, box: Box, vf: Line, vb: Line, d: int, c: int, k: int, b: Point)
    requires BoxIn(A, B, box) && BwdReady(box, vb, d) && |vf| == LineLen(box)
    requires -d <= c <= d && (c + d) % 2 == 0
    requires d == 0 ==> Get(vb, 1) == Some(box.bottom)
    requires d > 0 ==> BwdFront(A, B, box, vb, d - 1)
    requires FwdFront(A, B, box, vf, d) && Whole(A, B, box) >= 2 * d
    requires b == SlideBwd(A, B, box, BwdMove(box, vb, d, c).entry)
    requires k == c + box.Delta() && -d <= k <= d && (k + d) % 2 == 0
    requires FwdOk(box, vf, k) && b.x <= Get(vf, k).value
    ensures InBox(box, b) && Whole(A, B, box) == 2 * d
    ensures Fd(A, B, box, b) == d && Bd(A, B, box, b) == d
  {
    assert b.x == BX(box, c, b.y) && BwdBound(A, B, box, d, c, b) by {
      BwdStepReach(A, B, box, vb, d, c);
      BwdReachBound(A, B, box, d, c, b.y);
    }
    var q := Point(Get(vf, k).value, FY(box, k, Get(vf, k).value));
    assert FwdBound(A, B, box, d, k, q) by {
      FwdFrontAt(A, B, box, vf, d, k);
      FwdReachBound(A, B, box, d, k, Get(vf, k).value);
    }
    BwdCross(A, B, box, d, c, k, b, q);
  }

  /** A backward diagonal that fires returns a snake on a cheapest path, step last. */
  lemma BwdFireGood(A: seq<byte>, B: seq<byte>, box: Box, vf: Line, vb: Line, d: int, c: int)
    requires BoxIn(A, B, box) && BwdReady(box, vb, d) && |vf| == LineLen(box)
    requires -d <= c <= d && (c + d) % 2 == 0
    requires d == 0 ==> Get(vb, 1) == Some(box.bottom)
    requires d > 0 ==> BwdFront(A, B, box, vb, d - 1)
    requires box.Delta() % 2 == 0 ==> FwdDone(box, vf, d) && FwdFront(A, B, box, vf, d) && Whole(A, B, box) >= 2 * d
    requires BwdFires(box, vf, d, c, SlideBwd(A, B, box, BwdMove(box, vb, d, c).entry).x)
    ensures var mv := BwdMove(box, vb, d, c);
      StepLast(A, B, box, Snake(SlideBwd(A, B, box, mv.entry), mv.prev))
  {
    var b := SlideBwd(A, B, box, BwdMove(box, vb, d, c).entry);
    var k := c + box.Delta();
    BwdFiresFacts(box, vf, d, c, k, b.x);
    if d == 0 {
      BwdFireFirst(A, B, box, vf, vb, c, k, b);
    } else {
      BwdFireLater(A, B, box, vf, vb, d, c, k, b);
    }
  }

  /** Round 0 of the backward search fires at the corner diagonal. */
  lemma BwdFireFirst(A: seq<byte>, B: seq<byte>, box: Box, vf: Line, vb: Line, c: int, k: int, b: Point)
    requires BoxIn(A, B, box) && BwdReady(box, vb, 0) && |vf| == LineLen(box)
    requires c == 0 && Get(vb, 1) == Some(box.bottom)
    requires FwdFront(A, B, box, vf, 0) && Whole(A, B, box) >= 0
    requires b == SlideBwd(A, B, box, BwdMove(box, vb, 0, c).entry)
    requires k == c + box.Delta() && k == 0
    requires FwdOk(box, vf, k) && b.x <= Get(vf, k).value
    ensures StepLast(A, B, box, Snake(b, BwdMove(box, vb, 0, c).prev))
  {
    BwdMoveFacts(box, vb, 0, c);
    assert BwdMove(box, vb, 0, c).entry == Point(box.right, box.bottom);
    assert BwdMove(box, vb, 0, c).prev == Point(box.right, box.bottom);
    assert InBox(box, b) && Whole(A, B, box) == 0 by {
      BwdFireCross(A, B, box, vf, vb, 0, c, k, b);
    }
    BwdFireZero(A, B, box, b);
  }

  /** A later backward round fires with a snake that starts one step after a point of cost d-1 to the end. */
  lemma BwdFireLater(A: seq<byte>, B: seq<byte>, box: Box, vf: Line, vb: Line, d: int, c: int, k: int, b: Point)
    requires BoxIn(A, B, box) && BwdReady(box, vb, d) && |vf| == LineLen(box)
    requires 0 < d && -d <= c <= d && (c + d) % 2 == 0
    requires BwdFront(A, B, box, vb, d - 1)
    requires FwdFront(A, B, box, vf, d) && Whole(A, B, box) >= 2 * d
    requires b == SlideBwd(A, B, box, BwdMove(box, vb, d, c).entry)
    requires k == c + box.Delta() && -d <= k <= d && (k + d) % 2 == 0
    requires FwdOk(box, vf, k) && b.x <= Get(vf, k).value
    ensures StepLast(A, B, box, Snake(b, BwdMove(box, vb, d, c).prev))
  {
    BwdPrev(A, B, box, vb, d, c);
    assert InBox(box, b) && Whole(A, B, box) == 2 * d && Fd(A, B, box, b) == d && Bd(A, B, box, b) == d by {
      BwdFireCross(A, B, box, vf, vb, d, c, k, b);
    }
    SlideBwdMatch(A, B, box, BwdMove(box, vb, d, c).entry);
    BwdSnake(A, B, box, d, BwdMove(box, vb, d, c).prev, BwdMove(box, vb, d, c).entry, b);
  }

  /** When the whole distance is 2d (delta even), some diagonal of backward round d fires. */
  lemma BwdMustFire(A: seq<byte>, B: seq<byte>, box: Box, vf: Line, vb: Line, d: int) returns (c: int)
    requires BoxIn(A, B, box) && |vf| == LineLen(box) && 0 <= d <= Half(box.Size())
    requires box.Delta() % 2 == 0 && Whole(A, B, box) == 2 * d
    requires FwdDone(box, vf, d) && FwdFront(A, B, box, vf, d) && BwdFront(A, B, box, vb, d)
    ensures -d <= c <= d && (c + d) % 2 == 0 && BwdOk(box, vb, c)
    ensures BwdFires(box, vf, d, c, BX(box, c, Get(vb, c).value))
  {
    var p, k := MeetPoint(A, B, box, d, d);
    c := k - box.Delta();
    FwdCovers(A, B, box, vf, d, p, k);
    BwdCovers(A, B, box, vb, d, p, c);
  }

  /** The diagonals of backward round d before c were recorded as furthest-reaching and did not fire. */
  ghost predicate BwdScanned(A: seq<byte>, B: seq<byte>, box: Box, vf: Line, vb: Line, d: int, c: int)
    requires |vf| == LineLen(box) && 0 <= d <= Half(box.Size())
    requires box.Delta() % 2 == 0 ==> FwdDone(box, vf, d)
  {
    forall j {:trigger Get(vb, j)} :: -d <= j < c && j <= d && (j + d) % 2 == 0 ==>
      BwdOk(box, vb, j) && BwdReach(A, B, box, d, j, Get(vb, j).value)
      && !BwdFires(box, vf, d, j, BX(box, j, Get(vb, j).value))
  }

  /** Recording diagonal c of round d leaves round d-1's diagonals, of the other parity, as they were. */
  lemma BwdFrontKept(A: seq<byte>, B: seq<byte>, box: Box, vb: Line, d: int, c: int, y: int)
    requires |vb| == LineLen(box) && 0 < d <= Half(box.Size()) && -d <= c <= d && (c + d) % 2 == 0
    requires BwdFront(A, B, box, vb, d - 1)
    ensures BwdFront(A, B, box, Set(vb, c, Some(y)), d - 1)
  {
    var vb' := Set(vb, c, Some(y));
    forall j | -(d - 1) <= j <= d - 1 && (j + d - 1) % 2 == 0
      ensures BwdOk(box, vb', j) && BwdReach(A, B, box, d - 1, j, Get(vb', j).value)
    {
      Parity(j, d);
      Parity(c, d);
      GetSet(vb, Half(box.Size()), c, j, Some(y));
      BwdFrontAt(A, B, box, vb, d - 1, j);
    }
  }

  /** Recording a furthest-reaching row that did not fire extends BwdScanned by one diagonal. */
  lemma BwdRecordScanned(A: seq<byte>, B: seq<byte>, box: Box, vf: Line, vb: Line, d: int, c: int, y: int)
    requires BoxIn(A, B, box) && BwdReady(box, vb, d) && |vf| == LineLen(box)
    requires box.Delta() % 2 == 0 ==> FwdDone(box, vf, d)
    requires -d <= c <= d && (c + d) % 2 == 0
    requires d > 0 ==> BwdFront(A, B, box, vb, d - 1)
    requires BwdScanned(A, B, box, vf, vb, d, c)
    requires BwdReach(A, B, box, d, c, y) && !BwdFires(box, vf, d, c, BX(box, c, y))
    ensures BwdReady(box, Set(vb, c, Some(y)), d)
    ensures d > 0 ==> BwdFront(A, B, box, Set(vb, c, Some(y)), d - 1)
    ensures BwdScanned(A, B, box, vf, Set(vb, c, Some(y)), d, c + 2)
  {
    var vb' := Set(vb, c, Some(y));
    assert forall j :: -d <= j < c && (j + d) % 2 == 0 ==> BwdOk(box, vb, j);
    BwdRecord(box, vb, d, c, y);
    forall j | -d <= j <= d && j != c
      ensures Get(vb', j) == Get(vb, j)
    {
      GetSet(vb, Half(box.Size()), c, j, Some(y));
    }
    GetSet(vb, Half(box.Size()), c, c, Some(y));
    if d > 0 {
      BwdFrontKept(A, B, box, vb, d, c, y);
    }
    forall j | -d <= j < c + 2 && j <= d && (j + d) % 2 == 0
      ensures BwdOk(box, vb', j) && BwdReach(A, B, box, d, j, Get(vb', j).value)
        && !BwdFires(box, vf, d, j, BX(box, j, Get(vb', j).value))
    {
      Parity(j, d);
      Parity(c, d);
      if j < c {
        assert Get(vb', j) == Get(vb, j);
      } else {
        assert j == c;
      }
    }
  }

  /** A backward round that has scanned all its diagonals without firing is complete, and the distance exceeds what it can reach. */
  lemma BwdScanEnd(A: seq<byte>, B: seq<byte>, box: Box, vf: Line, vb: Line, d: int, c: int)
    requires BoxIn(A, B, box) && BwdReady(box, vb, d) && |vf| == LineLen(box) && c > d
    requires box.Delta() % 2 == 0 ==> FwdDone(box, vf, d) && FwdFront(A, B, box, vf, d) && Whole(A, B, box) >= 2 * d
    requires BwdScanned(A, B, box, vf, vb, d, c)
    ensures BwdFront(A, B, box, vb, d)
    ensures box.Delta() % 2 == 0 ==> Whole(A, B, box) >= 2 * d + 1
  {
    assert BwdFront(A, B, box, vb, d);
    if box.Delta() % 2 == 0 && Whole(A, B, box) < 2 * d + 1 {
      var j := BwdMustFire(A, B, box, vf, vb, d);
      assert false;
    }
  }

  /** A firing diagonal ends backward round d with the snake from the slid point to the step's start. */
  lemma BwdScanFires(A: seq<byte>, B: seq<byte>, box: Box, vf: Line, vb: Line, d: int, c: int, b: Point)
    requires BoxIn(A, B, box) && BwdReady(box, vb, d) && |vf| == LineLen(box)
    requires box.Delta() % 2 == 0 ==> FwdDone(box, vf, d)
    requires -d <= c <= d && (c + d) % 2 == 0
    requires forall j :: -d <= j < c && (j + d) % 2 == 0 ==> BwdOk(box, vb, j)
    requires b == SlideBwd(A, B, box, BwdMove(box, vb, d, c).entry) && BwdFires(box, vf, d, c, b.x)
    ensures BackwardScan(A, B, box, vf, vb, d, c) == (Set(vb, c, Some(b.y)), Some(Snake(b, BwdMove(box, vb, d, c).prev)))
  {
  }

  /** A diagonal that does not fire hands backward round d on to the next diagonal. */
  lemma BwdScanPasses(A: seq<byte>, B: seq<byte>, box: Box, vf: Line, vb: Line, d: int, c: int, b: Point)
    requires BoxIn(A, B, box) && BwdReady(box, vb, d) && |vf| == LineLen(box)
    requires box.Delta() % 2 == 0 ==> FwdDone(box, vf, d)
    requires -d <= c <= d && (c + d) % 2 == 0
    requires forall j :: -d <= j < c && (j + d) % 2 == 0 ==> BwdOk(box, vb, j)
    requires b == SlideBwd(A, B, box, BwdMove(box, vb, d, c).entry) && !BwdFires(box, vf, d, c, b.x)
    ensures BwdReady(box, Set(vb, c, Some(b.y)), d)
    ensures forall j :: -d <= j < c + 2 && (j + d) % 2 == 0 ==> BwdOk(box, Set(vb, c, Some(b.y)), j)
    ensures BackwardScan(A, B, box, vf, vb, d, c) == BackwardScan(A, B, box, vf, Set(vb, c, Some(b.y)), d, c + 2)
  {
    BwdRecord(box, vb, d, c, b.y);
  }

  /** A diagonal that does not fire leaves backward round d ready for the next diagonal. */
  lemma BwdScanStep(A: seq<byte>, B: seq<byte>, box: Box, vf: Line, vb: Line, d: int, c: int, b: Point)
    requires BoxIn(A, B, box) && BwdReady(box, vb, d) && |vf| == LineLen(box)
    requires -d <= c <= d && (c + d) % 2 == 0
    requires d == 0 ==> Get(vb, 1) == Some(box.bottom)
    requires d > 0 ==> BwdFront(A, B, box, vb, d - 1)
    requires box.Delta() % 2 == 0 ==> FwdDone(box, vf, d)
    requires forall j :: -d <= j < c && (j + d) % 2 == 0 ==> BwdOk(box, vb, j)
    requires BwdScanned(A, B, box, vf, vb, d, c)
    requires b == SlideBwd(A, B, box, BwdMove(box, vb, d, c).entry) && !BwdFires(box, vf, d, c, b.x)
    ensures BwdReady(box, Set(vb, c, Some(b.y)), d)
    ensures forall j :: -d <= j < c + 2 && (j + d) % 2 == 0 ==> BwdOk(box, Set(vb, c, Some(b.y)), j)
    ensures d == 0 ==> Get(Set(vb, c, Some(b.y)), 1) == Some(box.bottom)
    ensures d > 0 ==> BwdFront(A, B, box, Set(vb, c, Some(b.y)), d - 1)
    ensures BwdScanned(A, B, box, vf, Set(vb, c, Some(b.y)), d, c + 2)
    ensures BackwardScan(A, B, box, vf, vb, d, c) == BackwardScan(A, B, box, vf, Set(vb, c, Some(b.y)), d, c + 2)
  {
    assert b.x == BX(box, c, b.y) && BwdReach(A, B, box, d, c, b.y) by {
      BwdStepReach(A, B, box, vb, d, c);
    }
    BwdRecordScanned(A, B, box, vf, vb, d, c, b.y);
    BwdScanPasses(A, B, box, vf, vb, d, c, b);
    if d == 0 {
      GetSet(vb, Half(box.Size()), c, 1, Some(b.y));
    }
  }

  /**
   * Backward round d from diagonal c on, given that the diagonals before c were
   * recorded as furthest-reaching and did not fire: the scan returns a good
   * snake, or completes the round and shows the whole distance exceeds 2d.
   */
  lemma {:induction false} BackwardScanCorrect(A: seq<byte>, B: seq<byte>, box: Box, vf: Line, vb: Line, d: int, c: int)
    requires BoxIn(A, B, box) && BwdReady(box, vb, d) && |vf| == LineLen(box)
    requires -d <= c <= d + 2 && (c + d) % 2 == 0
    requires d == 0 ==> Get(vb, 1) == Some(box.bottom)
    requires d > 0 ==> BwdFront(A, B, box, vb, d - 1)
    requires box.Delta() % 2 == 0 ==> FwdDone(box, vf, d) && FwdFront(A, B, box, vf, d) && Whole(A, B, box) >= 2 * d
    requires forall j :: -d <= j < c && (j + d) % 2 == 0 ==> BwdOk(box, vb, j)
    requires BwdScanned(A, B, box, vf, vb, d, c)
    ensures var r := BackwardScan(A, B, box, vf, vb, d, c);
      (r.1.Some? ==> StepLast(A, B, box, r.1.value))
      && (r.1.None? ==> BwdFront(A, B, box, r.0, d))
      && (r.1.None? && box.Delta() % 2 == 0 ==> Whole(A, B, box) >= 2 * d + 1)
    decreases d + 2 - c
  {
    if c > d {
      BwdScanEnd(A, B, box, vf, vb, d, c);
    } else {
      var mv := BwdMove(box, vb, d, c);
      var b := SlideBwd(A, B, box, mv.entry);
      if BwdFires(box, vf, d, c, b.x) {
        BwdScanFires(A, B, box, vf, vb, d, c, b);
        BwdFireGood(A, B, box, vf, vb, d, c);
      } else {
        BwdScanStep(A, B, box, vf, vb, d, c, b);
        NextParity(c, d);
        BackwardScanCorrect(A, B, box, vf, Set(vb, c, Some(b.y)), d, c + 2);
      }
    }
  }
}
