/**
 * A worked run of the search as written on the old file "ab" and the new
 * file "ba": the middle snake of the whole box, the operations the search
 * appends, and what the patcher writes when it replays them.
 *
 * The lemmas below follow _midpoint round by round: the V arrays of the
 * forward and the backward search after each diagonal (VF0, VB0 before
 * round 0, VF1 and VB1 after it, VF1a and VF2 during and after forward
 * round 1), then the backward hit on diagonal -1 in round 1.
 */
module Counterexample {
  import opened Bytes
  import opened DiffOps
  import opened Frontier
  import opened MiddleSnake
  import opened FindPath
  import opened Codec
  import opened Patch
  import opened Generate
  import opened FixedPath

  predicate FwdPre(A: seq<byte>, B: seq<byte>, box: Box, vf: Line, vb: Line, d: int, k: int)
  {
    BoxIn(A, B, box) && FwdReady(box, vf, d) && BwdReady(box, vb, d)
    && -d <= k <= d + 2 && (k + d) % 2 == 0
    && forall j :: -d <= j < k && (j + d) % 2 == 0 ==> FwdOk(box, vf, j)
  }

  predicate FwdScanIs(A: seq<byte>, B: seq<byte>, box: Box, vf: Line, vb: Line, d: int, k: int, r: (Line, Option<Snake>))
  {
    FwdPre(A, B, box, vf, vb, d, k) && ForwardScan(A, B, box, vf, vb, d, k) == r
  }

  predicate FwdStepIs(A: seq<byte>, B: seq<byte>, box: Box, vf: Line, vb: Line, d: int, k: int, fin: Point)
  {
    FwdPre(A, B, box, vf, vb, d, k) && k <= d
    && fin == SlideFwd(A, B, box, FwdMove(box, vf, d, k).entry) && box.Delta() == 0
  }

  lemma FwdNext(A: seq<byte>, B: seq<byte>, box: Box, vf: Line, vb: Line, d: int, k: int, fin: Point)
    requires FwdStepIs(A, B, box, vf, vb, d, k, fin)
    ensures FwdPre(A, B, box, Set(vf, k, Some(fin.x)), vb, d, k + 2)
  {
    EvenNeverFires(box, vb, d, k, fin.y);
    FwdRecord(box, vf, d, k, fin.x);
  }

  lemma FwdGo(A: seq<byte>, B: seq<byte>, box: Box, vf: Line, vb: Line, d: int, k: int, fin: Point, r: (Line, Option<Snake>))
    requires FwdStepIs(A, B, box, vf, vb, d, k, fin)
    requires FwdScanIs(A, B, box, Set(vf, k, Some(fin.x)), vb, d, k + 2, r)
    ensures FwdScanIs(A, B, box, vf, vb, d, k, r)
  {
    EvenNeverFires(box, vb, d, k, fin.y);
  }

  lemma FwdEnd(A: seq<byte>, B: seq<byte>, box: Box, vf: Line, vb: Line, d: int, k: int)
    requires FwdPre(A, B, box, vf, vb, d, k) && k > d
    ensures FwdScanIs(A, B, box, vf, vb, d, k, (vf, None))
  {
  }

  predicate BwdPre(A: seq<byte>, B: seq<byte>, box: Box, vf: Line, vb: Line, d: int, c: int)
  {
    BoxIn(A, B, box) && BwdReady(box, vb, d) && |vf| == LineLen(box)
    && (box.Delta() % 2 == 0 ==> FwdDone(box, vf, d))
    && -d <= c <= d + 2 && (c + d) % 2 == 0
    && forall j :: -d <= j < c && (j + d) % 2 == 0 ==> BwdOk(box, vb, j)
  }

  predicate BwdScanIs(A: seq<byte>, B: seq<byte>, box: Box, vf: Line, vb: Line, d: int, c: int, r: (Line, Option<Snake>))
  {
    BwdPre(A, B, box, vf, vb, d, c) && BackwardScan(A, B, box, vf, vb, d, c) == r
  }

  predicate BwdStepIs(A: seq<byte>, B: seq<byte>, box: Box, vf: Line, vb: Line, d: int, c: int, fin: Point, at: int)
  {
    BwdPre(A, B, box, vf, vb, d, c) && c <= d
    && fin == SlideBwd(A, B, box, BwdMove(box, vb, d, c).entry)
    && box.Delta() == 0 && GetIs(vf, c, Some(at)) && fin.x > at
  }

  predicate BwdHitIs(A: seq<byte>, B: seq<byte>, box: Box, vf: Line, vb: Line, d: int, c: int, s: Snake, at: int)
  {
    BwdPre(A, B, box, vf, vb, d, c) && c <= d
    && s.start == SlideBwd(A, B, box, BwdMove(box, vb, d, c).entry) && s.finish == BwdMove(box, vb, d, c).prev
    && box.Delta() == 0 && GetIs(vf, c, Some(at)) && s.start.x <= at
  }

  lemma BwdNext(A: seq<byte>, B: seq<byte>, box: Box, vf: Line, vb: Line, d: int, c: int, fin: Point, at: int)
    requires BwdStepIs(A, B, box, vf, vb, d, c, fin, at)
    ensures BwdPre(A, B, box, vf, Set(vb, c, Some(fin.y)), d, c + 2)
  {
    BwdSkipsAt(box, vf, d, c, fin.x, at);
    BwdRecord(box, vb, d, c, fin.y);
  }

  lemma BwdGo(A: seq<byte>, B: seq<byte>, box: Box, vf: Line, vb: Line, d: int, c: int, fin: Point, at: int, r: (Line, Option<Snake>))
    requires BwdStepIs(A, B, box, vf, vb, d, c, fin, at)
    requires BwdScanIs(A, B, box, vf, Set(vb, c, Some(fin.y)), d, c + 2, r)
    ensures BwdScanIs(A, B, box, vf, vb, d, c, r)
  {
    BwdSkipsAt(box, vf, d, c, fin.x, at);
  }

  lemma BwdEnd(A: seq<byte>, B: seq<byte>, box: Box, vf: Line, vb: Line, d: int, c: int)
    requires BwdPre(A, B, box, vf, vb, d, c) && c > d
    ensures BwdScanIs(A, B, box, vf, vb, d, c, (vb, None))
  {
  }

  lemma BwdHit(A: seq<byte>, B: seq<byte>, box: Box, vf: Line, vb: Line, d: int, c: int, s: Snake, at: int)
    requires BwdHitIs(A, B, box, vf, vb, d, c, s, at)
    ensures BwdPre(A, B, box, vf, vb, d, c) && BackwardScan(A, B, box, vf, vb, d, c).1 == Some(s)
  {
    BwdFiresAt(box, vf, d, c, s.start.x, at);
  }

  predicate LoopIs(A: seq<byte>, B: seq<byte>, box: Box, vf: Line, vb: Line, d: int, r: Option<Snake>)
  {
    BoxIn(A, B, box) && FwdReady(box, vf, d) && BwdReady(box, vb, d) && MidpointLoop(A, B, box, vf, vb, d) == r
  }

  lemma LoopOn(A: seq<byte>, B: seq<byte>, box: Box, vf: Line, vb: Line, d: int, vf': Line, vb': Line, r: Option<Snake>)
    requires FwdScanIs(A, B, box, vf, vb, d, -d, (vf', None)) && d < Half(box.Size())
    requires BwdScanIs(A, B, box, vf', vb, d, -d, (vb', None))
    ensures FwdReady(box, vf', d + 1) && BwdReady(box, vb', d + 1)
    ensures LoopIs(A, B, box, vf', vb', d + 1, r) ==> LoopIs(A, B, box, vf, vb, d, r)
  {
  }

  lemma LoopHit(A: seq<byte>, B: seq<byte>, box: Box, vf: Line, vb: Line, d: int, vf': Line, s: Snake)
    requires FwdScanIs(A, B, box, vf, vb, d, -d, (vf', None))
    requires BwdPre(A, B, box, vf', vb, d, -d) && BackwardScan(A, B, box, vf', vb, d, -d).1 == Some(s)
    ensures LoopIs(A, B, box, vf, vb, d, Some(s))
  {
  }

  lemma MidpointIs(A: seq<byte>, B: seq<byte>, box: Box, r: Option<Snake>)
    requires box.Size() > 0 && LoopIs(A, B, box, InitLine(box, box.left), InitLine(box, box.bottom), 0, r)
    ensures Midpoint(A, B, box) == r
  {
  }

  predicate GetIs(v: Line, i: int, e: Option<int>) { -|v| <= i < |v| && Get(v, i) == e }

  const AB: seq<byte> := [97, 98]
  const BA: seq<byte> := [98, 97]
  const BOX := Box(0, 0, 2, 2)
  const VF0: Line := [None, Some(0), None, None, None]
  const VB0: Line := [None, Some(2), None, None, None]
  const VF1: Line := [Some(0), Some(0), None, None, None]
  const VB1: Line := [Some(2), Some(2), None, None, None]
  const VF1a: Line := [Some(0), Some(0), None, None, Some(1)]
  const VF2: Line := [Some(0), Some(2), None, None, Some(1)]

  lemma AbBaInBox() ensures BoxIn(AB, BA, BOX) {}
  lemma EvenDelta() ensures BOX.Delta() == 0 {}
  lemma BoxSize() ensures BOX.Size() == 4 && Half(BOX.Size()) == 2 { assert BOX.Size() == 4; }
  lemma HalfSize() ensures BOX.Size() > 0 && 1 <= Half(BOX.Size()) { BoxSize(); }
  lemma LineWidth() ensures LineLen(BOX) == 5 { BoxSize(); }
  lemma LineLens() ensures |VF0| == |VB0| == |VF1| == |VB1| == |VF1a| == |VF2| == 5 { }
  lemma LinesFit() ensures LineLen(BOX) == |VF0| == |VB0| == |VF1| == |VB1| == |VF1a| == |VF2| { LineWidth(); LineLens(); }
  lemma LastSlot() ensures PyIndex(-1, 5) == 4 {}

  lemma Gets()
    ensures GetIs(VF0, 1, Some(0)) && GetIs(VB0, 1, Some(2)) && GetIs(VF1, 0, Some(0)) && GetIs(VB1, 0, Some(2))
    ensures GetIs(VF1a, 0, Some(0)) && GetIs(VF2, -1, Some(1)) && GetIs(VF2, 1, Some(2))
  {
    LineLens(); LastSlot();
  }

  lemma GetF1() ensures GetIs(VF1, 0, Some(0)) { LineLens(); }
  lemma GetF2() ensures GetIs(VF2, -1, Some(1)) { LineLens(); LastSlot(); }

  lemma Sets()
    ensures Set(VF0, 0, Some(0)) == VF1 && Set(VB0, 0, Some(2)) == VB1
    ensures Set(VF1, -1, Some(1)) == VF1a && Set(VF1a, 1, Some(2)) == VF2
  {
    LineLens(); LastSlot();
  }

  lemma FwdDone0(box: Box, vf: Line) requires FwdOk(box, vf, 0) ensures FwdDone(box, vf, 0) {}
  lemma BwdDone0(box: Box, vb: Line) requires BwdOk(box, vb, 0) ensures BwdDone(box, vb, 0) {}
  lemma FwdDone1(box: Box, vf: Line) requires FwdOk(box, vf, -1) && FwdOk(box, vf, 1) ensures FwdDone(box, vf, 1)
  {
    forall j | -1 <= j <= 1 && (j + 1) % 2 == 0 ensures FwdOk(box, vf, j) { assert j == -1 || j == 1; }
  }
  lemma OkOf(box: Box, v: Line, j: int, x: int)
    requires GetIs(v, j, Some(x)) && box.left == 0 && box.top == 0 && box.right == 2 && box.bottom == 2 && 0 <= x && j <= x
    ensures FwdOk(box, v, j)
  {
  }
  lemma RoundsDone()
    ensures FwdDone(BOX, VF1, 0) && BwdDone(BOX, VB1, 0) && FwdDone(BOX, VF2, 1)
  {
    Gets();
    OkOf(BOX, VF1, 0, 0); OkOf(BOX, VF2, -1, 1); OkOf(BOX, VF2, 1, 2);
    assert BwdOk(BOX, VB1, 0);
    FwdDone0(BOX, VF1); BwdDone0(BOX, VB1); FwdDone1(BOX, VF2);
  }

  lemma ReadyAt0(box: Box, vf: Line, vb: Line)
    requires box.Size() > 0 && |vf| == LineLen(box) && |vb| == LineLen(box)
    requires GetIs(vf, 1, Some(box.left)) && GetIs(vb, 1, Some(box.bottom))
    ensures FwdReady(box, vf, 0) && BwdReady(box, vb, 0)
  {
    HalfPositive(box.Size());
  }
  lemma ReadyAt1(box: Box, vf: Line, vb: Line)
    requires box.Size() > 0 && 1 <= Half(box.Size()) && |vf| == LineLen(box) && |vb| == LineLen(box)
    requires FwdDone(box, vf, 0) && BwdDone(box, vb, 0)
    ensures FwdReady(box, vf, 1) && BwdReady(box, vb, 1)
  {
  }

  lemma Ready0() ensures FwdReady(BOX, VF0, 0) && BwdReady(BOX, VB0, 0)
  {
    HalfSize(); LinesFit(); Gets();
    ReadyAt0(BOX, VF0, VB0);
  }
  lemma Ready1() ensures FwdReady(BOX, VF1, 1) && BwdReady(BOX, VB1, 1)
  {
    HalfSize(); LinesFit(); RoundsDone();
    ReadyAt1(BOX, VF1, VB1);
  }

  lemma MoveF(box: Box, vf: Line, d: int, k: int, x: int, entry: Point)
    requires box.left == 0 && box.top == 0 && FwdReady(box, vf, d) && -d <= k <= d && (k + d) % 2 == 0
    requires k == -d && GetIs(vf, k + 1, Some(x)) && entry == Point(x, x - k)
    ensures FwdMove(box, vf, d, k).entry == entry
  {
  }
  lemma MoveFRight(box: Box, vf: Line, d: int, k: int, x: int, entry: Point)
    requires box.left == 0 && box.top == 0 && FwdReady(box, vf, d) && -d <= k <= d && (k + d) % 2 == 0
    requires k == d && k != -d && GetIs(vf, k - 1, Some(x)) && entry == Point(x + 1, x + 1 - k)
    ensures FwdMove(box, vf, d, k).entry == entry
  {
  }
  lemma MoveB(box: Box, vb: Line, d: int, c: int, y: int, mv: Move)
    requires box.right == 2 && box.bottom == 2 && BwdReady(box, vb, d) && -d <= c <= d && (c + d) % 2 == 0
    requires c == -d && GetIs(vb, c + 1, Some(y))
    requires mv == Move(Point(if d == 0 then y + c else y + c + 1, y), Point(y + c, y))
    ensures BwdMove(box, vb, d, c) == mv
  {
  }
  lemma EvenNeverFires(box: Box, vb: Line, d: int, k: int, y: int)
    requires box.Delta() == 0 && BwdReady(box, vb, d) && -d <= k <= d && (k + d) % 2 == 0
    ensures !FwdFires(box, vb, d, k, y)
  {
  }
  lemma BwdFiresAt(box: Box, vf: Line, d: int, c: int, x: int, at: int)
    requires box.Delta() == 0 && |vf| == LineLen(box) && 0 <= d <= Half(box.Size()) && -d <= c <= d && (c + d) % 2 == 0
    requires FwdDone(box, vf, d) && GetIs(vf, c, Some(at)) && x <= at
    ensures BwdFires(box, vf, d, c, x)
  {
  }
  lemma BwdSkipsAt(box: Box, vf: Line, d: int, c: int, x: int, at: int)
    requires box.Delta() == 0 && |vf| == LineLen(box) && 0 <= d <= Half(box.Size()) && -d <= c <= d && (c + d) % 2 == 0
    requires FwdDone(box, vf, d) && GetIs(vf, c, Some(at)) && x > at
    ensures !BwdFires(box, vf, d, c, x)
  {
  }

  lemma SlideF00() ensures BoxIn(AB, BA, BOX) && SlideFwd(AB, BA, BOX, Point(0, 0)) == Point(0, 0) { AbBaInBox(); }
  lemma SlideB22() ensures BoxIn(AB, BA, BOX) && SlideBwd(AB, BA, BOX, Point(2, 2)) == Point(2, 2) { AbBaInBox(); }
  lemma SlideF01() ensures BoxIn(AB, BA, BOX) && SlideFwd(AB, BA, BOX, Point(0, 1)) == Point(1, 2)
  {
    AbBaInBox();
    assert SlideFwd(AB, BA, BOX, Point(1, 2)) == Point(1, 2);
  }
  lemma SlideF10() ensures BoxIn(AB, BA, BOX) && SlideFwd(AB, BA, BOX, Point(1, 0)) == Point(2, 1)
  {
    AbBaInBox();
    assert SlideFwd(AB, BA, BOX, Point(2, 1)) == Point(2, 1);
  }
  lemma SlideB12() ensures BoxIn(AB, BA, BOX) && SlideBwd(AB, BA, BOX, Point(1, 2)) == Point(0, 1)
  {
    AbBaInBox();
    assert SlideBwd(AB, BA, BOX, Point(0, 1)) == Point(0, 1);
  }

  lemma SetF0() ensures Set(VF0, 0, Some(0)) == VF1 { LineLens(); }
  lemma SetB0() ensures Set(VB0, 0, Some(2)) == VB1 { LineLens(); }
  lemma SetF1a() ensures Set(VF1, -1, Some(1)) == VF1a { LineLens(); LastSlot(); }
  lemma SetF1b() ensures Set(VF1a, 1, Some(2)) == VF2 { LineLens(); }

  /* Round 0, forward: diagonal 0 from (0, 0), no slide. */
  lemma PreF0() ensures FwdPre(AB, BA, BOX, VF0, VB0, 0, 0) { AbBaInBox(); Ready0(); }
  lemma MoveF0() ensures FwdPre(AB, BA, BOX, VF0, VB0, 0, 0) && FwdMove(BOX, VF0, 0, 0).entry == Point(0, 0)
  {
    PreF0(); Gets();
    MoveF(BOX, VF0, 0, 0, 0, Point(0, 0));
  }
  lemma StepF0() ensures FwdStepIs(AB, BA, BOX, VF0, VB0, 0, 0, Point(0, 0))
  {
    MoveF0(); SlideF00(); EvenDelta();
  }
  lemma NextF0() ensures FwdPre(AB, BA, BOX, VF1, VB0, 0, 2)
  {
    StepF0(); SetF0();
    FwdNext(AB, BA, BOX, VF0, VB0, 0, 0, Point(0, 0));
  }
  lemma EndF0() ensures FwdScanIs(AB, BA, BOX, VF1, VB0, 0, 2, (VF1, None))
  {
    NextF0();
    FwdEnd(AB, BA, BOX, VF1, VB0, 0, 2);
  }
  lemma ScanF0() ensures FwdScanIs(AB, BA, BOX, VF0, VB0, 0, 0, (VF1, None))
  {
    StepF0(); SetF0(); EndF0();
    FwdGo(AB, BA, BOX, VF0, VB0, 0, 0, Point(0, 0), (VF1, None));
  }

  /* Round 0, backward: diagonal 0 from (2, 2), no slide, no overlap. */
  lemma PreB0() ensures BwdPre(AB, BA, BOX, VF1, VB0, 0, 0) { AbBaInBox(); Ready0(); LinesFit(); RoundsDone(); }
  lemma MoveB0() ensures BwdPre(AB, BA, BOX, VF1, VB0, 0, 0) && BwdMove(BOX, VB0, 0, 0).entry == Point(2, 2)
  {
    PreB0(); Gets();
    MoveB(BOX, VB0, 0, 0, 2, Move(Point(2, 2), Point(2, 2)));
  }
  lemma StepB0() ensures BwdStepIs(AB, BA, BOX, VF1, VB0, 0, 0, Point(2, 2), 0)
  {
    MoveB0(); SlideB22(); EvenDelta(); GetF1();
  }
  lemma NextB0() ensures BwdPre(AB, BA, BOX, VF1, VB1, 0, 2)
  {
    StepB0(); SetB0();
    BwdNext(AB, BA, BOX, VF1, VB0, 0, 0, Point(2, 2), 0);
  }
  lemma EndB0() ensures BwdScanIs(AB, BA, BOX, VF1, VB1, 0, 2, (VB1, None))
  {
    NextB0();
    BwdEnd(AB, BA, BOX, VF1, VB1, 0, 2);
  }
  lemma ScanB0() ensures BwdScanIs(AB, BA, BOX, VF1, VB0, 0, 0, (VB1, None))
  {
    StepB0(); SetB0(); EndB0();
    BwdGo(AB, BA, BOX, VF1, VB0, 0, 0, Point(2, 2), 0, (VB1, None));
  }

  /* Round 1, forward: diagonal -1 slides from (0, 1) to (1, 2), diagonal 1 from (1, 0) to (2, 1). */
  lemma PreF1() ensures FwdPre(AB, BA, BOX, VF1, VB1, 1, -1) { AbBaInBox(); Ready1(); }
  lemma MoveF1a() ensures FwdPre(AB, BA, BOX, VF1, VB1, 1, -1) && FwdMove(BOX, VF1, 1, -1).entry == Point(0, 1)
  {
    PreF1(); Gets();
    MoveF(BOX, VF1, 1, -1, 0, Point(0, 1));
  }
  lemma StepF1a() ensures FwdStepIs(AB, BA, BOX, VF1, VB1, 1, -1, Point(1, 2))
  {
    MoveF1a(); SlideF01(); EvenDelta();
  }
  lemma NextF1a() ensures FwdPre(AB, BA, BOX, VF1a, VB1, 1, 1)
  {
    StepF1a(); SetF1a();
    FwdNext(AB, BA, BOX, VF1, VB1, 1, -1, Point(1, 2));
  }
  lemma MoveF1b() ensures FwdPre(AB, BA, BOX, VF1a, VB1, 1, 1) && FwdMove(BOX, VF1a, 1, 1).entry == Point(1, 0)
  {
    NextF1a(); Gets();
    MoveFRight(BOX, VF1a, 1, 1, 0, Point(1, 0));
  }
  lemma StepF1b() ensures FwdStepIs(AB, BA, BOX, VF1a, VB1, 1, 1, Point(2, 1))
  {
    MoveF1b(); SlideF10(); EvenDelta();
  }
  lemma NextF1b() ensures FwdPre(AB, BA, BOX, VF2, VB1, 1, 3)
  {
    StepF1b(); SetF1b();
    FwdNext(AB, BA, BOX, VF1a, VB1, 1, 1, Point(2, 1));
  }
  lemma EndF1() ensures FwdScanIs(AB, BA, BOX, VF2, VB1, 1, 3, (VF2, None))
  {
    NextF1b();
    FwdEnd(AB, BA, BOX, VF2, VB1, 1, 3);
  }
  lemma ScanF1b() ensures FwdScanIs(AB, BA, BOX, VF1a, VB1, 1, 1, (VF2, None))
  {
    StepF1b(); SetF1b(); EndF1();
    FwdGo(AB, BA, BOX, VF1a, VB1, 1, 1, Point(2, 1), (VF2, None));
  }
  lemma ScanF1() ensures FwdScanIs(AB, BA, BOX, VF1, VB1, 1, -1, (VF2, None))
  {
    StepF1a(); SetF1a(); ScanF1b();
    FwdGo(AB, BA, BOX, VF1, VB1, 1, -1, Point(1, 2), (VF2, None));
  }

  /* Round 1, backward: diagonal -1 steps left from (2, 2) to (1, 2), slides to (0, 1) and meets forward diagonal -1. */
  lemma PreB1() ensures BwdPre(AB, BA, BOX, VF2, VB1, 1, -1) { AbBaInBox(); Ready1(); LinesFit(); RoundsDone(); }
  lemma MoveB1() ensures BwdPre(AB, BA, BOX, VF2, VB1, 1, -1) && BwdMove(BOX, VB1, 1, -1) == Move(Point(2, 2), Point(1, 2))
  {
    PreB1(); Gets();
    MoveB(BOX, VB1, 1, -1, 2, Move(Point(2, 2), Point(1, 2)));
  }
  lemma HitB1() ensures BwdHitIs(AB, BA, BOX, VF2, VB1, 1, -1, Snake(Point(0, 1), Point(2, 2)), 1)
  {
    MoveB1(); SlideB12(); EvenDelta(); GetF2();
  }

  lemma InitLines() ensures BOX.Size() > 0 && InitLine(BOX, BOX.left) == VF0 && InitLine(BOX, BOX.bottom) == VB0
  {
    HalfSize(); LineWidth(); LineLens();
    var v, w := InitLine(BOX, 0), InitLine(BOX, 2);
    assert v[0] == None && v[1] == Some(0) && v[2] == None && v[3] == None && v[4] == None;
    assert w[0] == None && w[1] == Some(2) && w[2] == None && w[3] == None && w[4] == None;
  }

  lemma Loop1() ensures LoopIs(AB, BA, BOX, VF1, VB1, 1, Some(Snake(Point(0, 1), Point(2, 2))))
  {
    ScanF1(); HitB1();
    BwdHit(AB, BA, BOX, VF2, VB1, 1, -1, Snake(Point(0, 1), Point(2, 2)), 1);
    LoopHit(AB, BA, BOX, VF1, VB1, 1, VF2, Snake(Point(0, 1), Point(2, 2)));
  }

  lemma AbBaMidpoint() ensures BoxIn(AB, BA, BOX) && Midpoint(AB, BA, BOX) == Some(Snake(Point(0, 1), Point(2, 2)))
  {
    AbBaInBox(); HalfSize(); InitLines();
    ScanF0(); ScanB0(); Loop1();
    LoopOn(AB, BA, BOX, VF0, VB0, 0, VF1, VB1, Some(Snake(Point(0, 1), Point(2, 2))));
    MidpointIs(AB, BA, BOX, Some(Snake(Point(0, 1), Point(2, 2))));
  }

  /**
   * A middle snake of the whole box that starts on the left edge below the
   * top, steps right (a Delete) and ends at the bottom-right corner: the
   * search as written appends the Delete of the first old byte, then the
   * Insert of the column before the snake, both at position 0.
   */
  lemma DeleteBeforeColumn(A: seq<byte>, B: seq<byte>, s: Snake)
    requires |A| > 0 && |B| > 0 && Midpoint(A, B, FullBox(A, B)) == Some(s)
    requires s.start.x == 0 && 0 < s.start.y <= |B| && s.Dx() > s.Dy() && s.finish == Point(|A|, |B|)
    ensures Diff(A, B) == [Delete(0, 1), Insert(0, B[..s.start.y])]
  {
    var t := FindPathSplit(A, B, FullBox(A, B));
    FindPathDegenerate(A, B, Before(FullBox(A, B), s));
    FindPathDegenerate(A, B, After(FullBox(A, B), s));
  }

  /** The same snake under the corrected search, for a box of even delta: the Insert comes first, and the Delete sits at the snake's finish. */
  lemma ColumnBeforeDelete(A: seq<byte>, B: seq<byte>, s: Snake)
    requires |A| > 0 && |B| > 0 && Midpoint(A, B, FullBox(A, B)) == Some(s) && FullBox(A, B).Delta() % 2 == 0
    requires s.start.x == 0 && 0 < s.start.y <= |B| && s.Dx() > s.Dy() && s.finish == Point(|A|, |B|)
    ensures FixedDiff(A, B) == [Insert(0, B[..s.start.y]), Delete(|A| - 1, 1)]
  {
    var t := FixedSplit(A, B, FullBox(A, B));
    FixedDegenerate(A, B, Before(FullBox(A, B), s));
    FixedDegenerate(A, B, After(FullBox(A, B), s));
  }

  lemma BaHead()
    ensures BA[..1] == [98]
  {
  }

  lemma AbBaSizes()
    ensures |AB| == 2 && |BA| == 2 && FullBox(AB, BA) == BOX && BOX.Delta() % 2 == 0
  {
  }

  /** The search as written, on "ab" against "ba". */
  lemma AbBaDiff()
    ensures Diff(AB, BA) == [Delete(0, 1), Insert(0, [98])]
  {
    AbBaMidpoint();
    assert FullBox(AB, BA) == BOX;
    DeleteBeforeColumn(AB, BA, Snake(Point(0, 1), Point(2, 2)));
    BaHead();
  }

  /**
   * Replaying a Delete of the first byte, then an Insert at position 0, on a
   * two-byte file: the Insert cannot go back and writes at the cursor, and
   * the final copy writes the old second byte.
   */
  lemma ReplayDeleteInsert(A: seq<byte>, c: byte)
    requires |A| == 2
    ensures AllNonNegative([Delete(0, 1), Insert(0, [c])])
    ensures Replayed(A, [Delete(0, 1), Insert(0, [c])]) == [c, A[1]]
  {
    var st1 := ApplyOp(A, Start, Delete(0, 1));
    assert st1 == Patched(1, []);
    var st2 := ApplyOp(A, st1, Insert(0, [c]));
    assert st2 == Patched(1, [c]);
    var ops := [Delete(0, 1), Insert(0, [c])];
    assert ops[1..] == [Insert(0, [c])] && [Insert(0, [c])][1..] == [];
    assert ApplyAll(A, Start, ops) == ApplyAll(A, st1, [Insert(0, [c])]);
    assert ApplyAll(A, st1, [Insert(0, [c])]) == st2;
    assert A[1..] == [A[1]];
  }

  /** Patching "ab" with the diff of "ab" against "ba" writes "bb", not "ba". */
  lemma AbBaReplay()
    ensures AllNonNegative(Diff(AB, BA))
    ensures Replayed(AB, Diff(AB, BA)) == [98, 98]
    ensures Replayed(AB, Diff(AB, BA)) != BA
  {
    AbBaDiff();
    ReplayDeleteInsert(AB, 98);
  }

  /** Files no longer than the chunk size, not both empty, make a single chunk pair. */
  lemma SinglePair(A: seq<byte>, B: seq<byte>, size: int)
    requires |A| <= size && |B| <= size && (|A| > 0 || |B| > 0)
    ensures Pairs(A, B, 0, 0, size) == [(A, B)]
  {
    var a, b := PairsStep(A, B, 0, 0, size);
    assert a == A by {
      assert A[0..|A|] == A;
    }
    assert b == B by {
      assert B[0..|B|] == B;
    }
    var a', b' := PairsStep(A, B, |A|, |B|, size);
    assert Pairs(A, B, 0, 0, size) == [(a, b)] + Pairs(A, B, |A|, |B|, size);
  }

  /**
   * For a single chunk pair, apply_patch_file on the diff file that
   * generate_diff_file writes replays the search's operations over the
   * whole old file.
   */
  lemma SinglePairPatch(A: seq<byte>, B: seq<byte>, oldHash: seq<byte>, size: int)
    requires |A| + |B| < U64_LIMIT && |oldHash| == HASH_SIZE
    requires |A| <= size && |B| <= size && (|A| > 0 || |B| > 0)
    ensures !GenerateFile(A, B, oldHash, size).raised && AllNonNegative(Diff(A, B))
    ensures PatchFile(A, GenerateFile(A, B, oldHash, size).written) == Outcome(Replayed(A, Diff(A, B)), false)
  {
    DiffBounded();
    DiffCounted();
    GenerateDecodes(FindPath.Diff, A, B, oldHash, size);
    SinglePair(A, B, size);
    assert AllOps(FindPath.Diff, [(A, B)], 0) == Shift(Diff(A, B), 0) + AllOps(FindPath.Diff, [], |A|);
    ShiftZero(Diff(A, B));
    assert AllOps(FindPath.Diff, [(A, B)], 0) == Diff(A, B);
    PackableNonNegative(Diff(A, B));
  }

  /** generate_diff_file as written on "ab" against "ba", then apply_patch_file on "ab": the patched file is "bb". */
  lemma AbBaPatchFile(oldHash: seq<byte>)
    requires |oldHash| == HASH_SIZE
    ensures !GenerateFile(AB, BA, oldHash, CHUNK_SIZE).raised
    ensures PatchFile(AB, GenerateFile(AB, BA, oldHash, CHUNK_SIZE).written) == Outcome([98, 98], false)
  {
    AbBaSizes();
    SinglePairPatch(AB, BA, oldHash, CHUNK_SIZE);
    AbBaReplay();
  }

  /** The corrected search on "ab" against "ba": the Insert of "b" first, then the Delete of the old "b"; patching writes "ba". */
  lemma AbBaFixed()
    ensures FixedDiff(AB, BA) == [Insert(0, [98]), Delete(1, 1)]
    ensures AllNonNegative(FixedDiff(AB, BA)) && Replayed(AB, FixedDiff(AB, BA)) == BA
  {
    AbBaMidpoint();
    AbBaSizes();
    ColumnBeforeDelete(AB, BA, Snake(Point(0, 1), Point(2, 2)));
    BaHead();
    FixedDiffReplays(AB, BA);
  }
}
