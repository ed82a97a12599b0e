/**
 * The middle-snake search of one box: rounds d = 0 .. ceil(size/2), each a
 * forward scan followed by a backward scan, stopping at the first snake.
 * MidpointCorrect is the theorem that the search never falls through for a
 * box of positive size and that its snake lies on a cheapest path.
 */
module MiddleSnake {
  import opened Bytes
  import opened DiffOps
  import opened Costs
  import opened Frontier
  import opened ForwardTheory
  import opened BackwardTheory
  import opened Crossing

  /** A fresh frontier list: every slot unset except slot 1, which holds the seed. */
  function InitLine(box: Box, seed: int): (v: Line)
    requires box.Size() > 0
    ensures |v| == LineLen(box) && |v| >= 3
    ensures Get(v, 1) == Some(seed)
    ensures forall i :: 0 <= i < |v| && i != 1 ==> v[i] == None
  {
    HalfPositive(box.Size());
    seq(LineLen(box), i => if i == 1 then Some(seed) else None)
  }

  /** A positive size needs at least one round, and the last round reaches half the size. */
  lemma HalfPositive(n: int)
    requires n > 0
    ensures Half(n) >= 1 && 2 * Half(n) >= n && 2 * Half(n) <= n + 1
  {
    var h := (n + 1) / 2;
    var r := (n + 1) % 2;
    assert n + 1 == 2 * h + r && 0 <= r < 2;
  }

  /** Rounds d, d+1, ... of the search, with the frontier lists as round d finds them. */
  function MidpointLoop(A: seq<byte>, B: seq<byte>, box: Box, vf: Line, vb: Line, d: int): Option<Snake>
    requires BoxIn(A, B, box) && FwdReady(box, vf, d) && BwdReady(box, vb, d)
    decreases Half(box.Size()) - d
  {
    var fwd := ForwardScan(A, B, box, vf, vb, d, -d);
    var bwd := BackwardScan(A, B, box, fwd.0, vb, d, -d);
    if fwd.1.Some? then fwd.1
    else if bwd.1.Some? then bwd.1
    else if d == Half(box.Size()) then None
    else MidpointLoop(A, B, box, fwd.0, bwd.0, d + 1)
  }

  /** The middle snake of a box, or None for a box of size 0. */
  function Midpoint(A: seq<byte>, B: seq<byte>, box: Box): (r: Option<Snake>)
    requires BoxIn(A, B, box)
    ensures box.Size() == 0 ==> r.None?
  {
    if box.Size() == 0 then None
    else MidpointLoop(A, B, box, InitLine(box, box.left), InitLine(box, box.bottom), 0)
  }

  /** With delta even the distance is even, so passing 2d means reaching 2d+2. */
  lemma WholeEvenStep(A: seq<byte>, B: seq<byte>, box: Box, d: int)
    requires BoxIn(A, B, box) && box.Delta() % 2 == 0 && Whole(A, B, box) >= 2 * d + 1
    ensures Whole(A, B, box) >= 2 * d + 2
  {
    WholeBounds(A, B, box);
    EvenAbove(Whole(A, B, box), box.Size(), box.Delta(), box.Height(), d);
  }

  lemma EvenAbove(w: int, s: int, delta: int, h: int, d: int)
    requires w % 2 == s % 2 && s == delta + 2 * h && delta % 2 == 0 && w >= 2 * d + 1
    ensures w >= 2 * d + 2
  {
    var a := delta / 2;
    assert delta == 2 * a;
    var b := w / 2;
    var r := w % 2;
    assert w == 2 * b + r && 0 <= r < 2;
    assert s == 2 * (a + h);
  }

  /** The distance never exceeds what the last round can reach. */
  lemma WholeAtMost(A: seq<byte>, B: seq<byte>, box: Box)
    requires BoxIn(A, B, box) && box.Size() > 0
    ensures Whole(A, B, box) <= 2 * Half(box.Size())
  {
    WholeBounds(A, B, box);
    HalfPositive(box.Size());
  }

  /**
   * Rounds d, d+1, ... find a snake, given the frontiers of round d-1 and that
   * no earlier round could meet: the distance is at least 2d-1, and at least 2d
   * when delta is even. A forward snake is step-first, a backward one step-last.
   */
  lemma {:induction false} MidpointLoopCorrect(A: seq<byte>, B: seq<byte>, box: Box, vf: Line, vb: Line, d: int)
    requires BoxIn(A, B, box) && FwdReady(box, vf, d) && BwdReady(box, vb, d)
    requires d == 0 ==> Get(vf, 1) == Some(box.left) && Get(vb, 1) == Some(box.bottom)
    requires d > 0 ==> FwdFront(A, B, box, vf, d - 1) && BwdFront(A, B, box, vb, d - 1)
    requires Whole(A, B, box) >= 2 * d - 1
    requires box.Delta() % 2 == 0 ==> Whole(A, B, box) >= 2 * d
    ensures var r := MidpointLoop(A, B, box, vf, vb, d);
      r.Some?
      && (box.Delta() % 2 == 1 ==> StepFirst(A, B, box, r.value))
      && (box.Delta() % 2 == 0 ==> StepLast(A, B, box, r.value))
    decreases Half(box.Size()) - d
  {
    var fwd := ForwardScan(A, B, box, vf, vb, d, -d);
    ForwardScanCorrect(A, B, box, vf, vb, d, -d);
    if fwd.1.None? {
      var bwd := BackwardScan(A, B, box, fwd.0, vb, d, -d);
      BackwardScanCorrect(A, B, box, fwd.0, vb, d, -d);
      if bwd.1.None? {
        if box.Delta() % 2 == 0 {
          WholeEvenStep(A, B, box, d);
        }
        WholeAtMost(A, B, box);
        if d == Half(box.Size()) {
          assert false;
        }
        MidpointLoopCorrect(A, B, box, fwd.0, bwd.0, d + 1);
      }
    }
  }

  /**
   * The search returns None exactly for a box of size 0; otherwise its snake
   * lies on a cheapest path, with its single step first (delta odd) or last
   * (delta even).
   */
  lemma MidpointCorrect(A: seq<byte>, B: seq<byte>, box: Box)
    requires BoxIn(A, B, box)
    ensures Midpoint(A, B, box).None? <==> box.Size() == 0
    ensures Midpoint(A, B, box).Some? ==> GoodSnake(A, B, box, Midpoint(A, B, box).value)
    ensures Midpoint(A, B, box).Some? && box.Delta() % 2 == 1 ==> StepFirst(A, B, box, Midpoint(A, B, box).value)
    ensures Midpoint(A, B, box).Some? && box.Delta() % 2 == 0 ==> StepLast(A, B, box, Midpoint(A, B, box).value)
  {
    if box.Size() > 0 {
      MidpointLoopCorrect(A, B, box, InitLine(box, box.left), InitLine(box, box.bottom), 0);
    }
  }

  /** MidpointCorrect without the parity cases: None exactly for size 0, otherwise a good snake. */
  lemma MidpointGood(A: seq<byte>, B: seq<byte>, box: Box)
    requires BoxIn(A, B, box)
    ensures Midpoint(A, B, box).None? <==> box.Size() == 0
    ensures Midpoint(A, B, box).Some? ==> GoodSnake(A, B, box, Midpoint(A, B, box).value)
  {
    MidpointCorrect(A, B, box);
  }

  /** The search finds no snake exactly when the box is empty. */
  lemma MidpointNone(A: seq<byte>, B: seq<byte>, box: Box)
    requires BoxIn(A, B, box)
    ensures Midpoint(A, B, box).None? <==> box.Size() == 0
  {
    MidpointGood(A, B, box);
  }
}
