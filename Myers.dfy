/**
 * The MyersLinear object as the program runs it: the two byte strings, the
 * list of operations the recursive search appends to, and the frontier lists
 * that each midpoint search allocates and updates in place. Every method is
 * proved to compute what the functions of Frontier, MiddleSnake and FindPath
 * define, so the theorems proved there (the middle snake is optimal, the
 * operations sum to the edit distance) carry over to the object.
 */
module Myers {
  import opened Bytes
  import opened DiffOps
  import opened EditDistance
  import opened Costs
  import opened Frontier
  import opened Crossing
  import opened Mid = MiddleSnake
  import opened Path = FindPath

  /** Forward round d is done up to diagonal k, and what is left of it gives spec. */
  ghost predicate FwdLoop(A: seq<byte>, B: seq<byte>, box: Box, v: Line, w: Line, d: int, k: int, spec: (Line, Option<Snake>))
  {
    BoxIn(A, B, box) && FwdReady(box, v, d) && BwdReady(box, w, d)
    && -d <= k <= d + 2 && (k + d) % 2 == 0
    && (forall j :: -d <= j < k && (j + d) % 2 == 0 ==> FwdOk(box, v, j))
    && ForwardScan(A, B, box, v, w, d, k) == spec
  }

  lemma FwdLoopStart(A: seq<byte>, B: seq<byte>, box: Box, v: Line, w: Line, d: int)
    requires BoxIn(A, B, box) && FwdReady(box, v, d) && BwdReady(box, w, d)
    ensures FwdLoop(A, B, box, v, w, d, -d, ForwardScan(A, B, box, v, w, d, -d))
  {
  }

  /** Recording diagonal k and firing ends the round with spec. */
  lemma FwdLoopFires(A: seq<byte>, B: seq<byte>, box: Box, v: Line, w: Line, d: int, k: int, spec: (Line, Option<Snake>), f: Point)
    requires FwdLoop(A, B, box, v, w, d, k, spec) && k <= d
    requires f == SlideFwd(A, B, box, FwdMove(box, v, d, k).entry) && FwdFires(box, w, d, k, f.y)
    ensures spec == (Set(v, k, Some(f.x)), Some(Snake(FwdMove(box, v, d, k).prev, f)))
  {
    FwdScanFires(A, B, box, v, w, d, k, f);
  }

  /** Recording diagonal k without firing leaves the rest of the round to diagonal k + 2. */
  lemma FwdLoopPasses(A: seq<byte>, B: seq<byte>, box: Box, v: Line, w: Line, d: int, k: int, spec: (Line, Option<Snake>), f: Point)
    requires FwdLoop(A, B, box, v, w, d, k, spec) && k <= d
    requires f == SlideFwd(A, B, box, FwdMove(box, v, d, k).entry) && !FwdFires(box, w, d, k, f.y)
    ensures FwdLoop(A, B, box, Set(v, k, Some(f.x)), w, d, k + 2, spec)
  {
    FwdScanPasses(A, B, box, v, w, d, k, f);
    NextParity(k, d);
  }

  /** Backward round d is done up to diagonal c, and what is left of it gives spec. */
  ghost predicate BwdLoop(A: seq<byte>, B: seq<byte>, box: Box, u: Line, v: Line, d: int, c: int, spec: (Line, Option<Snake>))
  {
    BoxIn(A, B, box) && BwdReady(box, v, d) && |u| == LineLen(box)
    && (box.Delta() % 2 == 0 ==> FwdDone(box, u, d))
    && -d <= c <= d + 2 && (c + d) % 2 == 0
    && (forall j :: -d <= j < c && (j + d) % 2 == 0 ==> BwdOk(box, v, j))
    && BackwardScan(A, B, box, u, v, d, c) == spec
  }

  lemma BwdLoopStart(A: seq<byte>, B: seq<byte>, box: Box, u: Line, v: Line, d: int)
    requires BoxIn(A, B, box) && BwdReady(box, v, d) && |u| == LineLen(box)
    requires box.Delta() % 2 == 0 ==> FwdDone(box, u, d)
    ensures BwdLoop(A, B, box, u, v, d, -d, BackwardScan(A, B, box, u, v, d, -d))
  {
  }

  lemma BwdLoopFires(A: seq<byte>, B: seq<byte>, box: Box, u: Line, v: Line, d: int, c: int, spec: (Line, Option<Snake>), b: Point)
    requires BwdLoop(A, B, box, u, v, d, c, spec) && c <= d
    requires b == SlideBwd(A, B, box, BwdMove(box, v, d, c).entry) && BwdFires(box, u, d, c, b.x)
    ensures spec == (Set(v, c, Some(b.y)), Some(Snake(b, BwdMove(box, v, d, c).prev)))
  {
    BwdScanFires(A, B, box, u, v, d, c, b);
  }

  lemma BwdLoopPasses(A: seq<byte>, B: seq<byte>, box: Box, u: Line, v: Line, d: int, c: int, spec: (Line, Option<Snake>), b: Point)
    requires BwdLoop(A, B, box, u, v, d, c, spec) && c <= d
    requires b == SlideBwd(A, B, box, BwdMove(box, v, d, c).entry) && !BwdFires(box, u, d, c, b.x)
    ensures BwdLoop(A, B, box, u, Set(v, c, Some(b.y)), d, c + 2, spec)
  {
    BwdScanPasses(A, B, box, u, v, d, c, b);
    NextParity(c, d);
  }

  lemma AppendFour(a: seq<DiffOp>, b: seq<DiffOp>, c: seq<DiffOp>, d: seq<DiffOp>)
    ensures a + (b + c + d) == a + b + c + d
  {
  }

  /** One equal pair of bytes moves the forward slide one step along its diagonal. */
  lemma SlideFwdStep(A: seq<byte>, B: seq<byte>, box: Box, p: Point)
    requires BoxIn(A, B, box) && p.x >= box.left && p.y >= box.top
    requires p.x < box.right && p.y < box.bottom && A[p.x] == B[p.y]
    ensures SlideFwd(A, B, box, p) == SlideFwd(A, B, box, Point(p.x + 1, p.y + 1))
  {
  }

  /** The forward slide stops at the box's edge or at the first unequal pair. */
  lemma SlideFwdStop(A: seq<byte>, B: seq<byte>, box: Box, p: Point)
    requires BoxIn(A, B, box) && p.x >= box.left && p.y >= box.top
    requires !(p.x < box.right && p.y < box.bottom && A[p.x] == B[p.y])
    ensures SlideFwd(A, B, box, p) == p
  {
  }

  lemma SlideBwdStep(A: seq<byte>, B: seq<byte>, box: Box, p: Point)
    requires BoxIn(A, B, box) && p.x <= box.right && p.y <= box.bottom
    requires p.x > box.left && p.y > box.top && A[p.x - 1] == B[p.y - 1]
    ensures SlideBwd(A, B, box, p) == SlideBwd(A, B, box, Point(p.x - 1, p.y - 1))
  {
  }

  lemma SlideBwdStop(A: seq<byte>, B: seq<byte>, box: Box, p: Point)
    requires BoxIn(A, B, box) && p.x <= box.right && p.y <= box.bottom
    requires !(p.x > box.left && p.y > box.top && A[p.x - 1] == B[p.y - 1])
    ensures SlideBwd(A, B, box, p) == p
  {
  }

  /** Round d of the midpoint search is next, and the rounds from d on give spec. */
  ghost predicate MidLoop(A: seq<byte>, B: seq<byte>, box: Box, v: Line, w: Line, d: int, spec: Option<Snake>)
  {
    BoxIn(A, B, box) && FwdReady(box, v, d) && BwdReady(box, w, d)
    && MidpointLoop(A, B, box, v, w, d) == spec
  }

  lemma MidLoopStart(A: seq<byte>, B: seq<byte>, box: Box, v: Line, w: Line)
    requires BoxIn(A, B, box) && box.Size() > 0
    requires v == InitLine(box, box.left) && w == InitLine(box, box.bottom)
    ensures MidLoop(A, B, box, v, w, 0, Midpoint(A, B, box))
  {
  }

  /** The forward scan of round d leaves what the backward scan of round d needs. */
  lemma MidLoopForward(A: seq<byte>, B: seq<byte>, box: Box, v: Line, w: Line, d: int, spec: Option<Snake>)
    requires MidLoop(A, B, box, v, w, d, spec)
    ensures BoxIn(A, B, box) && FwdReady(box, v, d) && BwdReady(box, w, d)
    ensures var fwd := ForwardScan(A, B, box, v, w, d, -d);
      |fwd.0| == LineLen(box) && (box.Delta() % 2 == 0 ==> FwdDone(box, fwd.0, d))
  {
  }

  /** After both scans of round d: a snake of the forward scan, else of the backward scan, else round d + 1. */
  lemma MidLoopBackward(A: seq<byte>, B: seq<byte>, box: Box, v: Line, w: Line, d: int, spec: Option<Snake>)
    requires MidLoop(A, B, box, v, w, d, spec)
    ensures var fwd := ForwardScan(A, B, box, v, w, d, -d);
      var bwd := BackwardScan(A, B, box, fwd.0, w, d, -d);
      && (fwd.1.Some? ==> spec == fwd.1)
      && (fwd.1.None? && bwd.1.Some? ==> spec == bwd.1)
      && (fwd.1.None? && bwd.1.None? && d < Half(box.Size()) ==> MidLoop(A, B, box, fwd.0, bwd.0, d + 1, spec))
      && (fwd.1.None? && bwd.1.None? && d == Half(box.Size()) ==> spec.None?)
  {
  }

  class MyersLinear {
    /** The original and the modified byte string. */
    const A: seq<byte>
    const B: seq<byte>
    /** The operations found so far, in the order the search emits them. */
    var diffOps: seq<DiffOp>

    /** The operation list is not set up until Diff runs; it starts empty here. */
    constructor (A: seq<byte>, B: seq<byte>)
      ensures this.A == A && this.B == B && diffOps == []
    {
      this.A := A;
      this.B := B;
      diffOps := [];
    }

    /** The step of forward diagonal k in round d: down from diagonal k+1 or right from k-1. */
    method ForwardMove(box: Box, vf: array<Option<int>>, d: int, k: int) returns (px: int, py: int, x: int, y: int)
      requires FwdReady(box, vf[..], d) && -d <= k <= d && (k + d) % 2 == 0
      ensures Move(Point(px, py), Point(x, y)) == FwdMove(box, vf[..], d, k)
    {
      FwdMoveReads(box, vf[..], d, k);
      if k == -d || (k != d && vf[PyIndex(k - 1, vf.Length)].value < vf[PyIndex(k + 1, vf.Length)].value) {
        px := vf[PyIndex(k + 1, vf.Length)].value;
        x := px;
      } else {
        px := vf[PyIndex(k - 1, vf.Length)].value;
        x := px + 1;
      }
      y := box.top + (x - box.left) - k;
      py := if d == 0 || x != px then y else y - 1;
    }

    /** The step of backward diagonal c in round d: up from diagonal c+1 or left from c-1. */
    method BackwardMove(box: Box, vb: array<Option<int>>, d: int, c: int) returns (px: int, py: int, x: int, y: int)
      requires BwdReady(box, vb[..], d) && -d <= c <= d && (c + d) % 2 == 0
      ensures Move(Point(px, py), Point(x, y)) == BwdMove(box, vb[..], d, c)
    {
      BwdMoveReads(box, vb[..], d, c);
      if c == -d || (c != d && vb[PyIndex(c - 1, vb.Length)].value > vb[PyIndex(c + 1, vb.Length)].value) {
        py := vb[PyIndex(c + 1, vb.Length)].value;
        y := py;
      } else {
        py := vb[PyIndex(c - 1, vb.Length)].value;
        y := py - 1;
      }
      x := box.left + (y - box.top) + (c + box.Delta());
      px := if d == 0 || y != py then x else x + 1;
    }

    /** Whether forward diagonal k, slid to row y, has reached the backward frontier of round d - 1. */
    method ForwardCrosses(box: Box, vb: array<Option<int>>, d: int, k: int, y: int) returns (fires: bool)
      requires BwdReady(box, vb[..], d) && -d <= k <= d && (k + d) % 2 == 0
      ensures fires == FwdFires(box, vb[..], d, k, y)
    {
      var c := k - box.Delta();
      FwdFireReads(box, vb[..], d, k);
      fires := box.Delta() % 2 == 1 && -(d - 1) <= c < d && y >= vb[PyIndex(c, vb.Length)].value;
    }

    /** Whether backward diagonal c, slid to column x, has reached the forward frontier of round d. */
    method BackwardCrosses(box: Box, vf: array<Option<int>>, d: int, c: int, x: int) returns (fires: bool)
      requires vf.Length == LineLen(box) && 0 <= d <= Half(box.Size()) && -d <= c <= d && (c + d) % 2 == 0
      requires box.Delta() % 2 == 0 ==> FwdDone(box, vf[..], d)
      ensures fires == BwdFires(box, vf[..], d, c, x)
    {
      var k := c + box.Delta();
      BwdFireReads(box, vf[..], d, c);
      fires := box.Delta() % 2 == 0 && -d <= k <= d && x <= vf[PyIndex(k, vf.Length)].value;
    }

    /** Follow the diagonal from (x0, y0) forward while the bytes agree, staying in the box. */
    method SlideForward(box: Box, x0: int, y0: int) returns (x: int, y: int)
      requires BoxIn(A, B, box) && x0 >= box.left && y0 >= box.top
      ensures Point(x, y) == SlideFwd(A, B, box, Point(x0, y0))
    {
      x, y := x0, y0;
      while x < box.right && y < box.bottom && A[x] == B[y]
        invariant x >= box.left && y >= box.top
        invariant SlideFwd(A, B, box, Point(x, y)) == SlideFwd(A, B, box, Point(x0, y0))
        decreases box.right - x
      {
        SlideFwdStep(A, B, box, Point(x, y));
        x, y := x + 1, y + 1;
      }
      SlideFwdStop(A, B, box, Point(x, y));
    }

    /** Follow the diagonal from (x0, y0) backward while the bytes agree, staying in the box. */
    method SlideBackward(box: Box, x0: int, y0: int) returns (x: int, y: int)
      requires BoxIn(A, B, box) && x0 <= box.right && y0 <= box.bottom
      ensures Point(x, y) == SlideBwd(A, B, box, Point(x0, y0))
    {
      x, y := x0, y0;
      while x > box.left && y > box.top && A[x - 1] == B[y - 1]
        invariant x <= box.right && y <= box.bottom
        invariant SlideBwd(A, B, box, Point(x, y)) == SlideBwd(A, B, box, Point(x0, y0))
        decreases x - box.left
      {
        SlideBwdStep(A, B, box, Point(x, y));
        x, y := x - 1, y - 1;
      }
      SlideBwdStop(A, B, box, Point(x, y));
    }

    /** Forward round d: steps, slides and records every diagonal -d, -d+2, ..., d until one crosses vb. */
    method Forward(box: Box, vf: array<Option<int>>, vb: array<Option<int>>, d: int) returns (r: Option<Snake>)
      requires BoxIn(A, B, box) && FwdReady(box, vf[..], d) && BwdReady(box, vb[..], d)
      requires vf != vb
      modifies vf
      ensures (vf[..], r) == ForwardScan(A, B, box, old(vf[..]), vb[..], d, -d)
    {
      ghost var w := vb[..];
      ghost var spec := ForwardScan(A, B, box, vf[..], w, d, -d);
      FwdLoopStart(A, B, box, vf[..], w, d);
      var k := -d;
      while k <= d
        invariant FwdLoop(A, B, box, vf[..], w, d, k, spec)
        decreases d + 2 - k
      {
        ghost var v := vf[..];
        var px, py, x, y := ForwardMove(box, vf, d, k);
        ghost var mv := FwdMove(box, v, d, k);
        x, y := SlideForward(box, x, y);
        ghost var f := SlideFwd(A, B, box, mv.entry);
        assert f == Point(x, y);
        vf[PyIndex(k, vf.Length)] := Some(x);
        assert vf[..] == Set(v, k, Some(x));
        var fires := ForwardCrosses(box, vb, d, k, y);
        if fires {
          FwdLoopFires(A, B, box, v, w, d, k, spec, f);
          return Some(Snake(Point(px, py), Point(x, y)));
        }
        FwdLoopPasses(A, B, box, v, w, d, k, spec, f);
        k := k + 2;
      }
      return None;
    }

    /** Backward round d: steps, slides and records every diagonal c = -d, -d+2, ..., d until one crosses vf. */
    method Backward(box: Box, vf: array<Option<int>>, vb: array<Option<int>>, d: int) returns (r: Option<Snake>)
      requires BoxIn(A, B, box) && BwdReady(box, vb[..], d) && vf.Length == LineLen(box)
      requires box.Delta() % 2 == 0 ==> FwdDone(box, vf[..], d)
      requires vf != vb
      modifies vb
      ensures (vb[..], r) == BackwardScan(A, B, box, vf[..], old(vb[..]), d, -d)
    {
      ghost var u := vf[..];
      ghost var spec := BackwardScan(A, B, box, u, vb[..], d, -d);
      BwdLoopStart(A, B, box, u, vb[..], d);
      var c := -d;
      while c <= d
        invariant BwdLoop(A, B, box, u, vb[..], d, c, spec)
        decreases d + 2 - c
      {
        ghost var v := vb[..];
        var px, py, x, y := BackwardMove(box, vb, d, c);
        ghost var mv := BwdMove(box, v, d, c);
        x, y := SlideBackward(box, x, y);
        ghost var b := SlideBwd(A, B, box, mv.entry);
        assert b == Point(x, y);
        vb[PyIndex(c, vb.Length)] := Some(y);
        assert vb[..] == Set(v, c, Some(y));
        var fires := BackwardCrosses(box, vf, d, c, x);
        if fires {
          BwdLoopFires(A, B, box, u, v, d, c, spec, b);
          return Some(Snake(Point(x, y), Point(px, py)));
        }
        BwdLoopPasses(A, B, box, u, v, d, c, spec, b);
        c := c + 2;
      }
      return None;
    }

    /**
     * The middle snake of box: the frontier lists start with the seeds in slot 1,
     * and rounds d = 0, 1, ..., ceil(size/2) run the forward scan, then the
     * backward scan, until one of them returns a snake.
     */
    method Midpoint(box: Box) returns (r: Option<Snake>)
      requires BoxIn(A, B, box)
      ensures r == Mid.Midpoint(A, B, box)
      ensures r.None? <==> box.Size() == 0
    {
      MidpointNone(A, B, box);
      if box.Size() == 0 {
        return None;
      }
      var maximum := Half(box.Size());
      var vf := new Option<int>[2 * maximum + 1](_ => None);
      vf[1] := Some(box.left);
      var vb := new Option<int>[2 * maximum + 1](_ => None);
      vb[1] := Some(box.bottom);
      assert vf[..] == InitLine(box, box.left);
      assert vb[..] == InitLine(box, box.bottom);
      MidLoopStart(A, B, box, vf[..], vb[..]);
      r := Rounds(box, vf, vb, Mid.Midpoint(A, B, box));
    }

    /** Rounds d = 0, 1, ..., ceil(size/2) of the midpoint search, each a forward then a backward scan. */
    method Rounds(box: Box, vf: array<Option<int>>, vb: array<Option<int>>, ghost spec: Option<Snake>) returns (r: Option<Snake>)
      requires MidLoop(A, B, box, vf[..], vb[..], 0, spec) && vf != vb
      modifies vf, vb
      ensures r == spec
    {
      var maximum := Half(box.Size());
      for d := 0 to maximum + 1
        invariant d <= maximum ==> MidLoop(A, B, box, vf[..], vb[..], d, spec)
        invariant d == maximum + 1 ==> spec.None?
      {
        ghost var v, w := vf[..], vb[..];
        MidLoopForward(A, B, box, v, w, d, spec);
        var fwd := Forward(box, vf, vb, d);
        var bwd := Backward(box, vf, vb, d);
        MidLoopBackward(A, B, box, v, w, d, spec);
        if fwd.Some? {
          return fwd;
        }
        if bwd.Some? {
          return bwd;
        }
      }
      return None;
    }

    /**
     * Appends the operations of box to diffOps: nothing for an empty box, one
     * insert or delete for a box of one column or one row, and otherwise the unit
     * step of the middle snake, then the box before the snake, then the box after it.
     */
    method FindPath(left: int, top: int, right: int, bottom: int)
      requires BoxIn(A, B, Box(left, top, right, bottom))
      modifies this
      ensures diffOps == old(diffOps) + FindPathOps(A, B, Box(left, top, right, bottom))
      decreases right - left + bottom - top
    {
      var box := Box(left, top, right, bottom);
      var snake := Midpoint(box);
      if snake.None? {
        FindPathDegenerate(A, B, box);
        assert diffOps == diffOps + [];
        return;
      }
      if box.Width() == 0 {
        FindPathDegenerate(A, B, box);
        if box.Height() > 0 {
          var payload := B[box.top..box.bottom];
          diffOps := diffOps + [Insert(box.left, payload)];
        }
        return;
      }
      if box.Height() == 0 {
        FindPathDegenerate(A, B, box);
        var length := box.right - box.left;
        diffOps := diffOps + [Delete(box.left, length)];
        return;
      }
      ghost var s := FindPathSplit(A, B, box);
      var start, finish := snake.value.start, snake.value.finish;
      var dx := finish.x - start.x;
      var dy := finish.y - start.y;
      ghost var before := diffOps;
      if dy > dx {
        diffOps := diffOps + [Insert(start.x, B[start.y..start.y + 1])];
      } else if dx > dy {
        diffOps := diffOps + [Delete(start.x, 1)];
      }
      assert diffOps == before + UnitOp(B, s);
      FindPath(box.left, box.top, start.x, start.y);
      ghost var middle := diffOps;
      FindPath(finish.x, finish.y, box.right, box.bottom);
      AppendFour(before, UnitOp(B, s), FindPathOps(A, B, Before(box, s)), FindPathOps(A, B, After(box, s)));
    }

    /** The operations turning A into B, in the order the search finds them. */
    method Diff() returns (ops: seq<DiffOp>)
      modifies this
      ensures ops == diffOps == Path.Diff(A, B)
      ensures ops == [] <==> A == B
      ensures SumEsLen(ops) == Dist(A, B)
    {
      diffOps := [];
      FindPath(0, 0, |A|, |B|);
      ops := diffOps;
      DiffEmpty(A, B);
      SesIsDist(A, B);
    }

    /** The length of the shortest edit script: the edit lengths of the operations, summed. */
    method Ses() returns (n: int)
      modifies this
      ensures n == Path.Ses(A, B) == Dist(A, B)
      ensures diffOps == Path.Diff(A, B)
    {
      var ops := Diff();
      n := SumEsLen(ops);
    }
  }
}
