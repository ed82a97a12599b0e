/**
 * Edit scripts in the keep/insert/remove form that reference Myers
 * implementations report, and their connection to the edit distance: the
 * cheapest script costs exactly Dist, counting every step that is not a keep.
 */
module EditScript {
  import opened Bytes
  import opened EditDistance
  import opened DiffOps
  import opened Costs

  datatype Step = Keep | Ins(value: byte) | Rem

  /** Script s turns a into b, read left to right. */
  predicate Transforms(s: seq<Step>, a: seq<byte>, b: seq<byte>)
    decreases |s|
  {
    if |s| == 0 then a == [] && b == []
    else match s[0]
      case Keep => |a| > 0 && |b| > 0 && a[0] == b[0] && Transforms(s[1..], a[1..], b[1..])
      case Ins(v) => |b| > 0 && b[0] == v && Transforms(s[1..], a, b[1..])
      case Rem => |a| > 0 && Transforms(s[1..], a[1..], b)
  }

  /** The number of steps that are not keeps. */
  function Cost(s: seq<Step>): nat
  {
    if |s| == 0 then 0 else (if s[0].Keep? then 0 else 1) + Cost(s[1..])
  }

  /** Dropping the first byte of either side lowers the distance by at most one. */
  lemma DistDropFirst(a: seq<byte>, b: seq<byte>)
    ensures |a| > 0 ==> Dist(a, b) <= Dist(a[1..], b) + 1
    ensures |b| > 0 ==> Dist(a, b) <= Dist(a, b[1..]) + 1
  {
    var box := Box(0, 0, |a|, |b|);
    var o := Point(0, 0);
    BdIsDist(a, b, box, o);
    assert a[0..|a|] == a && b[0..|b|] == b;
    if |a| > 0 {
      BdIsDist(a, b, box, Point(1, 0));
      BdUnit(a, b, box, Point(1, 0));
    }
    if |b| > 0 {
      BdIsDist(a, b, box, Point(0, 1));
      BdUnit(a, b, box, Point(0, 1));
    }
  }

  /** No script is cheaper than the edit distance. */
  lemma {:induction false} CostAtLeastDist(s: seq<Step>, a: seq<byte>, b: seq<byte>)
    requires Transforms(s, a, b)
    ensures Dist(a, b) <= Cost(s)
    decreases |s|
  {
    if |s| > 0 {
      CostAtLeastDist(s[1..], if s[0].Ins? then a else a[1..], if s[0].Rem? then b else b[1..]);
      DistDropFirst(a, b);
    }
  }

  /** A cheapest script, built front to back. */
  function Optimal(a: seq<byte>, b: seq<byte>): (s: seq<Step>)
    ensures Transforms(s, a, b) && Cost(s) == Dist(a, b)
    decreases |a| + |b|
  {
    if |a| == 0 && |b| == 0 then []
    else if |a| == 0 then [Ins(b[0])] + Optimal(a, b[1..])
    else if |b| == 0 then [Rem] + Optimal(a[1..], b)
    else if a[0] == b[0] then [Keep] + Optimal(a[1..], b[1..])
    else if Dist(a[1..], b) <= Dist(a, b[1..]) then [Rem] + Optimal(a[1..], b)
    else [Ins(b[0])] + Optimal(a, b[1..])
  }

  /** The edit distance is the cost of a cheapest keep/insert/remove script. */
  lemma DistIsMinimalCost(a: seq<byte>, b: seq<byte>)
    ensures exists s :: Transforms(s, a, b) && Cost(s) == Dist(a, b)
    ensures forall s :: Transforms(s, a, b) ==> Dist(a, b) <= Cost(s)
  {
    var s := Optimal(a, b);
    assert Transforms(s, a, b);
    forall s' | Transforms(s', a, b) ensures Dist(a, b) <= Cost(s') {
      CostAtLeastDist(s', a, b);
    }
  }
}
