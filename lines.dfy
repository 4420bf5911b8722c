// The integer Bresenham stepping of DrawLine (RePiRasterizerStage.cpp):
// the pen starts at the first endpoint and moves one pixel at a time in x,
// in y or in both, until it reaches the second endpoint, which it does not
// plot.

module Lines {
  import opened Base

  datatype Segment = Segment(from: Int2, to: Int2)

  /** std::abs(x1 - x0) */
  function Dx(s: Segment): nat { Abs(s.to.x - s.from.x) }

  /** std::abs(y1 - y0) */
  function Dy(s: Segment): nat { Abs(s.to.y - s.from.y) }

  /** x0 < x1 ? 1 : -1 */
  function Sx(s: Segment): int { if s.from.x < s.to.x then 1 else -1 }

  /** y0 < y1 ? 1 : -1 */
  function Sy(s: Segment): int { if s.from.y < s.to.y then 1 else -1 }

  /** The loop variables x, y and err. */
  datatype Pen = Pen(x: int, y: int, err: int)

  /** The pen before the loop: at (x0, y0) with err = dx - dy. */
  function Start(s: Segment): Pen
  {
    Pen(s.from.x, s.from.y, Dx(s) - Dy(s))
  }

  /** One iteration: e2 = 2 err; step x if e2 > -dy, step y if e2 < dx. */
  function Step(s: Segment, p: Pen): Pen
  {
    var e2 := 2 * p.err;
    var dy: int := Dy(s);
    var p' := if e2 > -dy then Pen(p.x + Sx(s), p.y, p.err - Dy(s)) else p;
    if e2 < Dx(s) then Pen(p'.x, p'.y + Sy(s), p'.err + Dx(s)) else p'
  }

  predicate AtEnd(s: Segment, p: Pen)
  {
    p.x == s.to.x && p.y == s.to.y
  }

  /** Steps the pen still has to make in x (in y), toward the endpoint. */
  function RemX(s: Segment, p: Pen): int { if Sx(s) > 0 then s.to.x - p.x else p.x - s.to.x }
  function RemY(s: Segment, p: Pen): int { if Sy(s) > 0 then s.to.y - p.y else p.y - s.to.y }

  /**
   * The loop invariant: the remaining steps are within dx and dy, err is
   * dx - dy plus the deviation D = remX * dy - remY * dx of the pen from
   * the ideal line, and D stays within half a step of the major axis.
   */
  predicate Tracking(s: Segment, p: Pen)
  {
    var dx: int, dy: int := Dx(s), Dy(s);
    var ri := RemX(s, p);
    var rj := RemY(s, p);
    var d := p.err - dx + dy;
    && 0 <= ri <= dx && 0 <= rj <= dy
    && d == ri * dy - rj * dx
    && (if dx >= dy then -dx <= 2 * d <= dx && (dx == dy ==> d == 0)
        else -dy <= 2 * d <= dy)
  }

  lemma StartTracking(s: Segment)
    ensures Tracking(s, Start(s))
    ensures RemX(s, Start(s)) == Dx(s) && RemY(s, Start(s)) == Dy(s)
  {
    MulComm(Dx(s), Dy(s));
  }

  /**
   * An iteration keeps the invariant and moves the pen one step toward the
   * endpoint along the major axis, and by zero or one step along the other.
   */
  lemma StepTracking(s: Segment, p: Pen)
    requires Tracking(s, p) && !AtEnd(s, p)
    ensures Tracking(s, Step(s, p))
    ensures var q := Step(s, p);
            && (RemX(s, q) == RemX(s, p) || RemX(s, q) == RemX(s, p) - 1)
            && (RemY(s, q) == RemY(s, p) || RemY(s, q) == RemY(s, p) - 1)
            && (Dx(s) >= Dy(s) ==> RemX(s, q) == RemX(s, p) - 1)
            && (Dx(s) < Dy(s) ==> RemY(s, q) == RemY(s, p) - 1)
  {
    var dx: int, dy: int := Dx(s), Dy(s);
    var ri, rj := RemX(s, p), RemY(s, p);
    var d := p.err - dx + dy;
    var e2 := 2 * p.err;
    StepGuards(dx, dy, ri, rj, d);
    var stepX, stepY := e2 > -dy, e2 < dx;
    var ri' := if stepX then ri - 1 else ri;
    var rj' := if stepY then rj - 1 else rj;
    var d' := d - (if stepX then dy else 0) + (if stepY then dx else 0);
    StepDeviation(dx, dy, ri, rj, ri', rj');
    var q := Step(s, p);
    assert RemX(s, q) == ri' && RemY(s, q) == rj';
    assert q.err - dx + dy == d';
  }

  /**
   * The loop's tests in terms of the remaining steps: it never steps past
   * the endpoint, always steps along the major axis, and the deviation
   * stays within half a step.
   */
  lemma StepGuards(dx: int, dy: int, ri: int, rj: int, d: int)
    requires 0 <= ri <= dx && 0 <= rj <= dy && (ri != 0 || rj != 0)
    requires d == ri * dy - rj * dx
    requires if dx >= dy then -dx <= 2 * d <= dx && (dx == dy ==> d == 0) else -dy <= 2 * d <= dy
    ensures var e2 := 2 * (d + dx - dy);
            var stepX, stepY := e2 > -dy, e2 < dx;
            var d' := d - (if stepX then dy else 0) + (if stepY then dx else 0);
            && (stepX ==> ri > 0) && (stepY ==> rj > 0)
            && (dx >= dy ==> stepX) && (dx < dy ==> stepY)
            && (if dx >= dy then -dx <= 2 * d' <= dx && (dx == dy ==> d' == 0) else -dy <= 2 * d' <= dy)
  {
    if ri == 0 {
      MulLe(1, rj, dx);
    }
    if rj == 0 {
      MulLe(1, ri, dy);
    }
  }

  lemma StepDeviation(dx: int, dy: int, ri: int, rj: int, ri': int, rj': int)
    requires ri' == ri || ri' == ri - 1
    requires rj' == rj || rj' == rj - 1
    ensures ri' * dy - rj' * dx
         == ri * dy - rj * dx - (if ri' < ri then dy else 0) + (if rj' < rj then dx else 0)
  {
    MulSucc(ri - 1, dy);
    MulSucc(rj - 1, dx);
  }

  /** The pixels the loop visits from pen p, in order, before reaching the endpoint. */
  function Trace(s: Segment, p: Pen): seq<Int2>
    requires Tracking(s, p)
    decreases RemX(s, p) + RemY(s, p)
  {
    if AtEnd(s, p) then []
    else
      StepTracking(s, p);
      [Int2(p.x, p.y)] + Trace(s, Step(s, p))
  }

  /** The pixels DrawLine plots for a segment. */
  function LinePoints(s: Segment): seq<Int2>
  {
    StartTracking(s);
    Trace(s, Start(s))
  }

  /** The pen after i iterations of the loop. */
  function Iterate(s: Segment, i: nat): Pen
  {
    if i == 0 then Start(s) else Step(s, Iterate(s, i - 1))
  }

  /** Up to the end of the line, the i-th pen keeps the invariant and the rest of its trace are the points from i on. */
  lemma {:induction false} IterateTrace(s: Segment, i: nat)
    requires i <= |LinePoints(s)|
    ensures Tracking(s, Iterate(s, i))
    ensures Trace(s, Iterate(s, i)) == LinePoints(s)[i..]
  {
    StartTracking(s);
    if i > 0 {
      IterateTrace(s, i - 1);
      var p := Iterate(s, i - 1);
      assert !AtEnd(s, p);
      StepTracking(s, p);
      assert Trace(s, p) == [Int2(p.x, p.y)] + Trace(s, Step(s, p));
    }
  }

  /**
   * The loop stops after exactly |LinePoints(s)| iterations, and the pen
   * of iteration i is the i-th plotted point.
   */
  lemma PenAt(s: Segment, i: nat)
    requires i <= |LinePoints(s)|
    ensures AtEnd(s, Iterate(s, i)) <==> i == |LinePoints(s)|
    ensures i < |LinePoints(s)| ==> LinePoints(s)[i] == Int2(Iterate(s, i).x, Iterate(s, i).y)
  {
    IterateTrace(s, i);
  }

  // ---------------------------------------------------------------------
  // What the trace is.
  // ---------------------------------------------------------------------

  /** The loop runs once per step along the major axis. */
  lemma {:induction false} TraceLength(s: Segment, p: Pen)
    requires Tracking(s, p)
    ensures |Trace(s, p)| == if Dx(s) >= Dy(s) then RemX(s, p) else RemY(s, p)
    decreases RemX(s, p) + RemY(s, p)
  {
    if !AtEnd(s, p) {
      StepTracking(s, p);
      TraceLength(s, Step(s, p));
    }
  }

  /** max(|dx|, |dy|) pixels are plotted. */
  lemma PointsCount(s: Segment)
    ensures |LinePoints(s)| == Max(Dx(s), Dy(s))
  {
    StartTracking(s);
    TraceLength(s, Start(s));
  }

  /** a to b is one step toward the endpoint in x, in y, or in both. */
  predicate UnitStep(s: Segment, a: Int2, b: Int2)
  {
    && (b.x == a.x || b.x == a.x + Sx(s))
    && (b.y == a.y || b.y == a.y + Sy(s))
    && a != b
  }

  predicate Between(v: int, a: int, b: int)
  {
    (a <= v <= b) || (b <= v <= a)
  }

  /**
   * From pen p: the first pixel is the pen, consecutive pixels are unit
   * steps apart, the last is a unit step from the endpoint, the endpoint
   * itself is not plotted, and every pixel lies between the pen and the
   * endpoint.
   */
  lemma {:induction false} TraceShape(s: Segment, p: Pen)
    requires Tracking(s, p)
    ensures var t := Trace(s, p);
            && (|t| > 0 ==> t[0] == Int2(p.x, p.y))
            && (forall i :: 0 <= i < |t| - 1 ==> UnitStep(s, t[i], t[i + 1]))
            && (|t| > 0 ==> UnitStep(s, t[|t| - 1], s.to))
            && s.to !in t
            && (forall i :: 0 <= i < |t| ==> Between(t[i].x, p.x, s.to.x) && Between(t[i].y, p.y, s.to.y))
    decreases RemX(s, p) + RemY(s, p)
  {
    if !AtEnd(s, p) {
      StepTracking(s, p);
      var q := Step(s, p);
      TraceShape(s, q);
      var rest := Trace(s, q);
      var t := Trace(s, p);
      assert t == [Int2(p.x, p.y)] + rest;
      assert |rest| > 0 ==> UnitStep(s, Int2(p.x, p.y), rest[0]);
      assert |rest| == 0 ==> AtEnd(s, q);
      forall i | 0 <= i < |t| - 1
        ensures UnitStep(s, t[i], t[i + 1])
      {
        if i > 0 {
          assert t[i] == rest[i - 1] && t[i + 1] == rest[i];
        }
      }
      forall i | 0 <= i < |t|
        ensures Between(t[i].x, p.x, s.to.x) && Between(t[i].y, p.y, s.to.y)
      {
        if i > 0 {
          assert t[i] == rest[i - 1];
        }
      }
    }
  }

  /**
   * The plotted line starts at its first endpoint, moves by unit steps,
   * stays in the bounding box of the endpoints, and stops short of the
   * second endpoint.
   */
  lemma PointsShape(s: Segment)
    ensures var t := LinePoints(s);
            && (s.from != s.to ==> |t| > 0 && t[0] == s.from)
            && (forall i :: 0 <= i < |t| - 1 ==> UnitStep(s, t[i], t[i + 1]))
            && (|t| > 0 ==> UnitStep(s, t[|t| - 1], s.to))
            && s.to !in t
            && (forall i :: 0 <= i < |t| ==> Between(t[i].x, s.from.x, s.to.x) && Between(t[i].y, s.from.y, s.to.y))
  {
    StartTracking(s);
    TraceShape(s, Start(s));
    PointsCount(s);
  }
}
