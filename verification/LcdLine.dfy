/** Bresenham's line: the integer loop of the display driver against the line it stands for. */
module LcdLine {
  import opened Arithmetic
  import opened Bits
  import opened LcdFrame

  function Max(a: nat, b: nat): nat {
    if a < b then b else a
  }

  /** n steps from a in the direction of b. */
  function Toward(a: int, b: int, n: nat): int {
    if b > a then a + n else a - n
  }

  /** i * minor / major, rounded to the nearest integer, half up. */
  function Minor(i: nat, major: nat, minor: nat): nat {
    if major == 0 then 0 else (2 * (i * minor) + major) / (2 * major)
  }

  /** Point i of the line from a to b. */
  function LinePoint(a: Point, b: Point, i: nat): Point {
    var dx, dy := Abs(b.x - a.x), Abs(b.y - a.y);
    if dx >= dy then Point(Toward(a.x, b.x, i), Toward(a.y, b.y, Minor(i, dx, dy)))
    else Point(Toward(a.x, b.x, Minor(i, dy, dx)), Toward(a.y, b.y, i))
  }

  function Span(a: Point, b: Point): nat {
    Max(Abs(b.x - a.x), Abs(b.y - a.y))
  }

  function LinePoints(a: Point, b: Point, n: nat): (ps: seq<Point>)
    ensures |ps| == n && forall i :: 0 <= i < n ==> ps[i] == LinePoint(a, b, i)
  {
    seq(n, i requires 0 <= i => LinePoint(a, b, i))
  }

  // ----- Rounding -----

  /** What the decision variable keeps: the rounded value is the only one this close. */
  lemma MinorIs(i: nat, major: nat, minor: nat, y: nat)
    requires major > 0 && 0 <= 2 * (i * minor) + major - 2 * (major * y) < 2 * major
    ensures Minor(i, major, minor) == y
  {
    var r: nat := 2 * (i * minor) + major - 2 * (major * y);
    assert (2 * major) * y == 2 * (major * y);
    UniqueRemainder(2 * (i * minor) + major, 2 * major, y, r);
  }

  lemma MinorNear(i: nat, major: nat, minor: nat)
    requires major > 0
    ensures var y := Minor(i, major, minor);
      0 <= 2 * (i * minor) + major - 2 * (major * y) < 2 * major
  {
    var n, m := 2 * (i * minor) + major, 2 * major;
    var y := n / m;
    assert n == m * y + n % m;
    assert m * y == 2 * (major * y);
  }

  lemma MinorAtMost(i: nat, major: nat, minor: nat, y: nat)
    requires 0 < major && minor <= major && i <= major && 0 <= 2 * (i * minor) + major - 2 * (major * y)
    ensures y <= minor
  {
    assert (major - i) * minor == major * minor - i * minor;
    assert (major - i) * minor >= 0;
    assert major * (y - minor) == major * y - major * minor;
    Multiple(major, y - minor);
  }

  lemma MinorInside(i: nat, major: nat, minor: nat)
    requires 0 < major && minor <= major && i <= major
    ensures Minor(i, major, minor) <= minor
    ensures i == major ==> Minor(i, major, minor) == minor
    ensures i == 0 ==> Minor(i, major, minor) == 0
  {
    hide Minor;
    MinorNear(i, major, minor);
    MinorAtMost(i, major, minor, Minor(i, major, minor));
    if i == major {
      MinorIs(i, major, minor, minor);
    }
    if i == 0 {
      assert i * minor == 0 && major * 0 == 0;
      MinorIs(i, major, minor, 0);
    }
  }

  lemma MinorOfNothing(i: nat, minor: nat)
    ensures Minor(i, 0, minor) == 0
  {}

  // ----- The shape -----

  lemma PointsOnScreen(a: Point, b: Point, i: nat)
    requires OnScreen(a) && OnScreen(b) && i <= Span(a, b)
    ensures OnScreen(LinePoint(a, b, i))
  {
    hide Minor;
    var dx, dy := Abs(b.x - a.x), Abs(b.y - a.y);
    if dx >= dy && dx > 0 {
      MinorInside(i, dx, dy);
    } else if dy > dx {
      MinorInside(i, dy, dx);
    } else {
      MinorOfNothing(i, dy);
    }
  }

  /** The line starts at a and ends exactly at b. */
  lemma LineEnds(a: Point, b: Point)
    ensures LinePoint(a, b, 0) == a && LinePoint(a, b, Span(a, b)) == b
  {
    hide Minor;
    var dx, dy := Abs(b.x - a.x), Abs(b.y - a.y);
    if dx >= dy && dx > 0 {
      MinorInside(0, dx, dy);
      MinorInside(dx, dx, dy);
    } else if dy > dx {
      MinorInside(0, dy, dx);
      MinorInside(dy, dy, dx);
    } else {
      MinorOfNothing(0, dy);
    }
  }

  /** How far a step of the minor axis has gone beyond the true line, times the major span. */
  function Beyond(major: nat, at: int, i: nat, from: int, to: int): int {
    if to > from then major * (at - from) - i * (to - from) else i * (to - from) - major * (at - from)
  }

  /** Less than half a pixel short of it, or up to half a pixel beyond. */
  predicate HalfOrLess(major: int, beyond: int) {
    -major < 2 * beyond <= major
  }

  lemma BeyondToward(major: nat, m: nat, i: nat, minor: nat, from: int, to: int)
    requires minor == Abs(to - from)
    ensures Beyond(major, Toward(from, to, m), i, from, to) == major * m - i * minor
  {
    var d: int, n: int := m, minor;
    assert major * (-d) == -(major * d) && i * (-n) == -(i * n);
  }

  /** Every point is the one nearest to the true line, measured along the minor axis, and of two equally near ones the
      one further on: after i steps of dx on the major axis the true line has gone i * dy / dx on the minor one. */
  lemma LineNear(a: Point, b: Point, i: nat)
    requires i <= Span(a, b)
    ensures var p := LinePoint(a, b, i);
      var dx, dy := Abs(b.x - a.x), Abs(b.y - a.y);
      if a == b then p == a
      else if dx >= dy then p.x == Toward(a.x, b.x, i) && HalfOrLess(dx, Beyond(dx, p.y, i, a.y, b.y))
      else p.y == Toward(a.y, b.y, i) && HalfOrLess(dy, Beyond(dy, p.x, i, a.x, b.x))
  {
    hide Minor, Beyond, HalfOrLess;
    var dx, dy := Abs(b.x - a.x), Abs(b.y - a.y);
    if dx >= dy {
      BeyondToward(dx, Minor(i, dx, dy), i, dy, a.y, b.y);
      MinorError(i, dx, dy);
    } else {
      BeyondToward(dy, Minor(i, dy, dx), i, dx, a.x, b.x);
      MinorError(i, dy, dx);
    }
  }

  lemma MinorError(i: nat, major: nat, minor: nat)
    requires minor <= major && i <= major
    ensures if major == 0 then Minor(i, major, minor) == 0
            else HalfOrLess(major, major * Minor(i, major, minor) - i * minor)
  {
    hide Minor;
    if major > 0 {
      MinorNear(i, major, minor);
    } else {
      MinorOfNothing(i, minor);
    }
  }

  lemma MinorSteps(i: nat, major: nat, minor: nat)
    requires major > 0 && minor <= major
    ensures Minor(i, major, minor) <= Minor(i + 1, major, minor) <= Minor(i, major, minor) + 1
  {
    var y := Minor(i, major, minor);
    MinorNear(i, major, minor);
    assert (i + 1) * minor == i * minor + minor;
    assert major * (y + 1) == major * y + major;
    if 2 * (i * minor) + 2 * minor + major - 2 * (major * y) < 2 * major {
      MinorIs(i + 1, major, minor, y);
    } else {
      MinorIs(i + 1, major, minor, y + 1);
    }
  }

  /** Neighbours touch: one step along the major axis, none or one along the minor one. */
  lemma LineConnected(a: Point, b: Point, i: nat)
    requires i < Span(a, b)
    ensures var p, q := LinePoint(a, b, i), LinePoint(a, b, i + 1);
      p != q && Abs(q.x - p.x) <= 1 && Abs(q.y - p.y) <= 1
  {
    hide Minor;
    var dx, dy := Abs(b.x - a.x), Abs(b.y - a.y);
    if dx >= dy {
      MinorSteps(i, dx, dy);
    } else {
      MinorSteps(i, dy, dx);
    }
  }

  lemma LineDistinct(a: Point, b: Point, i: nat, j: nat)
    requires i < j
    ensures LinePoint(a, b, i) != LinePoint(a, b, j)
  {
    hide Minor;
  }

  /** Each point is counted once. */
  lemma {:induction false} LineCounts(a: Point, b: Point, n: nat, q: Point)
    ensures Count(LinePoints(a, b, n), q) == if q in LinePoints(a, b, n) then 1 else 0
  {
    hide LinePoint;
    if n > 0 {
      LineCounts(a, b, n - 1, q);
      var ps := LinePoints(a, b, n);
      assert ps[..n - 1] == LinePoints(a, b, n - 1);
      assert ps == ps[..n - 1] + [ps[n - 1]];
      if q == ps[n - 1] && q in ps[..n - 1] {
        var i :| 0 <= i < n - 1 && ps[i] == q;
        LineDistinct(a, b, i, n - 1);
        assert false;
      }
    }
  }

  // ----- What is seen -----

  /** All the points of the line from a to b. */
  function WholeLine(a: Point, b: Point): seq<Point> {
    LinePoints(a, b, Span(a, b) + 1)
  }

  /** A line between points on the screen stays on it. */
  lemma LineOnScreen(a: Point, b: Point)
    requires OnScreen(a) && OnScreen(b)
    ensures AllOnScreen(WholeLine(a, b)) && AllClear(WholeLine(a, b))
  {
    hide LinePoint, Span, OnScreen;
    forall i | 0 <= i < Span(a, b) + 1
      ensures OnScreen(WholeLine(a, b)[i])
    {
      PointsOnScreen(a, b, i);
    }
  }

  lemma LineSafe(a: Point, b: Point, n: nat)
    requires AllSafe(WholeLine(a, b)) && n <= Span(a, b) + 1
    ensures AllSafe(LinePoints(a, b, n))
    ensures n <= Span(a, b) ==> Safe(LinePoint(a, b, n))
  {
    hide LinePoint, Span, Safe;
    var all := WholeLine(a, b);
    assert forall i :: 0 <= i < n ==> LinePoints(a, b, n)[i] == all[i];
    if n <= Span(a, b) {
      assert all[n] == LinePoint(a, b, n);
    }
  }

  /** A drawn line shows its points and disturbs no other; in exclusive-or mode it flips exactly its points. */
  lemma LineSeen(f: seq<byte>, mode: Mode, a: Point, b: Point, color: int, q: Point)
    requires |f| == FRAME_SIZE && AllClear(WholeLine(a, b)) && OnScreen(q)
    ensures var ps := WholeLine(a, b);
      && AllSafe(ps)
      && (mode == NORMAL ==> (Lit(WithPoints(f, mode, ps, color), q) <==> if q in ps then color != 0 else Lit(f, q)))
      && (mode == XOR && color == 1 ==> (Lit(WithPoints(f, mode, ps, color), q) <==> Lit(f, q) != (q in ps)))
      && (mode == XOR && color != 1 ==> WithPoints(f, mode, ps, color) == f)
  {
    hide LinePoint, Span, Lit, AllSafe, WithPoints, Count;
    var ps := WholeLine(a, b);
    Safes(ps);
    if mode == NORMAL {
      NormalLit(f, ps, color, q);
    } else if color == 1 {
      XorLit(f, ps, q);
      LineCounts(a, b, Span(a, b) + 1, q);
    } else {
      XorOther(f, ps, color);
    }
  }

  /** Drawing a line twice in exclusive-or mode leaves no trace of it. */
  lemma LineTwice(f: seq<byte>, a: Point, b: Point)
    requires |f| == FRAME_SIZE && AllSafe(WholeLine(a, b))
    ensures var ps := WholeLine(a, b);
      WithPoints(WithPoints(f, XOR, ps, 1), XOR, ps, 1) == f
  {
    hide LinePoint, Span, AllSafe, WithPoints;
    XorTwice(f, WholeLine(a, b));
  }

  // ----- The loops -----

  /** The part of the loop state that follows from the number of steps taken. */
  ghost predicate Stepped(i: nat, major: nat, minor: nat, di: int, y: nat) {
    major > 0 && di == 2 * (i * minor) + 2 * minor - major - 2 * (major * y) && -2 * major <= di - 2 * minor < 0
  }

  lemma SteppedStart(major: nat, minor: nat)
    requires 0 < major
    ensures Stepped(0, major, minor, 2 * minor - major, 0)
  {
    assert 0 * minor == 0 && major * 0 == 0;
  }

  lemma SteppedNext(i: nat, major: nat, minor: nat, di: int, y: nat)
    requires minor <= major && Stepped(i, major, minor, di, y)
    ensures di < 0 ==> Stepped(i + 1, major, minor, di + 2 * minor, y)
    ensures di >= 0 ==> Stepped(i + 1, major, minor, di + 2 * minor - 2 * major, y + 1)
  {
    assert (i + 1) * minor == i * minor + minor;
    assert major * (y + 1) == major * y + major;
  }

  /** The decision variable stays within twice the spans, and the minor steps taken within theirs. */
  lemma SteppedFits(i: nat, major: nat, minor: nat, di: int, y: nat)
    requires Stepped(i, major, minor, di, y) && minor <= major && i <= major
    ensures 2 * minor - 2 * major <= di < 2 * minor && y <= minor
  {
    hide Minor;
    SteppedMinor(i, major, minor, di, y);
    MinorInside(i, major, minor);
  }

  lemma SteppedMinor(i: nat, major: nat, minor: nat, di: int, y: nat)
    requires Stepped(i, major, minor, di, y)
    ensures y == Minor(i, major, minor)
  {
    MinorIs(i, major, minor, y);
  }

  lemma OneMore(a: Point, b: Point, i: nat)
    ensures LinePoints(a, b, i + 1) == LinePoints(a, b, i) + [LinePoint(a, b, i)]
  {
    hide LinePoint;
  }

  /** Plots point i behind the points before it. */
  method PlotNext(s: Screen, x: int, y: int, color: int, ghost f: seq<byte>, ghost a: Point, ghost b: Point,
    ghost i: nat)
    requires s.Valid() && |f| == FRAME_SIZE && AllSafe(WholeLine(a, b)) && i <= Span(a, b)
    requires Point(x, y) == LinePoint(a, b, i)
    requires AllSafe(LinePoints(a, b, i))
    requires s.buffer[..] == WithPoints(f, s.drawMode, LinePoints(a, b, i), color)
    modifies s.buffer
    ensures AllSafe(LinePoints(a, b, i + 1))
    ensures s.buffer[..] == WithPoints(f, s.drawMode, LinePoints(a, b, i + 1), color)
  {
    hide LinePoint, Span, WithPoints, AllSafe;
    LineSafe(a, b, i);
    LineSafe(a, b, i + 1);
    OneMore(a, b, i);
    s.Plot(x, y, color, f, LinePoints(a, b, i));
  }

  /** The lines whose spans can be doubled in an int, which is what the source does with them. */
  predicate Measurable(a: Point, b: Point) {
    && Ints(a) && Ints(b) && Span(a, b) < 0x4000_0000
  }

  predicate Ints(p: Point) {
    -0x8000_0000 <= p.x < 0x8000_0000 && -0x8000_0000 <= p.y < 0x8000_0000
  }

  lemma NoPoints(a: Point, b: Point, f: seq<byte>, mode: Mode, color: int)
    requires |f| == FRAME_SIZE
    ensures AllSafe(LinePoints(a, b, 0)) && WithPoints(f, mode, LinePoints(a, b, 0), color) == f
  {}

  lemma ShallowPoint(a: Point, b: Point, i: nat)
    requires Abs(b.x - a.x) >= Abs(b.y - a.y)
    ensures var dx, dy := Abs(b.x - a.x), Abs(b.y - a.y);
      Span(a, b) == dx && LinePoint(a, b, i) == Point(Toward(a.x, b.x, i), Toward(a.y, b.y, Minor(i, dx, dy)))
  {}

  /** The loop along the x axis. */
  method Shallow(s: Screen, a: Point, b: Point, color: int, ghost f: seq<byte>)
    requires s.Valid() && AllSafe(WholeLine(a, b)) && Measurable(a, b) && f == s.buffer[..]
    requires Abs(b.x - a.x) >= Abs(b.y - a.y)
    modifies s.buffer
    ensures s.buffer[..] == WithPoints(f, s.drawMode, WholeLine(a, b), color)
  {
    hide Minor, Stepped, LinePoint, LinePoints, Span, WithPoints, AllSafe;
    ShallowPoint(a, b, 0);
    var dx: Int32, dy: Int32 := Abs(b.x - a.x), Abs(b.y - a.y);
    var dxX2: Int32, dyX2: Int32 := 2 * dx, 2 * dy;
    var back: Int32 := dyX2 - dxX2;
    var x: Int32, y: Int32 := a.x, a.y;
    var dxSym, dySym := if b.x - a.x > 0 then 1 else -1, if b.y - a.y > 0 then 1 else -1;
    var di: Int32 := dyX2 - dx;
    ghost var i, m: nat := 0, 0;
    NoPoints(a, b, f, s.drawMode, color);
    if dx > 0 {
      SteppedStart(dx, dy);
    }
    while x != b.x
      invariant i <= dx && x == Toward(a.x, b.x, i) && y == Toward(a.y, b.y, m)
      invariant dx > 0 ==> Stepped(i, dx, dy, di, m)
      invariant dx == 0 ==> m == 0
      invariant AllSafe(LinePoints(a, b, i))
      invariant s.buffer[..] == WithPoints(f, s.drawMode, LinePoints(a, b, i), color)
      decreases dx - i
    {
      SteppedMinor(i, dx, dy, di, m);
      ShallowPoint(a, b, i);
      SteppedNext(i, dx, dy, di, m);
      PlotNext(s, x, y, color, f, a, b, i);
      x := x + dxSym;
      i := i + 1;
      if di < 0 {
        SteppedFits(i, dx, dy, di + 2 * dy, m);
        di := di + dyX2;
      } else {
        SteppedFits(i, dx, dy, di + 2 * dy - 2 * dx, m + 1);
        di := di + back;
        y := y + dySym;
        m := m + 1;
      }
    }
    if dx > 0 {
      SteppedMinor(i, dx, dy, di, m);
    } else {
      MinorOfNothing(i, dy);
    }
    ShallowPoint(a, b, i);
    PlotNext(s, x, y, color, f, a, b, i);
  }

  /** The loop along the y axis. */
  method Steep(s: Screen, a: Point, b: Point, color: int, ghost f: seq<byte>)
    requires s.Valid() && AllSafe(WholeLine(a, b)) && Measurable(a, b) && f == s.buffer[..]
    requires Abs(b.x - a.x) < Abs(b.y - a.y)
    modifies s.buffer
    ensures s.buffer[..] == WithPoints(f, s.drawMode, WholeLine(a, b), color)
  {
    hide Minor, Stepped, LinePoints, WithPoints, AllSafe;
    var dx: Int32, dy: Int32 := Abs(b.x - a.x), Abs(b.y - a.y);
    var dxX2: Int32, dyX2: Int32 := 2 * dx, 2 * dy;
    var back: Int32 := dxX2 - dyX2;
    var x: Int32, y: Int32 := a.x, a.y;
    var dxSym, dySym := if b.x - a.x > 0 then 1 else -1, if b.y - a.y > 0 then 1 else -1;
    var di: Int32 := dxX2 - dy;
    ghost var i, m: nat := 0, 0;
    NoPoints(a, b, f, s.drawMode, color);
    SteppedStart(dy, dx);
    while y != b.y
      invariant i <= dy && y == Toward(a.y, b.y, i) && x == Toward(a.x, b.x, m)
      invariant Stepped(i, dy, dx, di, m)
      invariant AllSafe(LinePoints(a, b, i))
      invariant s.buffer[..] == WithPoints(f, s.drawMode, LinePoints(a, b, i), color)
      decreases dy - i
    {
      SteppedMinor(i, dy, dx, di, m);
      SteppedNext(i, dy, dx, di, m);
      PlotNext(s, x, y, color, f, a, b, i);
      y := y + dySym;
      i := i + 1;
      if di < 0 {
        SteppedFits(i, dy, dx, di + 2 * dx, m);
        di := di + dxX2;
      } else {
        SteppedFits(i, dy, dx, di + 2 * dx - 2 * dy, m + 1);
        di := di + back;
        x := x + dxSym;
        m := m + 1;
      }
    }
    SteppedMinor(i, dy, dx, di, m);
    PlotNext(s, x, y, color, f, a, b, i);
  }

  /** The source's line: the points of the closed form, from the first end to the second, each drawn once, in 32-bit
      arithmetic. The line may leave the screen, but not the frame through the row and the end of the column behind it
      that the source does not turn away. */
  method Line(s: Screen, x0: Int32, y0: Int32, x1: Int32, y1: Int32, color: int)
    requires s.Valid() && Measurable(Point(x0, y0), Point(x1, y1))
    requires AllSafe(WholeLine(Point(x0, y0), Point(x1, y1)))
    modifies s.buffer
    ensures var ps := WholeLine(Point(x0, y0), Point(x1, y1));
      s.buffer[..] == WithPoints(old(s.buffer[..]), s.drawMode, ps, color)
  {
    hide WholeLine, WithPoints, AllSafe;
    var a, b := Point(x0, y0), Point(x1, y1);
    if Abs(x1 - x0) >= Abs(y1 - y0) {
      Shallow(s, a, b, color, s.buffer[..]);
    } else {
      Steep(s, a, b, color, s.buffer[..]);
    }
  }
}
