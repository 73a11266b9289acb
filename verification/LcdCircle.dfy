/** The midpoint circle: the integer loop of the display driver against the circle it stands for. */
module LcdCircle {
  import opened Arithmetic
  import opened Bits
  import opened LcdFrame

  const WIDTH: int := 128
  const HEIGHT: int := 32

  /** The loop's variables, seen from the centre: one octant of the circle. */
  datatype Octant = Octant(xx: nat, yy: nat, di: int)

  /** How far the point is off the circle, squared. */
  function Off(o: Octant, r: nat): int {
    o.xx * o.xx + o.yy * o.yy - r * r
  }

  function Start(r: nat): Octant {
    Octant(0, r, 3 - 2 * r)
  }

  function Step(o: Octant): Octant
    requires o.xx < o.yy
  {
    if o.di < 0 then Octant(o.xx + 1, o.yy, o.di + 4 * o.xx + 6)
    else Octant(o.xx + 1, o.yy - 1, o.di + 4 * (o.xx - o.yy) + 10)
  }

  /** The states after each turn of the loop. */
  function Turns(o: Octant): (os: seq<Octant>)
    decreases o.yy - o.xx
  {
    if o.xx < o.yy then [Step(o)] + Turns(Step(o)) else []
  }

  // ----- The invariant -----

  /** di is twice the sum of the squared errors of the two candidates, and the point is the nearest one. */
  predicate Tracks(o: Octant, r: nat) {
    && o.di == 2 * (o.xx + 1) * (o.xx + 1) + o.yy * o.yy + (o.yy - 1) * (o.yy - 1) - 2 * (r * r)
    && 0 <= Off(o, r) + o.yy && Off(o, r) <= o.yy
    && (o.xx <= o.yy ==> Off(o, r) < o.yy)
    && o.yy <= r
  }

  /** The same of an error e, without squares. */
  predicate Near(e: int, xx: nat, yy: nat, di: int) {
    && di == 2 * e + 4 * xx - 2 * yy + 3
    && 0 <= e + yy && e <= yy
    && (xx <= yy ==> e < yy)
  }

  lemma Linear(xx: int, yy: int, r: int)
    ensures 2 * (xx + 1) * (xx + 1) + yy * yy + (yy - 1) * (yy - 1) - 2 * (r * r) ==
            2 * (xx * xx + yy * yy - r * r) + 4 * xx - 2 * yy + 3
  {}

  lemma TracksNear(o: Octant, r: nat)
    ensures Tracks(o, r) <==> Near(Off(o, r), o.xx, o.yy, o.di) && o.yy <= r
  {
    Linear(o.xx, o.yy, r);
  }

  lemma TracksStart(r: nat)
    requires r >= 1
    ensures Tracks(Start(r), r)
  {
    TracksNear(Start(r), r);
  }

  lemma OffStep(o: Octant, r: nat)
    requires o.xx < o.yy
    ensures Off(Step(o), r) == Off(o, r) + 2 * o.xx + 1 + (if o.di < 0 then 0 else 1 - 2 * o.yy)
  {
    assert (o.xx + 1) * (o.xx + 1) == o.xx * o.xx + 2 * o.xx + 1;
    assert (o.yy - 1) * (o.yy - 1) == o.yy * o.yy - 2 * o.yy + 1;
  }

  lemma TracksStep(o: Octant, r: nat)
    requires o.xx < o.yy && Tracks(o, r)
    ensures Tracks(Step(o), r)
  {
    hide Off, Tracks;
    TracksNear(o, r);
    OffStep(o, r);
    TracksNear(Step(o), r);
  }

  lemma SquareGrows(a: nat, b: nat)
    requires a < b
    ensures a * a < b * b
  {
    assert b * b - a * a == (b - a) * (a + b);
    assert (b - a) * (a + b) >= a + b by {
      assert (b - a - 1) * (a + b) >= 0;
    }
  }

  lemma SquareAtLeast(a: nat)
    ensures a <= a * a
  {
    if a > 0 {
      assert a * a == a + a * (a - 1);
    }
  }

  lemma Reaches(o: Octant, r: nat)
    requires Tracks(o, r)
    ensures o.xx <= r
  {
    SquareAtLeast(o.yy);
    if o.xx > r {
      SquareGrows(r, o.xx);
    }
  }

  /** The bounds of the variables. */
  lemma TracksFits(o: Octant, r: nat)
    requires Tracks(o, r)
    ensures o.xx <= r && o.yy <= r && 4 * (o.xx - o.yy) + 3 <= o.di <= 4 * o.xx + 3
  {
    hide Tracks, Off;
    TracksNear(o, r);
    Reaches(o, r);
  }

  /** y is the integer nearest to the square root of n. */
  predicate NearestRoot(y: nat, n: int) {
    y * y - y < n <= y * y + y
  }

  lemma Gap(y: nat, z: nat)
    requires y < z
    ensures y * y + y <= z * z - z
  {
    assert z * z - z - (y * y + y) == (z - y - 1) * (z + y);
    assert (z - y - 1) * (z + y) >= 0;
  }

  lemma NearestRootUnique(y: nat, z: nat, n: int)
    requires NearestRoot(y, n) && NearestRoot(z, n)
    ensures y == z
  {
    if y < z {
      Gap(y, z);
    } else if z < y {
      Gap(z, y);
    }
  }

  /** For every radius the loop ends, having visited for each column up to the diagonal the nearest point of the
      circle. */
  lemma {:induction false} TurnsTrack(o: Octant, r: nat)
    requires Tracks(o, r)
    ensures var os := Turns(o);
      && |os| <= r - o.xx + 1
      && forall k :: 0 <= k < |os| ==>
        && os[k].xx == o.xx + 1 + k && Tracks(os[k], r)
        && (os[k].xx <= os[k].yy ==> NearestRoot(os[k].yy, r * r - os[k].xx * os[k].xx))
        && (os[k].xx < os[k].yy <==> k < |os| - 1)
    decreases o.yy - o.xx
  {
    hide Tracks, NearestRoot;
    Reaches(o, r);
    if o.xx < o.yy {
      var n := Step(o);
      TracksStep(o, r);
      TurnsTrack(n, r);
      Reaches(n, r);
      NearestPoint(n, r);
      var os := Turns(o);
      assert os[1..] == Turns(n);
      assert forall k :: 1 <= k < |os| ==> os[k] == Turns(n)[k - 1];
      if n.xx >= n.yy {
        assert Turns(n) == [];
      }
    }
  }

  lemma NearestPoint(o: Octant, r: nat)
    requires Tracks(o, r)
    ensures o.xx <= o.yy ==> NearestRoot(o.yy, r * r - o.xx * o.xx)
  {}

  // ----- The points -----

  /** The reflections of (a, b) in the axes. */
  function Four(x0: int, y0: int, a: int, b: int): (ps: seq<Point>)
    ensures |ps| == 4
  {
    [Point(x0 + a, y0 + b), Point(x0 - a, y0 + b), Point(x0 + a, y0 - b), Point(x0 - a, y0 - b)]
  }

  /** The reflections of one point, in the order they are drawn. */
  function Eight(x0: int, y0: int, xx: int, yy: int): (ps: seq<Point>)
    ensures |ps| == 8
  {
    Four(x0, y0, xx, yy) + Four(x0, y0, yy, xx)
  }

  /** All eight are equally far from the centre, no further off the circle than half a pixel's worth. */
  lemma EightOnCircle(x0: int, y0: int, r: nat, o: Octant, k: nat)
    requires k < 8 && Tracks(o, r)
    ensures var p := Eight(x0, y0, o.xx, o.yy)[k];
      var d := (p.x - x0) * (p.x - x0) + (p.y - y0) * (p.y - y0) - r * r;
      d == Off(o, r) && 0 <= d + o.yy && d <= o.yy
  {
    var x: int, y: int := o.xx, o.yy;
    assert (-x) * (-x) == x * x && (-y) * (-y) == y * y;
  }

  function EightOf(x0: int, y0: int, os: seq<Octant>): seq<Point> {
    if os == [] then [] else EightOf(x0, y0, os[..|os| - 1]) + Eight(x0, y0, os[|os| - 1].xx, os[|os| - 1].yy)
  }

  function If(c: bool, p: Point): seq<Point> {
    if c then [p] else []
  }

  /** The points on the axes that pass the source's tests. */
  function Axes(x0: int, y0: int, r: int): seq<Point> {
    If(y0 + r < HEIGHT, Point(x0, y0 + r)) + If(y0 - r >= 0, Point(x0, y0 - r)) +
    If(x0 + r < WIDTH, Point(x0 + r, y0)) + If(x0 - r >= 0, Point(x0 - r, y0))
  }

  /** The points of a circle, in the order they are drawn. */
  function CirclePoints(x0: int, y0: int, r: int): seq<Point> {
    if r == 0 then [] else if r <= 1 then Axes(x0, y0, r) else Axes(x0, y0, r) + EightOf(x0, y0, Turns(Start(r)))
  }

  /** The circle fits the screen. */
  predicate Fits(x0: int, y0: int, r: int) {
    0 <= r && 0 <= x0 - r && x0 + r <= 127 && 0 <= y0 - r && y0 + r <= 31
  }

  lemma EightOnScreen(x0: int, y0: int, r: nat, o: Octant)
    requires Fits(x0, y0, r) && Tracks(o, r)
    ensures AllOnScreen(Eight(x0, y0, o.xx, o.yy))
  {
    hide Tracks;
    Reaches(o, r);
    assert o.yy <= r by {
      Shrinks(o, r);
    }
  }

  lemma Shrinks(o: Octant, r: nat)
    requires Tracks(o, r)
    ensures o.yy <= r
  {}

  lemma {:induction false} AllEightOnScreen(x0: int, y0: int, r: nat, os: seq<Octant>)
    requires Fits(x0, y0, r) && forall k :: 0 <= k < |os| ==> Tracks(os[k], r)
    ensures AllOnScreen(EightOf(x0, y0, os))
  {
    hide Tracks, Eight, Fits;
    if os != [] {
      AllEightOnScreen(x0, y0, r, os[..|os| - 1]);
      EightOnScreen(x0, y0, r, os[|os| - 1]);
    }
  }

  /** A circle that fits the screen is drawn on it. */
  lemma CircleOnScreen(x0: int, y0: int, r: int)
    requires Fits(x0, y0, r)
    ensures AllOnScreen(CirclePoints(x0, y0, r)) && AllClear(CirclePoints(x0, y0, r))
  {
    hide EightOf, Turns, Tracks, NearestRoot;
    if r > 1 {
      TracksStart(r);
      TurnsTrack(Start(r), r);
      AllEightOnScreen(x0, y0, r, Turns(Start(r)));
    }
  }

  // ----- How often a point is drawn -----

  function One(c: bool): nat {
    if c then 1 else 0
  }

  lemma CountNothing(ps: seq<Point>, q: Point)
    ensures Count(ps[..0], q) == 0
  {}

  lemma CountUpTo(ps: seq<Point>, i: nat, q: Point)
    requires i < |ps|
    ensures Count(ps[..i + 1], q) == Count(ps[..i], q) + One(ps[i] == q)
  {
    assert ps[..i + 1][..i] == ps[..i];
  }

  /** Off the axes the four reflections are four points. */
  lemma FourCount(x0: int, y0: int, a: nat, b: nat, q: Point)
    requires a > 0 && b > 0
    ensures Count(Four(x0, y0, a, b), q) == One(Abs(q.x - x0) == a && Abs(q.y - y0) == b)
  {
    hide Count;
    var ps := Four(x0, y0, a, b);
    CountNothing(ps, q);
    CountUpTo(ps, 0, q);
    CountUpTo(ps, 1, q);
    CountUpTo(ps, 2, q);
    CountUpTo(ps, 3, q);
    assert ps[..4] == ps;
  }

  lemma EightCount(x0: int, y0: int, xx: nat, yy: nat, q: Point)
    requires xx > 0 && yy > 0
    ensures var dx, dy := Abs(q.x - x0), Abs(q.y - y0);
      Count(Eight(x0, y0, xx, yy), q) == One(dx == xx && dy == yy) + One(dx == yy && dy == xx)
  {
    hide Count;
    FourCount(x0, y0, xx, yy, q);
    FourCount(x0, y0, yy, xx, q);
    CountBoth(Four(x0, y0, xx, yy), Four(x0, y0, yy, xx), q);
  }

  /** Turn a is at height b. */
  predicate At(os: seq<Octant>, n: nat, a: nat, b: nat)
    requires n <= |os|
  {
    1 <= a <= n && os[a - 1].yy == b
  }

  /** The turns go through the columns one by one, so that each can meet a point only as (dx, dy) and as (dy, dx). */
  lemma {:induction false} TurnsCount(x0: int, y0: int, os: seq<Octant>, n: nat, q: Point)
    requires n <= |os| && forall k :: 0 <= k < |os| ==> os[k].xx == k + 1 && os[k].yy > 0
    ensures var dx, dy := Abs(q.x - x0), Abs(q.y - y0);
      Count(EightOf(x0, y0, os[..n]), q) == One(At(os, n, dx, dy)) + One(At(os, n, dy, dx))
  {
    hide Count, Eight;
    if n == 0 {
      CountNothing([], q);
      assert EightOf(x0, y0, os[..0]) == [] == [][..0];
    } else {
      TurnsCount(x0, y0, os, n - 1, q);
      var o := os[n - 1];
      assert os[..n][..n - 1] == os[..n - 1] && os[..n][n - 1] == o;
      EightCount(x0, y0, o.xx, o.yy, q);
      CountBoth(EightOf(x0, y0, os[..n - 1]), Eight(x0, y0, o.xx, o.yy), q);
    }
  }

  lemma IfCount(c: bool, p: Point, q: Point)
    ensures Count(If(c, p), q) == One(c && p == q)
  {
    CountNothing([p], q);
    CountUpTo([p], 0, q);
    assert [p][..0] == [] && [p][..1] == [p];
  }

  /** The point is on an axis, at the distance of the radius. */
  predicate OnAxis(x0: int, y0: int, r: int, q: Point) {
    (q.x == x0 && Abs(q.y - y0) == Abs(r)) || (q.y == y0 && Abs(q.x - x0) == Abs(r))
  }

  /** The side of the screen that the source looks at before it draws the point. */
  predicate Kept(x0: int, y0: int, r: int, q: Point) {
    && (q.y - y0 == r ==> q.y <= 31) && (q.y - y0 == -r ==> 0 <= q.y)
    && (q.x - x0 == r ==> q.x <= 127) && (q.x - x0 == -r ==> 0 <= q.x)
  }

  /** Of the points at the distance r on an axis, each that is on its side of the screen is drawn once, and no other
      point at all. */
  lemma AxesCount(x0: int, y0: int, r: int, q: Point)
    requires r != 0
    ensures Count(Axes(x0, y0, r), q) == One(OnAxis(x0, y0, r, q) && Kept(x0, y0, r, q))
  {
    hide Count, If;
    var a, b := If(y0 + r < HEIGHT, Point(x0, y0 + r)), If(y0 - r >= 0, Point(x0, y0 - r));
    var c, d := If(x0 + r < WIDTH, Point(x0 + r, y0)), If(x0 - r >= 0, Point(x0 - r, y0));
    IfCount(y0 + r < HEIGHT, Point(x0, y0 + r), q);
    IfCount(y0 - r >= 0, Point(x0, y0 - r), q);
    IfCount(x0 + r < WIDTH, Point(x0 + r, y0), q);
    IfCount(x0 - r >= 0, Point(x0 - r, y0), q);
    CountBoth(a, b, q);
    CountBoth(a + b, c, q);
    CountBoth(a + b + c, d, q);
  }

  /** Of a circle around a point of the screen, exactly those of the four that are on the screen are drawn. */
  lemma AxesExactly(x0: int, y0: int, r: int, q: Point)
    requires OnScreen(Point(x0, y0)) && r > 0
    ensures q in Axes(x0, y0, r) <==> OnScreen(q) && OnAxis(x0, y0, r, q)
  {
    hide Count, Axes;
    AxesCount(x0, y0, r, q);
    Counted(Axes(x0, y0, r), q);
  }

  // ----- The last turn -----

  lemma {:induction false} TurnsStep(o: Octant, k: nat)
    requires k < |Turns(o)|
    ensures var os := Turns(o);
      var before := if k == 0 then o else os[k - 1];
      before.xx < before.yy && os[k] == Step(before)
    decreases k
  {
    if k > 0 {
      TurnsStep(Step(o), k - 1);
      assert Turns(o)[k] == Turns(Step(o))[k - 1];
      assert k > 1 ==> Turns(o)[k - 1] == Turns(Step(o))[k - 2];
    }
  }

  /** The last turn is on the diagonal, or is the turn before it with the coordinates swapped: its eight points coincide
      two by two, or with the eight before them. */
  lemma LastTurn(r: nat)
    requires r >= 2
    ensures var os := Turns(Start(r));
      var n := |os|;
      && n >= 2
      && (forall k :: 0 <= k < n ==> os[k].xx == k + 1 && os[k].yy > 0 && (k < n - 1 ==> os[k].xx < os[k].yy))
      && (os[n - 1].yy == n || (os[n - 1].yy == n - 1 && os[n - 2].yy == n))
  {
    hide Tracks, NearestRoot;
    var os := Turns(Start(r));
    var n := |os|;
    TracksStart(r);
    TurnsTrack(Start(r), r);
    FirstTurn(r);
    assert os[n - 1].xx == n && os[n - 2].xx == n - 1 && os[n - 2].xx < os[n - 2].yy;
    TurnsStep(Start(r), n - 1);
  }

  lemma FirstTurn(r: nat)
    requires r >= 2
    ensures |Turns(Start(r))| >= 2
  {
    var o := Step(Start(r));
    assert o.xx < o.yy && Turns(Start(r)) == [o] + Turns(o);
    assert Turns(o) == [Step(o)] + Turns(Step(o));
  }

  /** The reflections of the last turn. */
  function LastEight(x0: int, y0: int, r: nat): (ps: seq<Point>)
    requires r >= 2
    ensures |ps| == 8
  {
    LastTurn(r);
    var os := Turns(Start(r));
    Eight(x0, y0, os[|os| - 1].xx, os[|os| - 1].yy)
  }

  lemma InEight(x0: int, y0: int, xx: nat, yy: nat, q: Point)
    ensures var dx, dy := Abs(q.x - x0), Abs(q.y - y0);
      q in Eight(x0, y0, xx, yy) <==> (dx == xx && dy == yy) || (dx == yy && dy == xx)
  {
    var ps := Eight(x0, y0, xx, yy);
    assert ps[0] in ps && ps[1] in ps && ps[2] in ps && ps[3] in ps;
    assert ps[4] in ps && ps[5] in ps && ps[6] in ps && ps[7] in ps;
  }

  /** How often a circle draws a point, on the screen or not: twice in the last turn, once elsewhere. */
  lemma CircleCount(x0: int, y0: int, r: int, q: Point)
    ensures var ps := CirclePoints(x0, y0, r);
      && (r >= 2 && q in LastEight(x0, y0, r) ==> q in ps)
      && Count(ps, q) == if r >= 2 && q in LastEight(x0, y0, r) then 2 else if q in ps then 1 else 0
  {
    hide Count, Eight, EightOf, Axes, Turns;
    var ps := CirclePoints(x0, y0, r);
    var dx, dy := Abs(q.x - x0), Abs(q.y - y0);
    Counted(ps, q);
    CountNothing(ps, q);
    if r != 0 {
      AxesCount(x0, y0, r, q);
    }
    if r >= 2 {
      var os := Turns(Start(r));
      var n := |os|;
      LastTurn(r);
      TurnsCount(x0, y0, os, n, q);
      assert os[..n] == os;
      CountBoth(Axes(x0, y0, r), EightOf(x0, y0, os), q);
      InEight(x0, y0, os[n - 1].xx, os[n - 1].yy, q);
      Twice(os, dx, dy);
    }
  }

  /** Both ways of meeting a point occur together exactly in the last turn. */
  lemma Twice(os: seq<Octant>, dx: nat, dy: nat)
    requires var n := |os|;
      && n >= 2
      && (forall k :: 0 <= k < n ==> os[k].xx == k + 1 && os[k].yy > 0 && (k < n - 1 ==> os[k].xx < os[k].yy))
      && (os[n - 1].yy == n || (os[n - 1].yy == n - 1 && os[n - 2].yy == n))
    ensures var n, y := |os|, os[|os| - 1].yy;
      At(os, n, dx, dy) && At(os, n, dy, dx) <==> (dx == n && dy == y) || (dx == y && dy == n)
  {
    var n := |os|;
    if At(os, n, dx, dy) && At(os, n, dy, dx) {
      assert dx < n ==> os[dx - 1].xx < os[dx - 1].yy;
      assert dy < n ==> os[dy - 1].xx < os[dy - 1].yy;
    }
  }

  // ----- Which points -----

  /** The points that a circle draws, of any radius from 2 on: the four on the axes that are on their side of the
      screen, and off the axes exactly the points whose greater distance is the integer nearest to the root of what
      the smaller one leaves of the radius. */
  lemma CircleExactly(x0: int, y0: int, r: int, q: Point)
    requires r >= 2
    ensures var dx, dy := Abs(q.x - x0), Abs(q.y - y0);
      var a, b := if dx <= dy then dx else dy, if dx <= dy then dy else dx;
      q in CirclePoints(x0, y0, r) <==>
      if a == 0 then b == r && Kept(x0, y0, r, q) else NearestRoot(b, r * r - a * a)
  {
    hide Count, EightOf, Axes, Turns, NearestRoot, Kept;
    var dx, dy := Abs(q.x - x0), Abs(q.y - y0);
    var os := Turns(Start(r));
    AxesCount(x0, y0, r, q);
    LastTurn(r);
    TurnsCount(x0, y0, os, |os|, q);
    assert os[..|os|] == os;
    CountBoth(Axes(x0, y0, r), EightOf(x0, y0, os), q);
    Counted(CirclePoints(x0, y0, r), q);
    if 0 < dx <= dy {
      Met(r, dx, dy);
    } else if 0 < dy <= dx {
      Met(r, dy, dx);
    } else {
      NoneAtNothing(os, dx, dy);
    }
  }

  lemma NoneAtNothing(os: seq<Octant>, dx: nat, dy: nat)
    requires (dx == 0 || dy == 0) && forall k :: 0 <= k < |os| ==> os[k].yy > 0
    ensures !At(os, |os|, dx, dy) && !At(os, |os|, dy, dx)
  {}

  /** The turns meet a point, as it is or with its distances swapped, exactly when it is the nearest one of its
      column. */
  lemma Met(r: nat, a: nat, b: nat)
    requires r >= 2 && 1 <= a <= b
    ensures var os := Turns(Start(r));
      At(os, |os|, a, b) || At(os, |os|, b, a) <==> NearestRoot(b, r * r - a * a)
  {
    hide Turns, Tracks, NearestRoot;
    var os := Turns(Start(r));
    var n := |os|;
    LastTurn(r);
    TracksStart(r);
    TurnsTrack(Start(r), r);
    if a <= n {
      assert os[a - 1].xx == a;
      if a <= os[a - 1].yy && NearestRoot(b, r * r - a * a) {
        NearestRootUnique(b, os[a - 1].yy, r * r - a * a);
      }
    }
    if NearestRoot(b, r * r - a * a) {
      TooFar(r, os[n - 1], a, b);
    }
  }

  /** Behind the last turn there is nothing above the diagonal. */
  lemma TooFar(r: nat, o: Octant, a: nat, b: nat)
    requires Tracks(o, r) && 0 < o.yy <= o.xx && a <= b && NearestRoot(b, r * r - a * a)
    ensures a < o.xx || a == o.xx == o.yy
  {
    var x, y, xx, yy := o.xx, o.yy, o.xx * o.xx, o.yy * o.yy;
    assert r * r <= xx + yy + y;
    Rises(a, b);
    assert 2 * (a * a) - a < r * r;
    if y < x {
      Gap(y, x);
    }
    Overtakes(a, x);
  }

  lemma Rises(a: nat, b: nat)
    requires a <= b
    ensures a * a - a <= b * b - b
  {
    if a < b {
      Gap(a, b);
    }
  }

  lemma Overtakes(a: nat, x: nat)
    ensures a > x ==> 2 * (x * x) + x <= 2 * (a * a) - a
  {
    if a > x {
      Gap(x, a);
      SquareGrows(x, a);
    }
  }

  // ----- What is seen -----

  /** In exclusive-or mode a circle flips its points but for those of its last turn, which are drawn twice. */
  lemma CircleSeen(f: seq<byte>, x0: int, y0: int, r: int, q: Point)
    requires |f| == FRAME_SIZE && AllClear(CirclePoints(x0, y0, r)) && OnScreen(q)
    ensures AllSafe(CirclePoints(x0, y0, r))
    ensures var ps := CirclePoints(x0, y0, r);
      Lit(WithPoints(f, XOR, ps, 1), q) != Lit(f, q) <==> q in ps && !(r >= 2 && q in LastEight(x0, y0, r))
  {
    hide CirclePoints, LastEight, WithPoints, Lit, Count, AllSafe, OnScreen, AllClear;
    XorLit(f, CirclePoints(x0, y0, r), q);
    CircleCount(x0, y0, r, q);
  }

  /** A circle is seen whole in exclusive-or mode. */
  ghost predicate Whole(f: seq<byte>, x0: int, y0: int, r: int)
    requires |f| == FRAME_SIZE && AllSafe(CirclePoints(x0, y0, r))
  {
    var ps := CirclePoints(x0, y0, r);
    forall q: Point :: OnScreen(q) ==> (Lit(WithPoints(f, XOR, ps, 1), q) != Lit(f, q) <==> q in ps)
  }

  /** That is so exactly when there is no turn, or the last one is all outside the screen. */
  lemma WholeWhen(f: seq<byte>, x0: int, y0: int, r: int)
    requires |f| == FRAME_SIZE && AllClear(CirclePoints(x0, y0, r))
    ensures AllSafe(CirclePoints(x0, y0, r))
    ensures Whole(f, x0, y0, r) <==> r <= 1 || forall q :: q in LastEight(x0, y0, r) ==> !OnScreen(q)
  {
    hide CirclePoints, LastEight, WithPoints, Lit, OnScreen, AllClear, AllSafe;
    Safes(CirclePoints(x0, y0, r));
    forall q: Point | OnScreen(q)
      ensures var ps := CirclePoints(x0, y0, r);
        Lit(WithPoints(f, XOR, ps, 1), q) != Lit(f, q) <==> q in ps && !(r >= 2 && q in LastEight(x0, y0, r))
    {
      CircleSeen(f, x0, y0, r, q);
    }
    if Whole(f, x0, y0, r) && r >= 2 {
      forall q | q in LastEight(x0, y0, r)
        ensures !OnScreen(q)
      {
        if OnScreen(q) {
          CircleCount(x0, y0, r, q);
        }
      }
    }
  }

  /** Of the circles that fit the screen only those of radius 0 and 1 are seen whole. */
  lemma FittingWhole(f: seq<byte>, x0: int, y0: int, r: int)
    requires |f| == FRAME_SIZE && Fits(x0, y0, r)
    ensures AllSafe(CirclePoints(x0, y0, r)) && (Whole(f, x0, y0, r) <==> r <= 1)
  {
    hide CirclePoints, Turns, WithPoints, Lit, AllClear, AllSafe, Whole, Tracks, NearestRoot;
    CircleOnScreen(x0, y0, r);
    WholeWhen(f, x0, y0, r);
    if r >= 2 {
      LastTurn(r);
      TracksStart(r);
      TurnsTrack(Start(r), r);
      var os := Turns(Start(r));
      EightOnScreen(x0, y0, r, os[|os| - 1]);
      var p := LastEight(x0, y0, r)[0];
      assert p in LastEight(x0, y0, r) && OnScreen(p);
    }
  }

  /** The smallest of the others: of the circle of radius 2 only the four points on the axes are left. */
  lemma RadiusTwo(f: seq<byte>, x0: int, y0: int)
    requires |f| == FRAME_SIZE && Fits(x0, y0, 2)
    ensures var ps, p := CirclePoints(x0, y0, 2), Point(x0 + 1, y0 + 2);
      AllSafe(ps) && p in ps && OnScreen(p) && (Lit(WithPoints(f, XOR, ps, 1), p) <==> Lit(f, p))
  {
    hide CirclePoints, WithPoints, Lit, AllClear, AllSafe;
    var p := Point(x0 + 1, y0 + 2);
    CircleOnScreen(x0, y0, 2);
    var a := Octant(1, 2, 5);
    var b := Octant(2, 1, 11);
    assert Step(Start(2)) == a && Step(a) == b;
    assert Turns(b) == [] && Turns(a) == [b] && Turns(Start(2)) == [a, b];
    assert LastEight(x0, y0, 2) == Eight(x0, y0, 2, 1);
    assert p == Eight(x0, y0, 2, 1)[4];
    CircleCount(x0, y0, 2, p);
    CircleSeen(f, x0, y0, 2, p);
  }

  /** In exclusive-or mode a circle drawn twice is gone. */
  lemma CircleTwice(f: seq<byte>, x0: int, y0: int, r: int)
    requires |f| == FRAME_SIZE && AllSafe(CirclePoints(x0, y0, r))
    ensures var ps := CirclePoints(x0, y0, r);
      WithPoints(WithPoints(f, XOR, ps, 1), XOR, ps, 1) == f
  {
    hide CirclePoints, WithPoints, AllSafe;
    XorTwice(f, CirclePoints(x0, y0, r));
  }

  // ----- The loop -----

  lemma TurnsMore(done: seq<Octant>, o: Octant)
    requires o.xx < o.yy
    ensures done + Turns(o) == done + [Step(o)] + Turns(Step(o))
  {}

  lemma EightMore(x0: int, y0: int, os: seq<Octant>, o: Octant)
    ensures EightOf(x0, y0, os + [o]) == EightOf(x0, y0, os) + Eight(x0, y0, o.xx, o.yy)
  {
    assert (os + [o])[..|os|] == os;
  }

  /** Points drawn so far. */
  ghost predicate Plotted(s: Screen, f: seq<byte>, ps: seq<Point>, color: int)
    reads s, s.buffer
  {
    && s.Valid() && |f| == FRAME_SIZE && AllSafe(ps)
    && s.buffer[..] == WithPoints(f, s.drawMode, ps, color)
  }

  lemma NotPlotted(f: seq<byte>, mode: Mode, ps: seq<Point>, p: Point, color: int)
    requires |f| == FRAME_SIZE && AllSafe(ps) && !Admitted(p)
    ensures AllSafe(ps + [p]) && WithPoints(f, mode, ps + [p], color) == WithPoints(f, mode, ps, color)
  {
    assert (ps + [p])[..|ps|] == ps;
  }

  /** A circle whose outermost points and doubled diameter are within an int. */
  predicate Measurable(x0: int, y0: int, r: int) {
    && -0x2000_0000 < r < 0x2000_0000
    && -0x8000_0000 <= x0 - Abs(r) && x0 + Abs(r) < 0x8000_0000
    && -0x8000_0000 <= y0 - Abs(r) && y0 + Abs(r) < 0x8000_0000
  }

  predicate AllInts(ps: seq<Point>) {
    forall p :: p in ps ==> -0x8000_0000 <= p.x < 0x8000_0000 && -0x8000_0000 <= p.y < 0x8000_0000
  }

  lemma MeasuredRadius(x0: int, y0: int, r: nat)
    requires Measurable(x0, y0, r)
    ensures r < 0x2000_0000
  {}

  /** The sums of a turn, and what they do to di. */
  lemma SumsFit(o: Octant, r: nat)
    requires o.xx < o.yy && Tracks(o, r) && r < 0x2000_0000
    ensures Tracks(Step(o), r) && Step(o).xx <= r && Step(o).yy <= r
    ensures 4 * o.xx + 6 < 0x8000_0000 && -0x8000_0000 <= 4 * (o.xx - o.yy)
    ensures -0x8000_0000 <= Step(o).di < 0x8000_0000
  {
    hide Tracks;
    TracksFits(o, r);
    TracksStep(o, r);
    TracksFits(Step(o), r);
  }

  /** One guarded pixel; the guard of a turn keeps out only points that would be turned away. */
  method Dot(s: Screen, p: Point, inside: bool, color: int, ghost f: seq<byte>, ghost ps: seq<Point>)
    requires Plotted(s, f, ps, color) && Safe(p) && (inside || !Admitted(p))
    modifies s.buffer
    ensures Plotted(s, f, ps + [p], color)
  {
    hide WithPoints, AllSafe;
    if inside {
      s.Plot(p.x, p.y, color, f, ps);
    } else {
      NotPlotted(f, s.drawMode, ps, p, color);
    }
  }

  /** A pixel on an axis is drawn only if it passes its test. */
  method DotIf(s: Screen, p: Point, inside: bool, color: int, ghost f: seq<byte>, ghost ps: seq<Point>)
    requires Plotted(s, f, ps, color) && (inside ==> Safe(p))
    modifies s.buffer
    ensures Plotted(s, f, ps + If(inside, p), color)
  {
    hide Plotted, Safe;
    if inside {
      Dot(s, p, inside, color, f, ps);
    } else {
      assert ps + [] == ps;
    }
  }

  /** The eight guarded pixels at the end of a turn. */
  method DotEight(s: Screen, d0: Point, d1: Point, d2: Point, d3: Point, d4: Point, d5: Point, d6: Point, d7: Point,
                  color: int, ghost f: seq<byte>, ghost ps: seq<Point>)
    requires Plotted(s, f, ps, color) && AllSafe([d0, d1, d2, d3, d4, d5, d6, d7])
    modifies s.buffer
    ensures Plotted(s, f, ps + [d0, d1, d2, d3, d4, d5, d6, d7], color)
  {
    hide Plotted, Safe;
    ghost var es := [d0, d1, d2, d3, d4, d5, d6, d7];
    assert Safe(es[0]) && Safe(es[1]) && Safe(es[2]) && Safe(es[3]);
    assert Safe(es[4]) && Safe(es[5]) && Safe(es[6]) && Safe(es[7]);
    Dot(s, d0, d0.x <= WIDTH && d0.y >= 0, color, f, ps);
    Dot(s, d1, d1.x >= 0 && d1.y >= 0, color, f, ps + [d0]);
    Dot(s, d2, d2.x <= WIDTH && d2.y <= HEIGHT, color, f, ps + [d0] + [d1]);
    Dot(s, d3, d3.x >= 0 && d3.y <= HEIGHT, color, f, ps + [d0] + [d1] + [d2]);
    Dot(s, d4, d4.x <= WIDTH && d4.y >= 0, color, f, ps + [d0] + [d1] + [d2] + [d3]);
    ghost var qs := ps + [d0] + [d1] + [d2] + [d3] + [d4];
    Dot(s, d5, d5.x >= 0 && d5.y >= 0, color, f, qs);
    Dot(s, d6, d6.x <= WIDTH && d6.y <= HEIGHT, color, f, qs + [d5]);
    Dot(s, d7, d7.x >= 0 && d7.y <= HEIGHT, color, f, qs + [d5] + [d6]);
    assert qs + [d5] + [d6] + [d7] == ps + es;
  }

  /** The four points on the axes. */
  method DotAxes(s: Screen, x0: int, y0: int, r: int, color: int, ghost f: seq<byte>)
    requires Plotted(s, f, [], color) && AllSafe(Axes(x0, y0, r))
    modifies s.buffer
    ensures Plotted(s, f, Axes(x0, y0, r), color)
  {
    hide Plotted, If, Safe;
    var p, q, u, v := Point(x0, y0 + r), Point(x0, y0 - r), Point(x0 + r, y0), Point(x0 - r, y0);
    ghost var a, b := If(p.y < HEIGHT, p), If(q.y >= 0, q);
    ghost var c, e := If(u.x < WIDTH, u), If(v.x >= 0, v);
    assert Axes(x0, y0, r) == a + b + c + e == [] + a + b + c + e;
    SafeParts(a, b, c, e);
    SafeIf(p.y < HEIGHT, p);
    SafeIf(q.y >= 0, q);
    SafeIf(u.x < WIDTH, u);
    SafeIf(v.x >= 0, v);
    DotIf(s, p, p.y < HEIGHT, color, f, []);
    DotIf(s, q, q.y >= 0, color, f, [] + a);
    DotIf(s, u, u.x < WIDTH, color, f, [] + a + b);
    DotIf(s, v, v.x >= 0, color, f, [] + a + b + c);
  }

  lemma SafeIf(c: bool, p: Point)
    requires AllSafe(If(c, p))
    ensures c ==> Safe(p)
  {
    if c {
      assert If(c, p)[0] == p;
    }
  }

  lemma SafeParts(a: seq<Point>, b: seq<Point>, c: seq<Point>, d: seq<Point>)
    requires AllSafe(a + b + c + d)
    ensures AllSafe(a) && AllSafe(b) && AllSafe(c) && AllSafe(d)
  {
    SafeBoth(a + b + c, d);
    SafeBoth(a + b, c);
    SafeBoth(a, b);
  }

  lemma SafeBoth(a: seq<Point>, b: seq<Point>)
    requires AllSafe(a + b)
    ensures AllSafe(a) && AllSafe(b)
  {
    hide Safe;
    assert forall i :: 0 <= i < |a| ==> a[i] == (a + b)[i];
    assert forall i :: 0 <= i < |b| ==> b[i] == (a + b)[|a| + i];
  }

  /** The source's circle, in 32-bit arithmetic. It may leave the screen, but not the frame through the row and the end
      of the column behind it that the source does not turn away. */
  method Circle(s: Screen, x0: Int32, y0: Int32, r: Int32, color: int)
    requires s.Valid() && Measurable(x0, y0, r) && AllSafe(CirclePoints(x0, y0, r))
    modifies s.buffer
    ensures s.buffer[..] == WithPoints(old(s.buffer[..]), s.drawMode, CirclePoints(x0, y0, r), color)
  {
    hide Turns, Tracks, EightOf, WithPoints, AllSafe, Axes;
    ghost var f := s.buffer[..];
    Untouched(f, s.drawMode, color);
    if r == 0 {
      return;
    }
    if r > 1 {
      SafeBoth(Axes(x0, y0, r), EightOf(x0, y0, Turns(Start(r))));
    }
    assert AllInts([Point(x0, y0 + r), Point(x0, y0 - r), Point(x0 + r, y0), Point(x0 - r, y0)]);
    DotAxes(s, x0, y0, r, color, f);
    if r == 1 {
      return;
    }
    if r > 1 {
      Arcs(s, x0, y0, r, color, f, Axes(x0, y0, r));
    }
  }

  lemma Untouched(f: seq<byte>, mode: Mode, color: int)
    requires |f| == FRAME_SIZE
    ensures AllSafe([]) && WithPoints(f, mode, [], color) == f
  {}

  /** The running coordinates are the reflections of (xx, yy). */
  predicate Reflections(x0: int, y0: int, xx: int, yy: int,
                        d0: Point, d1: Point, d2: Point, d3: Point, d4: Point, d5: Point, d6: Point, d7: Point) {
    && d0 == Point(x0 + xx, y0 + yy) && d1 == Point(x0 - xx, y0 + yy)
    && d2 == Point(x0 + xx, y0 - yy) && d3 == Point(x0 - xx, y0 - yy)
    && d4 == Point(x0 + yy, y0 + xx) && d5 == Point(x0 - yy, y0 + xx)
    && d6 == Point(x0 + yy, y0 - xx) && d7 == Point(x0 - yy, y0 - xx)
  }

  lemma ReflectionsEight(x0: int, y0: int, r: nat, xx: nat, yy: nat,
                         d0: Point, d1: Point, d2: Point, d3: Point, d4: Point, d5: Point, d6: Point, d7: Point)
    requires Reflections(x0, y0, xx, yy, d0, d1, d2, d3, d4, d5, d6, d7)
    requires Measurable(x0, y0, r) && xx <= r && yy <= r
    ensures [d0, d1, d2, d3, d4, d5, d6, d7] == Eight(x0, y0, xx, yy)
    ensures AllInts([d0, d1, d2, d3, d4, d5, d6, d7])
  {}

  /** What a turn does to the decision variable and to yy. */
  method Decide(xx: Int32, yy: Int32, di: Int32, ghost r: nat) returns (yn: Int32, dn: Int32)
    requires 0 <= xx < yy && Tracks(Octant(xx, yy, di), r) && r < 0x2000_0000
    ensures 0 <= yn && Octant(xx + 1, yn, dn) == Step(Octant(xx, yy, di))
    ensures xx + 1 <= r && yn <= r && Tracks(Octant(xx + 1, yn, dn), r)
    ensures yn == if di < 0 then yy else yy - 1
  {
    hide Tracks;
    SumsFit(Octant(xx, yy, di), r);
    if di < 0 {
      var up: Int32 := 4 * xx + 6;
      yn, dn := yy, di + up;
    } else {
      var down: Int32 := 4 * (xx - yy);
      yn, dn := yy - 1, di + (down + 10);
    }
  }

  /** A step of yy. */
  method Inward(ghost x0: int, ghost y0: int, ghost xx: int, ghost yy: int,
                d0: Point, d1: Point, d2: Point, d3: Point, d4: Point, d5: Point, d6: Point, d7: Point)
    returns (e0: Point, e1: Point, e2: Point, e3: Point, e4: Point, e5: Point, e6: Point, e7: Point)
    requires Reflections(x0, y0, xx, yy, d0, d1, d2, d3, d4, d5, d6, d7)
    ensures Reflections(x0, y0, xx, yy - 1, e0, e1, e2, e3, e4, e5, e6, e7)
  {
    e0, e1, e2, e3 := Point(d0.x, d0.y - 1), Point(d1.x, d1.y - 1), Point(d2.x, d2.y + 1), Point(d3.x, d3.y + 1);
    e4, e5, e6, e7 := Point(d4.x - 1, d4.y), Point(d5.x + 1, d5.y), Point(d6.x - 1, d6.y), Point(d7.x + 1, d7.y);
  }

  /** A step of xx. */
  method Onward(ghost x0: int, ghost y0: int, ghost xx: int, ghost yy: int,
                d0: Point, d1: Point, d2: Point, d3: Point, d4: Point, d5: Point, d6: Point, d7: Point)
    returns (e0: Point, e1: Point, e2: Point, e3: Point, e4: Point, e5: Point, e6: Point, e7: Point)
    requires Reflections(x0, y0, xx, yy, d0, d1, d2, d3, d4, d5, d6, d7)
    ensures Reflections(x0, y0, xx + 1, yy, e0, e1, e2, e3, e4, e5, e6, e7)
  {
    e0, e1, e2, e3 := Point(d0.x + 1, d0.y), Point(d1.x - 1, d1.y), Point(d2.x + 1, d2.y), Point(d3.x - 1, d3.y);
    e4, e5, e6, e7 := Point(d4.x, d4.y + 1), Point(d5.x, d5.y + 1), Point(d6.x, d6.y - 1), Point(d7.x, d7.y - 1);
  }

  /** What a turn does to the variables and to the running coordinates. */
  method Move(ghost x0: int, ghost y0: int, ghost r: nat, xx: Int32, yy: Int32, di: Int32,
              d0: Point, d1: Point, d2: Point, d3: Point, d4: Point, d5: Point, d6: Point, d7: Point)
    returns (xn: Int32, yn: Int32, dn: Int32,
             e0: Point, e1: Point, e2: Point, e3: Point, e4: Point, e5: Point, e6: Point, e7: Point)
    requires 0 <= xx < yy && Tracks(Octant(xx, yy, di), r) && Measurable(x0, y0, r)
    requires Reflections(x0, y0, xx, yy, d0, d1, d2, d3, d4, d5, d6, d7)
    ensures 0 <= xn && 0 <= yn && Octant(xn, yn, dn) == Step(Octant(xx, yy, di)) && Tracks(Octant(xn, yn, dn), r)
    ensures Reflections(x0, y0, xn, yn, e0, e1, e2, e3, e4, e5, e6, e7)
    ensures [e0, e1, e2, e3, e4, e5, e6, e7] == Eight(x0, y0, xn, yn)
    ensures AllInts([e0, e1, e2, e3, e4, e5, e6, e7])
  {
    hide Tracks, AllInts, Eight, Step, Measurable, Reflections;
    MeasuredRadius(x0, y0, r);
    yn, dn := Decide(xx, yy, di, r);
    e0, e1, e2, e3, e4, e5, e6, e7 := d0, d1, d2, d3, d4, d5, d6, d7;
    if di >= 0 {
      e0, e1, e2, e3, e4, e5, e6, e7 := Inward(x0, y0, xx, yy, e0, e1, e2, e3, e4, e5, e6, e7);
      ReflectionsEight(x0, y0, r, xx, yn, e0, e1, e2, e3, e4, e5, e6, e7);
      assert AllInts([e0, e1, e2, e3, e4, e5, e6, e7]);
    }
    xn := xx + 1;
    e0, e1, e2, e3, e4, e5, e6, e7 := Onward(x0, y0, xx, yn, e0, e1, e2, e3, e4, e5, e6, e7);
    ReflectionsEight(x0, y0, r, xn, yn, e0, e1, e2, e3, e4, e5, e6, e7);
  }

  /** The loop, with its running coordinates. */
  method Arcs(s: Screen, x0: int, y0: int, r: nat, color: int, ghost f: seq<byte>, ghost axes: seq<Point>)
    requires r >= 2 && Measurable(x0, y0, r) && Plotted(s, f, axes, color) && AllSafe(EightOf(x0, y0, Turns(Start(r))))
    modifies s.buffer
    ensures Plotted(s, f, axes + EightOf(x0, y0, Turns(Start(r))), color)
  {
    hide Plotted, Turns, Tracks, EightOf, AllSafe, AllInts, Step;
    var d0, d1, d2, d3 := Point(x0, y0 + r), Point(x0, y0 + r), Point(x0, y0 - r), Point(x0, y0 - r);
    var d4, d5, d6, d7 := Point(x0 + r, y0), Point(x0 - r, y0), Point(x0 + r, y0), Point(x0 - r, y0);
    var di: Int32 := 3 - 2 * r;
    var xx: Int32, yy: Int32 := 0, r;
    ghost var done: seq<Octant> := [];
    NoTurns(x0, y0, axes, Start(r));
    TracksStart(r);
    MeasuredRadius(x0, y0, r);
    assert Reflections(x0, y0, 0, r, d0, d1, d2, d3, d4, d5, d6, d7);
    hide Reflections, Eight, Measurable;
    while xx < yy
      invariant 0 <= xx && 0 <= yy && Tracks(Octant(xx, yy, di), r)
      invariant Reflections(x0, y0, xx, yy, d0, d1, d2, d3, d4, d5, d6, d7)
      invariant done + Turns(Octant(xx, yy, di)) == Turns(Start(r))
      invariant Plotted(s, f, axes + EightOf(x0, y0, done), color)
      decreases yy - xx
    {
      ghost var o := Octant(xx, yy, di);
      Closer(o);
      TurnsMore(done, o);
      TurnSafe(x0, y0, done, Step(o), Turns(Step(o)));
      xx, yy, di, d0, d1, d2, d3, d4, d5, d6, d7 := Move(x0, y0, r, xx, yy, di, d0, d1, d2, d3, d4, d5, d6, d7);
      DotEight(s, d0, d1, d2, d3, d4, d5, d6, d7, color, f, axes + EightOf(x0, y0, done));
      EightMore(x0, y0, done, Step(o));
      assert axes + EightOf(x0, y0, done) + Eight(x0, y0, xx, yy) == axes + EightOf(x0, y0, done + [Step(o)]);
      done := done + [Step(o)];
    }
    NoMoreTurns(Octant(xx, yy, di));
    assert done + [] == done;
  }

  lemma Closer(o: Octant)
    requires o.xx < o.yy
    ensures Step(o).yy - Step(o).xx < o.yy - o.xx
  {}

  lemma {:induction false} TurnSafe(x0: int, y0: int, done: seq<Octant>, o: Octant, more: seq<Octant>)
    requires AllSafe(EightOf(x0, y0, done + [o] + more))
    ensures AllSafe(Eight(x0, y0, o.xx, o.yy))
    decreases |more|
  {
    hide AllSafe, EightOf;
    if more == [] {
      assert done + [o] + [] == done + [o];
      EightMore(x0, y0, done, o);
      SafeBoth(EightOf(x0, y0, done), Eight(x0, y0, o.xx, o.yy));
    } else {
      var n := |more| - 1;
      assert done + [o] + more == (done + [o] + more[..n]) + [more[n]];
      EightMore(x0, y0, done + [o] + more[..n], more[n]);
      SafeBoth(EightOf(x0, y0, done + [o] + more[..n]), Eight(x0, y0, more[n].xx, more[n].yy));
      TurnSafe(x0, y0, done, o, more[..n]);
    }
  }

  lemma NoTurns(x0: int, y0: int, axes: seq<Point>, o: Octant)
    ensures axes + EightOf(x0, y0, []) == axes && [] + Turns(o) == Turns(o)
  {}

  lemma NoMoreTurns(o: Octant)
    requires o.xx >= o.yy
    ensures Turns(o) == []
  {}
}
