/** The packed frame of the 128 x 32 display: one bit a pixel, eight rows to a byte, 128 columns to a page. */
module LcdFrame {
  import opened Bits

  datatype Mode = NORMAL | XOR

  datatype Point = Point(x: int, y: int)

  const FRAME_SIZE: nat := 512

  predicate OnScreen(p: Point) {
    0 <= p.x <= 127 && 0 <= p.y <= 31
  }

  /** The points the source does not turn away; one column and one row more than there are. */
  predicate Admitted(p: Point) {
    0 <= p.x <= 128 && 0 <= p.y <= 32
  }

  function Index(p: Point): nat
    requires p.x >= 0 && p.y >= 0
  {
    p.x + p.y / 8 * 128
  }

  /** A point that is turned away, or one whose byte is in the frame. */
  predicate Safe(p: Point) {
    Admitted(p) ==> Index(p) < FRAME_SIZE
  }

  /** On the screen, or turned away by the source. */
  predicate Clear(p: Point) {
    OnScreen(p) || !Admitted(p)
  }

  lemma SafePoints(p: Point)
    ensures OnScreen(p) ==> Admitted(p) && Index(p) < FRAME_SIZE
    ensures Clear(p) ==> Safe(p)
    ensures Safe(p) <==> !(Admitted(p) && (p.y == 32 || (p.x == 128 && p.y >= 24)))
  {}

  /** The bit of an on-screen point. */
  predicate Lit(f: seq<byte>, p: Point)
    requires |f| == FRAME_SIZE && OnScreen(p)
  {
    Bit(f[Index(p)], p.y % 8)
  }

  // ----- One pixel -----

  function BitMask(k: nat): (m: byte)
    requires k < 8
  {
    PowerBelow(k, 8);
    Powers();
    Pow2(k)
  }

  function SetBit(b: byte, k: nat): byte
    requires k < 8
  {
    Powers();
    OrBelow(b, BitMask(k), 8);
    Or(b, BitMask(k))
  }

  function ClearBit(b: byte, k: nat): byte
    requires k < 8
  {
    AndBelow(b, 255 - BitMask(k));
    And(b, 255 - BitMask(k))
  }

  function FlipBit(b: byte, k: nat): byte
    requires k < 8
  {
    Powers();
    XorBelow(b, BitMask(k), 8);
    Xor(b, BitMask(k))
  }

  /** What drawing a pixel makes of its byte. */
  function Drawn(b: byte, k: nat, mode: Mode, color: int): byte
    requires k < 8
  {
    match mode
    case NORMAL => if color == 0 then ClearBit(b, k) else SetBit(b, k)
    case XOR => if color == 1 then FlipBit(b, k) else b
  }

  /** What drawing a pixel makes of its own bit. */
  predicate Colored(was: bool, mode: Mode, color: int) {
    match mode
    case NORMAL => color != 0
    case XOR => was != (color == 1)
  }

  lemma DrawnBits(b: byte, k: nat, mode: Mode, color: int, i: nat)
    requires k < 8 && i < 8
    ensures Bit(Drawn(b, k, mode, color), i) <==> if i == k then Colored(Bit(b, k), mode, color) else Bit(b, i)
  {
    hide Or, And, Xor, Bit;
    Powers();
    PowerBit(k, i);
    MaskBit(8, k, i);
    OrBit(b, BitMask(k), i);
    AndBit(b, 255 - BitMask(k), i);
    XorBit(b, BitMask(k), i);
  }

  /** The frame after one pixel. */
  function WithPixel(f: seq<byte>, mode: Mode, p: Point, color: int): (g: seq<byte>)
    requires |f| == FRAME_SIZE && Safe(p)
    ensures |g| == FRAME_SIZE
  {
    if Admitted(p) then f[Index(p) := Drawn(f[Index(p)], p.y % 8, mode, color)] else f
  }

  lemma SamePlace(p: Point, q: Point)
    requires OnScreen(p) && OnScreen(q) && Index(p) == Index(q)
    ensures p.y % 8 == q.y % 8 ==> p == q
  {}

  /** A pixel on the screen changes its own bit and no other; one that is turned away changes nothing. */
  lemma PixelLit(f: seq<byte>, mode: Mode, p: Point, color: int, q: Point)
    requires |f| == FRAME_SIZE && Clear(p) && OnScreen(q)
    ensures Safe(p)
    ensures Lit(WithPixel(f, mode, p, color), q) <==> if p == q then Colored(Lit(f, q), mode, color) else Lit(f, q)
  {
    hide Bit, Drawn, Colored;
    SafePoints(p);
    SafePoints(q);
    if Admitted(p) && Index(p) == Index(q) {
      DrawnBits(f[Index(p)], p.y % 8, mode, color, q.y % 8);
      SamePlace(p, q);
    }
  }

  /** Column 128 is no column of its own: what is drawn there shows in column 0, one page below. */
  lemma ColumnBehind(f: seq<byte>, mode: Mode, y: int, color: int)
    requires |f| == FRAME_SIZE && 0 <= y < 24
    ensures WithPixel(f, mode, Point(128, y), color) == WithPixel(f, mode, Point(0, y + 8), color)
  {
    hide Drawn;
    assert (y + 8) / 8 == y / 8 + 1 && (y + 8) % 8 == y % 8;
  }

  lemma SameByte(f: seq<byte>, g: seq<byte>, i: nat)
    requires |f| == |g| == FRAME_SIZE && i < FRAME_SIZE && forall q: Point :: OnScreen(q) ==> (Lit(f, q) <==> Lit(g, q))
    ensures f[i] == g[i]
  {
    hide Bit;
    Powers();
    forall k | 0 <= k < 8
      ensures Bit(f[i], k) <==> Bit(g[i], k)
    {
      var q := Point(i % 128, i / 128 * 8 + k);
      Place(i, k);
      assert Lit(f, q) <==> Lit(g, q);
    }
    SameBits(f[i], g[i], 8);
  }

  lemma Place(i: nat, k: nat)
    requires i < FRAME_SIZE && k < 8
    ensures var q := Point(i % 128, i / 128 * 8 + k);
      OnScreen(q) && Index(q) == i && q.y % 8 == k
  {}

  /** The frame is what can be seen. */
  lemma SameFrame(f: seq<byte>, g: seq<byte>)
    requires |f| == |g| == FRAME_SIZE && forall q: Point :: OnScreen(q) ==> (Lit(f, q) <==> Lit(g, q))
    ensures f == g
  {
    hide Lit;
    forall i | 0 <= i < FRAME_SIZE
      ensures f[i] == g[i]
    {
      SameByte(f, g, i);
    }
  }

  // ----- Points one after the other -----

  predicate AllOnScreen(ps: seq<Point>) {
    forall i :: 0 <= i < |ps| ==> OnScreen(ps[i])
  }

  predicate AllClear(ps: seq<Point>) {
    forall i :: 0 <= i < |ps| ==> Clear(ps[i])
  }

  predicate AllSafe(ps: seq<Point>) {
    forall i :: 0 <= i < |ps| ==> Safe(ps[i])
  }

  function WithPoints(f: seq<byte>, mode: Mode, ps: seq<Point>, color: int): (g: seq<byte>)
    requires |f| == FRAME_SIZE && AllSafe(ps)
    ensures |g| == FRAME_SIZE
  {
    if ps == [] then f else WithPixel(WithPoints(f, mode, ps[..|ps| - 1], color), mode, ps[|ps| - 1], color)
  }

  function Count(ps: seq<Point>, q: Point): nat {
    if ps == [] then 0 else Count(ps[..|ps| - 1], q) + (if ps[|ps| - 1] == q then 1 else 0)
  }

  lemma {:induction false} Counted(ps: seq<Point>, q: Point)
    ensures Count(ps, q) > 0 <==> q in ps
  {
    if ps != [] {
      Counted(ps[..|ps| - 1], q);
      assert ps == ps[..|ps| - 1] + [ps[|ps| - 1]];
    }
  }

  lemma {:induction false} CountBoth(ps: seq<Point>, qs: seq<Point>, q: Point)
    ensures Count(ps + qs, q) == Count(ps, q) + Count(qs, q)
    decreases |qs|
  {
    if qs == [] {
      assert ps + qs == ps;
    } else {
      CountBoth(ps, qs[..|qs| - 1], q);
      assert (ps + qs)[..|ps| + |qs| - 1] == ps + qs[..|qs| - 1];
    }
  }

  lemma Safes(ps: seq<Point>)
    requires AllClear(ps)
    ensures AllSafe(ps)
  {
    forall i | 0 <= i < |ps|
      ensures Safe(ps[i])
    {
      SafePoints(ps[i]);
    }
  }

  /** The point of the screen at which a point in the frame shows. */
  function Shown(p: Point): Point {
    if p.x == 128 && 0 <= p.y < 24 then Point(0, p.y + 8) else p
  }

  function AllShown(ps: seq<Point>): (qs: seq<Point>)
    ensures |qs| == |ps| && forall i :: 0 <= i < |ps| ==> qs[i] == Shown(ps[i])
  {
    seq(|ps|, i requires 0 <= i < |ps| => Shown(ps[i]))
  }

  lemma ShownClear(ps: seq<Point>)
    requires AllSafe(ps)
    ensures AllClear(AllShown(ps)) && AllSafe(AllShown(ps))
  {
    forall i | 0 <= i < |ps|
      ensures Clear(AllShown(ps)[i])
    {
      SafePoints(ps[i]);
      assert Safe(ps[i]);
    }
    Safes(AllShown(ps));
  }

  /** Drawing that stays in the frame is drawing on the screen, with column 128 eight rows down in column 0. */
  lemma {:induction false} DrawnAsShown(f: seq<byte>, mode: Mode, ps: seq<Point>, color: int)
    requires |f| == FRAME_SIZE && AllSafe(ps)
    ensures AllClear(AllShown(ps)) && AllSafe(AllShown(ps))
    ensures WithPoints(f, mode, ps, color) == WithPoints(f, mode, AllShown(ps), color)
  {
    hide WithPixel, Safe, Clear, Shown;
    ShownClear(ps);
    if ps != [] {
      var n := |ps| - 1;
      DrawnAsShown(f, mode, ps[..n], color);
      assert AllShown(ps)[..n] == AllShown(ps[..n]);
      PixelShown(WithPoints(f, mode, ps[..n], color), mode, ps[n], color);
    }
  }

  lemma PixelShown(f: seq<byte>, mode: Mode, p: Point, color: int)
    requires |f| == FRAME_SIZE && Safe(p) && Safe(Shown(p))
    ensures WithPixel(f, mode, p, color) == WithPixel(f, mode, Shown(p), color)
  {
    if p.x == 128 && 0 <= p.y < 24 {
      ColumnBehind(f, mode, p.y, color);
    }
  }

  /** Drawing sets, clears or leaves alone: normal drawing decides the bits of its points, and leaves the others. */
  lemma {:induction false} NormalLit(f: seq<byte>, ps: seq<Point>, color: int, q: Point)
    requires |f| == FRAME_SIZE && AllClear(ps) && OnScreen(q)
    ensures AllSafe(ps)
    ensures Lit(WithPoints(f, NORMAL, ps, color), q) <==> if q in ps then color != 0 else Lit(f, q)
  {
    hide Lit, WithPixel, Safe, Clear, Admitted;
    Safes(ps);
    if ps != [] {
      var n := |ps| - 1;
      NormalLit(f, ps[..n], color, q);
      PixelLit(WithPoints(f, NORMAL, ps[..n], color), NORMAL, ps[n], color, q);
      assert ps == ps[..n] + [ps[n]];
    }
  }

  /** Exclusive-or drawing flips a bit once for every time its point is drawn. */
  lemma {:induction false} XorLit(f: seq<byte>, ps: seq<Point>, q: Point)
    requires |f| == FRAME_SIZE && AllClear(ps) && OnScreen(q)
    ensures AllSafe(ps)
    ensures Lit(WithPoints(f, XOR, ps, 1), q) <==> Lit(f, q) != (Count(ps, q) % 2 == 1)
  {
    hide Lit, WithPixel, Safe, Clear, Admitted;
    Safes(ps);
    if ps != [] {
      var n := |ps| - 1;
      XorLit(f, ps[..n], q);
      PixelLit(WithPoints(f, XOR, ps[..n], 1), XOR, ps[n], 1, q);
    }
  }

  /** With another colour than 1, exclusive-or drawing does nothing. */
  lemma {:induction false} XorOther(f: seq<byte>, ps: seq<Point>, color: int)
    requires |f| == FRAME_SIZE && AllSafe(ps) && color != 1
    ensures WithPoints(f, XOR, ps, color) == f
  {
    if ps != [] {
      XorOther(f, ps[..|ps| - 1], color);
    }
  }

  /** Where a pixel is in the frame, as the display reads it: a byte stands for eight rows of a column, the top row in
      its lowest bit, and 128 columns make a page. */
  lemma OnePixel(f: seq<byte>, p: Point)
    requires |f| == 512 && OnScreen(p) && forall i :: 0 <= i < 512 ==> f[i] == 0
    ensures var g := WithPixel(f, NORMAL, p, 1);
      forall i :: 0 <= i < 512 ==> g[i] == if i == 128 * (p.y / 8) + p.x then Pow2(p.y % 8) else 0
  {
    hide Or;
    OrNothing(Pow2(p.y % 8));
    OrCommutes(0, Pow2(p.y % 8));
  }

  /** Drawing the same points twice in exclusive-or mode restores the frame, whatever the points in it are. */
  lemma XorTwice(f: seq<byte>, ps: seq<Point>)
    requires |f| == FRAME_SIZE && AllSafe(ps)
    ensures WithPoints(WithPoints(f, XOR, ps, 1), XOR, ps, 1) == f
  {
    hide Lit, WithPoints, Count, Clear;
    var qs, g := AllShown(ps), WithPoints(f, XOR, ps, 1);
    DrawnAsShown(f, XOR, ps, 1);
    DrawnAsShown(g, XOR, ps, 1);
    var h := WithPoints(g, XOR, qs, 1);
    forall q: Point | OnScreen(q)
      ensures Lit(h, q) <==> Lit(f, q)
    {
      XorLit(f, qs, q);
      XorLit(g, qs, q);
    }
    SameFrame(h, f);
  }

  // ----- The display -----

  class Screen {
    const buffer: array<byte>
    var drawMode: Mode

    ghost predicate Valid()
      reads this
    {
      buffer.Length == FRAME_SIZE
    }

    constructor ()
      ensures Valid() && fresh(buffer) && drawMode == NORMAL
      ensures forall i :: 0 <= i < FRAME_SIZE ==> buffer[i] == 0
    {
      buffer := new byte[FRAME_SIZE](_ => 0);
      drawMode := NORMAL;
    }

    /** The source's pixel. */
    method Pixel(x: int, y: int, color: int)
      requires Valid() && Safe(Point(x, y))
      modifies buffer
      ensures buffer[..] == WithPixel(old(buffer[..]), drawMode, Point(x, y), color)
    {
      hide Or, And, Xor, BitMask;
      if x > 128 || y > 32 || x < 0 || y < 0 {
        return;
      }
      var i, k := x + y / 8 * 128, y % 8;
      if drawMode == NORMAL {
        if color == 0 {
          buffer[i] := ClearBit(buffer[i], k);
        } else {
          buffer[i] := SetBit(buffer[i], k);
        }
      } else {
        if color == 1 {
          buffer[i] := FlipBit(buffer[i], k);
        }
      }
    }

    /** One more point of a shape. */
    method Plot(x: int, y: int, color: int, ghost f: seq<byte>, ghost ps: seq<Point>)
      requires Valid() && |f| == FRAME_SIZE && AllSafe(ps) && Safe(Point(x, y))
      requires buffer[..] == WithPoints(f, drawMode, ps, color)
      modifies buffer
      ensures AllSafe(ps + [Point(x, y)])
      ensures buffer[..] == WithPoints(f, drawMode, ps + [Point(x, y)], color)
    {
      hide WithPixel, Safe;
      ghost var qs := ps + [Point(x, y)];
      assert qs[..|qs| - 1] == ps;
      Pixel(x, y, color);
    }
  }
}
