/** The lines of UU code that carry a block of memory over the serial port, and how they are read. */
module IspWire {
  import opened Arithmetic
  import opened CStrings
  import opened UUencode

  datatype Decoded = Decoded(data: string) | Garbled

  function LineCount(size: nat): nat {
    size / LINE + (if size % LINE == 0 then 0 else 1)
  }

  /** Reading line by line to the end of the text: each line says how many bytes it holds. */
  function ReadLines(text: string): Decoded {
    if text == [] then Decoded("")
    else
      var len := text[0] as int - 0x20;
      if !(0 < len <= LINE) then Garbled
      else
        var n := Groups(len);
        if |text| < 4 * n + 3 || text[4 * n + 1..4 * n + 3] != "\r\n" then Garbled
        else
          match ReadLines(text[4 * n + 3..])
          case Garbled => Garbled
          case Decoded(rest) => Decoded(DecodeGroups(text[1..4 * n + 1], n)[..len] + rest)
  }

  /** The line for the bytes of d from `at` on, padded from what follows them. */
  function LineAt(d: string, at: nat, len: nat): string
    requires 0 < len <= LINE && at + len + 2 <= |d|
  {
    LineFits(len);
    Line(d[at..at + 3 * Groups(len)], len)
  }

  /** The lines for the bytes from 45 * i to size; two bytes behind them may be used as padding. */
  function LinesFrom(d: string, size: nat, i: nat): string
    requires size + 2 <= |d|
    decreases size - LINE * i
  {
    if size <= LINE * i then ""
    else if size - LINE * i <= LINE then LineAt(d, LINE * i, size - LINE * i)
    else LineAt(d, LINE * i, LINE) + LinesFrom(d, size, i + 1)
  }

  lemma LineRead(d: string, at: nat, len: nat, rest: string)
    requires 0 < len <= LINE && at + len + 2 <= |d| && Bytes(d)
    ensures ReadLines(LineAt(d, at, len) + rest) ==
      match ReadLines(rest) case Garbled => Garbled case Decoded(r) => Decoded(d[at..at + len] + r)
  {
    hide Line, DecodeGroups, EncodeGroups, Groups;
    LineFits(len);
    var n := Groups(len);
    var e := d[at..at + 3 * n];
    BytesPart(d, at, at + 3 * n);
    LineShape(e, len);
    var t := Line(e, len);
    var text := t + rest;
    assert text[0] == t[0];
    assert text[4 * n + 1..4 * n + 3] == "\r\n";
    assert text[1..4 * n + 1] == t[1..|t| - 2];
    assert text[4 * n + 3..] == rest;
    assert e[..len] == d[at..at + len];
  }

  /** Whatever the padding, the lines of a block are read as the block. */
  lemma {:induction false} LinesRead(d: string, size: nat, i: nat)
    requires size + 2 <= |d| && Bytes(d) && LINE * i <= size
    ensures ReadLines(LinesFrom(d, size, i)) == Decoded(d[LINE * i..size])
    decreases size - LINE * i
  {
    hide ReadLines, LineAt;
    EmptyRead();
    if LINE * i < size {
      var len := if size - LINE * i <= LINE then size - LINE * i else LINE;
      if len == size - LINE * i {
        LineRead(d, LINE * i, len, "");
        assert LineAt(d, LINE * i, len) + "" == LineAt(d, LINE * i, len);
        assert d[LINE * i..size] + "" == d[LINE * i..size];
      } else {
        LinesRead(d, size, i + 1);
        LineRead(d, LINE * i, LINE, LinesFrom(d, size, i + 1));
        assert d[LINE * i..LINE * (i + 1)] + d[LINE * (i + 1)..size] == d[LINE * i..size];
      }
    }
  }

  lemma EmptyRead()
    ensures ReadLines("") == Decoded("")
  {}

  /** Line i starts at offset 63 * i. */
  lemma {:induction false} LineOffsets(d: string, size: nat, i: nat)
    requires size + 2 <= |d| && Bytes(d) && LINE * i < size
    ensures var all := LinesFrom(d, size, 0);
      LINE_TEXT * i <= |all| && all[LINE_TEXT * i..] == LinesFrom(d, size, i)
  {
    hide LineAt;
    var all := LinesFrom(d, size, 0);
    if i > 0 {
      LineOffsets(d, size, i - 1);
      var k := LINE * (i - 1);
      var rest := LinesFrom(d, size, i - 1);
      FullLine(d, k);
      assert rest == LineAt(d, k, LINE) + LinesFrom(d, size, i);
      assert all[LINE_TEXT * i..] == rest[LINE_TEXT..];
    }
  }

  lemma FullLine(d: string, at: nat)
    requires at + LINE + 2 <= |d|
    ensures |LineAt(d, at, LINE)| == LINE_TEXT
  {}

  /** No line holds a NUL, or a CR before its end. */
  lemma LineClean(d: string, at: nat, len: nat)
    requires 0 < len <= LINE && at + len + 2 <= |d| && Bytes(d)
    ensures var t := LineAt(d, at, len);
      && |t| == 4 * Groups(len) + 3 && NulFree(t) && t[|t| - 2..] == "\r\n"
      && (forall k :: 0 <= k < |t| - 2 ==> Printing(t[k]))
      && t[0] as int - 0x20 == len
      && DecodeGroups(t[1..|t| - 2], Groups(len))[..len] == d[at..at + len]
  {
    hide DecodeGroups, EncodeGroups, Groups, Line;
    LineFits(len);
    var e := d[at..at + 3 * Groups(len)];
    BytesPart(d, at, at + 3 * Groups(len));
    LineShape(e, len);
    assert e[..len] == d[at..at + len];
  }

  // ----- What ISP_WriteToRAM sends -----

  /** The last line is encoded with the remainder of the size as its length. A remainder of 0 is refused, and the line
      before is sent again. */
  function SentFrom(d: string, size: nat, i: nat): string
    requires size + 2 <= |d| && LINE * i < size && (size % LINE == 0 ==> size >= 2 * LINE)
    decreases size - LINE * i
  {
    if size > LINE * (i + 1) then LineAt(d, LINE * i, LINE) + SentFrom(d, size, i + 1)
    else if size % LINE != 0 then LineAt(d, LINE * i, size % LINE)
    else LineAt(d, LINE * i - LINE, LINE)
  }

  lemma LastPiece(size: nat, i: nat)
    requires LINE * i < size <= LINE * (i + 1)
    ensures size % LINE == if size == LINE * (i + 1) then 0 else size - LINE * i
    ensures LineCount(size) == i + 1
  {
    if size == LINE * (i + 1) {
      UniqueRemainder(size, LINE, i + 1, 0);
    } else {
      UniqueRemainder(size, LINE, i, size - LINE * i);
    }
  }

  /** A size that is no multiple of 45 is sent as it should be. */
  lemma {:induction false} SentIsLines(d: string, size: nat, i: nat)
    requires size + 2 <= |d| && LINE * i < size && size % LINE != 0
    ensures SentFrom(d, size, i) == LinesFrom(d, size, i)
    decreases size - LINE * i
  {
    hide LineAt;
    if size > LINE * (i + 1) {
      SentIsLines(d, size, i + 1);
    } else {
      LastPiece(size, i);
    }
  }

  /** Of a multiple of 45 the last 45 bytes never leave: those before them arrive twice. */
  lemma {:induction false} SentTwice(d: string, size: nat, i: nat)
    requires size + 2 <= |d| && Bytes(d) && LINE * i < size && size % LINE == 0 && size >= 2 * LINE
    ensures ReadLines(SentFrom(d, size, i)) == Decoded(d[LINE * i..size - LINE] + d[size - 2 * LINE..size - LINE])
    decreases size - LINE * i
  {
    hide LineAt, ReadLines;
    if size > LINE * (i + 1) {
      SentTwice(d, size, i + 1);
      LineRead(d, LINE * i, LINE, SentFrom(d, size, i + 1));
      MultipleBelow(size, i + 1);
      var last := d[size - 2 * LINE..size - LINE];
      assert d[LINE * i..LINE * (i + 1)] + (d[LINE * (i + 1)..size - LINE] + last) == d[LINE * i..size - LINE] + last;
    } else {
      EmptyRead();
      LastPiece(size, i);
      LineRead(d, LINE * i - LINE, LINE, "");
      assert LineAt(d, LINE * i - LINE, LINE) + "" == LineAt(d, LINE * i - LINE, LINE);
      assert d[size - 2 * LINE..size - LINE] + "" == [] + d[size - 2 * LINE..size - LINE];
    }
  }

  lemma MultipleBelow(size: nat, i: nat)
    requires LINE * i < size && size % LINE == 0
    ensures LINE * i <= size - LINE
  {
    var q := size / LINE;
    assert size == LINE * q;
  }

  /** The target gets the block exactly when the size is no multiple of 45 or the last two lines are the same. */
  lemma SentRight(d: string, size: nat)
    requires 0 < size && size + 2 <= |d| && Bytes(d) && (size % LINE == 0 ==> size >= 2 * LINE)
    ensures ReadLines(SentFrom(d, size, 0)) == Decoded(d[..size]) <==>
      size % LINE != 0 || d[size - LINE..size] == d[size - 2 * LINE..size - LINE]
  {
    hide ReadLines, SentFrom, LinesFrom;
    if size % LINE != 0 {
      SentIsLines(d, size, 0);
      LinesRead(d, size, 0);
      assert d[0..size] == d[..size];
    } else {
      SentTwice(d, size, 0);
      var n := size - LINE;
      assert d[..size] == d[0..n] + d[n..size];
      SameEnd(d[0..n], d[size - 2 * LINE..n], d[n..size]);
    }
  }

  /** A block of four lines that does not arrive: the last one differs from the one before. */
  lemma LastLineLost()
    ensures var d := seq(182, i => if i < 3 * LINE then 'a' else 'b');
      Bytes(d) && ReadLines(SentFrom(d, 180, 0)) != Decoded(d[..180])
  {
    hide ReadLines, SentFrom;
    var d := seq(182, i => if i < 3 * LINE then 'a' else 'b');
    assert d[3 * LINE..180][0] == 'b' && d[2 * LINE..3 * LINE][0] == 'a';
    SentRight(d, 180);
  }

  lemma SameEnd(a: string, b: string, c: string)
    ensures a + b == a + c <==> b == c
  {
    assert (a + b)[|a|..] == b && (a + c)[|a|..] == c;
  }
}
