/** The UU code of ISP data lines. Characters are the target's unsigned bytes. */
module UUencode {
  import opened Bits
  import opened CStrings

  predicate Bytes(s: string) {
    forall i :: 0 <= i < |s| ==> s[i] as int < 256
  }

  const LINE: nat := 45

  /** What a line of 45 bytes takes: its length, 15 groups of four, and the line end. */
  const LINE_TEXT: nat := 63

  function EncodeByte(a: nat): nat {
    if a == 0 then 0x60 else a + 0x20
  }

  /** Only the low byte of the macro's value is ever used. */
  function DecodeByte(a: nat): (d: nat)
    ensures d < 256
  {
    (if a == 0 then 0x60 else a - 0x20) % 256
  }

  /** What assigning to a char keeps. */
  function Narrow(n: nat): (c: char)
    ensures c as int == n % 256
  {
    (n % 256) as char
  }

  function EncodeGroup(x: char, y: char, z: char): (e: string)
    ensures |e| == 4
  {
    var a, b, c := x as nat, y as nat, z as nat;
    [ Narrow(EncodeByte(Shr(And(a, 0xFC), 2))),
      Narrow(EncodeByte(And(a, 0x03) * 16 + Shr(And(b, 0xF0), 4))),
      Narrow(EncodeByte(And(b, 0x0F) * 4 + Shr(And(c, 0xC0), 6))),
      Narrow(EncodeByte(And(c, 0x3F))) ]
  }

  function DecodeGroup(e: string): (d: string)
    requires |e| == 4
    ensures |d| == 3 && Bytes(d)
  {
    var a, b, c, d := DecodeByte(e[0] as nat), DecodeByte(e[1] as nat), DecodeByte(e[2] as nat),
      DecodeByte(e[3] as nat);
    [ Narrow(a * 4 + Shr(And(b, 0x30), 4)),
      Narrow(And(b, 0x0F) * 16 + Shr(And(c, 0x3C), 2)),
      Narrow(And(c, 0x03) * 64 + And(d, 0x3F)) ]
  }

  // ----- The masks as arithmetic -----

  lemma EncodeMasks(x: nat)
    requires x < 256
    ensures Shr(And(x, 0xFC), 2) == x / 4 && And(x, 0x03) == x % 4
    ensures Shr(And(x, 0xF0), 4) == x / 16 && And(x, 0x0F) == x % 16
    ensures Shr(And(x, 0xC0), 6) == x / 64 && And(x, 0x3F) == x % 64
  {
    hide And, Shr, Pow2;
    Powers();
    FieldMask(x, 6, 2, 0xFC);
    FieldMask(x, 4, 4, 0xF0);
    FieldMask(x, 2, 6, 0xC0);
    LowMask(x, 2);
    LowMask(x, 4);
    LowMask(x, 6);
    ShrDivides(x, 2);
    ShrDivides(x, 4);
    ShrDivides(x, 6);
  }

  lemma DecodeMasks(x: nat)
    ensures Shr(And(x, 0x30), 4) == x / 16 % 4 && And(x, 0x0F) == x % 16
    ensures Shr(And(x, 0x3C), 2) == x / 4 % 16 && And(x, 0x03) == x % 4
    ensures And(x, 0x3F) == x % 64
  {
    hide And, Shr, Pow2;
    Powers();
    FieldMask(x, 2, 4, 0x30);
    FieldMask(x, 4, 2, 0x3C);
    LowMask(x, 2);
    LowMask(x, 4);
    LowMask(x, 6);
    ShrDivides(x, 2);
    ShrDivides(x, 4);
  }

  // ----- Groups -----

  /** Six bits, as a character that can be sent. */
  predicate Printing(c: char) {
    0x21 <= c as int <= 0x60
  }

  lemma ByteRoundTrip(v: nat)
    requires v < 64
    ensures Printing(Narrow(EncodeByte(v)))
    ensures DecodeByte(Narrow(EncodeByte(v)) as nat) == if v == 0 then 64 else v
  {}

  /** The arithmetic of the four sextets. */
  lemma EncodedGroup(x: char, y: char, z: char)
    requires x as int < 256 && y as int < 256 && z as int < 256
    ensures var a, b, c := x as nat, y as nat, z as nat;
      EncodeGroup(x, y, z) == [Narrow(EncodeByte(a / 4)), Narrow(EncodeByte(a % 4 * 16 + b / 16)),
                               Narrow(EncodeByte(b % 16 * 4 + c / 64)), Narrow(EncodeByte(c % 64))]
  {
    hide And, Shr, Narrow, EncodeByte;
    EncodeMasks(x as nat);
    EncodeMasks(y as nat);
    EncodeMasks(z as nat);
  }

  lemma DecodedGroup(e: string)
    requires |e| == 4
    ensures var a, b, c, d :=
      DecodeByte(e[0] as nat), DecodeByte(e[1] as nat), DecodeByte(e[2] as nat), DecodeByte(e[3] as nat);
      DecodeGroup(e) == [Narrow(a * 4 + b / 16 % 4), Narrow(b % 16 * 16 + c / 4 % 16), Narrow(c % 4 * 64 + d % 64)]
  {
    hide And, Shr, Narrow, DecodeByte;
    DecodeMasks(DecodeByte(e[1] as nat));
    DecodeMasks(DecodeByte(e[2] as nat));
    DecodeMasks(DecodeByte(e[3] as nat));
  }

  /** 64, the value of the character for zero, stands for zero in every place it is used. */
  predicate Sextet(s: nat, v: nat) {
    v < 64 && (s == v || (s == 64 && v == 0))
  }

  lemma FirstByte(a: nat, b: nat, s: nat, t: nat)
    requires a < 256 && Sextet(s, a / 4) && Sextet(t, a % 4 * 16 + b / 16) && b < 256
    ensures (s * 4 + t / 16 % 4) % 256 == a
  {
    var q, r := a / 4, a % 4;
    assert t / 16 % 4 == r;
    assert s * 4 % 256 == q * 4;
  }

  lemma SecondByte(a: nat, b: nat, c: nat, t: nat, u: nat)
    requires b < 256 && c < 256 && Sextet(t, a % 4 * 16 + b / 16) && Sextet(u, b % 16 * 4 + c / 64)
    ensures (t % 16 * 16 + u / 4 % 16) % 256 == b
  {
    var q, r := b / 16, b % 16;
    assert t % 16 == q;
    assert u / 4 % 16 == r;
  }

  lemma ThirdByte(b: nat, c: nat, u: nat, v: nat)
    requires c < 256 && Sextet(u, b % 16 * 4 + c / 64) && Sextet(v, c % 64)
    ensures (u % 4 * 64 + v % 64) % 256 == c
  {
    var q, r := c / 64, c % 64;
    assert u % 4 == q;
    assert v % 64 == r;
  }

  lemma GroupRoundTrip(x: char, y: char, z: char)
    requires x as int < 256 && y as int < 256 && z as int < 256
    ensures DecodeGroup(EncodeGroup(x, y, z)) == [x, y, z]
    ensures forall i :: 0 <= i < 4 ==> Printing(EncodeGroup(x, y, z)[i])
  {
    hide EncodeGroup, DecodeGroup, EncodeByte, DecodeByte, Printing;
    var a, b, c := x as nat, y as nat, z as nat;
    var e := EncodeGroup(x, y, z);
    EncodedGroup(x, y, z);
    DecodedGroup(e);
    ByteRoundTrip(a / 4);
    ByteRoundTrip(a % 4 * 16 + b / 16);
    ByteRoundTrip(b % 16 * 4 + c / 64);
    ByteRoundTrip(c % 64);
    var s, t, u, v := DecodeByte(e[0] as nat), DecodeByte(e[1] as nat), DecodeByte(e[2] as nat),
      DecodeByte(e[3] as nat);
    FirstByte(a, b, s, t);
    SecondByte(a, b, c, t, u);
    ThirdByte(b, c, u, v);
  }

  /** The digit that a character stands for. */
  function Digit(c: char): nat {
    (c as int - 0x20) % 64
  }

  lemma DigitOf(v: nat)
    requires v < 64
    ensures Digit(Narrow(EncodeByte(v))) == v
  {}

  /** The four characters are the three bytes, read as one number, written in base 64; 0 is sent as 0x60, not as a
      blank. */
  lemma GroupIsNumber(x: char, y: char, z: char)
    requires x as int < 256 && y as int < 256 && z as int < 256
    ensures var e := EncodeGroup(x, y, z);
      && (forall i :: 0 <= i < 4 ==> 0x21 <= e[i] as int <= 0x60)
      && Digit(e[0]) * 0x4_0000 + Digit(e[1]) * 0x1000 + Digit(e[2]) * 0x40 + Digit(e[3]) ==
         x as int * 0x1_0000 + y as int * 0x100 + z as int
  {
    hide EncodeGroup, EncodeByte, Digit;
    var a, b, c := x as nat, y as nat, z as nat;
    EncodedGroup(x, y, z);
    GroupRoundTrip(x, y, z);
    DigitOf(a / 4);
    DigitOf(a % 4 * 16 + b / 16);
    DigitOf(b % 16 * 4 + c / 64);
    DigitOf(c % 64);
  }

  // ----- Lines -----

  function Groups(len: nat): nat {
    len / 3 + (if len % 3 == 0 then 0 else 1)
  }

  function EncodeGroups(d: string, n: nat): (t: string)
    requires |d| == 3 * n
    ensures |t| == 4 * n
  {
    if n == 0 then [] else EncodeGroups(d[..3 * n - 3], n - 1) + EncodeGroup(d[3 * n - 3], d[3 * n - 2], d[3 * n - 1])
  }

  function DecodeGroups(t: string, n: nat): (d: string)
    requires |t| == 4 * n
    ensures |d| == 3 * n && Bytes(d)
  {
    if n == 0 then [] else DecodeGroups(t[..4 * n - 4], n - 1) + DecodeGroup(t[4 * n - 4..])
  }

  lemma {:induction false} GroupsRoundTrip(d: string, n: nat)
    requires |d| == 3 * n && Bytes(d)
    ensures DecodeGroups(EncodeGroups(d, n), n) == d
    ensures forall i :: 0 <= i < 4 * n ==> Printing(EncodeGroups(d, n)[i])
  {
    hide EncodeGroup, DecodeGroup;
    if n != 0 {
      var k := 3 * n - 3;
      var front, e := EncodeGroups(d[..k], n - 1), EncodeGroup(d[k], d[k + 1], d[k + 2]);
      GroupsRoundTrip(d[..k], n - 1);
      GroupRoundTrip(d[k], d[k + 1], d[k + 2]);
      assert (front + e)[..|front|] == front && (front + e)[|front|..] == e;
      assert d == d[..k] + [d[k], d[k + 1], d[k + 2]];
    }
  }

  /** The line for len bytes; d holds those and, to fill the last group, whatever follows them in memory. */
  function Line(d: string, len: nat): (t: string)
    requires 0 < len <= LINE && |d| == 3 * Groups(len)
    ensures |t| == 4 * Groups(len) + 3
  {
    [(len + 0x20) as char] + EncodeGroups(d, Groups(len)) + "\r\n"
  }

  lemma LineShape(d: string, len: nat)
    requires 0 < len <= LINE && |d| == 3 * Groups(len) && Bytes(d)
    ensures var t := Line(d, len);
      && NulFree(t) && t[|t| - 2] == '\r' && t[|t| - 1] == '\n'
      && (forall i :: 0 <= i < |t| - 2 ==> Printing(t[i]))
      && (len == LINE ==> |t| == LINE_TEXT)
      && t[0] as int - 0x20 == len
      && DecodeGroups(t[1..|t| - 2], Groups(len)) == d
  {
    hide EncodeGroups, DecodeGroups;
    var t, n := Line(d, len), Groups(len);
    GroupsRoundTrip(d, n);
    assert t[1..|t| - 2] == EncodeGroups(d, n);
    forall i | 0 <= i < |t| - 2
      ensures Printing(t[i])
    {
      if i > 0 {
        assert t[i] == EncodeGroups(d, n)[i - 1];
      }
    }
  }

  // ----- The functions of the source -----

  method UUencodeBase(input: array<char>, i: nat, out: array<char>, o: nat)
    requires i + 3 <= input.Length && o + 4 <= out.Length && input != out
    modifies out
    ensures out[..o + 4] == old(out[..o]) + EncodeGroup(input[i], input[i + 1], input[i + 2])
  {
    hide And, Shr;
    var e := EncodeGroup(input[i], input[i + 1], input[i + 2]);
    out[o], out[o + 1], out[o + 2], out[o + 3] := e[0], e[1], e[2], e[3];
  }

  method UUdecodeBase(input: array<char>, i: nat, out: array<char>, o: nat)
    requires i + 4 <= input.Length && o + 3 <= out.Length && input != out
    modifies out
    ensures out[..o + 3] == old(out[..o]) + DecodeGroup(input[i..i + 4])
  {
    hide And, Shr;
    var d := DecodeGroup(input[i..i + 4]);
    out[o], out[o + 1], out[o + 2] := d[0], d[1], d[2];
  }

  /** Encodes len bytes from `at` on. The last group reads up to two bytes behind them. */
  method UUencodeLine(input: array<char>, at: nat, output: array<char>, len: nat) returns (ret: int)
    requires input != output && output.Length > LINE_TEXT
    requires len <= LINE ==> at + 3 * Groups(len) <= input.Length
    requires Bytes(input[..])
    modifies output
    ensures len == 0 || len > 45 ==> ret == -1 && output[..] == old(output[..])
    ensures 0 < len <= 45 ==> ret == 1 && Holds(output, 0, Line(input[at..at + 3 * Groups(len)], len))
  {
    if len == 0 || len > LINE {
      return -1;
    }
    hide Groups, Line, Bytes;
    LineFits(len);
    ghost var d := input[at..at + 3 * Groups(len)];
    BytesPart(input[..], at, at + 3 * Groups(len));
    assert d == input[..][at..at + 3 * Groups(len)];
    WriteLine(input, at, output, len, d);
    ret := 1;
  }

  method WriteLine(input: array<char>, at: nat, output: array<char>, len: nat, ghost d: string)
    requires input != output && output.Length > LINE_TEXT && 0 < len <= LINE && at + 3 * Groups(len) <= input.Length
    requires d == input[at..at + 3 * Groups(len)] && Bytes(d)
    modifies output
    ensures Holds(output, 0, Line(d, len))
  {
    hide EncodeGroups, Groups, Line, Bytes, Holds;
    LineFits(len);
    var num := Groups(len);
    output[0] := (len + 0x20) as char;
    EncodeBody(input, at, output, num, d);
    LineParts(d, len);
    EndLine(output, 4 * num + 1, Line(d, len));
  }

  method EndLine(output: array<char>, at: nat, ghost line: string)
    requires at + 2 < output.Length && output[..at] + "\r\n" == line && NulFree(line)
    modifies output
    ensures Holds(output, 0, line)
  {
    var p := Put(output, at, "\r\n");
    assert output[0..p] == output[..p];
    Terminate(output, p, 0, line);
  }

  lemma LineFits(len: nat)
    requires len <= LINE
    ensures Groups(len) <= 15 && len <= 3 * Groups(len) <= len + 2 && (len == LINE ==> Groups(len) == 15)
  {}

  lemma LineParts(d: string, len: nat)
    requires 0 < len <= LINE && |d| == 3 * Groups(len) && Bytes(d)
    ensures NulFree(Line(d, len)) && Line(d, len) == [(len + 0x20) as char] + EncodeGroups(d, Groups(len)) + "\r\n"
  {
    LineShape(d, len);
  }

  lemma BytesPart(s: string, i: nat, j: nat)
    requires Bytes(s) && i <= j <= |s|
    ensures Bytes(s[i..j])
  {}

  method EncodeBody(input: array<char>, at: nat, output: array<char>, num: nat, ghost d: string)
    requires input != output && output.Length > 4 * num && at + 3 * num <= input.Length && d == input[at..at + 3 * num]
    modifies output
    ensures output[..4 * num + 1] == old(output[..1]) + EncodeGroups(d, num)
  {
    hide EncodeGroups, EncodeGroup;
    EncodeNothing();
    for i := 0 to num
      invariant output[..4 * i + 1] == old(output[..1]) + EncodeGroups(d[..3 * i], i)
    {
      UUencodeBase(input, at + 3 * i, output, 4 * i + 1);
      EncodeNext(d, i);
    }
    assert d[..3 * num] == d;
  }

  lemma EncodeNothing()
    ensures EncodeGroups([], 0) == []
  {}

  lemma EncodeNext(d: string, i: nat)
    requires 3 * i + 3 <= |d|
    ensures EncodeGroups(d[..3 * (i + 1)], i + 1) ==
      EncodeGroups(d[..3 * i], i) + EncodeGroup(d[3 * i], d[3 * i + 1], d[3 * i + 2])
  {
    hide EncodeGroup;
    assert d[..3 * (i + 1)][..3 * i] == d[..3 * i];
  }

  lemma DecodeNothing()
    ensures DecodeGroups([], 0) == []
  {}

  lemma DecodeNext(t: string, i: nat)
    requires 4 * i + 4 <= |t|
    ensures DecodeGroups(t[..4 * (i + 1)], i + 1) == DecodeGroups(t[..4 * i], i) + DecodeGroup(t[4 * i..4 * i + 4])
  {
    hide DecodeGroup;
    assert t[..4 * (i + 1)][..4 * i] == t[..4 * i];
    assert t[..4 * (i + 1)][4 * i..] == t[4 * i..4 * i + 4];
  }

  /** Decodes the line at `at`. Up to two bytes and a terminator land behind the bytes decoded. */
  method UUdecodeLine(input: array<char>, at: nat, output: array<char>, o: nat) returns (ok: bool)
    requires input != output && at < input.Length
    requires var len := input[at] as int - 0x20;
      0 < len <= LINE ==> at + 1 + 4 * Groups(len) <= input.Length && o + 3 * Groups(len) < output.Length
    modifies output
    ensures var len := input[at] as int - 0x20;
      && (ok <==> 0 < len <= 45)
      && (!ok ==> output[..] == old(output[..]))
      && (ok ==> output[..o + len] ==
                 old(output[..o]) + DecodeGroups(input[at + 1..at + 1 + 4 * Groups(len)], Groups(len))[..len])
  {
    hide DecodeGroups, Groups;
    var len := input[at] as int - 0x20;
    if len <= 0 || len > LINE {
      return false;
    }
    LineFits(len);
    var num := Groups(len);
    ghost var t := input[at + 1..at + 1 + 4 * num];
    ghost var before := output[..o];
    DecodeBody(input, at + 1, output, o, num, t);
    Cut(output[..o + 3 * num], before, DecodeGroups(t, num), len);
    assert output[..o + len] == output[..o + 3 * num][..o + len];
    output[o + len] := '\0';
    ok := true;
  }

  lemma Cut(s: string, before: string, d: string, k: nat)
    requires s == before + d && k <= |d|
    ensures s[..|before| + k] == before + d[..k]
  {}

  method DecodeBody(input: array<char>, at: nat, output: array<char>, o: nat, num: nat, ghost t: string)
    requires input != output && at + 4 * num <= input.Length && o + 3 * num <= output.Length &&
      t == input[at..at + 4 * num]
    modifies output
    ensures output[..o + 3 * num] == old(output[..o]) + DecodeGroups(t, num)
  {
    hide DecodeGroups, DecodeGroup;
    DecodeNothing();
    for i := 0 to num
      invariant output[..o + 3 * i] == old(output[..o]) + DecodeGroups(t[..4 * i], i)
    {
      UUdecodeBase(input, at + 4 * i, output, o + 3 * i);
      DecodeNext(t, i);
      assert input[at + 4 * i..at + 4 * i + 4] == t[4 * i..4 * i + 4];
    }
    assert t[..4 * num] == t;
  }
}
