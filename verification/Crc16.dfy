/** CRC-16 by table, against the bit-serial register of section 2.5.1.2 of MODBUS over Serial Line V1.02. */
module Crc16 {

  // ----- The bit-serial register -----

  const POLYNOMIAL: bv16 := 0xA001

  /** Addition of registers, bit by bit. */
  function Add(a: bv16, b: bv16): bv16 {
    a ^ b
  }

  /** A byte as the low half of a register. */
  function Wide(c: bv8): (r: bv16)
    ensures r < 256
  {
    c as bv16
  }

  /** One shift to the right; the bit that falls out feeds the polynomial back. */
  function Shift(r: bv16): bv16 {
    if r & 1 == 1 then Add(r >> 1, POLYNOMIAL) else r >> 1
  }

  function Shift4(r: bv16): bv16 {
    Shift(Shift(Shift(Shift(r))))
  }

  function Shift8(r: bv16): bv16 {
    Shift4(Shift4(r))
  }

  /** A byte is added into the low end of the register, which is then shifted eight times. */
  function Feed(crc: bv16, c: bv8): bv16 {
    Shift8(Add(crc, Wide(c)))
  }

  /** The register after a message. */
  function Serial(crc: bv16, msg: seq<bv8>): bv16 {
    if msg == [] then crc else Feed(Serial(crc, msg[..|msg| - 1]), msg[|msg| - 1])
  }

  // ----- The table, in its rows -----

  const TABLE: seq<seq<bv16>> := [
    [0x0000, 0xC0C1, 0xC181, 0x0140, 0xC301, 0x03C0, 0x0280, 0xC241],
    [0xC601, 0x06C0, 0x0780, 0xC741, 0x0500, 0xC5C1, 0xC481, 0x0440],
    [0xCC01, 0x0CC0, 0x0D80, 0xCD41, 0x0F00, 0xCFC1, 0xCE81, 0x0E40],
    [0x0A00, 0xCAC1, 0xCB81, 0x0B40, 0xC901, 0x09C0, 0x0880, 0xC841],
    [0xD801, 0x18C0, 0x1980, 0xD941, 0x1B00, 0xDBC1, 0xDA81, 0x1A40],
    [0x1E00, 0xDEC1, 0xDF81, 0x1F40, 0xDD01, 0x1DC0, 0x1C80, 0xDC41],
    [0x1400, 0xD4C1, 0xD581, 0x1540, 0xD701, 0x17C0, 0x1680, 0xD641],
    [0xD201, 0x12C0, 0x1380, 0xD341, 0x1100, 0xD1C1, 0xD081, 0x1040],
    [0xF001, 0x30C0, 0x3180, 0xF141, 0x3300, 0xF3C1, 0xF281, 0x3240],
    [0x3600, 0xF6C1, 0xF781, 0x3740, 0xF501, 0x35C0, 0x3480, 0xF441],
    [0x3C00, 0xFCC1, 0xFD81, 0x3D40, 0xFF01, 0x3FC0, 0x3E80, 0xFE41],
    [0xFA01, 0x3AC0, 0x3B80, 0xFB41, 0x3900, 0xF9C1, 0xF881, 0x3840],
    [0x2800, 0xE8C1, 0xE981, 0x2940, 0xEB01, 0x2BC0, 0x2A80, 0xEA41],
    [0xEE01, 0x2EC0, 0x2F80, 0xEF41, 0x2D00, 0xEDC1, 0xEC81, 0x2C40],
    [0xE401, 0x24C0, 0x2580, 0xE541, 0x2700, 0xE7C1, 0xE681, 0x2640],
    [0x2200, 0xE2C1, 0xE381, 0x2340, 0xE101, 0x21C0, 0x2080, 0xE041],
    [0xA001, 0x60C0, 0x6180, 0xA141, 0x6300, 0xA3C1, 0xA281, 0x6240],
    [0x6600, 0xA6C1, 0xA781, 0x6740, 0xA501, 0x65C0, 0x6480, 0xA441],
    [0x6C00, 0xACC1, 0xAD81, 0x6D40, 0xAF01, 0x6FC0, 0x6E80, 0xAE41],
    [0xAA01, 0x6AC0, 0x6B80, 0xAB41, 0x6900, 0xA9C1, 0xA881, 0x6840],
    [0x7800, 0xB8C1, 0xB981, 0x7940, 0xBB01, 0x7BC0, 0x7A80, 0xBA41],
    [0xBE01, 0x7EC0, 0x7F80, 0xBF41, 0x7D00, 0xBDC1, 0xBC81, 0x7C40],
    [0xB401, 0x74C0, 0x7580, 0xB541, 0x7700, 0xB7C1, 0xB681, 0x7640],
    [0x7200, 0xB2C1, 0xB381, 0x7340, 0xB101, 0x71C0, 0x7080, 0xB041],
    [0x5000, 0x90C1, 0x9181, 0x5140, 0x9301, 0x53C0, 0x5280, 0x9241],
    [0x9601, 0x56C0, 0x5780, 0x9741, 0x5500, 0x95C1, 0x9481, 0x5440],
    [0x9C01, 0x5CC0, 0x5D80, 0x9D41, 0x5F00, 0x9FC1, 0x9E81, 0x5E40],
    [0x5A00, 0x9AC1, 0x9B81, 0x5B40, 0x9901, 0x59C0, 0x5880, 0x9841],
    [0x8801, 0x48C0, 0x4980, 0x8941, 0x4B00, 0x8BC1, 0x8A81, 0x4A40],
    [0x4E00, 0x8EC1, 0x8F81, 0x4F40, 0x8D01, 0x4DC0, 0x4C80, 0x8C41],
    [0x4400, 0x84C1, 0x8581, 0x4540, 0x8701, 0x47C0, 0x4680, 0x8641],
    [0x8201, 0x42C0, 0x4380, 0x8341, 0x4100, 0x81C1, 0x8081, 0x4040]
  ]

  /** The entry for a byte. */
  function Entry(k: bv16): bv16
    requires k < 256
  {
    TABLE[(k >> 3) as int][(k & 7) as int]
  }

  /** The only values with the same high part. */
  lemma InRow(k: bv16, b: bv16)
    requires k >> 3 == b >> 3 && b & 7 == 0
    ensures k == b || k == b | 1 || k == b | 2 || k == b | 3 || k == b | 4 || k == b | 5 || k == b | 6 || k == b | 7
  {}

  lemma Rows0(k: bv16)
    requires k >> 4 == 0
    ensures Entry(k) == Shift8(k)
  {
    InRow(k, if k & 8 == 0 then 0 else 8);
    var row := TABLE[if k & 8 == 0 then 0 else 1];
  }

  lemma Rows1(k: bv16)
    requires k >> 4 == 1
    ensures Entry(k) == Shift8(k)
  {
    InRow(k, if k & 8 == 0 then 16 else 24);
    var row := TABLE[if k & 8 == 0 then 2 else 3];
  }

  lemma Rows2(k: bv16)
    requires k >> 4 == 2
    ensures Entry(k) == Shift8(k)
  {
    InRow(k, if k & 8 == 0 then 32 else 40);
    var row := TABLE[if k & 8 == 0 then 4 else 5];
  }

  lemma Rows3(k: bv16)
    requires k >> 4 == 3
    ensures Entry(k) == Shift8(k)
  {
    InRow(k, if k & 8 == 0 then 48 else 56);
    var row := TABLE[if k & 8 == 0 then 6 else 7];
  }

  lemma Rows4(k: bv16)
    requires k >> 4 == 4
    ensures Entry(k) == Shift8(k)
  {
    InRow(k, if k & 8 == 0 then 64 else 72);
    var row := TABLE[if k & 8 == 0 then 8 else 9];
  }

  lemma Rows5(k: bv16)
    requires k >> 4 == 5
    ensures Entry(k) == Shift8(k)
  {
    InRow(k, if k & 8 == 0 then 80 else 88);
    var row := TABLE[if k & 8 == 0 then 10 else 11];
  }

  lemma Rows6(k: bv16)
    requires k >> 4 == 6
    ensures Entry(k) == Shift8(k)
  {
    InRow(k, if k & 8 == 0 then 96 else 104);
    var row := TABLE[if k & 8 == 0 then 12 else 13];
  }

  lemma Rows7(k: bv16)
    requires k >> 4 == 7
    ensures Entry(k) == Shift8(k)
  {
    InRow(k, if k & 8 == 0 then 112 else 120);
    var row := TABLE[if k & 8 == 0 then 14 else 15];
  }

  lemma Rows8(k: bv16)
    requires k >> 4 == 8
    ensures Entry(k) == Shift8(k)
  {
    InRow(k, if k & 8 == 0 then 128 else 136);
    var row := TABLE[if k & 8 == 0 then 16 else 17];
  }

  lemma Rows9(k: bv16)
    requires k >> 4 == 9
    ensures Entry(k) == Shift8(k)
  {
    InRow(k, if k & 8 == 0 then 144 else 152);
    var row := TABLE[if k & 8 == 0 then 18 else 19];
  }

  lemma Rows10(k: bv16)
    requires k >> 4 == 10
    ensures Entry(k) == Shift8(k)
  {
    InRow(k, if k & 8 == 0 then 160 else 168);
    var row := TABLE[if k & 8 == 0 then 20 else 21];
  }

  lemma Rows11(k: bv16)
    requires k >> 4 == 11
    ensures Entry(k) == Shift8(k)
  {
    InRow(k, if k & 8 == 0 then 176 else 184);
    var row := TABLE[if k & 8 == 0 then 22 else 23];
  }

  lemma Rows12(k: bv16)
    requires k >> 4 == 12
    ensures Entry(k) == Shift8(k)
  {
    InRow(k, if k & 8 == 0 then 192 else 200);
    var row := TABLE[if k & 8 == 0 then 24 else 25];
  }

  lemma Rows13(k: bv16)
    requires k >> 4 == 13
    ensures Entry(k) == Shift8(k)
  {
    InRow(k, if k & 8 == 0 then 208 else 216);
    var row := TABLE[if k & 8 == 0 then 26 else 27];
  }

  lemma Rows14(k: bv16)
    requires k >> 4 == 14
    ensures Entry(k) == Shift8(k)
  {
    InRow(k, if k & 8 == 0 then 224 else 232);
    var row := TABLE[if k & 8 == 0 then 28 else 29];
  }

  lemma Rows15(k: bv16)
    requires k >> 4 == 15
    ensures Entry(k) == Shift8(k)
  {
    InRow(k, if k & 8 == 0 then 240 else 248);
    var row := TABLE[if k & 8 == 0 then 30 else 31];
  }

  /** The table holds eight shifts of every byte. */
  lemma TableIsShifts(k: bv16)
    requires k < 256
    ensures Entry(k) == Shift8(k)
  {
    hide Entry, Shift8;
    match (k >> 4) as int {
      case 0 => Rows0(k);
      case 1 => Rows1(k);
      case 2 => Rows2(k);
      case 3 => Rows3(k);
      case 4 => Rows4(k);
      case 5 => Rows5(k);
      case 6 => Rows6(k);
      case 7 => Rows7(k);
      case 8 => Rows8(k);
      case 9 => Rows9(k);
      case 10 => Rows10(k);
      case 11 => Rows11(k);
      case 12 => Rows12(k);
      case 13 => Rows13(k);
      case 14 => Rows14(k);
      case _ => Rows15(k);
    }
  }

  // ----- Shifting is linear and loses nothing -----

  lemma AddCommutes(x: bv16, y: bv16)
    ensures Add(x, y) == Add(y, x)
  {
    assert x ^ y == y ^ x;
  }

  lemma AddAssociates(x: bv16, y: bv16, z: bv16)
    ensures Add(Add(x, y), z) == Add(x, Add(y, z))
  {
    assert (x ^ y) ^ z == x ^ (y ^ z);
  }

  lemma AddCancels(x: bv16, y: bv16, p: bv16)
    ensures Add(Add(x, p), Add(y, p)) == Add(x, y)
  {
    assert (x ^ p) ^ (y ^ p) == x ^ y;
  }

  lemma AddRules(x: bv16, y: bv16, p: bv16)
    ensures Add(Add(x, p), y) == Add(Add(x, y), p) == Add(x, Add(y, p)) && Add(Add(x, p), Add(y, p)) == Add(x, y)
  {
    hide Add;
    AddAssociates(x, p, y);
    AddAssociates(x, y, p);
    AddCommutes(p, y);
    AddCancels(x, y, p);
  }

  lemma AddLowBit(a: bv16, b: bv16)
    ensures Add(a, b) & 1 == 1 <==> (a & 1 == 1) != (b & 1 == 1)
  {}

  lemma AddShifted(a: bv16, b: bv16)
    ensures Add(a, b) >> 1 == Add(a >> 1, b >> 1)
  {
    assert (a ^ b) >> 1 == (a >> 1) ^ (b >> 1);
  }

  lemma AddTwice(x: bv16, p: bv16)
    ensures Add(Add(x, p), p) == x
  {
    assert (x ^ p) ^ p == x;
  }

  lemma AddZero(x: bv16)
    ensures Add(0, x) == x && Add(x, x) == 0
  {}

  lemma AddUndone(x: bv16, y: bv16, p: bv16)
    ensures Add(x, p) == Add(y, p) ==> x == y
    ensures Add(x, y) == 0 <==> x == y
  {
    hide Add;
    AddTwice(x, p);
    AddTwice(y, p);
    AddTwice(x, y);
    AddZero(x);
    AddZero(y);
  }

  lemma ShiftLinear(a: bv16, b: bv16)
    ensures Shift(Add(a, b)) == Add(Shift(a), Shift(b))
  {
    hide Add;
    AddLowBit(a, b);
    AddShifted(a, b);
    AddRules(a >> 1, b >> 1, POLYNOMIAL);
  }

  lemma Shift4Linear(a: bv16, b: bv16)
    ensures Shift4(Add(a, b)) == Add(Shift4(a), Shift4(b))
  {
    hide Shift, Add;
    ShiftLinear(a, b);
    ShiftLinear(Shift(a), Shift(b));
    ShiftLinear(Shift(Shift(a)), Shift(Shift(b)));
    ShiftLinear(Shift(Shift(Shift(a))), Shift(Shift(Shift(b))));
  }

  lemma Shift8Linear(a: bv16, b: bv16)
    ensures Shift8(Add(a, b)) == Add(Shift8(a), Shift8(b))
  {
    hide Shift4, Add;
    Shift4Linear(a, b);
    Shift4Linear(Shift4(a), Shift4(b));
  }

  lemma ShiftInjective(a: bv16, b: bv16)
    ensures Shift(a) == Shift(b) ==> a == b
  {}

  /** A high byte just moves down. */
  lemma HighByte(r: bv16)
    requires r & 0xFF == 0
    ensures Shift8(r) == r >> 8
  {
    assert Shift4(r) == r >> 4;
  }

  // ----- The functions of the source -----

  lemma SplitRegister(crc: bv16, c: bv8)
    ensures var r := Add(crc, Wide(c));
      && r & 0xFF < 256 && Add(r & 0xFF, r & 0xFF00) == r
      && (r & 0xFF00) & 0xFF == 0 && (r & 0xFF00) >> 8 == crc >> 8
  {}

  /** One step of the table form is eight steps of the register. */
  lemma TableStep(crc: bv16, c: bv8)
    ensures var k := Add(crc, Wide(c)) & 0xFF;
      k < 256 && Add(crc >> 8, Entry(k)) == Feed(crc, c)
  {
    hide Entry, Shift8, Add, Wide;
    var r := Add(crc, Wide(c));
    SplitRegister(crc, c);
    TableIsShifts(r & 0xFF);
    Shift8Linear(r & 0xFF, r & 0xFF00);
    HighByte(r & 0xFF00);
    AddCommutes(crc >> 8, Entry(r & 0xFF));
  }

  function UpdateReflected(crc: bv16, c: bv8): (r: bv16)
    ensures r == Feed(crc, c)
  {
    hide Entry, Feed;
    TableStep(crc, c);
    Add(crc >> 8, Entry(Add(crc, Wide(c)) & 0xFF))
  }

  method Calculate(p: array<bv8>, length: nat, init: bv16) returns (crc: bv16)
    requires length <= p.Length
    ensures crc == Serial(init, p[..length])
  {
    hide Feed;
    crc := init;
    for i := 0 to length
      invariant crc == Serial(init, p[..i])
    {
      assert p[..i + 1][..i] == p[..i];
      crc := UpdateReflected(crc, p[i]);
    }
  }

  method CalculateCrc16(p: array<bv8>, length: nat) returns (crc: bv16)
    requires length <= p.Length
    ensures crc == Serial(0, p[..length])
  {
    crc := Calculate(p, length, 0);
  }

  method CalculateCrc16Modbus(p: array<bv8>, length: nat) returns (crc: bv16)
    requires length <= p.Length
    ensures crc == Serial(0xFFFF, p[..length])
  {
    crc := Calculate(p, length, 0xFFFF);
  }

  // ----- Bit by bit -----

  function Low(bit: bool): bv16 {
    if bit then 1 else 0
  }

  /** One more bit: added into the low end of the register, which is then shifted. */
  function FeedBit(crc: bv16, bit: bool): bv16 {
    Shift(Add(crc, Low(bit)))
  }

  function SerialBits(crc: bv16, bits: seq<bool>): bv16
    decreases |bits|
  {
    if bits == [] then crc else SerialBits(FeedBit(crc, bits[0]), bits[1..])
  }

  lemma {:induction false} BitsAppend(crc: bv16, a: seq<bool>, b: seq<bool>)
    ensures SerialBits(crc, a + b) == SerialBits(SerialBits(crc, a), b)
    decreases |a|
  {
    hide FeedBit;
    if a == [] {
      assert a + b == b;
    } else {
      assert (a + b)[1..] == a[1..] + b;
      BitsAppend(FeedBit(crc, a[0]), a[1..], b);
    }
  }

  /** Different registers stay different under the same bits. */
  lemma {:induction false} BitsInjective(x: bv16, y: bv16, bits: seq<bool>)
    ensures SerialBits(x, bits) == SerialBits(y, bits) ==> x == y
    decreases |bits|
  {
    hide Add, Shift;
    if bits != [] {
      BitsInjective(FeedBit(x, bits[0]), FeedBit(y, bits[0]), bits[1..]);
      ShiftInjective(Add(x, Low(bits[0])), Add(y, Low(bits[0])));
      AddUndone(x, y, Low(bits[0]));
    }
  }

  // ----- Up to sixteen bits are a word -----

  function Twice(w: bv16): bv16 {
    w << 1
  }

  /** A word with a bit put in front. */
  function Led(w: bv16, bit: bool): bv16 {
    Add(Twice(w), Low(bit))
  }

  /** Bits as a register holds them, the first one lowest. */
  function Word(bits: seq<bool>): bv16 {
    if bits == [] then 0 else Led(Word(bits[1..]), bits[0])
  }

  function Bound(k: nat): bv16
    requires k < 16
  {
    [0x1, 0x2, 0x4, 0x8, 0x10, 0x20, 0x40, 0x80, 0x100, 0x200, 0x400, 0x800, 0x1000, 0x2000, 0x4000, 0x8000][k]
  }

  lemma BoundStep(k: nat)
    requires k < 15
    ensures Bound(k) <= 0x4000 && Bound(k + 1) == Twice(Bound(k))
  {}

  lemma LedBelow(w: bv16, k: nat, bit: bool)
    requires k < 15 && w < Bound(k)
    ensures Led(w, bit) < Bound(k + 1)
  {
    hide Led, Bound, Twice;
    BoundStep(k);
    Doubled(w, Bound(k), bit);
  }

  lemma Doubled(w: bv16, x: bv16, bit: bool)
    requires w < x <= 0x4000
    ensures Led(w, bit) < Twice(x)
  {}

  lemma {:induction false} WordBelow(bits: seq<bool>)
    requires |bits| < 16
    ensures Word(bits) < Bound(|bits|)
  {
    hide Led, Bound;
    if bits == [] {
      NoBits();
    } else {
      WordBelow(bits[1..]);
      LedBelow(Word(bits[1..]), |bits| - 1, bits[0]);
    }
  }

  lemma NoBits()
    ensures 0 < Bound(0)
  {}

  lemma WordTop(bits: seq<bool>)
    requires |bits| < 16
    ensures Word(bits) < 0x8000
  {
    hide Word, Bound;
    WordBelow(bits);
    AtMost(|bits|);
  }

  lemma AtMost(k: nat)
    requires k < 16
    ensures Bound(k) <= 0x8000
  {}

  lemma LedShift(r: bv16, w: bv16, bit: bool)
    requires w < 0x8000
    ensures Shift(Add(r, Led(w, bit))) == Add(FeedBit(r, bit), w)
  {
    hide Add, Shift, Low, Twice;
    var b := Low(bit);
    Halved(w);
    AddCommutes(Twice(w), b);
    AddAssociates(r, b, Twice(w));
    ShiftLinear(Add(r, b), Twice(w));
  }

  lemma Halved(w: bv16)
    requires w < 0x8000
    ensures Shift(Twice(w)) == w
  {}

  lemma LedInjective(w: bv16, v: bv16, b: bool, c: bool)
    requires w < 0x8000 && v < 0x8000 && Led(w, b) == Led(v, c)
    ensures w == v && b == c
  {}

  lemma {:induction false} WordInjective(a: seq<bool>, b: seq<bool>)
    requires |a| == |b| <= 16 && Word(a) == Word(b)
    ensures a == b
  {
    hide Led;
    if a != [] {
      WordTop(a[1..]);
      WordTop(b[1..]);
      LedInjective(Word(a[1..]), Word(b[1..]), a[0], b[0]);
      WordInjective(a[1..], b[1..]);
      assert a == [a[0]] + a[1..] && b == [b[0]] + b[1..];
    }
  }

  function Shifts(r: bv16, n: nat): bv16
    decreases n
  {
    if n == 0 then r else Shifts(Shift(r), n - 1)
  }

  lemma {:induction false} ShiftsInjective(x: bv16, y: bv16, n: nat)
    ensures Shifts(x, n) == Shifts(y, n) ==> x == y
    decreases n
  {
    hide Shift;
    if n > 0 {
      ShiftsInjective(Shift(x), Shift(y), n - 1);
      ShiftInjective(x, y);
    }
  }

  /** Feeding up to sixteen bits is adding their word and shifting. */
  lemma {:induction false} BitsAsWord(crc: bv16, bits: seq<bool>)
    requires |bits| <= 16
    ensures SerialBits(crc, bits) == Shifts(Add(crc, Word(bits)), |bits|)
    decreases |bits|
  {
    hide Add, Shift, Led, FeedBit;
    if bits == [] {
      AddZero(crc);
      AddCommutes(crc, 0);
    } else {
      WordTop(bits[1..]);
      LedShift(crc, Word(bits[1..]), bits[0]);
      BitsAsWord(FeedBit(crc, bits[0]), bits[1..]);
    }
  }

  // ----- Bytes are bits -----

  function ByteBits(c: bv8): (bits: seq<bool>)
    ensures |bits| == 8
  {
    [c & 0x1 != 0, c & 0x2 != 0, c & 0x4 != 0, c & 0x8 != 0, c & 0x10 != 0, c & 0x20 != 0, c & 0x40 != 0, c & 0x80 != 0]
  }

  /** The bits of a message as they are sent, lowest first in each byte. */
  function BitsOf(msg: seq<bv8>): (bits: seq<bool>)
    ensures |bits| == 8 * |msg|
  {
    if msg == [] then [] else BitsOf(msg[..|msg| - 1]) + ByteBits(msg[|msg| - 1])
  }

  lemma ByteInjective(a: bv8, b: bv8)
    requires ByteBits(a) == ByteBits(b)
    ensures a == b
  {
    var s, t := ByteBits(a), ByteBits(b);
    assert s[0] == t[0] && s[1] == t[1] && s[2] == t[2] && s[3] == t[3];
    assert s[4] == t[4] && s[5] == t[5] && s[6] == t[6] && s[7] == t[7];
    BitByBit(a, b);
  }

  lemma BitByBit(a: bv8, b: bv8)
    requires a & 0x1 == b & 0x1 && a & 0x2 == b & 0x2 && a & 0x4 == b & 0x4 && a & 0x8 == b & 0x8
    requires a & 0x10 == b & 0x10 && a & 0x20 == b & 0x20 && a & 0x40 == b & 0x40 && a & 0x80 == b & 0x80
    ensures a == b
  {}

  lemma {:induction false} BitsOfInjective(m: seq<bv8>, n: seq<bv8>)
    requires BitsOf(m) == BitsOf(n)
    ensures m == n
    decreases |m|
  {
    hide ByteBits;
    if m != [] {
      var k := |m| - 1;
      var a, b := BitsOf(m[..k]), BitsOf(n[..k]);
      assert BitsOf(m)[..8 * k] == a && BitsOf(m)[8 * k..] == ByteBits(m[k]);
      assert BitsOf(n)[..8 * k] == b && BitsOf(n)[8 * k..] == ByteBits(n[k]);
      BitsOfInjective(m[..k], n[..k]);
      ByteInjective(m[k], n[k]);
      assert m == m[..k] + [m[k]] && n == n[..k] + [n[k]];
    }
  }

  lemma ByteAsWord(c: bv8)
    ensures Word(ByteBits(c)) == Wide(c)
  {
    hide Led, ByteBits;
    var s := ByteBits(c);
    FourLed([s[4], s[5], s[6], s[7]]);
    FourLed(s);
    assert s[4..] == [s[4], s[5], s[6], s[7]];
    HalvesLed(c);
  }

  function Nibble(w: bv16, b0: bool, b1: bool, b2: bool, b3: bool): bv16 {
    Led(Led(Led(Led(w, b3), b2), b1), b0)
  }

  lemma FourLed(s: seq<bool>)
    requires |s| >= 4
    ensures Word(s) == Nibble(Word(s[4..]), s[0], s[1], s[2], s[3])
  {
    hide Led;
    assert s[1..][1..] == s[2..] && s[2..][1..] == s[3..] && s[3..][1..] == s[4..];
  }

  lemma HalvesLed(c: bv8)
    ensures var s := ByteBits(c);
      Nibble(Nibble(0, s[4], s[5], s[6], s[7]), s[0], s[1], s[2], s[3]) == Wide(c)
  {
    LowNibble(c >> 4, 0);
    LowNibble(c & 0xF, Wide(c >> 4));
  }

  lemma LowNibble(d: bv8, w: bv16)
    requires d < 16 && w < 16
    ensures Nibble(w, d & 1 != 0, d & 2 != 0, d & 4 != 0, d & 8 != 0) == (w << 4) | Wide(d)
  {}

  lemma FeedAsBits(crc: bv16, c: bv8)
    ensures Feed(crc, c) == SerialBits(crc, ByteBits(c))
  {
    hide Add, Shift, Word, ByteBits;
    BitsAsWord(crc, ByteBits(c));
    ByteAsWord(c);
    EightShifts(Add(crc, Wide(c)));
  }

  lemma EightShifts(r: bv16)
    ensures Shifts(r, 8) == Shift8(r)
  {
    hide Shift, Shift4;
    FourShifts(r, 8);
    FourShifts(Shift4(r), 4);
  }

  lemma FourShifts(r: bv16, n: nat)
    requires n >= 4
    ensures Shifts(r, n) == Shifts(Shift4(r), n - 4)
  {
    hide Shift;
    assert Shifts(r, n) == Shifts(Shift(r), n - 1) == Shifts(Shift(Shift(r)), n - 2);
    assert Shifts(Shift(Shift(r)), n - 2) == Shifts(Shift(Shift(Shift(r))), n - 3);
  }

  /** Byte by byte or bit by bit, the register is the same. */
  lemma {:induction false} SerialIsBits(crc: bv16, msg: seq<bv8>)
    ensures Serial(crc, msg) == SerialBits(crc, BitsOf(msg))
    decreases |msg|
  {
    hide Feed, ByteBits;
    if msg != [] {
      var n := |msg| - 1;
      SerialIsBits(crc, msg[..n]);
      FeedAsBits(Serial(crc, msg[..n]), msg[n]);
      BitsAppend(crc, BitsOf(msg[..n]), ByteBits(msg[n]));
    }
  }

  // ----- What the checksum detects -----

  /** A change inside any sixteen neighbouring bits changes the register, whatever comes before and after. */
  lemma BitBurst(crc: bv16, front: seq<bool>, a: seq<bool>, b: seq<bool>, back: seq<bool>)
    requires |a| == |b| <= 16 && a != b
    ensures SerialBits(crc, front + a + back) != SerialBits(crc, front + b + back)
  {
    hide SerialBits, Word, Add;
    var r := SerialBits(crc, front);
    BitsAppend(crc, front + a, back);
    BitsAppend(crc, front + b, back);
    BitsAppend(crc, front, a);
    BitsAppend(crc, front, b);
    BitsInjective(SerialBits(r, a), SerialBits(r, b), back);
    BitsAsWord(r, a);
    BitsAsWord(r, b);
    ShiftsInjective(Add(r, Word(a)), Add(r, Word(b)), |a|);
    AddCommutes(r, Word(a));
    AddCommutes(r, Word(b));
    AddUndone(Word(a), Word(b), r);
    if Word(a) == Word(b) {
      WordInjective(a, b);
    }
  }

  /** Messages of one length that differ within sixteen neighbouring bits, and nowhere else, never have the same
      checksum. */
  lemma BurstDetected(init: bv16, m: seq<bv8>, n: seq<bv8>, p: nat)
    requires |m| == |n| && m != n
    requires forall k :: 0 <= k < 8 * |m| && !(p <= k < p + 16) ==> BitsOf(m)[k] == BitsOf(n)[k]
    ensures Serial(init, m) != Serial(init, n)
  {
    hide BitsOf, Serial, SerialBits;
    var s, t, len := BitsOf(m), BitsOf(n), 8 * |m|;
    var i, j := if p < len then p else len, if p + 16 < len then p + 16 else len;
    assert s[..i] == t[..i] && s[j..] == t[j..];
    assert s == s[..i] + s[i..j] + s[j..] && t == s[..i] + t[i..j] + s[j..];
    if s[i..j] == t[i..j] {
      BitsOfInjective(m, n);
    }
    SerialIsBits(init, m);
    SerialIsBits(init, n);
    BitBurst(init, s[..i], s[i..j], t[i..j], s[j..]);
  }

  /** Seventeen bits can be too many: the polynomial itself goes unseen. */
  lemma SeventeenMissed()
    ensures Serial(0, [0x03, 0x40, 0x01]) == Serial(0, [0x00, 0x00, 0x00])
  {
    hide Feed;
    FirstStep();
    LastSteps();
    SerialAppend(0, [0x03, 0x40], [0x01]);
    SerialAppend(0, [0x00, 0x00], [0x00]);
    TwoBytes(0, 0x03, 0x40);
    TwoBytes(0, 0x00, 0x00);
    OneByte(0x0001, 0x01);
    OneByte(0, 0x00);
    assert [0x03, 0x40] + [0x01] == [0x03 as bv8, 0x40, 0x01] && [0x00, 0x00] + [0x00] == [0x00 as bv8, 0x00, 0x00];
  }

  lemma FirstStep()
    ensures Feed(0, 0x03) == 0x0140
  {}

  lemma LastSteps()
    ensures Feed(0x0140, 0x40) == 0x0001 && Feed(0x0001, 0x01) == 0 && Feed(0, 0x00) == 0
  {}

  lemma OneByte(crc: bv16, a: bv8)
    ensures Serial(crc, [a]) == Feed(crc, a)
  {
    assert [a][..0] == [];
  }

  /** Messages of the same length that differ in exactly one byte never have the same checksum. */
  lemma OneByteDetected(init: bv16, m: seq<bv8>, n: seq<bv8>, i: nat)
    requires |m| == |n| && i < |m| && m[i] != n[i] && forall k :: 0 <= k < |m| && k != i ==> m[k] == n[k]
    ensures Serial(init, m) != Serial(init, n)
  {
    hide Serial;
    OtherBits(m, n, i);
    BurstDetected(init, m, n, 8 * i);
  }

  lemma {:induction false} OtherBits(m: seq<bv8>, n: seq<bv8>, i: nat)
    requires |m| == |n| && forall k :: 0 <= k < |m| && k != i ==> m[k] == n[k]
    ensures forall k :: 0 <= k < 8 * |m| && !(8 * i <= k < 8 * i + 8) ==> BitsOf(m)[k] == BitsOf(n)[k]
    decreases |m|
  {
    hide ByteBits;
    if m != [] {
      OtherBits(m[..|m| - 1], n[..|m| - 1], i);
    }
  }

  lemma {:induction false} SerialAppend(crc: bv16, a: seq<bv8>, b: seq<bv8>)
    ensures Serial(crc, a + b) == Serial(Serial(crc, a), b)
    decreases |b|
  {
    hide Feed;
    if b == [] {
      assert a + b == a;
    } else {
      var n := |b| - 1;
      assert (a + b)[..|a| + n] == a + b[..n];
      SerialAppend(crc, a, b[..n]);
    }
  }

  lemma TwoBytes(crc: bv16, a: bv8, b: bv8)
    ensures Serial(crc, [a, b]) == Feed(Feed(crc, a), b)
  {
    hide Feed;
    assert [a, b][..1] == [a] && [a][..0] == [];
    assert Serial(crc, [a]) == Feed(Serial(crc, []), a);
  }

  lemma CancelsLow(crc: bv16)
    ensures var r := Add(crc, Wide((crc & 0xFF) as bv8));
      r & 0xFF == 0 && r >> 8 == crc >> 8
    ensures Add(crc >> 8, Wide((crc >> 8) as bv8)) == 0
  {}

  lemma OwnBytes(crc: bv16)
    ensures Feed(Feed(crc, (crc & 0xFF) as bv8), (crc >> 8) as bv8) == 0
  {
    hide Shift8, Add, Wide;
    CancelsLow(crc);
    HighByte(Add(crc, Wide((crc & 0xFF) as bv8)));
    HighByte(0);
  }

  /** A message with its checksum behind it, low byte first, leaves the register at zero. */
  lemma Residue(init: bv16, msg: seq<bv8>)
    ensures var crc := Serial(init, msg);
      Serial(init, msg + [(crc & 0xFF) as bv8, (crc >> 8) as bv8]) == 0
  {
    hide Feed, Serial;
    var crc := Serial(init, msg);
    SerialAppend(init, msg, [(crc & 0xFF) as bv8, (crc >> 8) as bv8]);
    TwoBytes(crc, (crc & 0xFF) as bv8, (crc >> 8) as bv8);
    OwnBytes(crc);
  }

  // ----- The usual check -----

  /** The digits 1 to 9 as characters. */
  const NINE_DIGITS: seq<bv8> := [0x31, 0x32, 0x33, 0x34, 0x35, 0x36, 0x37, 0x38, 0x39]

  lemma SerialUpTo(crc: bv16, msg: seq<bv8>, i: nat)
    requires i < |msg|
    ensures Serial(crc, msg[..i + 1]) == Feed(Serial(crc, msg[..i]), msg[i])
  {
    hide Feed;
    assert msg[..i + 1][..i] == msg[..i];
  }

  lemma {:induction false} SerialOfNine(crc: bv16)
    ensures Serial(crc, NINE_DIGITS) ==
      Feed(Feed(Feed(Feed(Feed(Feed(Feed(Feed(Feed(crc, 0x31), 0x32), 0x33), 0x34), 0x35), 0x36), 0x37), 0x38), 0x39)
  {
    hide Feed;
    var m := NINE_DIGITS;
    SerialUpTo(crc, m, 0);
    SerialUpTo(crc, m, 1);
    SerialUpTo(crc, m, 2);
    SerialUpTo(crc, m, 3);
    SerialUpTo(crc, m, 4);
    SerialUpTo(crc, m, 5);
    SerialUpTo(crc, m, 6);
    SerialUpTo(crc, m, 7);
    SerialUpTo(crc, m, 8);
    assert m[..0] == [] && m[..9] == m;
  }

  lemma FeedsFromZero()
    ensures Feed(Feed(Feed(Feed(Feed(Feed(Feed(Feed(Feed(0, 0x31), 0x32), 0x33), 0x34), 0x35), 0x36), 0x37), 0x38),
      0x39)
      == 0xBB3D
  {
    assert Feed(0, 0x31) == 0xD4C1;
    assert Feed(0xD4C1, 0x32) == 0x4594;
    assert Feed(0x4594, 0x33) == 0xBA04;
    assert Feed(0xBA04, 0x34) == 0x14BA;
    assert Feed(0x14BA, 0x35) == 0xA455;
    assert Feed(0xA455, 0x36) == 0x29E4;
    assert Feed(0x29E4, 0x37) == 0x9D68;
    assert Feed(0x9D68, 0x38) == 0x3C9D;
    assert Feed(0x3C9D, 0x39) == 0xBB3D;
  }

  lemma FeedsFromOnes()
    ensures
      Feed(Feed(Feed(Feed(Feed(Feed(Feed(Feed(Feed(0xFFFF, 0x31), 0x32), 0x33), 0x34), 0x35), 0x36), 0x37), 0x38), 0x39)
      == 0x4B37
  {
    assert Feed(0xFFFF, 0x31) == 0x947E;
    assert Feed(0x947E, 0x32) == 0xF595;
    assert Feed(0xF595, 0x33) == 0x7A75;
    assert Feed(0x7A75, 0x34) == 0x30BA;
    assert Feed(0x30BA, 0x35) == 0xA471;
    assert Feed(0xA471, 0x36) == 0x32E4;
    assert Feed(0x32E4, 0x37) == 0x9D73;
    assert Feed(0x9D73, 0x38) == 0x37DD;
    assert Feed(0x37DD, 0x39) == 0x4B37;
  }

  /** The check values by which CRC-16/ARC and CRC-16/MODBUS are known. */
  lemma CheckValues()
    ensures Serial(0, NINE_DIGITS) == 0xBB3D && Serial(0xFFFF, NINE_DIGITS) == 0x4B37
  {
    hide Feed, Serial;
    SerialOfNine(0);
    SerialOfNine(0xFFFF);
    FeedsFromZero();
    FeedsFromOnes();
  }
}
