/** How many sectors an SD card has, from the 128 bits of its CSD register. */
module SdCard {
  import opened Bits

  const CSD_BYTES: nat := 16
  const WORD: nat := 0x1_0000_0000

  /** The bytes as one number, most significant first. */
  function BigEndian(d: seq<byte>): nat {
    if d == [] then 0 else BigEndian(d[..|d| - 1]) * 256 + d[|d| - 1]
  }

  /** Bits msb to lsb of a number. */
  function Slice(n: nat, msb: nat, lsb: nat): (f: nat)
    requires lsb <= msb
    ensures f < Pow2(msb - lsb + 1)
  {
    n / Pow2(lsb) % Pow2(msb - lsb + 1)
  }

  lemma SliceShifted(n: nat, msb: nat, lsb: nat)
    requires lsb <= msb
    ensures Slice(n, msb, lsb) == Shr(n, lsb) % Pow2(msb - lsb + 1)
  {
    ShrDivides(n, lsb);
  }

  /** Bit p of the number is in the byte that many bytes from the end. */
  lemma {:induction false} BigEndianBit(d: seq<byte>, p: nat)
    requires p < 8 * |d|
    ensures Bit(BigEndian(d), p) <==> Bit(d[|d| - 1 - p / 8], p % 8)
    decreases |d|
  {
    hide Bit;
    var n := |d| - 1;
    Powers();
    BitSplit(BigEndian(d[..n]), d[n], 8, p);
    if p >= 8 {
      BigEndianBit(d[..n], p - 8);
      assert (p - 8) / 8 == p / 8 - 1 && (p - 8) % 8 == p % 8;
    }
  }

  /** The bit the loop picks out of a byte. */
  lemma PickedBit(b: byte, bit: nat)
    ensures And(Shr(b, bit), 1) == if Bit(b, bit) then 1 else 0
  {
    ShrBit(b, bit, 0);
    LowMask(Shr(b, bit), 1);
    Powers();
  }

  /** Position >> 3 and position & 7. */
  lemma BytePosition(p: nat)
    ensures Shr(p, 3) == p / 8 && And(p, 7) == p % 8
  {
    assert Pow2(3) == 8 by {
      Powers();
    }
    ShrDivides(p, 3);
    LowMask(p, 3);
  }

  /** Collects the bits from the lowest up. */
  method ExtBits(data: array<byte>, msb: nat, lsb: nat) returns (bits: nat)
    requires data.Length == CSD_BYTES && lsb <= msb < 8 * CSD_BYTES && msb - lsb < 32
    ensures bits == Slice(BigEndian(data[..]), msb, lsb)
  {
    hide Or, And, Shr, Bit, BigEndian, Pow2;
    ghost var n := BigEndian(data[..]);
    ghost var x := Shr(n, lsb);
    SliceShifted(n, msb, lsb);
    bits := 0;
    var size := 1 + msb - lsb;
    NoBits(x);
    for i := 0 to size
      invariant bits == x % Pow2(i)
    {
      var position := lsb + i;
      BytePosition(position);
      var byteIndex := 15 - Shr(position, 3);
      var bit := And(position, 0x7);
      var value := And(Shr(data[byteIndex], bit), 1);
      PickedBit(data[byteIndex], bit);
      BigEndianBit(data[..], position);
      ShrBit(n, lsb, i);
      ModBit(x, i);
      OrDisjoint(bits, value, i);
      bits := Or(bits, value * Pow2(i));
    }
  }

  lemma NoBits(x: nat)
    ensures x % Pow2(0) == 0
  {}

  // ----- Version 1 -----

  function ReadBlLen(n: nat): nat {
    Slice(n, 83, 80)
  }

  /** The capacity in bytes of section 5.3.2 of the SD Physical Layer Simplified Specification, over the integers. */
  function Capacity1(n: nat): nat {
    Times(Slice(n, 73, 62) + 1, Pow2(Slice(n, 49, 47) + 2), Pow2(ReadBlLen(n)))
  }

  function Times(units: nat, mult: nat, len: nat): nat {
    units * mult * len
  }

  /** The same in 32 bits, as the source multiplies. */
  function Sectors1(n: nat): nat {
    Capacity1(n) % WORD / 512
  }

  /** The number of sectors is right exactly when the capacity fits 32 bits. */
  lemma Sectors1Right(n: nat)
    ensures Sectors1(n) == Capacity1(n) / 512 <==> Capacity1(n) < WORD
  {
    hide Capacity1;
    var c := Capacity1(n);
    var q, r := c / WORD, c % WORD;
    assert c == WORD * q + r;
    assert c / 512 == 0x80_0000 * q + r / 512;
  }

  lemma Products(a: nat, b: nat, c: nat, x: nat, y: nat, z: nat)
    requires a <= x && b <= y && c <= z
    ensures a * b * c <= x * y * z
  {
    assert a * b <= x * y by {
      assert a * b <= x * b && x * b <= x * y by {
        assert (x - a) * b >= 0 && x * (y - b) >= 0;
      }
    }
    assert (x * y - a * b) * c >= 0 && x * y * (z - c) >= 0;
  }

  /** Blocks of up to 1024 bytes never wrap: for the lengths 9 and 10 the number of sectors is exact. */
  lemma Sectors1Exact(n: nat)
    requires ReadBlLen(n) <= 10
    ensures Capacity1(n) < WORD && Sectors1(n) == Capacity1(n) / 512
  {
    hide Slice, Pow2;
    Powers();
    var c, m := Slice(n, 73, 62) + 1, Slice(n, 49, 47) + 2;
    assert c <= 4096 && m <= 9 by {
      SliceBounds(n);
    }
    Pow2Monotone(m, 9);
    Pow2Monotone(ReadBlLen(n), 10);
    Products(c, Pow2(m), Pow2(ReadBlLen(n)), 4096, 512, 1024);
    Sectors1Right(n);
  }

  lemma SliceBounds(n: nat)
    ensures Slice(n, 73, 62) < 4096 && Slice(n, 49, 47) < 8
  {
    Powers();
  }

  // ----- Version 2 -----

  /** The number of sectors of section 5.3.3: C_SIZE is 22 bits wide. */
  function TrueSectors2(n: nat): nat {
    (Slice(n, 69, 48) + 1) * 1024
  }

  function Sectors2(n: nat): nat {
    (Slice(n, 63, 48) + 1) * 1024
  }

  /** The source takes 16 of the 22 bits: right exactly when the other six are zero, up to 32 GB. */
  lemma Sectors2Right(n: nat)
    ensures Sectors2(n) == TrueSectors2(n) <==> Slice(n, 69, 64) == 0
    ensures Sectors2(n) < WORD
  {
    hide Pow2, Shr;
    SliceShifted(n, 69, 48);
    SliceShifted(n, 63, 48);
    SliceShifted(n, 69, 64);
    ModSplit(Shr(n, 48), 16, 6);
    ShrTwice(n, 48, 16);
    Powers();
  }

  lemma LargePowers()
    ensures Pow2(7) == 0x80 && Pow2(22) == 0x40_0000 && Pow2(11) == 0x800
    ensures Pow2(47) == 0x8000_0000_0000 && Pow2(48) == 0x1_0000_0000_0000 && Pow2(62) == 0x4000_0000_0000_0000
    ensures Pow2(64) == 0x1_0000_0000_0000_0000 && Pow2(80) == 0x1_0000_0000_0000_0000_0000
    ensures Pow2(126) == 0x4000_0000_0000_0000_0000_0000_0000_0000
  {
    Powers();
    PowersMultiply(11, 11);
    PowersMultiply(32, 16);
    PowersMultiply(32, 30);
    PowersMultiply(32, 32);
    PowersMultiply(48, 32);
    PowersMultiply(64, 62);
  }

  lemma {:induction false} PowersMultiply(i: nat, j: nat)
    ensures Pow2(i + j) == Pow2(i) * Pow2(j)
  {
    if j > 0 {
      PowersMultiply(i, j - 1);
    }
  }

  /** A version 2 card of 32 GB and half a megabyte, C_SIZE = 0x1_0000, is taken for one of half a megabyte. */
  lemma LargeCardCut()
    ensures var n := Pow2(126) + 0x1_0000 * Pow2(48);
      && Slice(n, 127, 126) == 1
      && Slice(n, 69, 64) == 1 && TrueSectors2(n) == 0x400_0400 && Sectors2(n) == 1024
  {
    hide Pow2;
    LargePowers();
    Powers();
  }

  /** A version 1 card of 4 GB, with all bits of C_SIZE and C_SIZE_MULT set and blocks of 2048 bytes, has no sectors. */
  lemma FourGigabytesVanish()
    ensures var n := 11 * Pow2(80) + 4095 * Pow2(62) + 7 * Pow2(47);
      Slice(n, 127, 126) == 0 && ReadBlLen(n) == 11 && Capacity1(n) == WORD && Sectors1(n) == 0
  {
    hide Pow2;
    LargePowers();
    Powers();
    var n := 11 * Pow2(80) + 4095 * Pow2(62) + 7 * Pow2(47);
    assert Slice(n, 83, 80) == 11 && Slice(n, 73, 62) == 4095 && Slice(n, 49, 47) == 7;
  }

  // ----- The card -----

  class Card {
    var cdv: nat

    /** What multiplies block numbers into addresses, and the number of sectors; 0 for a card that does not answer or
        whose register has an unknown structure. */
    method SdSectors(answers: bool, readable: bool, csd: array<byte>) returns (blocks: nat)
      requires csd.Length == CSD_BYTES
      modifies `cdv
      ensures var n := BigEndian(csd[..]);
        var structure := Slice(n, 127, 126);
        if !answers || !readable || structure > 1 then blocks == 0 && cdv == old(cdv)
        else if structure == 0 then blocks == Sectors1(n) && cdv == 512
        else blocks == Sectors2(n) && cdv == 1
    {
      hide Slice, BigEndian;
      if !answers {
        return 0;
      }
      if !readable {
        return 0;
      }
      ghost var n := BigEndian(csd[..]);
      var structure := ExtBits(csd, 127, 126);
      if structure == 0 {
        cdv := 512;
        var cSize := ExtBits(csd, 73, 62);
        var cSizeMult := ExtBits(csd, 49, 47);
        var readBlLen := ExtBits(csd, 83, 80);
        var blockLen := Pow2(readBlLen);
        var mult := Pow2(cSizeMult + 2);
        var blocknr := (cSize + 1) * mult;
        var capacity := (blocknr * blockLen) % WORD;
        blocks := capacity / 512;
      } else if structure == 1 {
        cdv := 1;
        var hcCSize := ExtBits(csd, 63, 48);
        blocks := (hcCSize + 1) * 1024;
      } else {
        blocks := 0;
      }
    }
  }
}
