/** Programming a file into the flash of a target, block by block, with the vector checksum put in. */
module FlashProgram {
  import opened UUencode
  import opened IspWire
  import opened IspTarget
  import opened Isp

  const MIN_BIN_SIZE: nat := 2048
  const BLOCK: nat := 512
  const WRITE_RAM_ADDR: nat := RAM_START + 0x300
  const WORD: nat := 0x1_0000_0000

  /** What is found at the path of the file. */
  datatype Source = NoPath | NoFile | File(data: string)

  // ----- The image -----

  function BlockCount(size: nat): nat {
    size / BLOCK + (if size % BLOCK != 0 then 1 else 0)
  }

  lemma BlockBounds(size: nat)
    requires size > 0
    ensures BLOCK * (BlockCount(size) - 1) < size <= BLOCK * BlockCount(size)
    ensures size == BLOCK * (BlockCount(size) - 1) + (if size % BLOCK == 0 then BLOCK else size % BLOCK)
  {}

  /** The file, filled up to whole blocks with the value of erased flash. */
  function Padded(data: string): (p: string)
    ensures |p| == BLOCK * BlockCount(|data|)
    ensures forall i :: 0 <= i < |p| ==> p[i] == if i < |data| then data[i] else ERASED
  {
    if data == [] then [] else
      BlockBounds(|data|);
      seq(BLOCK * BlockCount(|data|), i requires 0 <= i => if i < |data| then data[i] else ERASED)
  }

  /** The little-endian word at index 4 * k. */
  function Word(s: string, k: nat): nat
    requires 4 * k + 4 <= |s|
  {
    s[4 * k] as nat + 0x100 * s[4 * k + 1] as nat + 0x1_0000 * s[4 * k + 2] as nat + 0x100_0000 * s[4 * k + 3] as nat
  }

  function WordSum(s: string, n: nat): nat
    requires 4 * n <= |s|
  {
    if n == 0 then 0 else WordSum(s, n - 1) + Word(s, n - 1)
  }

  /** The bytes of a word, lowest first. */
  function WordBytes(w: nat): (b: string)
    requires w < WORD
    ensures |b| == 4 && Bytes(b)
  {
    [Narrow(w), Narrow(w / 0x100), Narrow(w / 0x1_0000), Narrow(w / 0x100_0000)]
  }

  lemma WordOfBytes(w: nat, s: string, k: nat)
    requires w < WORD && 4 * k + 4 <= |s| && s[4 * k..4 * k + 4] == WordBytes(w)
    ensures Word(s, k) == w
  {
    var b := WordBytes(w);
    assert s[4 * k] == b[0] && s[4 * k + 1] == b[1] && s[4 * k + 2] == b[2] && s[4 * k + 3] == b[3];
    assert w / 0x1_0000 == w / 0x100 / 0x100 && w / 0x100_0000 == w / 0x1_0000 / 0x100;
  }

  /** The two's complement of the sum of the first seven vectors. */
  function Checksum(s: string): (w: nat)
    requires |s| >= 28
    ensures w < WORD
  {
    (WORD - WordSum(s, 7) % WORD) % WORD
  }

  /** s with the checksum in the place of the eighth vector. */
  function WithVector(s: string): (t: string)
    requires |s| >= 32
    ensures |t| == |s|
  {
    s[..28] + WordBytes(Checksum(s)) + s[32..]
  }

  function Image(data: string): (s: string)
    requires |data| >= MIN_BIN_SIZE
    ensures |s| == BLOCK * BlockCount(|data|)
  {
    WithVector(Padded(data))
  }

  lemma {:induction false} WordSumPrefix(s: string, t: string, n: nat)
    requires 4 * n <= |s| && 4 * n <= |t| && s[..4 * n] == t[..4 * n]
    ensures WordSum(s, n) == WordSum(t, n)
  {
    if n > 0 {
      assert s[..4 * (n - 1)] == s[..4 * n][..4 * (n - 1)];
      assert t[..4 * (n - 1)] == t[..4 * n][..4 * (n - 1)];
      WordSumPrefix(s, t, n - 1);
      assert forall i :: 0 <= i < 4 * n ==> s[..4 * n][i] == s[i] && t[..4 * n][i] == t[i];
    }
  }

  /** The boot loader's test: the first eight words of the image sum to zero. */
  lemma VectorsSumToZero(s: string)
    requires |s| >= 32
    ensures WordSum(WithVector(s), 8) % WORD == 0
  {
    hide WordBytes, Word;
    var t := WithVector(s);
    assert t[..28] == s[..28];
    WordSumPrefix(s, t, 7);
    assert t[28..32] == WordBytes(Checksum(s));
    WordOfBytes(Checksum(s), t, 7);
    assert WordSum(t, 8) == WordSum(t, 7) + Word(t, 7);
    Complement(WordSum(s, 7), Checksum(s));
  }

  lemma Complement(x: nat, w: nat)
    requires w == (WORD - x % WORD) % WORD
    ensures (x + w) % WORD == 0
  {}

  /** The image is the padded file but for the four bytes of the checksum, and passes the boot loader's test. */
  lemma ImageOf(data: string)
    requires |data| >= MIN_BIN_SIZE
    ensures WordSum(Image(data), 8) % WORD == 0
    ensures forall i :: 0 <= i < |Image(data)| && !(28 <= i < 32) ==>
      Image(data)[i] == if i < |data| then data[i] else ERASED
  {
    hide WordSum;
    VectorsSumToZero(Padded(data));
  }

  /** Every fourth byte of the vectors, from byte c on. */
  function Column(s: string, c: nat): nat
    requires c < 4 && 32 <= |s|
  {
    s[c] as nat + s[c + 4] as nat + s[c + 8] as nat + s[c + 12] as nat +
    s[c + 16] as nat + s[c + 20] as nat + s[c + 24] as nat + s[c + 28] as nat
  }

  lemma EightWords(s: string)
    requires 32 <= |s|
    ensures WordSum(s, 8) == Word(s, 0) + Word(s, 1) + Word(s, 2) + Word(s, 3) +
                             Word(s, 4) + Word(s, 5) + Word(s, 6) + Word(s, 7)
  {
    hide Word;
    assert WordSum(s, 0) == 0;
    assert WordSum(s, 1) == Word(s, 0);
    assert WordSum(s, 2) == WordSum(s, 1) + Word(s, 1);
    assert WordSum(s, 4) == WordSum(s, 2) + Word(s, 2) + Word(s, 3);
    assert WordSum(s, 6) == WordSum(s, 4) + Word(s, 4) + Word(s, 5);
  }

  /** The boot loader's test, byte by byte: the lowest byte of each vector comes first. */
  lemma ImageColumns(data: string)
    requires |data| >= MIN_BIN_SIZE
    ensures var s := Image(data);
      (Column(s, 0) + 0x100 * Column(s, 1) + 0x1_0000 * Column(s, 2) + 0x100_0000 * Column(s, 3)) % 0x1_0000_0000 == 0
  {
    hide WordSum, Image;
    ImageOf(data);
    EightWords(Image(data));
  }

  // ----- The vector checksum -----

  function Weight(j: nat): nat {
    if j % 4 == 0 then 1 else if j % 4 == 1 then 0x100 else if j % 4 == 2 then 0x1_0000 else 0x100_0000
  }

  /** What the loop has added up after j bytes. */
  function Weighted(s: string, j: nat): nat
    requires j <= |s|
  {
    if j == 0 then 0 else Weighted(s, j - 1) + s[j - 1] as nat * Weight(j - 1)
  }

  lemma {:induction false} WeightedWords(s: string, n: nat)
    requires 4 * n <= |s|
    ensures Weighted(s, 4 * n) == WordSum(s, n)
  {
    if n > 0 {
      WeightedWords(s, n - 1);
      var j := 4 * n - 4;
      assert Weighted(s, j + 1) == Weighted(s, j) + s[j] as nat;
      assert Weighted(s, j + 2) == Weighted(s, j + 1) + s[j + 1] as nat * 0x100;
      assert Weighted(s, j + 3) == Weighted(s, j + 2) + s[j + 2] as nat * 0x1_0000;
      assert Weighted(s, j + 4) == Weighted(s, j + 3) + s[j + 3] as nat * 0x100_0000;
    }
  }

  /** Adds up the first seven words in 32-bit arithmetic. */
  method AddVectors(buffer: array<char>) returns (tmp: nat)
    requires buffer.Length >= 28
    ensures tmp == WordSum(buffer[..], 7) % WORD
  {
    hide WordSum;
    ghost var s := buffer[..];
    tmp := 0;
    for j := 0 to 28
      invariant tmp == Weighted(s, j) % WORD
    {
      AddWrapped(Weighted(s, j), s[j] as nat * Weight(j));
      tmp := (tmp + (buffer[j] as nat * Weight(j)) % WORD) % WORD;
    }
    WeightedWords(s, 7);
  }

  lemma AddWrapped(x: nat, y: nat)
    ensures (x % WORD + y % WORD) % WORD == (x + y) % WORD
  {}

  /** Puts the checksum of the vectors in front into the first block. */
  method FixVector(buffer: array<char>)
    requires buffer.Length >= BLOCK
    modifies buffer
    ensures buffer[..] == WithVector(old(buffer[..]))
  {
    hide WordSum, WordBytes;
    ghost var s := buffer[..];
    var tmp := AddVectors(buffer);
    tmp := (WORD - 1 - tmp + 1) % WORD;
    var b := WordBytes(tmp);
    buffer[28], buffer[29], buffer[30], buffer[31] := b[0], b[1], b[2], b[3];
    assert buffer[..] == s[..28] + b + s[32..];
  }

  // ----- Blocks -----

  /** Reads n bytes of the file; a fault of the card gives fewer. */
  method ReadFile(data: string, at: nat, n: nat, buffer: array<char>, steady: bool) returns (got: nat)
    requires at + n <= |data| && n <= buffer.Length
    modifies buffer
    ensures got <= n && (steady ==> got == n)
    ensures buffer[..got] == data[at..at + got] && buffer[got..] == old(buffer[got..])
  {
    var fault: bool := *;
    got := if fault && !steady && n > 0 then n - 1 else n;
    var _ := PutPart(buffer, data[at..at + got]);
    assert data[at..at + got] == buffer[..got];
  }

  /** The front of a buffer. */
  method PutPart(buffer: array<char>, s: string) returns (n: nat)
    requires |s| <= buffer.Length
    modifies buffer
    ensures n == |s| && buffer[..n] == s && buffer[n..] == old(buffer[n..])
  {
    n := 0;
    while n < |s|
      invariant n <= |s| && buffer[..n] == s[..n] && buffer[|s|..] == old(buffer[|s|..])
    {
      buffer[n] := s[n];
      n := n + 1;
      assert s[..n] == s[..n - 1] + [s[n - 1]];
      assert buffer[..n] == buffer[..n - 1] + [s[n - 1]];
    }
    assert s[..n] == s;
  }

  function BlockOf(s: string, i: nat): (b: string)
    requires BLOCK * (i + 1) <= |s|
    ensures |b| == BLOCK
  {
    s[BLOCK * i..BLOCK * (i + 1)]
  }

  /** Loads block i of the padded file. */
  method LoadBlock(data: string, i: nat, num: nat, buffer: array<char>, steady: bool) returns (ok: bool)
    requires 0 < |data| && num == BlockCount(|data|) && i < num && buffer.Length >= BLOCK && Bytes(data)
    requires Bytes(buffer[..])
    modifies buffer
    ensures Bytes(buffer[..]) && (steady ==> ok) && buffer[BLOCK..] == old(buffer[BLOCK..])
    ensures ok ==> buffer[..BLOCK] == BlockOf(Padded(data), i)
  {
    hide BlockCount;
    BlockBounds(|data|);
    var lastPackSize := if |data| % BLOCK == 0 then BLOCK else |data| % BLOCK;
    var n := if i == num - 1 then lastPackSize else BLOCK;
    ghost var before := buffer[..];
    var got := ReadFile(data, BLOCK * i, n, buffer, steady);
    StillBytes(before, data, BLOCK * i, got, buffer[..]);
    TailKept(before, buffer[..], got, BLOCK);
    if got != n {
      return false;
    }
    for j := n to BLOCK
      invariant buffer[..n] == data[BLOCK * i..BLOCK * i + n] && Bytes(buffer[..])
      invariant forall k :: n <= k < j ==> buffer[k] == ERASED
      invariant buffer[BLOCK..] == before[BLOCK..]
    {
      buffer[j] := ERASED;
    }
    ghost var p := Padded(data);
    assert forall k :: 0 <= k < n ==> buffer[k] == buffer[..n][k] == data[BLOCK * i + k];
    assert buffer[..BLOCK] == BlockOf(p, i);
    ok := true;
  }

  lemma TailKept(before: string, after: string, got: nat, n: nat)
    requires got <= n <= |before| == |after| && after[got..] == before[got..]
    ensures after[n..] == before[n..]
  {
    assert after[n..] == after[got..][n - got..];
    assert before[n..] == before[got..][n - got..];
  }

  lemma StillBytes(before: string, data: string, at: nat, got: nat, after: string)
    requires Bytes(before) && Bytes(data) && at + got <= |data| && got <= |before| == |after|
    requires after[..got] == data[at..at + got] && after[got..] == before[got..]
    ensures Bytes(after)
  {
    forall k | 0 <= k < |after|
      ensures after[k] as int < 256
    {
      if k < got {
        assert after[k] == after[..got][k];
      } else {
        assert after[k] == after[got..][k - got] == before[got..][k - got];
      }
    }
  }

  /** Loads block i of the image. */
  method LoadImageBlock(data: string, i: nat, num: nat, buffer: array<char>, steady: bool) returns (ok: bool)
    requires |data| >= MIN_BIN_SIZE && num == BlockCount(|data|) && i < num && buffer.Length >= BLOCK && Bytes(data)
    requires Bytes(buffer[..])
    modifies buffer
    ensures Bytes(buffer[..]) && (steady ==> ok) && buffer[BLOCK..] == old(buffer[BLOCK..])
    ensures ok ==> buffer[..BLOCK] == BlockOf(Image(data), i)
  {
    hide BlockCount, Bytes, WordBytes, Checksum;
    ok := LoadBlock(data, i, num, buffer, steady);
    if ok && i == 0 {
      ghost var s := buffer[..];
      FixVector(buffer);
      FixedBytes(s);
      assert s[..BLOCK] == BlockOf(Padded(data), 0) == Padded(data)[..BLOCK];
      FixedBlock(s, Padded(data), BLOCK);
      assert buffer[..BLOCK] == Image(data)[..BLOCK];
    } else if ok {
      assert BlockOf(Image(data), i) == BlockOf(Padded(data), i);
    }
  }

  lemma FixedBytes(s: string)
    requires |s| >= 32 && Bytes(s)
    ensures Bytes(WithVector(s))
  {
    hide Checksum, WordBytes;
    var t := WithVector(s);
    forall k | 0 <= k < |t|
      ensures t[k] as int < 256
    {
      assert t[k] == if k < 28 then s[k] else if k < 32 then WordBytes(Checksum(s))[k - 28] else s[k];
    }
  }

  /** The checksum depends on the vectors only, which are in the first block. */
  lemma FixedBlock(s: string, p: string, n: nat)
    requires 32 <= n <= |s| && n <= |p| && s[..n] == p[..n]
    ensures WithVector(s)[..n] == WithVector(p)[..n]
  {
    hide WordBytes, WordSum;
    assert s[..28] == s[..n][..28] && p[..28] == p[..n][..28];
    WordSumPrefix(s, p, 7);
    var w := WordBytes(Checksum(s));
    assert WithVector(s)[..n] == s[..28] + w + s[..n][32..];
    assert WithVector(p)[..n] == p[..28] + w + p[..n][32..];
  }

  // ----- Programming -----

  /** The first n bytes are those of s, and the rest of the flash is erased. */
  ghost predicate Flashed(flash: string, s: string, n: nat) {
    && n <= |s| && n <= |flash|
    && flash[..n] == s[..n]
    && forall k :: n <= k < |flash| ==> flash[k] == ERASED
  }

  /** Whole blocks of s are there, and the rest of the flash is erased. */
  ghost predicate Partly(flash: string, s: string) {
    exists k :: Blocks(k, s) && Flashed(flash, s, BLOCK * k)
  }

  predicate Blocks(k: nat, s: string) {
    BLOCK * k <= |s|
  }

  lemma BlockFlashed(flash: string, s: string, i: nat)
    requires BLOCK * (i + 1) <= |s| <= |flash| && Bytes(flash) && Bytes(s) && Flashed(flash, s, BLOCK * i)
    ensures Flashed(Programmed(flash, BLOCK * i, BlockOf(s, i)), s, BLOCK * (i + 1))
  {
    var at := BLOCK * i;
    var b := BlockOf(s, i);
    var f := Programmed(flash, at, b);
    forall k | 0 <= k < BLOCK * (i + 1)
      ensures f[k] == s[k]
    {
      if k < at {
        assert f[k] == flash[k] == flash[..at][k] == s[..at][k];
      } else {
        assert f[at + (k - at)] == AndByte(flash[k], b[k - at]);
        assert b[k - at] == s[k];
      }
    }
  }

  // ----- What is said -----

  /** The bytes that the encoder reads beyond the block. */
  const TAIL: string := ['\0', '\0', '\0']

  /** A block goes through RAM: announced, sent, every sector prepared, copied. */
  function BlockCommands(s: string, i: nat): seq<Command>
    requires BLOCK * (i + 1) <= |s|
  {
    [Write(0x1000_0300, 512), Lines(SentFrom(BlockOf(s, i) + TAIL, 512, 0), Sum(BlockOf(s, i))),
     Command.Prepare(0, 15), Command.Copy(512 * i, 0x1000_0300, 512)]
  }

  /** The first n blocks, one after the other. */
  function Writes(s: string, n: nat): (cs: seq<Command>)
    requires BLOCK * n <= |s|
    ensures |cs| == 4 * n
  {
    if n == 0 then [] else Writes(s, n - 1) + BlockCommands(s, n - 1)
  }

  /** And every one of them read back. */
  function Reads(flash: string, n: nat): (cs: seq<Command>)
    requires BLOCK * n <= |flash|
    ensures |cs| == n
  {
    if n == 0 then [] else Reads(flash, n - 1) + [Command.Read(512 * (n - 1), 512, BlockOf(flash, n - 1))]
  }

  lemma {:induction false} WritesGrow(s: string, n: nat, m: nat)
    requires n <= m && BLOCK * m <= |s|
    ensures Writes(s, n) <= Writes(s, m)
    decreases m
  {
    hide BlockCommands;
    if n < m {
      WritesGrow(s, n, m - 1);
    }
  }

  lemma {:induction false} ReadsGrow(flash: string, n: nat, m: nat)
    requires n <= m && BLOCK * m <= |flash|
    ensures Reads(flash, n) <= Reads(flash, m)
    decreases m
  {
    hide BlockOf;
    if n < m {
      ReadsGrow(flash, n, m - 1);
    }
  }

  /** Writes one block of the image through RAM. */
  method WriteBlock(board: Board, buffer: array<char>, i: nat, ghost s: string) returns (ret: int)
    requires board.Valid() && board.unlocked && Bytes(buffer[..]) && Bytes(s)
    requires BLOCK * (i + 1) <= |s| <= FLASH_SIZE && buffer[..] == BlockOf(s, i) + TAIL
    requires board.sound ==> Flashed(board.flash, s, BLOCK * i)
    modifies board`ram, board`flash, board`prepared, board`said
    ensures board.Valid() && board.unlocked && old(board.said) <= board.said
    ensures ret == 0 && board.sound ==> Flashed(board.flash, s, BLOCK * (i + 1))
    ensures ret in {0, -7, -8} && (board.reliable ==> ret == 0)
    ensures ret == -7 ==> board.flash == old(board.flash)
    ensures var now := Since(old(board.said), board.said);
      && (ret == 0 ==> AllHeard(now, BlockCommands(s, i)))
      && (ret == -7 ==> LostIn(now, BlockCommands(s, i)) && |now| <= 2)
      && (ret == -8 ==> LostIn(now, BlockCommands(s, i)) && |now| > 2)
  {
    hide Flashed, Bytes, Overwritten, SentFrom, Sum, BlockOf;
    assert buffer[..][..512] == buffer[..512] == BlockOf(s, i);
    ret := WriteToRam(board, WRITE_RAM_ADDR, BLOCK, buffer);
    ghost var first := Since(old(board.said), board.said);
    ghost var write, copy :=
      WriteCommands(WRITE_RAM_ADDR, BLOCK, buffer[..]), CopyCommands(BLOCK * i, WRITE_RAM_ADDR, BLOCK);
    assert BlockCommands(s, i) == write + copy;
    if ret != RET_SUCCESS {
      LostEarly(first, write, copy);
      return -7;
    }
    RamHolds(old(board.ram), WRITE_RAM_ADDR - RAM_START, BlockOf(s, i));
    if board.sound {
      BlockFlashed(board.flash, s, i);
    }
    label Sent:
    ret := CopyToFlash(board, BLOCK * i, WRITE_RAM_ADDR, BLOCK);
    ghost var after := Since(old@Sent(board.said), board.said);
    HeardBoth(first, after, write, copy);
    assert Since(old(board.said), board.said) == first + after;
    if ret != RET_SUCCESS {
      return -8;
    }
  }

  lemma RamHolds(ram: string, at: nat, d: string)
    requires at + |d| <= |ram|
    ensures Overwritten(ram, at, d)[at..at + |d|] == d
  {}

  /** Loads a block and writes it; a result of -6 is a fault of the card, before anything is said. */
  method PutBlock(board: Board, data: string, i: nat, num: nat, buffer: array<char>, steady: bool) returns (ret: int)
    requires board.Valid() && board.unlocked && Bytes(data)
    requires MIN_BIN_SIZE <= |data| <= FLASH_SIZE && num == BlockCount(|data|) && i < num
    requires buffer.Length == BLOCK + 3 && Bytes(buffer[..]) && buffer[BLOCK..] == TAIL
    requires board.sound ==> Flashed(board.flash, Image(data), BLOCK * i)
    modifies board`ram, board`flash, board`prepared, board`said, buffer
    ensures board.Valid() && board.unlocked && old(board.said) <= board.said
    ensures Bytes(buffer[..]) && buffer[BLOCK..] == TAIL
    ensures ret in {0, -6, -7, -8} && (steady ==> ret != -6) && (board.reliable ==> ret in {0, -6})
    ensures ret == 0 ==> buffer[..BLOCK] == BlockOf(Image(data), i)
    ensures ret == 0 && board.sound ==> Flashed(board.flash, Image(data), BLOCK * (i + 1))
    ensures ret in {-6, -7} ==> board.flash == old(board.flash)
    ensures ret == -6 ==> board.said == old(board.said)
    ensures var now := Since(old(board.said), board.said);
      && (ret == 0 ==> AllHeard(now, BlockCommands(Image(data), i)))
      && (ret == -7 ==> LostIn(now, BlockCommands(Image(data), i)) && |now| <= 2)
      && (ret == -8 ==> LostIn(now, BlockCommands(Image(data), i)) && |now| > 2)
  {
    hide Flashed, Bytes, Image, BlockCount, BlockCommands, AllHeard, LostIn;
    ImageBytes(data);
    var ok := LoadImageBlock(data, i, num, buffer, steady);
    if !ok {
      return -6;
    }
    assert buffer[..] == BlockOf(Image(data), i) + TAIL;
    ret := WriteBlock(board, buffer, i, Image(data));
  }

  /** Every block of the image is written, and its sum noted. */
  method WriteBlocks(board: Board, data: string, num: nat, buffer: array<char>, checksumW: array<int>, steady: bool)
    returns (ret: int)
    requires board.Valid() && board.unlocked && Bytes(data)
    requires MIN_BIN_SIZE <= |data| <= FLASH_SIZE && num == BlockCount(|data|)
    requires buffer.Length == BLOCK + 3 && Bytes(buffer[..]) && buffer[BLOCK..] == TAIL && checksumW.Length == num
    requires board.sound ==> Flashed(board.flash, Image(data), 0)
    modifies board`ram, board`flash, board`prepared, board`said, buffer, checksumW
    ensures board.Valid() && old(board.said) <= board.said
    ensures ret == 0 && board.sound ==> Flashed(board.flash, Image(data), BLOCK * num)
    ensures ret == 0 ==> forall k :: 0 <= k < num ==> checksumW[k] == Sum(BlockOf(Image(data), k))
    ensures ret in {0, -6, -7, -8} && (steady ==> ret != -6) && (board.reliable ==> ret in {0, -6})
    ensures ret in {-6, -7} && board.sound ==> Partly(board.flash, Image(data))
    ensures Wrote(ret, Since(old(board.said), board.said), Image(data), num)
  {
    hide Flashed, Partly, Bytes, Image, BlockCount, Sum, BlockOf, BlockCommands, Writes, AllHeard, LostIn, Wrote;
    BlockBounds(|data|);
    ImageBytes(data);
    ghost var s := Image(data);
    NothingYet(s, Since(old(board.said), board.said));
    for i := 0 to num
      invariant board.Valid() && board.unlocked && Bytes(buffer[..]) && buffer[BLOCK..] == TAIL
      invariant board.sound ==> Flashed(board.flash, s, BLOCK * i)
      invariant forall k :: 0 <= k < i ==> checksumW[k] == Sum(BlockOf(s, k))
      invariant old(board.said) <= board.said && AllHeard(Since(old(board.said), board.said), Writes(s, i))
    {
      ghost var said := Since(old(board.said), board.said);
      if board.sound {
        PartlyAt(board.flash, s, i);
      }
      label Start:
      ret := PutBlock(board, data, i, num, buffer, steady);
      ghost var now := Since(old@Start(board.said), board.said);
      assert Since(old(board.said), board.said) == said + now;
      if ret == -6 {
        WroteSome(said, s, i, num);
        return;
      }
      OneMoreBlock(ret, said, now, s, i, num);
      if ret != 0 {
        return;
      }
      checksumW[i] := SumOf(buffer, BLOCK);
    }
    ret := 0;
    WroteAll(Since(old(board.said), board.said), s, num);
  }

  /** What has been said when the writing ends with this result. */
  ghost predicate Wrote(ret: int, now: seq<Spoken>, s: string, num: nat) {
    && BLOCK * num <= |s|
    && (ret == 0 ==> AllHeard(now, Writes(s, num)))
    && (ret == -6 ==> |now| < 4 * num && |now| % 4 == 0 && AllHeard(now, Writes(s, num)[..|now|]))
    && (ret == -7 ==> LostIn(now, Writes(s, num)) && |now| % 4 in {1, 2})
    && (ret == -8 ==> LostIn(now, Writes(s, num)) && |now| % 4 in {3, 0})
  }

  lemma NothingYet(s: string, now: seq<Spoken>)
    requires now == []
    ensures AllHeard(now, Writes(s, 0))
  {}

  lemma WroteAll(now: seq<Spoken>, s: string, num: nat)
    requires BLOCK * num <= |s| && AllHeard(now, Writes(s, num))
    ensures Wrote(0, now, s, num)
  {}

  lemma WroteSome(now: seq<Spoken>, s: string, i: nat, num: nat)
    requires i < num && BLOCK * num <= |s| && AllHeard(now, Writes(s, i))
    ensures Wrote(-6, now, s, num)
  {
    hide BlockCommands, Writes;
    WritesGrow(s, i, num);
    assert Writes(s, num)[..4 * i] == Writes(s, i);
  }

  lemma OneMoreBlock(ret: int, said: seq<Spoken>, now: seq<Spoken>, s: string, i: nat, num: nat)
    requires i < num && BLOCK * num <= |s| && AllHeard(said, Writes(s, i)) && ret in {0, -7, -8}
    requires ret == 0 ==> AllHeard(now, BlockCommands(s, i))
    requires ret == -7 ==> LostIn(now, BlockCommands(s, i)) && |now| <= 2
    requires ret == -8 ==> LostIn(now, BlockCommands(s, i)) && |now| > 2
    ensures ret == 0 ==> AllHeard(said + now, Writes(s, i + 1))
    ensures ret != 0 ==> Wrote(ret, said + now, s, num)
  {
    hide SentFrom, Sum;
    HeardBoth(said, now, Writes(s, i), BlockCommands(s, i));
    WritesGrow(s, i + 1, num);
    if ret != 0 {
      LostWithin(said + now, Writes(s, i + 1), Writes(s, num));
    }
  }

  lemma LostWithin(now: seq<Spoken>, c: seq<Command>, d: seq<Command>)
    requires LostIn(now, c) && c <= d
    ensures LostIn(now, d)
  {}

  lemma PartlyAt(flash: string, s: string, i: nat)
    requires Blocks(i, s) && Flashed(flash, s, BLOCK * i)
    ensures Partly(flash, s)
  {}

  lemma ImageBytes(data: string)
    requires MIN_BIN_SIZE <= |data| <= FLASH_SIZE && Bytes(data)
    ensures Bytes(Image(data)) && |Image(data)| <= FLASH_SIZE
  {
    hide WithVector;
    BlockBounds(|data|);
    FixedBytes(Padded(data));
  }

  /** What has been said, and found, when the verification ends with this result. */
  ghost predicate Compared(ret: int, now: seq<Spoken>, flash: string, num: nat, sums: seq<int>) {
    && BLOCK * num <= |flash| && |sums| == num && |now| <= num
    && (ret == 0 ==> AllHeard(now, Reads(flash, num)) && Agree(flash, sums, num))
    && (ret == -9 ==> LostIn(now, Reads(flash, num)) && Agree(flash, sums, |now| - 1))
    && (ret == -10 ==>
          && now != [] && AllHeard(now, Reads(flash, |now|))
          && Agree(flash, sums, |now| - 1) && Sum(BlockOf(flash, |now| - 1)) != sums[|now| - 1])
  }

  /** The sums of the first n blocks are right. */
  ghost predicate Agree(flash: string, sums: seq<int>, n: int)
    requires n <= |sums| && BLOCK * |sums| <= |flash|
  {
    forall k :: 0 <= k < n ==> Sum(BlockOf(flash, k)) == sums[k]
  }

  /** Every block is read back, and its sum compared: the result is 0 exactly when every block has been read and its sum
      is the one noted, -9 exactly when one of the replies has not been heard, and -10 exactly when one of the sums is
      another one. */
  method VerifyBlocks(board: Board, recv: array<char>, num: nat, buffer: array<char>, checksumW: array<int>)
    returns (ret: int)
    requires board.Valid() && recv != buffer && recv.Length == RECV_BUF_SIZE && BLOCK + 3 <= buffer.Length
    requires checksumW.Length == num && BLOCK * num <= FLASH_SIZE
    modifies recv, buffer, board`said
    ensures board.Valid() && old(board.said) <= board.said
    ensures ret in {0, -9, -10} && (board.reliable ==> ret != -9)
    ensures Compared(ret, Since(old(board.said), board.said), board.flash, num, checksumW[..])
  {
    hide Sum, BlockOf, AllHeard, LostIn, Reads;
    var checksumR := new int[num];
    ghost var f := board.flash;
    NoneRead(f, Since(old(board.said), board.said));
    for i := 0 to num
      invariant board.Valid() && old(board.said) <= board.said && checksumW[..] == old(checksumW[..])
      invariant AllHeard(Since(old(board.said), board.said), Reads(f, i)) && Agree(f, checksumW[..], i)
    {
      ghost var said := Since(old(board.said), board.said);
      BlockInFlash(board, i);
      ret := ReadMemory(board, recv, BLOCK * i, BLOCK, buffer);
      ghost var one := Spoken(Command.Read(BLOCK * i, BLOCK, BlockOf(f, i)), ret == RET_SUCCESS);
      assert Since(old(board.said), board.said) == said + [one];
      OneMoreRead(said, one, f, i, num);
      if ret != RET_SUCCESS {
        return -9;
      }
      checksumR[i] := SumOf(buffer, BLOCK);
      if checksumR[i] != checksumW[i] {
        return -10;
      }
    }
    ret := 0;
    ReadLength(Since(old(board.said), board.said), f, num);
  }

  lemma NoneRead(f: string, now: seq<Spoken>)
    requires now == []
    ensures AllHeard(now, Reads(f, 0))
  {}

  lemma ReadLength(now: seq<Spoken>, f: string, n: nat)
    requires BLOCK * n <= |f| && AllHeard(now, Reads(f, n))
    ensures |now| == n
  {}

  lemma OneMoreRead(said: seq<Spoken>, one: Spoken, f: string, i: nat, num: nat)
    requires i < num && BLOCK * num <= |f| && AllHeard(said, Reads(f, i))
    requires one.command == Command.Read(BLOCK * i, BLOCK, BlockOf(f, i))
    ensures |said| == i
    ensures one.heard ==> AllHeard(said + [one], Reads(f, i + 1))
    ensures !one.heard ==> LostIn(said + [one], Reads(f, num))
  {
    hide BlockOf;
    ReadsGrow(f, i + 1, num);
    HeardBoth(said, [one], Reads(f, i), [one.command]);
    if !one.heard {
      LostWithin(said + [one], Reads(f, i + 1), Reads(f, num));
    }
  }

  lemma BlockInFlash(board: Board, i: nat)
    requires board.Valid() && BLOCK * (i + 1) <= FLASH_SIZE
    ensures board.Mapped(BLOCK * i, BLOCK) && board.Memory(BLOCK * i, BLOCK) == BlockOf(board.flash, i)
    ensures CanRead(BLOCK * i, BLOCK)
  {}

  lemma BlockOfFlashed(flash: string, s: string, k: nat)
    requires BLOCK * (k + 1) <= |s| <= |flash| && Flashed(flash, s, |s|)
    ensures BlockOf(flash, k) == BlockOf(s, k)
  {
    SliceOfPrefix(flash, s, BLOCK * k, BLOCK * (k + 1));
  }

  lemma SliceOfPrefix(f: string, s: string, a: nat, b: nat)
    requires a <= b <= |s| <= |f| && f[..|s|] == s
    ensures f[a..b] == s[a..b]
  {
    forall k | 0 <= k < b - a
      ensures f[a..b][k] == s[a..b][k]
    {
      assert f[a + k] == f[..|s|][a + k];
    }
  }

  lemma AllErased(flash: string, s: string)
    requires |flash| == FLASH_SIZE
    ensures Flashed(Erased(flash, 0, SECTOR_NUM - 1), s, 0)
  {}

  /** The sums of the blocks of s. */
  function Sums(s: string, num: nat): (sums: seq<int>)
    requires BLOCK * num <= |s|
    ensures |sums| == num && forall k :: 0 <= k < num ==> sums[k] == Sum(BlockOf(s, k))
  {
    seq(num, k requires 0 <= k < num => Sum(BlockOf(s, k)))
  }

  /** What has been said when the programming ends with this result: the erasing, then the writing, then the
      verification, each of them all of it or up to what stopped it. */
  ghost predicate Ended(ret: int, now: seq<Spoken>, s: string, flash: string, num: nat, unlocked: bool) {
    if ret == -4 then
      && now != [] && now[0].command.Unlock?
      && (LostIn(now[1..], EraseCommands(0, 15)) || (!unlocked && AllHeard(now[1..], [Command.Prepare(0, 15)])))
    else
      && BLOCK * num <= |s| && Started(now)
      && (ret in {-6, -7, -8} ==> Wrote(ret, now[4..], s, num))
      && (ret in {0, -9, -10} ==>
            && 4 + 4 * num <= |now| && AllHeard(now[4..4 + 4 * num], Writes(s, num))
            && Compared(ret, now[4 + 4 * num..], flash, num, Sums(s, num)))
  }

  /** The target has been unlocked, erased, and unlocked again; nobody listens to the reply to an unlocking. */
  ghost predicate Started(now: seq<Spoken>) {
    4 <= |now| && now[0].command.Unlock? && AllHeard(now[1..3], EraseCommands(0, 15)) && now[3].command.Unlock?
  }

  /** So the result is 0 or -4 or -6 or -7 or -8 or -9 or -10 exactly when what has been said is as stated for it: no
      other result would be right. */
  lemma OneResult(r: int, q: int, now: seq<Spoken>, s: string, flash: string, num: nat, unlocked: bool)
    requires r in {0, -4, -6, -7, -8, -9, -10} && q in {0, -4, -6, -7, -8, -9, -10}
    requires Ended(r, now, s, flash, num, unlocked) && Ended(q, now, s, flash, num, unlocked)
    ensures r == q
  {
    hide Writes, Compared, Wrote, Sums;
    if r != -4 && q != -4 {
      if r in {-6, -7, -8} && q in {-6, -7, -8} {
        WroteOnce(r, q, now[4..], s, num);
      } else if r in {-6, -7, -8} {
        WroteShort(r, now, s, num);
      } else if q in {-6, -7, -8} {
        WroteShort(q, now, s, num);
      } else {
        ComparedOnce(r, q, now[4 + 4 * num..], flash, num, Sums(s, num));
      }
    }
  }

  lemma WroteOnce(r: int, q: int, now: seq<Spoken>, s: string, num: nat)
    requires r in {-6, -7, -8} && q in {-6, -7, -8} && Wrote(r, now, s, num) && Wrote(q, now, s, num)
    ensures r == q
  {
    hide Writes;
    if |now| > 0 {
      var last := now[|now| - 1];
      assert last.heard <==> r == -6;
      assert last.heard <==> q == -6;
    }
  }

  /** A writing that has been stopped has not had all its replies. */
  lemma WroteShort(r: int, now: seq<Spoken>, s: string, num: nat)
    requires 4 <= |now| && r in {-6, -7, -8} && Wrote(r, now[4..], s, num)
    ensures !(4 + 4 * num <= |now| && AllHeard(now[4..4 + 4 * num], Writes(s, num)))
  {
    hide Writes;
    if r != -6 && 4 + 4 * num <= |now| {
      var k := |now[4..]| - 1;
      assert k == 4 * num - 1 && !now[4..][k].heard;
      assert now[4..4 + 4 * num][k] == now[4..][k];
    }
  }

  lemma ComparedOnce(r: int, q: int, now: seq<Spoken>, flash: string, num: nat, sums: seq<int>)
    requires r in {0, -9, -10} && q in {0, -9, -10}
    requires Compared(r, now, flash, num, sums) && Compared(q, now, flash, num, sums)
    ensures r == q
  {
    hide Reads, Sum, BlockOf;
    if |now| > 0 {
      var last := now[|now| - 1];
      assert last.heard <==> r != -9;
      assert last.heard <==> q != -9;
    }
  }

  lemma ZeroBytes(s: string)
    requires forall i :: 0 <= i < |s| ==> s[i] == '\0'
    ensures Bytes(s)
  {}

  /** Unlocks the target, erases it and unlocks it again. */
  method EraseTarget(board: Board) returns (ret: int)
    requires board.Valid()
    modifies board`flash, board`prepared, board`unlocked, board`said
    ensures board.Valid() && old(board.said) <= board.said && ret in {0, -4} && (ret == -4 ==> !board.reliable)
    ensures var now := Since(old(board.said), board.said);
      && (ret == 0 ==> Started(now) && |now| == 4)
      && (ret == -4 ==>
            && now != [] && now[0].command.Unlock?
            && (LostIn(now[1..], EraseCommands(0, 15)) ||
                (!board.unlocked && AllHeard(now[1..], [Command.Prepare(0, 15)]))))
    ensures ret == 0 ==> board.unlocked && board.flash == Erased(old(board.flash), 0, SECTOR_NUM - 1)
  {
    hide AllHeard, LostIn, EraseCommands, Erased;
    ghost var before := board.said;
    board.Unlock();
    ghost var unlock := board.said[|before|];
    label Unlocked:
    ret := EraseRange(board, 0, SECTOR_NUM - 1);
    ghost var erase := Since(old@Unlocked(board.said), board.said);
    assert Since(before, board.said) == [unlock] + erase;
    assert ([unlock] + erase)[1..] == erase;
    if ret != RET_SUCCESS {
      return -4;
    }
    label Erased:
    board.Unlock();
    ghost var again := board.said[|old@Erased(board.said)|];
    Start(unlock, erase, again);
    assert Since(before, board.said) == [unlock] + erase + [again];
  }

  lemma Start(unlock: Spoken, erase: seq<Spoken>, again: Spoken)
    requires unlock.command.Unlock? && again.command.Unlock? && AllHeard(erase, EraseCommands(0, 15))
    ensures Started([unlock] + erase + [again]) && |[unlock] + erase + [again]| == 4
  {
    assert |erase| == 2;
    assert ([unlock] + erase + [again])[1..3] == erase;
  }

  /** The size of the file has been checked: erase, write, verify. */
  method ProgramData(board: Board, recv: array<char>, data: string, steady: bool) returns (ret: int)
    requires board.Valid() && Bytes(data) && MIN_BIN_SIZE <= |data| <= FLASH_SIZE && recv.Length == RECV_BUF_SIZE
    modifies board, recv
    ensures board.Valid() && old(board.said) <= board.said
    ensures ret in {0, -9} && board.sound ==> Flashed(board.flash, Image(data), |Image(data)|)
    ensures ret in {-6, -7} && board.sound ==> Partly(board.flash, Image(data))
    ensures ret in {0, -4, -6, -7, -8, -9, -10} && (ret == -10 ==> !board.sound)
    ensures (ret == -6 ==> !steady) && (ret in {-4, -7, -8, -9} ==> !board.reliable)
    ensures Ended(ret, Since(old(board.said), board.said), Image(data), board.flash, BlockCount(|data|), board.unlocked)
  {
    hide Flashed, Partly, Bytes, Image, BlockCount, Erased, AllHeard, LostIn, Wrote, Compared, Writes, Sums, Agree;
    hide EraseCommands, Started;
    ImageBytes(data);
    var num := BlockCount(|data|);
    ghost var s := Image(data);
    ret := EraseTarget(board);
    ghost var start := Since(old(board.said), board.said);
    if ret != 0 {
      return;
    }
    AllErased(old(board.flash), s);
    var buffer := new char[BLOCK + 3](_ => '\0');
    var checksumW := new int[num];
    ZeroBytes(buffer[..]);
    label Ready:
    ret := WriteBlocks(board, data, num, buffer, checksumW, steady);
    ghost var wrote := Since(old@Ready(board.said), board.said);
    assert Since(old(board.said), board.said) == start + wrote;
    if ret != 0 {
      WriteEnds(ret, start, wrote, s, board.flash, num, board.unlocked);
      return;
    }
    label Written:
    SumsAre(checksumW[..], s, num);
    ret := VerifyBlocks(board, recv, num, buffer, checksumW);
    ghost var read := Since(old@Written(board.said), board.said);
    assert Since(old(board.said), board.said) == start + wrote + read;
    ReadEnds(ret, start, wrote, read, s, board.flash, num, board.unlocked);
    if board.sound {
      SoundAgrees(ret, read, s, board.flash, num);
    }
  }

  lemma WriteEnds(ret: int, start: seq<Spoken>, wrote: seq<Spoken>, s: string, flash: string, num: nat, unlocked: bool)
    requires |start| == 4 && Started(start) && ret in {-6, -7, -8} && Wrote(ret, wrote, s, num)
    ensures Ended(ret, start + wrote, s, flash, num, unlocked)
  {
    hide AllHeard, LostIn, Writes, EraseCommands;
    var now := start + wrote;
    assert now[1..3] == start[1..3] && now[4..] == wrote;
  }

  lemma ReadEnds(ret: int, start: seq<Spoken>, wrote: seq<Spoken>, read: seq<Spoken>, s: string, flash: string,
    num: nat,
    unlocked: bool)
    requires |start| == 4 && Started(start) && Wrote(0, wrote, s, num)
    requires ret in {0, -9, -10} && Compared(ret, read, flash, num, Sums(s, num))
    ensures Ended(ret, start + wrote + read, s, flash, num, unlocked)
  {
    hide LostIn, Compared, Writes, EraseCommands, Sums;
    var now := start + wrote + read;
    assert now[1..3] == start[1..3];
    assert now[4..4 + 4 * num] == wrote && now[4 + 4 * num..] == read;
  }

  // ----- What equal sums mean -----

  lemma {:induction false} SumOfParts(a: string, b: string)
    ensures Sum(a + b) == Sum(a) + Sum(b)
    decreases |b|
  {
    if b == [] {
      assert a + b == a;
    } else {
      SumOfParts(a, b[..|b| - 1]);
      assert (a + b)[..|a + b| - 1] == a + b[..|b| - 1];
    }
  }

  lemma SumChanged(s: string, k: nat, c: char)
    requires k < |s|
    ensures Sum(s[k := c]) == Sum(s) - s[k] as nat + c as nat
  {
    var a, b := s[..k], s[k + 1..];
    assert s == a + [s[k]] + b && s[k := c] == a + [c] + b;
    SumOfParts(a + [s[k]], b);
    SumOfParts(a + [c], b);
    SumOfParts(a, [s[k]]);
    SumOfParts(a, [c]);
    assert Sum([s[k]]) == s[k] as nat && Sum([c]) == c as nat;
  }

  /** The verification catches a block with one wrong byte. */
  lemma OneByteCaught(flash: string, s: string, num: nat, i: nat, k: nat, c: char)
    requires BLOCK * num <= |s| <= |flash| && i < num && k < BLOCK && Agree(flash, Sums(s, num), num)
    ensures BlockOf(flash, i) == BlockOf(s, i)[k := c] ==> BlockOf(flash, i) == BlockOf(s, i)
  {
    hide BlockOf, Sum;
    SumChanged(BlockOf(s, i), k, c);
  }

  /** It does not catch two bytes of a block that have changed places. */
  lemma SwapMissed(s: string, i: nat, k: nat)
    requires i < |s| && k < |s|
    ensures Sum(s[i := s[k]][k := s[i]]) == Sum(s)
  {
    SumChanged(s, i, s[k]);
    SumChanged(s[i := s[k]], k, s[i]);
  }

  lemma SumsAre(sums: seq<int>, s: string, num: nat)
    requires |sums| == num && BLOCK * num <= |s|
    ensures (forall k :: 0 <= k < num ==> sums[k] == Sum(BlockOf(s, k))) ==> sums == Sums(s, num)
  {}

  lemma SoundAgrees(ret: int, read: seq<Spoken>, s: string, flash: string, num: nat)
    requires BLOCK * num == |s| <= |flash| && Flashed(flash, s, |s|) && Compared(ret, read, flash, num, Sums(s, num))
    ensures ret != -10
  {
    hide Flashed, AllHeard, LostIn, BlockOf, Sum, Reads;
    if ret == -10 {
      BlockOfFlashed(flash, s, |read| - 1);
    }
  }

  /** programBinFileV1. What has been said to the target is what the result stands for, and stands for no other
      (`OneResult`): after 0, every block has been written and read back with every reply heard, and every sum is right.
      On a sound part the flash then holds the file: with the boot checksum in place, filled up to whole blocks, and
      erased behind them; it does so after -9 as well, and a result of -10 does not occur. A card fault, -6, or a lost
      exchange, -7, leaves whole blocks. */
  method ProgramBinFileV1(board: Board, recv: array<char>, source: Source, steady: bool) returns (ret: int)
    requires board.Valid() && recv.Length == RECV_BUF_SIZE && (source.File? ==> Bytes(source.data))
    modifies board, recv
    ensures board.Valid()
    ensures source.NoPath? <==> ret == -1
    ensures source.NoFile? <==> ret == -2
    ensures source.File? && !(2048 <= |source.data| <= 0x1_0000) <==> ret == -3
    ensures ret in {-1, -2, -3} ==>
      board.flash == old(board.flash) && board.ram == old(board.ram) && board.said == old(board.said)
    ensures old(board.said) <= board.said
    ensures ret !in {-1, -2, -3} ==>
      Ended(ret, Since(old(board.said), board.said), Image(source.data), board.flash, BlockCount(|source.data|),
        board.unlocked)
    ensures ret in {0, -9} && board.sound ==> Flashed(board.flash, Image(source.data), |Image(source.data)|)
    ensures ret in {-6, -7} && board.sound ==> Partly(board.flash, Image(source.data))
    ensures ret in {0, -1, -2, -3, -4, -6, -7, -8, -9, -10} && (ret == -10 ==> !board.sound)
    ensures (ret == -6 ==> !steady) && (ret in {-4, -7, -8, -9} ==> !board.reliable)
  {
    if source.NoPath? {
      return -1;
    }
    if source.NoFile? {
      return -2;
    }
    var size := |source.data|;
    if size < MIN_BIN_SIZE || size > FLASH_SIZE {
      return -3;
    }
    hide Flashed, Partly, Bytes, Image;
    ret := ProgramData(board, recv, source.data, steady);
  }

  /** What a return value of 0 means, byte by byte. */
  lemma ProgrammedFile(flash: string, data: string)
    requires MIN_BIN_SIZE <= |data| <= FLASH_SIZE == |flash| && Flashed(flash, Image(data), |Image(data)|)
    ensures forall k :: 0 <= k < FLASH_SIZE && !(28 <= k < 32) ==> flash[k] == if k < |data| then data[k] else ERASED
    ensures WordSum(flash, 8) % WORD == 0
  {
    hide WordSum, Image;
    ImageOf(data);
    var s := Image(data);
    BlockBounds(|data|);
    forall k | 0 <= k < FLASH_SIZE && !(28 <= k < 32)
      ensures flash[k] == if k < |data| then data[k] else ERASED
    {
      if k < |s| {
        assert flash[k] == flash[..|s|][k] == s[k];
      }
    }
    assert flash[..32] == flash[..|s|][..32] == s[..32];
    WordSumPrefix(flash, s, 8);
  }
}
