/** The commands that program a target over its boot loader. */
module Isp {
  import opened CStrings
  import opened Decimal
  import opened UUencode
  import opened IspWire
  import opened IspTarget

  const RET_SUCCESS: int := 0
  const RET_ERROR: int := -1
  const RET_TIMEOUT: int := -2
  const RET_PARAM_ILLEGAL: int := -3

  const MAX_WRITE: nat := 512
  const RECV_BUF_SIZE: nat := 1024

  // ----- Replies -----

  predicate FoundAt(s: string, p: string, i: nat) {
    i + |p| <= |s| && s[i..i + |p|] == p
  }

  /** strstr finds p in s. */
  predicate Contains(s: string, p: string) {
    exists i :: 0 <= i <= |s| - |p| && FoundAt(s, p, i)
  }

  function ReplyText(r: Reply): string {
    match r
    case Silence => ""
    case Code(n) => Numeral(n) + "\r\n"
  }

  /** The test every command makes of the reply in the receive buffer. */
  function Outcome(r: Reply): int {
    if ReplyText(r) == "" then RET_TIMEOUT
    else if Contains(ReplyText(r), SUCCESS_TEXT) then RET_SUCCESS
    else RET_ERROR
  }

  /** The test is for a result code that ends in 0, not for code 0. */
  lemma OutcomeOfCode(n: nat)
    ensures Outcome(Code(n)) == if n % 10 == 0 then RET_SUCCESS else RET_ERROR
  {
    var s := ReplyText(Code(n));
    assert s != "";
    SuccessFound(n, s);
  }

  lemma SuccessFound(n: nat, s: string)
    requires s == Numeral(n) + "\r\n"
    ensures Contains(s, SUCCESS_TEXT) <==> n % 10 == 0
  {
    hide Numeral;
    LastDigit(n);
    var k := |Numeral(n)|;
    assert s[k - 1] == Numeral(n)[k - 1] && s[k] == '\r' && s[k + 1] == '\n';
    if n % 10 == 0 {
      assert s[k - 1..k + 2] == SUCCESS_TEXT;
      assert FoundAt(s, SUCCESS_TEXT, k - 1);
    }
    forall i | 0 <= i <= |s| - 3 && FoundAt(s, SUCCESS_TEXT, i)
      ensures n % 10 == 0
    {
      assert s[i] == s[i..i + 3][0] && s[i + 1] == s[i..i + 3][1];
      assert i + 1 < k ==> s[i + 1] == Numeral(n)[i + 1];
    }
  }

  lemma LastDigit(n: nat)
    ensures Numeral(n)[|Numeral(n)| - 1] == DigitChar(n % 10)
    ensures DigitChar(n % 10) == '0' <==> n % 10 == 0
  {}

  lemma Outcomes(r: Reply)
    requires r.Code? ==> r.n in {CMD_SUCCESS, CMD_LOCKED, PARAM_ERROR, SECTOR_NOT_PREPARED}
    ensures Outcome(r) == if r.Silence? then RET_TIMEOUT else if r.n == CMD_SUCCESS then RET_SUCCESS else RET_ERROR
  {
    if r.Code? {
      OutcomeOfCode(r.n);
    }
  }

  // ----- What has been said -----

  /** What has been said since. */
  function Since(before: seq<Spoken>, now: seq<Spoken>): seq<Spoken>
    requires before <= now
  {
    now[|before|..]
  }

  /** All of it has been said, and every reply heard. */
  predicate AllHeard(said: seq<Spoken>, commands: seq<Command>) {
    |said| == |commands| && forall i :: 0 <= i < |said| ==> said[i] == Spoken(commands[i], true)
  }

  /** It has been said up to a command whose reply has not been heard. */
  predicate LostIn(said: seq<Spoken>, commands: seq<Command>) {
    0 < |said| <= |commands| && forall i :: 0 <= i < |said| ==> said[i] == Spoken(commands[i], i < |said| - 1)
  }

  lemma HeardBoth(a: seq<Spoken>, b: seq<Spoken>, c: seq<Command>, d: seq<Command>)
    requires AllHeard(a, c)
    ensures AllHeard(b, d) ==> AllHeard(a + b, c + d)
    ensures LostIn(b, d) ==> LostIn(a + b, c + d)
  {}

  lemma LostEarly(a: seq<Spoken>, c: seq<Command>, d: seq<Command>)
    requires LostIn(a, c)
    ensures LostIn(a, c + d)
  {}

  // ----- Sectors -----

  /** The result is an error exactly when the target refuses, and a timeout exactly when no reply is heard. */
  method PrepareSectors(board: Board, start: nat, end: nat) returns (ret: int)
    modifies board`prepared, board`said
    ensures !(start <= end <= 15) <==> ret == RET_PARAM_ILLEGAL
    ensures ret == RET_PARAM_ILLEGAL ==> board.prepared == old(board.prepared) && board.said == old(board.said)
    ensures ret != RET_PARAM_ILLEGAL ==>
      && board.said == old(board.said) + [Spoken(Command.Prepare(start, end), ret != RET_TIMEOUT)]
      && ret in {RET_SUCCESS, RET_ERROR, RET_TIMEOUT} && (board.reliable ==> ret != RET_TIMEOUT)
    ensures ret == RET_SUCCESS ==> board.unlocked && board.prepared == old(board.prepared) + Sectors(start, end)
    ensures ret == RET_ERROR ==> !board.unlocked
  {
    hide Outcome;
    if start > end || end > SECTOR_NUM - 1 {
      return RET_PARAM_ILLEGAL;
    }
    var reply := board.Prepare(start, end);
    Outcomes(reply);
    ret := Outcome(reply);
  }

  method EraseSectors(board: Board, start: nat, end: nat) returns (ret: int)
    requires board.Valid()
    modifies board`flash, board`prepared, board`said
    ensures board.Valid()
    ensures !(start <= end <= 15) <==> ret == RET_PARAM_ILLEGAL
    ensures ret == RET_PARAM_ILLEGAL ==> board.flash == old(board.flash) && board.said == old(board.said)
    ensures ret != RET_PARAM_ILLEGAL ==>
      && board.said == old(board.said) + [Spoken(Command.Erase(start, end), ret != RET_TIMEOUT)]
      && ret in {RET_SUCCESS, RET_ERROR, RET_TIMEOUT} && (board.reliable ==> ret != RET_TIMEOUT)
    ensures ret == RET_SUCCESS ==> board.flash == Erased(old(board.flash), start, end) && board.prepared == {}
    ensures ret == RET_ERROR ==> !(board.unlocked && Sectors(start, end) <= old(board.prepared))
  {
    hide Outcome;
    if start > end || end > SECTOR_NUM - 1 {
      return RET_PARAM_ILLEGAL;
    }
    var reply := board.Erase(start, end);
    Outcomes(reply);
    ret := Outcome(reply);
  }

  function EraseCommands(start: nat, end: nat): seq<Command> {
    [Command.Prepare(start, end), Command.Erase(start, end)]
  }

  method EraseRange(board: Board, start: nat, end: nat) returns (ret: int)
    requires board.Valid()
    modifies board`flash, board`prepared, board`said
    ensures board.Valid() && old(board.said) <= board.said
    ensures !(start <= end <= 15) <==> ret == RET_PARAM_ILLEGAL
    ensures ret == RET_PARAM_ILLEGAL ==> board.flash == old(board.flash) && board.said == old(board.said)
    ensures ret in {RET_SUCCESS, RET_ERROR, RET_TIMEOUT, RET_PARAM_ILLEGAL} && (board.reliable ==> ret != RET_TIMEOUT)
    ensures var now := Since(old(board.said), board.said);
      && (ret == RET_SUCCESS ==> AllHeard(now, EraseCommands(start, end)))
      && (ret == RET_TIMEOUT ==> LostIn(now, EraseCommands(start, end)))
      && (ret == RET_ERROR ==> !board.unlocked && AllHeard(now, [Command.Prepare(start, end)]))
    ensures ret == RET_SUCCESS ==>
      board.unlocked && board.flash == Erased(old(board.flash), start, end) && board.prepared == {}
  {
    ret := PrepareSectors(board, start, end);
    if ret == RET_SUCCESS {
      ret := EraseSectors(board, start, end);
    }
  }

  // ----- Writing RAM -----

  predicate RamAddress(addr: nat) {
    RAM_START <= addr <= RAM_START + RAM_SIZE - 1
  }

  predicate FlashAddress(addr: nat) {
    addr <= FLASH_SIZE - 1
  }

  lemma FourAndFortyFive(size: nat)
    requires 0 < size && size % 4 == 0 && size % LINE == 0
    ensures size >= 2 * LINE
  {
    assert size / LINE >= 1;
  }

  method Puts(a: array<char>, ghost s: string) returns (t: string)
    requires Holds(a, 0, s)
    ensures t == s
  {
    var n := Length(a, 0, s);
    t := a[..n];
  }

  /** Encodes and sends the lines; the encoding buffer keeps the line before when a line of length 0 is refused. */
  method SendLines(size: nat, data: array<char>) returns (sent: string)
    requires 0 < size && size + 2 <= data.Length && Bytes(data[..]) && (size % LINE == 0 ==> size >= 2 * LINE)
    ensures sent == SentFrom(data[..], size, 0)
  {
    hide SentFrom, LineAt, Line, Groups, Bytes;
    ghost var d := data[..];
    var extra := size % LINE;
    var num := LineCount(size);
    LineBounds(size);
    var encode := new char[64];
    sent := "";
    for i := 0 to num
      invariant data[..] == d
      invariant i < num ==> sent + SentFrom(d, size, i) == SentFrom(d, size, 0)
      invariant i == num ==> sent == SentFrom(d, size, 0)
      invariant 0 < i < num ==> Holds(encode, 0, LineAt(d, LINE * i - LINE, LINE))
    {
      var len := if i < num - 1 then LINE else extra;
      SentStep(d, size, i);
      EncodesLine(d, LINE * i, len);
      var ret := UUencodeLine(data, LINE * i, encode, len);
      ghost var line := if len > 0 then LineAt(d, LINE * i, len) else LineAt(d, LINE * i - LINE, LINE);
      assert Holds(encode, 0, line);
      var text := Puts(encode, line);
      ghost var before := sent;
      sent := sent + text;
      assert i < num - 1 ==> before + (line + SentFrom(d, size, i + 1)) == sent + SentFrom(d, size, i + 1);
    }
  }

  lemma LineBounds(size: nat)
    requires size > 0
    ensures LineCount(size) > 0 && LINE * (LineCount(size) - 1) < size <= LINE * LineCount(size)
    ensures size == LINE * (LineCount(size) - 1) + (if size % LINE == 0 then LINE else size % LINE)
  {}

  lemma SentStep(d: string, size: nat, i: nat)
    requires 0 < size && size + 2 <= |d| && i < LineCount(size) && (size % LINE == 0 ==> size >= 2 * LINE)
    ensures LINE * i < size && (i < LineCount(size) - 1 ==> LINE * (i + 1) < size)
    ensures LINE * i + (if i < LineCount(size) - 1 then LINE else size % LINE) <= size
    ensures i < LineCount(size) - 1 ==> SentFrom(d, size, i) == LineAt(d, LINE * i, LINE) + SentFrom(d, size, i + 1)
    ensures i == LineCount(size) - 1 && size % LINE != 0 ==> SentFrom(d, size, i) == LineAt(d, LINE * i, size % LINE)
    ensures i == LineCount(size) - 1 && size % LINE == 0 ==>
      i > 0 && SentFrom(d, size, i) == LineAt(d, LINE * i - LINE, LINE)
  {
    hide LineAt;
    LineBounds(size);
  }

  lemma EncodesLine(d: string, at: nat, len: nat)
    requires len <= LINE && at + len + 2 <= |d|
    ensures at + 3 * Groups(len) <= |d|
    ensures 0 < len ==> LineAt(d, at, len) == Line(d[at..at + 3 * Groups(len)], len)
  {
    hide Line;
    LineFits(len);
  }

  method SumOf(data: array<char>, size: nat) returns (sum: nat)
    requires size <= data.Length
    ensures sum == Sum(data[..size])
  {
    sum := 0;
    for i := 0 to size
      invariant sum == Sum(data[..i])
    {
      assert data[..i + 1][..i] == data[..i];
      sum := sum + data[i] as nat;
    }
  }

  function WriteCommands(addr: nat, size: nat, data: string): seq<Command>
    requires 0 < size && size + 2 <= |data| && (size % LINE == 0 ==> size >= 2 * LINE)
  {
    [Write(addr, size), Lines(SentFrom(data, size, 0), Sum(data[..size]))]
  }

  /** Sends size bytes of data, which the encoder reads up to two bytes beyond. The result is a timeout exactly when a
      reply is not heard; an error comes from a target that is locked, from an address out of range, or from a size that
      is a multiple of 45. */
  method WriteToRam(board: Board, addr: nat, size: nat, data: array<char>) returns (ret: int)
    requires board.Valid() && size + 2 <= data.Length && Bytes(data[..])
    modifies board`ram, board`said
    ensures board.Valid() && old(board.said) <= board.said
    ensures ret == RET_PARAM_ILLEGAL <==>
      !(0x1000_0000 <= addr < 0x1000_2000 && addr % 32 == 0 && size % 4 == 0 && 0 < size <= 512)
    ensures ret == RET_PARAM_ILLEGAL ==> board.ram == old(board.ram) && board.said == old(board.said)
    ensures ret in {RET_SUCCESS, RET_ERROR, RET_TIMEOUT, RET_PARAM_ILLEGAL} && (board.reliable ==> ret != RET_TIMEOUT)
    ensures ret != RET_PARAM_ILLEGAL ==> 0 < size && (size % LINE == 0 ==> size >= 2 * LINE)
    ensures ret != RET_PARAM_ILLEGAL ==>
      var now, commands := Since(old(board.said), board.said), WriteCommands(addr, size, data[..]);
      && (ret == RET_SUCCESS ==> AllHeard(now, commands))
      && (ret == RET_TIMEOUT ==> LostIn(now, commands))
      && (ret == RET_ERROR ==>
            if board.unlocked && board.InRam(addr, size) then AllHeard(now, commands) && size % LINE == 0
            else AllHeard(now, commands[..1]))
    ensures ret == RET_SUCCESS ==> board.unlocked && board.InRam(addr, size)
    ensures ret == RET_SUCCESS && size % LINE != 0 ==>
      board.ram == Overwritten(old(board.ram), addr - RAM_START, data[..size])
    ensures ret == RET_SUCCESS && size % LINE == 0 ==>
      && size >= 2 * LINE
      && board.ram == Overwritten(old(board.ram), addr - RAM_START,
        data[..size - LINE] + data[size - 2 * LINE..size - LINE])
  {
    hide Outcome, SentFrom, LinesFrom, ReadLines, Bytes, Overwritten;
    if !(RamAddress(addr) && addr % 32 == 0 && size % 4 == 0 && size > 0 && size <= MAX_WRITE) {
      return RET_PARAM_ILLEGAL;
    }
    if size % LINE == 0 {
      FourAndFortyFive(size);
    }
    var reply := board.BeginWrite(addr, size);
    Outcomes(reply);
    ret := Outcome(reply);
    if ret != RET_SUCCESS {
      return;
    }
    var sent := SendLines(size, data);
    Arrives(data[..], size);
    assert data[..][..size] == data[..size];
    var checksum := SumOf(data, size);
    var answer := board.FinishWrite(addr, size, sent, checksum);
    ret := match answer case NoAnswer => RET_TIMEOUT case Ok => RET_SUCCESS case Resend => RET_ERROR;
  }

  /** What the target makes of the lines sent. */
  lemma Arrives(d: string, size: nat)
    requires 0 < size && size + 2 <= |d| && Bytes(d) && (size % LINE == 0 ==> size >= 2 * LINE)
    ensures Bytes(d[..size])
    ensures ReadLines(SentFrom(d, size, 0)) ==
      Decoded(if size % LINE != 0 then d[..size] else d[..size - LINE] + d[size - 2 * LINE..size - LINE])
  {
    hide ReadLines, SentFrom, LinesFrom;
    if size % LINE != 0 {
      SentIsLines(d, size, 0);
      LinesRead(d, size, 0);
      assert d[0..size] == d[..size];
    } else {
      SentTwice(d, size, 0);
      assert d[0..size - LINE] == d[..size - LINE];
    }
  }

  // ----- Writing flash -----

  function CopyCommands(dst: nat, src: nat, size: nat): seq<Command> {
    [Command.Prepare(0, 15), Command.Copy(dst, src, size)]
  }

  /** Prepares every sector, then copies a block of RAM to flash. */
  method CopyToFlash(board: Board, dst: nat, src: nat, size: nat) returns (ret: int)
    requires board.Valid()
    modifies board`flash, board`prepared, board`said
    ensures board.Valid() && old(board.said) <= board.said
    ensures ret == RET_PARAM_ILLEGAL <==>
      !(dst < 0x1_0000 && 0x1000_0000 <= src < 0x1000_2000 && dst % 256 == 0 && size in {256, 512, 1024, 4096})
    ensures ret == RET_PARAM_ILLEGAL ==> board.flash == old(board.flash) && board.said == old(board.said)
    ensures ret in {RET_SUCCESS, RET_ERROR, RET_TIMEOUT, RET_PARAM_ILLEGAL} && (board.reliable ==> ret != RET_TIMEOUT)
    ensures var now, commands := Since(old(board.said), board.said), CopyCommands(dst, src, size);
      && (ret == RET_SUCCESS ==> AllHeard(now, commands))
      && (ret == RET_TIMEOUT ==> LostIn(now, commands))
      && (ret == RET_ERROR ==>
            if board.unlocked then AllHeard(now, commands) && !board.CanCopy(dst, src, size)
            else AllHeard(now, commands[..1]))
    ensures ret == RET_SUCCESS ==> board.unlocked && board.CanCopy(dst, src, size) && board.prepared == {}
    ensures ret == RET_SUCCESS && board.sound ==>
      board.flash == Programmed(old(board.flash), dst, board.ram[src - RAM_START..src - RAM_START + size])
  {
    hide Outcome;
    if !(FlashAddress(dst) && RamAddress(src) && dst % 256 == 0 &&
      (size == 256 || size == 512 || size == 1024 || size == 4096)) {
      return RET_PARAM_ILLEGAL;
    }
    ret := PrepareSectors(board, 0, SECTOR_NUM - 1);
    if ret == RET_SUCCESS {
      var reply := board.Copy(dst, src, size);
      Outcomes(reply);
      ret := Outcome(reply);
    }
  }

  // ----- Reading -----

  /** atoi at p, where a numeral and a line end stand. */
  method Atoi(a: array<char>, p: nat, ghost n: nat) returns (v: nat)
    requires p + |Numeral(n)| < a.Length
    requires a[p..p + |Numeral(n)|] == Numeral(n) && a[p + |Numeral(n)|] == '\r'
    ensures v == n
  {
    v := 0;
    ghost var t := Numeral(n);
    ghost var k := 0;
    var q := p;
    while IsDigit(a[q])
      invariant q == p + k && k <= |t| && v == Value(0, t[..k])
      decreases |t| - k
    {
      assert k < |t| && a[p..p + |t|][k] == a[q];
      ValueAppend(0, t[..k], t[k]);
      assert t[..k + 1] == t[..k] + [t[k]];
      v := 10 * v + DigitValue(a[q]);
      q, k := q + 1, k + 1;
    }
    assert k == |t|;
    assert t[..k] == t;
    ValueOfNumeral(n);
  }

  /** strstr for a line end. */
  method FindLineEnd(a: array<char>, from: nat, ghost end: nat) returns (p: nat)
    requires from <= end && end + 1 < a.Length && a[end] == '\r' && a[end + 1] == '\n'
    requires forall k :: from <= k < end ==> a[k] != '\r'
    ensures p == end
  {
    p := from;
    while !(a[p] == '\r' && a[p + 1] == '\n')
      invariant from <= p <= end
      decreases end - p
    {
      p := p + 1;
    }
  }

  method Receive(reply: string, recv: array<char>)
    requires |reply| < recv.Length
    modifies recv
    ensures recv[..|reply|] == reply
  {
    var _ := Put(recv, 0, reply);
  }

  /** The longest read whose reply, sixteen lines and a sum, fits the receive buffer; that of the next size does not. */
  const MAX_READ: nat := 720

  function LineLen(size: nat, i: nat): nat
    requires LINE * i < size
  {
    if size - LINE * i <= LINE then size - LINE * i else LINE
  }

  lemma {:induction false} SumBound(s: string)
    requires Bytes(s)
    ensures Sum(s) <= 255 * |s|
  {
    if s != [] {
      SumBound(s[..|s| - 1]);
    }
  }

  lemma SumDigits(s: string)
    requires Bytes(s) && |s| <= MAX_READ
    ensures |Numeral(Sum(s))| <= 6
  {
    SumBound(s);
    assert Pow10(6) == 1000000 by {
      assert Pow10(2) == 100 && Pow10(4) == 10000;
    }
    NumeralLength(Sum(s), 6);
  }

  /** Where line i stands in a reply. */
  lemma LineInText(d: string, size: nat, i: nat, text: string)
    requires size + 2 <= |d| && Bytes(d) && LINE * i < size && text == LinesFrom(d, size, 0)
    ensures var at, t := LINE_TEXT * i, LineAt(d, LINE * i, LineLen(size, i));
      && at + |t| <= |text| && text[at..at + |t|] == t
      && (size <= LINE * (i + 1) ==> at + |t| == |text|)
  {
    hide LineAt;
    var at, t := LINE_TEXT * i, LineAt(d, LINE * i, LineLen(size, i));
    LineOffsets(d, size, i);
    var rest := text[at..];
    assert rest == LinesFrom(d, size, i);
    assert rest[..|t|] == t;
    assert text[at..at + |t|] == rest[..|t|];
  }

  /** Part of what stands at p. */
  lemma Inner(a: array<char>, p: nat, t: string, at: nat, n: nat)
    requires p + |t| <= a.Length && a[p..p + |t|] == t && at + n <= |t|
    ensures a[p + at..p + at + n] == t[at..at + n]
  {
    Same(a, p, t);
    var s, u := a[p + at..p + at + n], t[at..at + n];
    forall k | 0 <= k < n
      ensures s[k] == u[k]
    {
      assert u[k] == t[at + k];
    }
  }

  lemma Same(a: array<char>, p: nat, t: string)
    requires p + |t| <= a.Length && a[p..p + |t|] == t
    ensures forall k {:trigger t[k]} :: 0 <= k < |t| ==> a[p + k] == t[k]
  {
    forall k {:trigger t[k]} | 0 <= k < |t|
      ensures a[p + k] == t[k]
    {
      assert a[p..p + |t|][k] == a[p + k];
    }
  }

  /** Decodes the line at `at` behind the bytes decoded so far. */
  method DecodeAt(recv: array<char>, at: nat, data: array<char>, o: nat, ghost d: string, ghost len: nat)
    requires recv != data && 0 < len <= LINE && o + len + 2 <= |d| && Bytes(d) && o + len + 2 < data.Length
    requires at + 4 * Groups(len) + 3 <= recv.Length && recv[at..at + 4 * Groups(len) + 3] == LineAt(d, o, len)
    requires data[..o] == d[..o]
    modifies data
    ensures data[..o + len] == d[..o + len]
  {
    hide LineAt, DecodeGroups, Groups;
    LineClean(d, o, len);
    LineFits(len);
    ghost var t := LineAt(d, o, len);
    ghost var n := Groups(len);
    assert recv[at] == t[0];
    Inner(recv, at, t, 1, 4 * n);
    var ok := UUdecodeLine(recv, at, data, o);
    assert d[..o] + d[o..o + len] == d[..o + len];
  }

  method DecodeLines(recv: array<char>, p: nat, size: nat, data: array<char>, ghost d: string, ghost text: string)
    requires recv != data && 0 < size && size + 3 <= data.Length && size + 2 <= |d| && Bytes(d)
    requires text == LinesFrom(d, size, 0) && p + |text| <= recv.Length && recv[p..p + |text|] == text
    modifies data
    ensures data[..size] == d[..size]
  {
    hide LinesFrom, LineAt, Groups, LineLen, LineCount, Bytes;
    LineBounds(size);
    var num := LineCount(size);
    for i := 0 to num
      invariant data[..if i < num then LINE * i else size] == d[..if i < num then LINE * i else size]
    {
      LengthOfLine(size, i);
      ghost var len := LineLen(size, i);
      LineInText(d, size, i, text);
      LineSize(d, LINE * i, len);
      Inner(recv, p, text, LINE_TEXT * i, 4 * Groups(len) + 3);
      DecodeAt(recv, p + LINE_TEXT * i, data, LINE * i, d, len);
    }
  }

  lemma LengthOfLine(size: nat, i: nat)
    requires 0 < size && i < LineCount(size)
    ensures LINE * i < size && 0 < LineLen(size, i) <= LINE
    ensures LINE * i + LineLen(size, i) == if i + 1 < LineCount(size) then LINE * (i + 1) else size
  {
    LineBounds(size);
  }

  lemma LineSize(d: string, at: nat, len: nat)
    requires 0 < len <= LINE && at + len + 2 <= |d|
    ensures |LineAt(d, at, len)| == 4 * Groups(len) + 3
  {}

  /** Where the sum stands: behind the end of the last line. */
  method SumSent(recv: array<char>, p: nat, size: nat, ghost d: string, ghost text: string, ghost sum: nat)
    returns (v: nat)
    requires 0 < size && size + 2 <= |d| && Bytes(d) && text == LinesFrom(d, size, 0)
    requires p + |text| + |Numeral(sum)| + 2 <= recv.Length
    requires recv[p..p + |text| + |Numeral(sum)| + 2] == text + Numeral(sum) + "\r\n"
    ensures v == sum
  {
    hide LinesFrom, LineAt, Numeral, Groups, LineCount, LineLen, Bytes;
    LineBounds(size);
    var last := LineCount(size) - 1;
    LengthOfLine(size, last);
    LineInText(d, size, last, text);
    ghost var reply, m := text + Numeral(sum) + "\r\n", |Numeral(sum)|;
    assert reply[..|text|] == text && reply[|text|..|text| + m] == Numeral(sum);
    Inner(recv, p, reply, 0, |text|);
    Inner(recv, p, reply, |text|, m);
    LastLine(recv, p, size, last, d, text);
    var q := FindLineEnd(recv, p + LINE_TEXT * last, p + |text| - 2);
    assert recv[q + 2 + m] == '\r' by {
      Same(recv, p, reply);
      assert reply[|text| + m] == '\r';
    }
    v := Atoi(recv, q + 2, sum);
  }

  /** The last line holds no line end but its own. */
  lemma LastLine(recv: array<char>, p: nat, size: nat, i: nat, d: string, text: string)
    requires size + 2 <= |d| && Bytes(d) && text == LinesFrom(d, size, 0) && p + |text| <= recv.Length
    requires recv[p..p + |text|] == text && LINE * i < size <= LINE * (i + 1)
    ensures LINE_TEXT * i + 2 <= |text|
    ensures recv[p + |text| - 2] == '\r' && recv[p + |text| - 1] == '\n'
    ensures forall k :: p + LINE_TEXT * i <= k < p + |text| - 2 ==> recv[k] != '\r'
  {
    hide LinesFrom, LineAt, Groups, Bytes, DecodeGroups, Printing;
    var len, at := LineLen(size, i), LINE_TEXT * i;
    var t := LineAt(d, LINE * i, len);
    LineInText(d, size, i, text);
    EndOfLine(d, LINE * i, len);
    Inner(recv, p, text, at, |t|);
    Same(recv, p + at, t);
    forall k | p + at <= k < p + |text| - 2
      ensures recv[k] != '\r'
    {
      assert t[k - p - at] != '\r';
    }
  }

  lemma EndOfLine(d: string, at: nat, len: nat)
    requires 0 < len <= LINE && at + len + 2 <= |d| && Bytes(d)
    ensures var t := LineAt(d, at, len);
      |t| > 2 && t[|t| - 2] == '\r' && t[|t| - 1] == '\n' && forall k :: 0 <= k < |t| - 2 ==> t[k] != '\r'
  {
    hide LineAt, DecodeGroups;
    LineClean(d, at, len);
    var t := LineAt(d, at, len);
    assert t[|t| - 2] == t[|t| - 2..][0] && t[|t| - 1] == t[|t| - 2..][1];
    assert forall k :: 0 <= k < |t| - 2 ==> Printing(t[k]);
  }

  // ----- Reading memory -----

  /** The reply to a successful read fits the receive buffer. */
  lemma ReplyFits(c: string, padding: string, text: string)
    requires Bytes(c) && Bytes(padding) && |padding| == 2 && 0 < |c| <= MAX_READ &&
      text == LinesFrom(c + padding, |c|, 0)
    ensures Bytes(c + padding) && |ReadReply(c, padding)| < RECV_BUF_SIZE
    ensures ReadReply(c, padding) == SUCCESS_TEXT + (text + Numeral(Sum(c)) + "\r\n")
    ensures Contains(ReadReply(c, padding), SUCCESS_TEXT) && ReadReply(c, padding) != ""
  {
    hide LinesFrom, LineAt, Numeral, Sum;
    var d, size := c + padding, |c|;
    LineBounds(size);
    LineInText(d, size, LineCount(size) - 1, text);
    LineSize(d, LINE * (LineCount(size) - 1), LineLen(size, LineCount(size) - 1));
    SumDigits(c);
    var reply := ReadReply(c, padding);
    assert reply[0..3] == SUCCESS_TEXT;
    assert FoundAt(reply, SUCCESS_TEXT, 0);
  }

  /** Of the sizes that can be asked for, the reply fits the receive buffer up to that one and no further. */
  lemma ReplyLength(c: string, padding: string)
    requires Bytes(c) && Bytes(padding) && |padding| == 2 && 0 < |c| && |c| % 4 == 0
    ensures |ReadReply(c, padding)| < RECV_BUF_SIZE <==> |c| <= MAX_READ
  {
    hide LinesFrom, LineAt, Numeral, Sum;
    var d, size, text := c + padding, |c|, LinesFrom(c + padding, |c|, 0);
    if size <= MAX_READ {
      ReplyFits(c, padding, text);
    } else {
      var last := LineCount(size) - 1;
      LineBounds(size);
      LineInText(d, size, last, text);
      LineSize(d, LINE * last, LineLen(size, last));
    }
  }

  lemma NoReply()
    ensures !Contains("12\r\n", SUCCESS_TEXT)
  {
    forall i | 0 <= i <= 1
      ensures !FoundAt("12\r\n", SUCCESS_TEXT, i)
    {
      assert "12\r\n"[i..i + 3][0] != '0';
    }
  }

  predicate CanRead(addr: nat, size: nat) {
    (FlashAddress(addr) || RamAddress(addr)) && size % 4 == 0 && 0 < size <= FLASH_SIZE && size <= RAM_SIZE
  }

  /** What a target says to a read, as far as it is its memory. */
  function ReadCommand(board: Board, addr: nat, size: nat): Command
    requires board.Valid()
    reads board
  {
    Command.Read(addr, size, if board.Mapped(addr, size) then board.Memory(addr, size) else "")
  }

  /** Reads size bytes into data; decoding writes up to three bytes beyond them. The result is a timeout exactly when
      the reply is not heard, and an error exactly when the target has no such memory. */
  method ReadMemory(board: Board, recv: array<char>, addr: nat, size: nat, data: array<char>) returns (ret: int)
    requires board.Valid() && recv != data && recv.Length == RECV_BUF_SIZE
    requires CanRead(addr, size) ==> size + 3 <= data.Length && size <= MAX_READ
    modifies recv, data, board`said
    ensures board.Valid()
    ensures ret == RET_PARAM_ILLEGAL <==>
      !((addr < 0x1_0000 || 0x1000_0000 <= addr < 0x1000_2000) && size % 4 == 0 && 0 < size <= 8192)
    ensures ret == RET_PARAM_ILLEGAL ==> board.said == old(board.said)
    ensures ret != RET_PARAM_ILLEGAL ==>
      && board.said == old(board.said) + [Spoken(ReadCommand(board, addr, size), ret != RET_TIMEOUT)]
      && (ret == RET_SUCCESS || ret == RET_ERROR || ret == RET_TIMEOUT) && (board.reliable ==> ret != RET_TIMEOUT)
      && (ret == RET_SUCCESS ==> board.Mapped(addr, size))
      && (ret == RET_ERROR ==> !board.Mapped(addr, size))
    ensures ret == RET_SUCCESS ==> data[..size] == board.Memory(addr, size)
  {
    hide ReadReply, Contains, LinesFrom;
    if !((FlashAddress(addr) || RamAddress(addr)) && size % 4 == 0 &&
         size > 0 && size <= FLASH_SIZE && size <= RAM_SIZE) {
      return RET_PARAM_ILLEGAL;
    }
    var reply, padding := board.Read(addr, size);
    NoReply();
    if board.Mapped(addr, size) {
      ghost var c := board.Memory(addr, size);
      ReplyFits(c, padding, LinesFrom(c + padding, size, 0));
    }
    if reply == "" {
      return RET_TIMEOUT;
    }
    if !Contains(reply, SUCCESS_TEXT) {
      return RET_ERROR;
    }
    ret := Unpack(recv, reply, size, data, board.Memory(addr, size), padding);
  }

  method Unpack(recv: array<char>, reply: string, size: nat, data: array<char>, ghost c: string, ghost padding: string)
    returns (ret: int)
    requires recv != data && recv.Length == RECV_BUF_SIZE && size + 3 <= data.Length && 0 < size <= MAX_READ
    requires |c| == size && Bytes(c) && Bytes(padding) && |padding| == 2 && reply == ReadReply(c, padding)
    modifies recv, data
    ensures ret == RET_SUCCESS && data[..size] == c
  {
    hide ReadReply, Contains, LinesFrom, Sum, Numeral;
    ghost var d := c + padding;
    ghost var text := LinesFrom(d, size, 0);
    ReplyFits(c, padding, text);
    Receive(reply, recv);
    var p := |SUCCESS_TEXT|;
    ghost var rest := text + Numeral(Sum(c)) + "\r\n";
    assert recv[p..p + |rest|] == rest by {
      assert recv[..|reply|][p..] == rest;
    }
    assert rest[..|text|] == text;
    Inner(recv, p, rest, 0, |text|);
    DecodeLines(recv, p, size, data, d, text);
    assert d[..size] == c;
    var checksum := SumOf(data, size);
    var checksumGet := SumSent(recv, p, size, d, text, Sum(c));
    ret := if checksum == checksumGet then RET_SUCCESS else RET_ERROR;
  }
}
