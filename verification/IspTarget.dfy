/**
  The part that is programmed, as its boot loader behaves: a memory, a flash that writing can only clear bits of, and
  sectors that have to be prepared before each erase or write. An exchange may get lost on the serial line before or
  after the target has acted on it; what is heard is right. The cells of an unsound part do not keep what is written.
*/
module IspTarget {
  import opened Bits
  import opened Decimal
  import opened UUencode
  import opened IspWire

  const SECTOR_NUM: nat := 16
  const SECTOR_SIZE: nat := 4096
  const FLASH_SIZE: nat := 0x1_0000
  const RAM_START: nat := 0x1000_0000
  const RAM_SIZE: nat := 8192
  const ERASED: char := 0xFF as char

  /** The reply to a command: nothing before the timeout, or a result code. */
  datatype Reply = Silence | Code(n: nat)

  datatype Answer = NoAnswer | Ok | Resend

  /** What is said to the target; of a read, the bytes that are there to be read. */
  datatype Command =
    | Unlock
    | Prepare(start: nat, end: nat)
    | Erase(start: nat, end: nat)
    | Write(addr: nat, size: nat)
    | Lines(text: string, sum: nat)
    | Copy(dst: nat, src: nat, size: nat)
    | Read(addr: nat, size: nat, bytes: string)

  /** A command that has been sent, and whether a reply has been heard. */
  datatype Spoken = Spoken(command: Command, heard: bool)

  const CMD_SUCCESS: nat := 0
  const SECTOR_NOT_PREPARED: nat := 9
  const PARAM_ERROR: nat := 12
  const CMD_LOCKED: nat := 15

  predicate Within(i: nat, start: nat, end: nat) {
    start <= i <= end
  }

  function Sectors(start: nat, end: nat): set<nat> {
    set i: nat | start <= i <= end && Within(i, start, end)
  }

  function SectorsOf(addr: nat, size: nat): set<nat>
    requires size > 0
  {
    Sectors(addr / SECTOR_SIZE, (addr + size - 1) / SECTOR_SIZE)
  }

  function Sum(s: string): nat {
    if s == [] then 0 else Sum(s[..|s| - 1]) + s[|s| - 1] as nat
  }

  /** memory with the bytes of d from `at` on. */
  function Overwritten(memory: string, at: nat, d: string): string
    requires at + |d| <= |memory|
  {
    memory[..at] + d + memory[at + |d|..]
  }

  function Erased(flash: string, start: nat, end: nat): (f: string)
    ensures |f| == |flash|
    ensures forall i :: 0 <= i < |flash| ==>
      f[i] == if start * SECTOR_SIZE <= i < (end + 1) * SECTOR_SIZE then ERASED else flash[i]
  {
    seq(|flash|, i requires 0 <= i < |flash| =>
      if start * SECTOR_SIZE <= i < (end + 1) * SECTOR_SIZE then ERASED else flash[i])
  }

  function AndByte(x: char, y: char): (c: char)
    requires x as int < 256
    ensures c as int < 256
    ensures x == ERASED && y as int < 256 ==> c == y
  {
    AndBelow(x as nat, y as nat);
    ErasedAnd(x as nat, y as nat);
    And(x as nat, y as nat) as char
  }

  lemma ErasedAnd(x: nat, y: nat)
    ensures x == 255 && y < 256 ==> And(x, y) == y
  {
    hide And;
    if x == 255 && y < 256 {
      Powers();
      LowMask(y, 8);
      AndCommutes(x, y);
    }
  }

  /** Writing flash: a bit that is 0 stays 0. */
  function Programmed(flash: string, at: nat, d: string): (f: string)
    requires at + |d| <= |flash| && Bytes(flash)
    ensures |f| == |flash| && Bytes(f)
    ensures forall i :: 0 <= i < |flash| && !(at <= i < at + |d|) ==> f[i] == flash[i]
    ensures forall i :: 0 <= i < |d| ==> f[at + i] == AndByte(flash[at + i], d[i])
  {
    seq(|flash|, i requires 0 <= i < |flash| => if at <= i < at + |d| then AndByte(flash[i], d[i - at]) else flash[i])
  }

  class Board {
    var ram: string
    var flash: string
    var prepared: set<nat>
    var unlocked: bool
    const reliable: bool        // no exchange gets lost
    const sound: bool           // the flash keeps what is written
    ghost var said: seq<Spoken> // every exchange so far

    ghost predicate Valid()
      reads this
    {
      |ram| == RAM_SIZE && |flash| == FLASH_SIZE && Bytes(ram) && Bytes(flash)
    }

    /** Whether the target gets to act on a command and whether its reply gets through. */
    method Exchange() returns (acts: bool, heard: bool)
      ensures heard ==> acts
      ensures reliable ==> heard
    {
      acts, heard := *, *;
      heard := reliable || (acts && heard);
      acts := acts || heard;
    }

    method Unlock()
      modifies `unlocked, `said
      ensures old(unlocked) || reliable ==> unlocked
      ensures exists heard :: said == old(said) + [Spoken(Command.Unlock, heard)]
    {
      var acts, heard := Exchange();
      unlocked := unlocked || acts;
      said := said + [Spoken(Command.Unlock, heard)];
    }

    method Prepare(start: nat, end: nat) returns (reply: Reply)
      modifies `prepared, `said
      ensures said == old(said) + [Spoken(Command.Prepare(start, end), reply.Code?)]
      ensures reliable ==> reply.Code?
      ensures reply.Code? ==>
        reply.n == if !unlocked then CMD_LOCKED else if start <= end < SECTOR_NUM then CMD_SUCCESS else PARAM_ERROR
      ensures prepared == old(prepared) + Sectors(start, end) ||
        (reply != Code(CMD_SUCCESS) && prepared == old(prepared))
    {
      var acts, heard := Exchange();
      var code := if !unlocked then CMD_LOCKED else if start <= end < SECTOR_NUM then CMD_SUCCESS else PARAM_ERROR;
      if acts && code == CMD_SUCCESS {
        prepared := prepared + Sectors(start, end);
      }
      said := said + [Spoken(Command.Prepare(start, end), heard)];
      reply := if heard then Code(code) else Silence;
    }

    /** Every sector loses its preparation. */
    method Erase(start: nat, end: nat) returns (reply: Reply)
      requires Valid()
      modifies `flash, `prepared, `said
      ensures Valid()
      ensures said == old(said) + [Spoken(Command.Erase(start, end), reply.Code?)]
      ensures reliable ==> reply.Code?
      ensures reply.Code? ==>
        (reply.n == if !unlocked then CMD_LOCKED
                    else if !(start <= end < SECTOR_NUM) then PARAM_ERROR
                    else if Sectors(start, end) <= old(prepared) then CMD_SUCCESS
                    else SECTOR_NOT_PREPARED)
      ensures reply == Code(CMD_SUCCESS) ==> flash == Erased(old(flash), start, end) && prepared == {}
    {
      var acts, heard := Exchange();
      var code :=
        if !unlocked then CMD_LOCKED
        else if !(start <= end < SECTOR_NUM) then PARAM_ERROR
        else if Sectors(start, end) <= prepared then CMD_SUCCESS
        else SECTOR_NOT_PREPARED;
      if acts && code == CMD_SUCCESS {
        flash, prepared := Erased(flash, start, end), {};
      }
      said := said + [Spoken(Command.Erase(start, end), heard)];
      reply := if heard then Code(code) else Silence;
    }

    predicate InRam(addr: nat, size: nat) {
      RAM_START <= addr && addr + size <= RAM_START + RAM_SIZE
    }

    method BeginWrite(addr: nat, size: nat) returns (reply: Reply)
      modifies `said
      ensures said == old(said) + [Spoken(Write(addr, size), reply.Code?)]
      ensures reliable ==> reply.Code?
      ensures reply.Code? ==>
        reply.n == if !unlocked then CMD_LOCKED else if InRam(addr, size) then CMD_SUCCESS else PARAM_ERROR
    {
      var _, heard := Exchange();
      var code := if !unlocked then CMD_LOCKED else if InRam(addr, size) then CMD_SUCCESS else PARAM_ERROR;
      said := said + [Spoken(Write(addr, size), heard)];
      reply := if heard then Code(code) else Silence;
    }

    /** The lines of a write and the sum of the bytes they hold. */
    method FinishWrite(addr: nat, size: nat, text: string, sum: nat) returns (answer: Answer)
      requires Valid() && InRam(addr, size)
      modifies `ram, `said
      ensures Valid()
      ensures said == old(said) + [Spoken(Lines(text, sum), answer != NoAnswer)]
      ensures reliable ==> answer != NoAnswer
      ensures var r := ReadLines(text);
        var right := r.Decoded? && |r.data| == size && Sum(r.data) == sum && Bytes(r.data);
        && (answer == Ok ==> right && ram == Overwritten(old(ram), addr - RAM_START, r.data))
        && (answer == Resend ==> !right)
    {
      var acts, heard := Exchange();
      var r := ReadLines(text);
      var right := r.Decoded? && |r.data| == size && Sum(r.data) == sum && Bytes(r.data);
      if acts && right {
        ram := Overwritten(ram, addr - RAM_START, r.data);
      }
      said := said + [Spoken(Lines(text, sum), heard)];
      answer := if !heard then NoAnswer else if right then Ok else Resend;
    }

    predicate CanCopy(dst: nat, src: nat, size: nat) {
      dst % 256 == 0 && size in {256, 512, 1024, 4096} && dst + size <= FLASH_SIZE && InRam(src, size)
    }

    /** What the cells hold after a write. */
    method Kept(want: string) returns (got: string)
      requires Bytes(want)
      ensures |got| == |want| && Bytes(got) && (sound ==> got == want)
    {
      var any: seq<bv8> := *;
      got :=
        if sound || |any| != |want| then want
        else seq(|want|, i requires 0 <= i < |any| => (any[i] as int) as char);
    }

    /** Writes RAM to flash; the sectors written must be prepared, and none is prepared afterwards. */
    method Copy(dst: nat, src: nat, size: nat) returns (reply: Reply)
      requires Valid()
      modifies `flash, `prepared, `said
      ensures Valid()
      ensures said == old(said) + [Spoken(Command.Copy(dst, src, size), reply.Code?)]
      ensures reliable ==> reply.Code?
      ensures reply.Code? ==>
        (reply.n == if !unlocked then CMD_LOCKED
                    else if !CanCopy(dst, src, size) then PARAM_ERROR
                    else if SectorsOf(dst, size) <= old(prepared) then CMD_SUCCESS
                    else SECTOR_NOT_PREPARED)
      ensures reply == Code(CMD_SUCCESS) ==> prepared == {}
      ensures reply == Code(CMD_SUCCESS) && sound ==>
        flash == Programmed(old(flash), dst, ram[src - RAM_START..src - RAM_START + size])
    {
      var acts, heard := Exchange();
      var code :=
        if !unlocked then CMD_LOCKED
        else if !CanCopy(dst, src, size) then PARAM_ERROR
        else if SectorsOf(dst, size) <= prepared then CMD_SUCCESS
        else SECTOR_NOT_PREPARED;
      if acts && code == CMD_SUCCESS {
        flash := Kept(Programmed(flash, dst, ram[src - RAM_START..src - RAM_START + size]));
        prepared := {};
      }
      said := said + [Spoken(Command.Copy(dst, src, size), heard)];
      reply := if heard then Code(code) else Silence;
    }

    predicate Mapped(addr: nat, size: nat) {
      InRam(addr, size) || addr + size <= FLASH_SIZE
    }

    function Memory(addr: nat, size: nat): (d: string)
      requires Valid() && Mapped(addr, size)
      reads this
      ensures |d| == size && Bytes(d)
    {
      if addr + size <= FLASH_SIZE then flash[addr..addr + size] else ram[addr - RAM_START..addr - RAM_START + size]
    }

    /** The bytes of the reply: a result code, the lines of the memory read, and their sum. Nothing is known of the
        bytes that fill the last group. */
    method Read(addr: nat, size: nat) returns (reply: string, ghost padding: string)
      requires Valid()
      modifies `said
      ensures |padding| == 2 && Bytes(padding)
      ensures said == old(said) +
        [Spoken(Command.Read(addr, size, if Mapped(addr, size) then Memory(addr, size) else ""), reply != "")]
      ensures reliable ==> reply != ""
      ensures reply != "" ==>
        reply == if Mapped(addr, size) then ReadReply(Memory(addr, size), padding) else "12\r\n"
    {
      var _, heard := Exchange();
      var x: bv8, y: bv8 := *, *;
      var pad := [(x as int) as char, (y as int) as char];
      padding := pad;
      said := said +
        [Spoken(Command.Read(addr, size, if Mapped(addr, size) then Memory(addr, size) else ""), heard)];
      reply := if !heard then "" else if Mapped(addr, size) then ReadReply(Memory(addr, size), pad) else "12\r\n";
    }
  }

  const SUCCESS_TEXT: string := "0\r\n"

  function ReadReply(d: string, padding: string): (r: string)
    requires |padding| == 2
    ensures r != ""
  {
    SUCCESS_TEXT + LinesFrom(d + padding, |d|, 0) + Numeral(Sum(d)) + "\r\n"
  }
}
