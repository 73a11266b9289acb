/** Reading a string literal into a buffer that is sized by a first scan over it. */
module JsonStrings {
  import opened Bits
  import opened JsonText
  import opened CStrings

  /** Where a parser has stopped; null pointers are Failed. */
  datatype Outcome = End(pos: nat) | Failed | OutOfModel

  /** Reads a C string; the terminator is behind the last character. */
  function CharAt(s: string, i: nat): char
    requires i <= |s|
  {
    if i < |s| then s[i] else '\0'
  }

  // ----- Sizing the buffer -----

  /** How many turns the sizing scan takes: an escaped pair counts once. */
  function Pieces(s: string): (k: nat)
    ensures k <= |s|
    decreases |s|
  {
    if s == [] || s[0] == '"' then 0
    else if s[0] == '\\' && |s| > 1 then 1 + Pieces(s[2..])
    else 1 + Pieces(s[1..])
  }

  // ----- Hexadecimal digits -----

  function HexRun(s: string): nat
    requires forall i :: 0 <= i < |s| ==> IsHex(s[i])
  {
    if s == [] then 0 else HexRun(s[..|s| - 1]) * 16 + HexValue(s[|s| - 1])
  }

  lemma HexRunOfFour(s: string)
    requires |s| >= 4 && forall i :: 0 <= i < 4 ==> IsHex(s[i])
    ensures HexRun(s[..4]) == Hex4(s)
  {
    var t := s[..4];
    assert t[..3][..2] == t[..2] && t[..3][..2][..1] == t[..1] && t[..1][..0] == [];
    assert HexRun(t[..1]) == HexValue(s[0]);
    assert HexRun(t[..2]) == HexRun(t[..2][..1]) * 16 + HexValue(s[1]);
  }

  /** The value of four hex digits, 0 at the first character that is none. */
  method ParseHex4(text: string, pos: nat) returns (h: nat)
    requires pos <= |text|
    ensures h == Hex4(text[pos..])
  {
    h := 0;
    ghost var s := text[pos..];
    for i := 0 to 4
      invariant pos + i <= |text|
      invariant forall j :: 0 <= j < i ==> IsHex(s[j])
      invariant h == HexRun(s[..i])
    {
      var c := CharAt(text, pos + i);
      if !IsHex(c) {
        assert pos + i < |text| ==> s[i] == c;
        return 0;
      }
      assert s[i] == c && s[..i + 1][..i] == s[..i];
      h := h * 16 + HexValue(c);
    }
    HexRunOfFour(s);
  }

  // ----- UTF-8 -----

  /** What assigning a number to a char keeps. */
  function LowByte(uc: nat): (c: char)
    ensures c as int == uc % 256
  {
    Byte(uc % 256)
  }

  const FIRST_BYTE_MARK: seq<nat> := [0x00, 0x00, 0xC0, 0xE0, 0xF0, 0xF8, 0xFC]

  function Utf8Length(uc: nat): (n: nat)
    ensures 1 <= n <= 4
    ensures uc < 0x110000 ==> n == |Utf8(uc)|
  {
    if uc < 0x80 then 1 else if uc < 0x800 then 2 else if uc < 0x10000 then 3 else 4
  }

  /** What is left of a code point when its last k groups of six bits are gone. */
  function Rest(cp: nat, k: nat): nat {
    if k == 0 then cp else Rest(cp, k - 1) / 64
  }

  /** The last k bytes of the encoding of a code point. */
  function Tail(cp: nat, k: nat): (s: string)
    ensures |s| == k
  {
    if k == 0 then [] else [Byte(0x80 + Rest(cp, k - 1) % 64)] + Tail(cp, k - 1)
  }

  predicate LeadFits(b: nat, mark: nat) {
    (mark == 0x00 && b < 0x80) || (mark == 0xC0 && b < 0x20) || (mark == 0xE0 && b < 0x10) || (mark == 0xF0 && b < 0x08)
  }

  lemma Utf8Split(cp: nat)
    requires cp < 0x110000
    ensures var n := |Utf8(cp)|;
      && n == Utf8Length(cp)
      && LeadFits(Rest(cp, n - 1), FIRST_BYTE_MARK[n])
      && Utf8(cp) == [Byte(FIRST_BYTE_MARK[n] + Rest(cp, n - 1))] + Tail(cp, n - 1)
  {
    assert Rest(cp, 1) == cp / 64;
    assert Rest(cp, 2) == cp / 64 / 64 == cp / 4096;
    assert Rest(cp, 3) == cp / 64 / 64 / 64 == cp / 262144;
    assert Tail(cp, 1) == [Byte(0x80 + cp % 64)];
    assert Tail(cp, 2) == [Byte(0x80 + cp / 64 % 64)] + Tail(cp, 1);
    assert Tail(cp, 3) == [Byte(0x80 + cp / 4096 % 64)] + Tail(cp, 2);
  }

  method PutByte(c: char, out: array<char>, p: nat)
    requires p < out.Length
    modifies out
    ensures out[p..] == [c] + old(out[p + 1..])
    ensures out[..p] == old(out[..p])
  {
    out[p] := c;
  }

  method PutContinuation(uc: nat, out: array<char>, p: nat)
    requires p < out.Length
    modifies out
    ensures out[p..] == [Byte(0x80 + uc % 64)] + old(out[p + 1..])
    ensures out[..p] == old(out[..p])
  {
    hide Or, And;
    ContinuationBits(uc);
    PutByte(LowByte(And(Or(uc, 0x80), 0xBF)), out, p);
  }

  lemma LeadChar(uc: nat, mark: nat)
    requires LeadFits(uc, mark)
    ensures mark + uc < 256 && LowByte(Or(uc, mark)) == Byte(mark + uc)
  {
    hide Or;
    Powers();
    if mark == 0 {
      OrNothing(uc);
    } else {
      var k := if mark == 0xC0 then 5 else if mark == 0xE0 then 4 else 3;
      OrDisjoint(uc, mark / Pow2(k), k);
    }
  }

  /** The part of the output that the trailing bytes are put into: all but the first byte's place and what is before
      it. */
  ghost predicate TailWritten(out: array<char>, before: string, after: string, p: nat, cp: nat, k: nat)
    reads out
  {
    && |before| <= p <= out.Length
    && out[..|before|] == before
    && out[p..] == Tail(cp, k) + after
  }

  lemma PrefixKept(s: seq<char>, s': seq<char>, p: nat, q: nat)
    requires q <= p <= |s| && p <= |s'| && s[..p] == s'[..p]
    ensures s[..q] == s'[..q]
  {
    assert s[..q] == s[..p][..q];
    assert s'[..q] == s'[..p][..q];
  }

  lemma TailStart(cp: nat)
    ensures Tail(cp, 0) == [] && Rest(cp, 0) == cp
  {}

  lemma TailStep(cp: nat, k: nat)
    ensures Tail(cp, k + 1) == [Byte(0x80 + Rest(cp, k) % 64)] + Tail(cp, k) && Rest(cp, k + 1) == Rest(cp, k) / 64
  {}

  method PutTailByte(ghost cp: nat, ghost k: nat, uc: nat, out: array<char>, p: nat, ghost before: string,
    ghost after: string)
    requires uc == Rest(cp, k) && |before| <= p < out.Length && TailWritten(out, before, after, p + 1, cp, k)
    modifies out
    ensures TailWritten(out, before, after, p, cp, k + 1)
  {
    hide Tail, Rest;
    ghost var was := out[..];
    PutContinuation(uc, out, p);
    PrefixKept(was, out[..], p, |before|);
    TailStep(cp, k);
    assert was[p + 1..] == Tail(cp, k) + after;
  }

  method PutLeadByte(ghost cp: nat, n: nat, uc: nat, out: array<char>, at: nat, ghost after: string)
    requires cp < 0x110000 && n == |Utf8(cp)| && uc == Rest(cp, n - 1) && at + n <= out.Length
    requires TailWritten(out, out[..at], after, at + 1, cp, n - 1)
    modifies out
    ensures out[..at] == old(out[..at]) && out[at..] == Utf8(cp) + after
  {
    hide Utf8, LeadFits, Tail, Rest, LowByte, Or, Utf8Length;
    ghost var was := out[..];
    Utf8Split(cp);
    LeadChar(uc, FIRST_BYTE_MARK[n]);
    assert was[at + 1..] == Tail(cp, n - 1) + after;
    PutByte(LowByte(Or(uc, FIRST_BYTE_MARK[n])), out, at);
  }

  /** Writes the bytes of a code point from the last to the first; the cases of the source fall through. */
  method PutUtf8(cp: nat, out: array<char>, at: nat) returns (n: nat)
    requires cp < 0x110000 && at + |Utf8(cp)| <= out.Length
    modifies out
    ensures n == |Utf8(cp)|
    ensures out[..at] == old(out[..at]) && out[at..] == Utf8(cp) + old(out[at + n..])
  {
    hide Utf8, Tail, Rest, Utf8Length;
    n := Utf8Length(cp);
    TailStart(cp);
    ghost var before, after := out[..at], out[at + n..];
    var uc, p := cp, at + n;
    ghost var k := 0;
    while p > at + 1
      invariant p == at + n - k && k < n && uc == Rest(cp, k)
      invariant TailWritten(out, before, after, p, cp, k)
    {
      p := p - 1;
      PutTailByte(cp, k, uc, out, p, before, after);
      TailStep(cp, k);
      uc := uc / 64;
      k := k + 1;
    }
    PutLeadByte(cp, n, uc, out, at, after);
  }

  // ----- Unicode escapes -----

  /** end is where the literal that goes on at pos is closed or cut off. */
  predicate Closes(text: string, pos: nat, end: nat) {
    pos <= end <= |text| && CloseIndex(text[pos..]) == end - pos
  }

  lemma Hex4Inside(text: string, pos: nat, end: nat)
    requires pos + 4 <= end <= |text|
    ensures Hex4(text[pos..end]) == Hex4(text[pos..])
  {
    assert forall i :: 0 <= i < 4 ==> text[pos..end][i] == text[pos..][i];
  }

  lemma Hex4Cut(text: string, pos: nat, end: nat)
    requires pos <= end < pos + 4 && end <= |text| && (end < |text| ==> !IsHex(text[end]))
    ensures Hex4(text[pos..]) == 0
  {
    if end < |text| {
      assert text[pos..][end - pos] == text[end];
    }
  }

  /** The code point of the escape whose backslash is at b: the checks of the source, in its order. */
  method ReadUnicode(text: string, b: nat, end: nat) returns (e: Escaped)
    requires b + 2 <= end <= |text| && text[b] == '\\' && text[b + 1] == 'u'
    requires end < |text| ==> text[end] == '"'
    ensures e == UnicodeEscape(text[b..end])
  {
    ghost var s := text[b..end];
    assert s[2..] == text[b + 2..end];
    var uc := ParseHex4(text, b + 2);
    var ptr := b + 5;
    if ptr >= end {
      return BadEscape;
    }
    Hex4Inside(text, b + 2, end);
    if IsLowSurrogate(uc) || uc == 0 {
      return BadEscape;
    }
    if !IsHighSurrogate(uc) {
      return Escaped(uc, 6);
    }
    if ptr + 6 > end {
      return BadEscape;
    }
    assert s[6] == text[ptr + 1] && s[7] == text[ptr + 2];
    if CharAt(text, ptr + 1) != '\\' || CharAt(text, ptr + 2) != 'u' {
      return BadEscape;
    }
    var uc2 := ParseHex4(text, ptr + 3);
    if ptr + 6 == end {
      Hex4Cut(text, ptr + 3, end);
      return BadEscape;
    }
    assert s[8..] == text[ptr + 3..end];
    Hex4Inside(text, ptr + 3, end);
    if !IsLowSurrogate(uc2) {
      return BadEscape;
    }
    JoinSurrogates(uc, uc2);
    return Escaped(0x10000 + Or((uc % 0x400) * 0x400, uc2 % 0x400), 12);
  }

  lemma JoinSurrogates(u: nat, v: nat)
    requires IsHighSurrogate(u) && IsLowSurrogate(v)
    ensures Or((u % 0x400) * 0x400, v % 0x400) == (u - 0xD800) * 0x400 + (v - 0xDC00)
  {
    assert u % 0x400 == u - 0xD800 && v % 0x400 == v - 0xDC00;
    JoinTens(u % 0x400, v % 0x400);
  }

  lemma JoinTens(high: nat, low: nat)
    requires low < 0x400
    ensures Or(high * 0x400, low) == high * 0x400 + low
  {
    hide Or;
    Powers();
    OrDisjoint(low, high, 10);
    OrCommutes(low, high * 0x400);
  }

  // ----- Literals -----

  /** The scan for the closing quote, which also sizes the buffer. */
  method ScanLiteral(text: string, start: nat) returns (end: nat, len: nat)
    requires NulFree(text) && start <= |text|
    ensures end == start + CloseIndex(text[start..])
    ensures len == Pieces(text[start..])
  {
    hide CloseIndex, Pieces;
    end, len := start, 0;
    while end <= |text| && CharAt(text, end) != '"' && CharAt(text, end) != '\0'
      invariant start <= end <= |text| + 1
      invariant end <= |text| ==> end + CloseIndex(text[end..]) == start + CloseIndex(text[start..])
      invariant end <= |text| ==> len + Pieces(text[end..]) == Pieces(text[start..])
      invariant end == |text| + 1 ==> end == start + CloseIndex(text[start..]) && len == Pieces(text[start..])
      decreases |text| + 1 - end
    {
      ScanStep(text, end);
      len := len + 1;
      if text[end] == '\\' {
        end := end + 1;
      }
      end := end + 1;
    }
    if end <= |text| {
      ScanEnd(text, end);
    }
  }

  lemma ScanEnd(text: string, p: nat)
    requires p <= |text| && (p < |text| ==> text[p] == '"')
    ensures CloseIndex(text[p..]) == 0 && Pieces(text[p..]) == 0
  {
    assert p < |text| ==> text[p..][0] == text[p];
  }

  lemma ScanStep(text: string, p: nat)
    requires p < |text| && text[p] != '"'
    ensures var k := if text[p] == '\\' then 2 else 1;
      && p + k <= |text| + 1
      && CloseIndex(text[p..]) == k + (if p + k <= |text| then CloseIndex(text[p + k..]) else 0)
      && Pieces(text[p..]) == 1 + (if p + k <= |text| then Pieces(text[p + k..]) else 0)
  {
    var s := text[p..];
    assert s[0] == text[p] && s[1..] == text[p + 1..];
    if |s| > 1 {
      assert s[2..] == text[p + 2..];
    } else {
      assert Pieces(s[1..]) == 0;
    }
  }

  /** What is decoded and what is still to be decoded make up the whole. */
  ghost predicate Decoding(text: string, start: nat, ptr: nat, end: nat, written: string, len: nat)
    requires start <= ptr <= end <= |text|
  {
    && Closes(text, ptr, end)
    && |written| + Pieces(text[ptr..]) <= len
    && (match Unescape(text[ptr..end])
        case None => Unescape(text[start..end]) == None
        case Some(t) => Unescape(text[start..end]) == Some(written + t))
  }

  lemma DecodePlain(text: string, start: nat, ptr: nat, end: nat, written: string, len: nat)
    requires start <= ptr < end <= |text| && Decoding(text, start, ptr, end, written, len) && text[ptr] != '\\'
    ensures Decoding(text, start, ptr + 1, end, written + [text[ptr]], len)
  {
    hide CloseIndex, Pieces, Unescape;
    var s := text[ptr..end];
    AtClose(text, ptr, end);
    ScanStep(text, ptr);
    assert s[0] == text[ptr] && s[1..] == text[ptr + 1..end];
    UnescapePlain(s);
    if Unescape(s[1..]).Some? {
      assert written + ([text[ptr]] + Unescape(s[1..]).value) == written + [text[ptr]] + Unescape(s[1..]).value;
    }
  }

  lemma AtClose(text: string, ptr: nat, end: nat)
    requires Closes(text, ptr, end) && ptr < end
    ensures text[ptr] != '"'
    ensures text[ptr] == '\\' ==> ptr + 2 <= end
  {
    assert text[ptr..][0] == text[ptr];
  }

  lemma UnescapePlain(s: string)
    requires s != [] && s[0] != '\\'
    ensures Unescape(s) == match Unescape(s[1..]) case None => None case Some(t) => Some([s[0]] + t)
  {}

  lemma UnescapeSimple(s: string)
    requires |s| >= 2 && s[0] == '\\' && s[1] != 'u'
    ensures Unescape(s) == match Unescape(s[2..]) case None => None case Some(t) => Some([SimpleEscape(s[1])] + t)
  {
    hide SimpleEscape;
  }

  lemma DecodeSimple(text: string, start: nat, ptr: nat, end: nat, written: string, len: nat)
    requires start <= ptr < end <= |text| && Decoding(text, start, ptr, end, written, len) && text[ptr] == '\\'
    requires ptr + 2 <= end && text[ptr + 1] != 'u'
    ensures Decoding(text, start, ptr + 2, end, written + [SimpleEscape(text[ptr + 1])], len)
  {
    hide SimpleEscape, CloseIndex, Pieces, Unescape;
    var s := text[ptr..end];
    var c := SimpleEscape(text[ptr + 1]);
    ScanStep(text, ptr);
    assert s[0] == text[ptr] && s[1] == text[ptr + 1] && s[2..] == text[ptr + 2..end];
    UnescapeSimple(s);
    if Unescape(s[2..]).Some? {
      assert written + ([c] + Unescape(s[2..]).value) == written + [c] + Unescape(s[2..]).value;
    }
  }

  /** Hex digits stand for themselves in the sizing scan. */
  lemma {:induction false} ScanPlain(text: string, p: nat, k: nat)
    requires p + k <= |text| && forall i :: p <= i < p + k ==> IsHex(text[i])
    ensures CloseIndex(text[p..]) == k + CloseIndex(text[p + k..])
    ensures Pieces(text[p..]) == k + Pieces(text[p + k..])
    decreases k
  {
    hide CloseIndex, Pieces, IsHex;
    if k != 0 {
      HexIsPlain(text[p]);
      ScanStep(text, p);
      ScanPlain(text, p + 1, k - 1);
    }
  }

  lemma HexIsPlain(c: char)
    ensures IsHex(c) ==> c != '"' && c != '\\'
  {}

  lemma ScanUnicode(text: string, ptr: nat, end: nat, e: Escaped)
    requires ptr + 2 <= end <= |text| && text[ptr] == '\\' && text[ptr + 1] == 'u'
    requires e == UnicodeEscape(text[ptr..end]) && e.Escaped?
    ensures CloseIndex(text[ptr..]) == e.used + CloseIndex(text[ptr + e.used..])
    ensures Pieces(text[ptr..]) >= |Utf8(e.cp)| + Pieces(text[ptr + e.used..])
  {
    var s := text[ptr..end];
    ScanStep(text, ptr);
    HexDigitsOf(text, ptr + 2, end);
    assert s[2..] == text[ptr + 2..end];
    ScanPlain(text, ptr + 2, 4);
    if e.used == 12 {
      assert s[6] == text[ptr + 6] && s[7] == text[ptr + 7] && s[8..] == text[ptr + 8..end];
      ScanStep(text, ptr + 6);
      HexDigitsOf(text, ptr + 8, end);
      ScanPlain(text, ptr + 8, 4);
    }
  }

  lemma HexDigitsOf(text: string, p: nat, end: nat)
    requires p <= end <= |text| && Hex4(text[p..end]) != 0
    ensures p + 4 <= end && forall i :: p <= i < p + 4 ==> IsHex(text[i])
  {
    var s := text[p..end];
    assert s[0] == text[p] && s[1] == text[p + 1] && s[2] == text[p + 2] && s[3] == text[p + 3];
  }

  lemma DecodeUnicode(text: string, start: nat, ptr: nat, end: nat, written: string, len: nat, e: Escaped)
    requires start <= ptr < end <= |text| && Decoding(text, start, ptr, end, written, len)
    requires ptr + 2 <= end && text[ptr] == '\\' && text[ptr + 1] == 'u' && e == UnicodeEscape(text[ptr..end])
    ensures e.BadEscape? ==> Unescape(text[start..end]) == None
    ensures e.Escaped? ==> ptr + e.used <= end && Decoding(text, start, ptr + e.used, end, written + Utf8(e.cp), len)
  {
    hide UnicodeEscape, Utf8, CloseIndex, Pieces;
    var s := text[ptr..end];
    assert s[0] == text[ptr] && s[1] == text[ptr + 1];
    if e.Escaped? {
      ScanUnicode(text, ptr, end, e);
      var rest := s[e.used..];
      assert rest == text[ptr + e.used..end];
      if Unescape(rest).Some? {
        assert written + (Utf8(e.cp) + Unescape(rest).value) == written + Utf8(e.cp) + Unescape(rest).value;
      }
    }
  }

  /** Decodes the literal text[start..end] into out; false at a bad \u escape. Every write stays inside the buffer. */
  method DecodeLiteral(text: string, start: nat, end: nat, out: array<char>) returns (ok: bool, n: nat)
    requires NulFree(text) && start <= end <= |text| && Closes(text, start, end)
    requires end < |text| ==> text[end] == '"'
    requires out.Length == Pieces(text[start..]) + 1
    modifies out
    ensures ok <==> Unescape(text[start..end]).Some?
    ensures n < out.Length && (ok ==> out[..n] == Unescape(text[start..end]).value && out[n] == '\0')
  {
    hide Unescape, CloseIndex, Pieces, UnicodeEscape, Utf8, SimpleEscape, Closes, Decoding;
    ghost var len := out.Length - 1;
    var ptr := start;
    n := 0;
    DecodeStart(text, start, end, len);
    assert out[..0] == [];
    while ptr < end
      invariant start <= ptr <= end && n <= len
      invariant Decoding(text, start, ptr, end, out[..n], len)
    {
      DecodingFits(text, start, ptr, end, out[..n], len);
      ghost var written := out[..n];
      if text[ptr] != '\\' {
        DecodePlain(text, start, ptr, end, written, len);
        out[n] := text[ptr];
        n, ptr := n + 1, ptr + 1;
        assert out[..n] == written + [text[ptr - 1]];
      } else if text[ptr + 1] != 'u' {
        DecodeSimple(text, start, ptr, end, written, len);
        out[n] := SimpleEscape(text[ptr + 1]);
        n, ptr := n + 1, ptr + 2;
        assert out[..n] == written + [SimpleEscape(text[ptr - 1])];
      } else {
        var e := ReadUnicode(text, ptr, end);
        DecodeUnicode(text, start, ptr, end, written, len, e);
        if e.BadEscape? {
          return false, n;
        }
        DecodingFits(text, start, ptr + e.used, end, written + Utf8(e.cp), len);
        var k := PutUtf8(e.cp, out, n);
        n, ptr := n + k, ptr + e.used;
        assert out[..n] == written + Utf8(e.cp);
      }
    }
    DecodeDone(text, start, end, out[..n], len);
    out[n] := '\0';
    ok := true;
  }

  lemma DecodeStart(text: string, start: nat, end: nat, len: nat)
    requires start <= end <= |text| && Closes(text, start, end) && len == Pieces(text[start..])
    ensures Decoding(text, start, start, end, [], len)
  {
    if Unescape(text[start..end]).Some? {
      assert [] + Unescape(text[start..end]).value == Unescape(text[start..end]).value;
    }
  }

  lemma DecodingFits(text: string, start: nat, ptr: nat, end: nat, written: string, len: nat)
    requires start <= ptr <= end <= |text| && Decoding(text, start, ptr, end, written, len)
    ensures |written| <= len
    ensures ptr < end ==> |written| < len && (text[ptr] == '\\' ==> ptr + 2 <= end)
  {
    if ptr < end {
      AtClose(text, ptr, end);
      ScanStep(text, ptr);
    }
  }

  lemma DecodeDone(text: string, start: nat, end: nat, written: string, len: nat)
    requires start <= end <= |text| && Decoding(text, start, end, end, written, len)
    ensures Unescape(text[start..end]) == Some(written)
  {
    assert text[end..end] == [];
    assert written + [] == written;
  }

  /** How a parse of the text from pos on ends. */
  ghost predicate Ends<T>(p: Parsed<T>, r: Outcome, text: string) {
    match p
    case Parsed(_, rest) => r.End? && r.pos <= |text| && text[r.pos..] == rest
    case Malformed => r == Failed
    case Unmodelled => r == OutOfModel
  }

  /** The literal at pos, unescaped: the buffer holds it as a C string. */
  method ReadString(text: string, pos: nat) returns (r: Outcome, value: string)
    requires NulFree(text) && pos <= |text|
    ensures Ends(ParseString(text[pos..]), r, text)
    ensures r.End? ==> value == ParseString(text[pos..]).value
  {
    value := "";
    if CharAt(text, pos) != '"' {
      return Failed, value;
    }
    ghost var s := text[pos..];
    var end, len := ScanLiteral(text, pos + 1);
    assert s[1..] == text[pos + 1..];
    if end > |text| {
      return OutOfModel, value;
    }
    assert s[1..][..CloseIndex(s[1..])] == text[pos + 1..end];
    var out := new char[len + 1];
    var ok, n := DecodeLiteral(text, pos + 1, end, out);
    value := out[..n];
    if !ok {
      return Failed, value;
    }
    if CharAt(text, end) == '"' {
      assert s[1..][CloseIndex(s[1..]) + 1..] == text[end + 1..];
      return End(end + 1), value;
    }
    r := End(end);
    assert text[end..] == [];
  }
}
