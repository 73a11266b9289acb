/** What the decoded escapes mean: UTF-8 read back by the rules of RFC 3629, UTF-16 spelled by those of RFC 2781. */
module JsonUnicode {
  import opened JsonText

  /** A code point that is not half of a surrogate pair. */
  predicate Scalar(cp: nat) {
    cp < 0x110000 && !(0xD800 <= cp <= 0xDFFF)
  }

  predicate Continues(s: string, i: nat) {
    i < |s| && 0x80 <= s[i] as int < 0xC0
  }

  /** A well-formed sequence of section 4 of RFC 3629 at the front of s: its code point and its length. Overlong
      forms, surrogates and bytes out of place are refused. */
  function DecodeUtf8(s: string): Option<(nat, nat)> {
    if s == [] then None
    else
      var b := s[0] as int;
      if b < 0x80 then Some((b, 1))
      else if 0xC2 <= b < 0xE0 && Continues(s, 1) then Some(((b - 0xC0) * 64 + (s[1] as int - 0x80), 2))
      else if 0xE0 <= b < 0xF0 && Continues(s, 1) && Continues(s, 2) then
        var cp := ((b - 0xE0) * 64 + (s[1] as int - 0x80)) * 64 + (s[2] as int - 0x80);
        if cp >= 0x800 && Scalar(cp) then Some((cp, 3)) else None
      else if 0xF0 <= b < 0xF5 && Continues(s, 1) && Continues(s, 2) && Continues(s, 3) then
        var cp := (((b - 0xF0) * 64 + (s[1] as int - 0x80)) * 64 + (s[2] as int - 0x80)) * 64 + (s[3] as int - 0x80);
        if 0x10000 <= cp && Scalar(cp) then Some((cp, 4)) else None
      else None
  }

  /** The encoder's bytes are the one well-formed sequence for their code point. */
  lemma Utf8ReadBack(cp: nat, rest: string)
    requires Scalar(cp)
    ensures DecodeUtf8(Utf8(cp) + rest) == Some((cp, |Utf8(cp)|))
  {
    var s := Utf8(cp) + rest;
    assert forall i :: 0 <= i < |Utf8(cp)| ==> s[i] == Utf8(cp)[i];
    Groups(cp);
  }

  lemma Groups(cp: nat)
    ensures cp == cp / 64 * 64 + cp % 64
    ensures cp / 64 == cp / 4096 * 64 + cp / 64 % 64
    ensures cp / 4096 == cp / 262144 * 64 + cp / 4096 % 64
  {
    assert cp / 64 / 64 == cp / 4096;
    assert cp / 4096 / 64 == cp / 262144;
  }

  function HexQuad(u: nat): (s: string)
    requires u < 0x10000
    ensures |s| == 4
  {
    [HexDigit(u / 4096), HexDigit(u / 256 % 16), HexDigit(u / 16 % 16), HexDigit(u % 16)]
  }

  /** A hexadecimal digit in lower case; any other character as it is. */
  function LowerHex(c: char): char {
    if 'A' <= c <= 'F' then (c as int - 'A' as int + 'a' as int) as char else c
  }

  function LowerAll(s: string): (t: string)
    ensures |t| == |s| && forall i :: 0 <= i < |s| ==> t[i] == LowerHex(s[i])
  {
    seq(|s|, i requires 0 <= i < |s| => LowerHex(s[i]))
  }

  /** The escape of a code point in lower case: one code unit, or a high and a low surrogate. */
  function Spell(cp: nat): string
    requires Scalar(cp)
  {
    if cp < 0x10000 then "\\u" + HexQuad(cp)
    else "\\u" + HexQuad(0xD800 + (cp - 0x10000) / 0x400) + "\\u" + HexQuad(0xDC00 + (cp - 0x10000) % 0x400)
  }

  /** The first n characters of s are the escape of cp, with digits of either case. */
  predicate Spells(s: string, n: nat, cp: nat) {
    n <= |s| && Scalar(cp) && LowerAll(s[..n]) == Spell(cp)
  }

  lemma DigitSpelled(c: char, d: nat)
    requires d < 16
    ensures LowerHex(c) == HexDigit(d) <==> IsHex(c) && HexValue(c) == d
  {}

  /** Four digits are read as u exactly when they spell it; 0 is also what is read when they are no digits. */
  lemma QuadSpelled(s: string, u: nat)
    requires u < 0x10000
    ensures Hex4(s) == u && u != 0 ==> |s| >= 4 && LowerAll(s[..4]) == HexQuad(u)
    ensures |s| >= 4 && LowerAll(s[..4]) == HexQuad(u) ==> Hex4(s) == u
  {
    hide IsHex, HexValue, HexDigit, LowerHex;
    if |s| >= 4 {
      var q := LowerAll(s[..4]);
      assert q == [q[0], q[1], q[2], q[3]];
      DigitSpelled(s[0], u / 4096);
      DigitSpelled(s[1], u / 256 % 16);
      DigitSpelled(s[2], u / 16 % 16);
      DigitSpelled(s[3], u % 16);
      assert u / 16 / 16 == u / 256 && u / 256 / 16 == u / 4096;
    }
  }

  /** The code unit escaped at position i. */
  predicate UnitAt(s: string, i: nat, u: nat) {
    i + 6 <= |s| && s[i] == '\\' && s[i + 1] == 'u' && u < 0x10000 && LowerAll(s[i + 2..i + 6]) == HexQuad(u)
  }

  lemma UnitRead(s: string, i: nat, u: nat)
    requires i + 2 <= |s| && s[i] == '\\' && s[i + 1] == 'u' && 0 < u < 0x10000
    ensures UnitAt(s, i, u) <==> Hex4(s[i + 2..]) == u
  {
    hide Hex4, HexQuad;
    QuadSpelled(s[i + 2..], u);
    assert i + 6 <= |s| ==> s[i + 2..][..4] == s[i + 2..i + 6];
  }

  lemma SameParts(a: string, b: string, c: string, d: string)
    requires |a| == |c|
    ensures a + b == c + d <==> a == c && b == d
  {
    if a + b == c + d {
      assert (a + b)[..|a|] == a && (c + d)[..|c|] == c && (a + b)[|a|..] == b && (c + d)[|c|..] == d;
    }
  }

  lemma UnitSpelled(s: string, i: nat, u: nat)
    requires i + 6 <= |s| && u < 0x10000
    ensures LowerAll(s[i..i + 6]) == "\\u" + HexQuad(u) <==> UnitAt(s, i, u)
  {
    hide HexQuad;
    var front, digits := [LowerHex(s[i]), LowerHex(s[i + 1])], LowerAll(s[i + 2..i + 6]);
    assert LowerAll(s[i..i + 6]) == front + digits;
    SameParts(front, digits, "\\u", HexQuad(u));
    assert front == "\\u" <==> front[0] == '\\' && front[1] == 'u';
  }

  lemma PairSpelled(s: string, u: nat, v: nat)
    requires 12 <= |s| && u < 0x10000 && v < 0x10000
    ensures LowerAll(s[..12]) == "\\u" + HexQuad(u) + "\\u" + HexQuad(v) <==> UnitAt(s, 0, u) && UnitAt(s, 6, v)
  {
    hide HexQuad, LowerHex, UnitAt;
    UnitSpelled(s, 0, u);
    UnitSpelled(s, 6, v);
    assert LowerAll(s[..12]) == LowerAll(s[0..6]) + LowerAll(s[6..12]);
    SameParts(LowerAll(s[0..6]), LowerAll(s[6..12]), "\\u" + HexQuad(u), "\\u" + HexQuad(v));
    assert "\\u" + HexQuad(u) + "\\u" + HexQuad(v) == ("\\u" + HexQuad(u)) + ("\\u" + HexQuad(v));
  }

  /** The escapes that are read are exactly the spellings of the code points but 0, and each is read as what it
      spells: a lone surrogate, a digit that is none and \u0000 are refused. */
  lemma EscapeExact(s: string, cp: nat, n: nat)
    requires |s| >= 2 && s[0] == '\\' && s[1] == 'u'
    ensures UnicodeEscape(s) == Escaped(cp, n) <==> cp != 0 && Spells(s, n, cp)
  {
    hide HexQuad, Hex4, Utf8, LowerAll, UnitAt;
    if Scalar(cp) && cp != 0 {
      if cp < 0x10000 {
        ShortEscape(s, cp, n);
      } else {
        LongEscape(s, cp, n);
      }
    }
  }

  lemma ShortEscape(s: string, cp: nat, n: nat)
    requires |s| >= 2 && s[0] == '\\' && s[1] == 'u' && Scalar(cp) && 0 < cp < 0x10000
    ensures UnicodeEscape(s) == Escaped(cp, n) <==> Spells(s, n, cp)
  {
    hide HexQuad, Hex4, Utf8, LowerAll, UnitAt;
    UnitRead(s, 0, cp);
    UnitRoom(s, 0, cp);
    if |s| >= 6 {
      UnitSpelled(s, 0, cp);
      assert s[0..6] == s[..6];
    }
  }

  lemma UnitRoom(s: string, i: nat, u: nat)
    ensures UnitAt(s, i, u) ==> i + 6 <= |s|
  {}

  lemma LongEscape(s: string, cp: nat, n: nat)
    requires |s| >= 2 && s[0] == '\\' && s[1] == 'u' && Scalar(cp) && 0x10000 <= cp
    ensures UnicodeEscape(s) == Escaped(cp, n) <==> Spells(s, n, cp)
  {
    hide HexQuad, Hex4, Utf8, LowerAll, UnitAt;
    var u, v := 0xD800 + (cp - 0x10000) / 0x400, 0xDC00 + (cp - 0x10000) % 0x400;
    UnitRead(s, 0, u);
    if |s| >= 12 {
      PairSpelled(s, u, v);
      if s[6] == '\\' && s[7] == 'u' {
        UnitRead(s, 6, v);
      } else {
        NoUnit(s, 6, v);
      }
    }
  }

  lemma NoUnit(s: string, i: nat, u: nat)
    requires i + 2 <= |s| && !(s[i] == '\\' && s[i + 1] == 'u')
    ensures !UnitAt(s, i, u)
  {}

  /** What stands in front spells some code point but 0. */
  ghost predicate GoodEscape(s: string) {
    exists cp: nat, n: nat :: cp != 0 && Spells(s, n, cp)
  }

  /** Any other escape spoils the literal. */
  lemma BadEscapesRefused(s: string)
    requires |s| >= 2 && s[0] == '\\' && s[1] == 'u'
    ensures UnicodeEscape(s).Escaped? <==> GoodEscape(s)
    ensures !GoodEscape(s) ==> Unescape(s) == None
  {
    hide Spells, UnicodeEscape;
    var e := UnicodeEscape(s);
    if e.Escaped? {
      EscapeExact(s, e.cp, e.used);
    }
    if GoodEscape(s) {
      var cp: nat, n: nat :| cp != 0 && Spells(s, n, cp);
      EscapeExact(s, cp, n);
    }
  }

  /** In a literal an escape becomes the UTF-8 bytes of the code point it spells, and a reader of UTF-8 gets that
      back. */
  lemma EscapeMeansCodePoint(s: string, n: nat, cp: nat)
    requires cp != 0 && Spells(s, n, cp) && |s| >= 2 && s[0] == '\\' && s[1] == 'u'
    ensures Unescape(s) == match Unescape(s[n..]) case None => None case Some(t) => Some(Utf8(cp) + t)
    ensures Unescape(s).Some? ==> DecodeUtf8(Unescape(s).value) == Some((cp, |Utf8(cp)|))
  {
    hide UnicodeEscape, Utf8, DecodeUtf8, LowerAll, Spell;
    EscapeExact(s, cp, n);
    if Unescape(s[n..]).Some? {
      Utf8ReadBack(cp, Unescape(s[n..]).value);
    }
  }
}
