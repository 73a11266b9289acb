/** What any successful parse tells: the rest is a suffix of the text, the value can be printed again. */
module JsonParsed {
  import opened Decimal
  import opened CStrings
  import opened JsonText
  import opened JsonRoundTrip

  predicate SuffixOf(t: string, s: string) {
    |t| <= |s| && s[|s| - |t|..] == t
  }

  lemma SuffixTransitive(t: string, u: string, s: string)
    requires SuffixOf(t, u) && SuffixOf(u, s)
    ensures SuffixOf(t, s)
  {
    assert s[|s| - |t|..] == u[|u| - |t|..];
  }

  lemma SuffixNulFree(t: string, s: string)
    requires SuffixOf(t, s) && NulFree(s)
    ensures NulFree(t)
  {
    assert forall i :: 0 <= i < |t| ==> t[i] == s[|s| - |t| + i];
  }

  lemma TailSuffix(t: string, s: string, k: nat)
    requires SuffixOf(t, s) && k <= |t|
    ensures SuffixOf(t[k..], s)
  {}

  lemma {:induction false} SkipSuffix(s: string)
    ensures SuffixOf(Skip(s), s)
    ensures Skip(Skip(s)) == Skip(s)
  {
    if s != [] && '\0' < s[0] <= ' ' {
      SkipSuffix(s[1..]);
    }
  }

  lemma StringSuffix(s: string)
    requires ParseString(s).Parsed?
    ensures SuffixOf(ParseString(s).rest, s)
  {
    hide Unescape, CloseIndex;
    var e := CloseIndex(s[1..]);
    assert e < |s| - 1 ==> s[1..][e + 1..] == s[e + 2..];
  }

  lemma NumberSuffix(s: string)
    requires s != [] && (s[0] == '-' || IsDigit(s[0])) && ParseNumber(s).Parsed?
    ensures SuffixOf(ParseNumber(s).rest, s)
  {
    hide IntegerRun, Value;
  }

  lemma {:induction false} ValueSuffix(s: string)
    requires ParseValue(s).Parsed?
    ensures SuffixOf(ParseValue(s).rest, s)
    decreases |s|, 1
  {
    hide ParseString, ParseNumber, ParseArray, ParseObject;
    if StartsWith(s, '"') {
      StringSuffix(s);
    } else if s[0] == '-' || IsDigit(s[0]) {
      NumberSuffix(s);
    } else if s[0] == '[' {
      ArraySuffix(s);
    } else if s[0] == '{' {
      ObjectSuffix(s);
    }
  }

  lemma {:induction false} ArraySuffix(s: string)
    requires StartsWith(s, '[') && ParseArray(s).Parsed?
    ensures SuffixOf(ParseArray(s).rest, s)
    decreases |s|, 0
  {
    var t := Skip(s[1..]);
    hide ParseElems, SuffixOf, Skip;
    SkipSuffix(s[1..]);
    DropSuffix(s, 1);
    SuffixTransitive(t, s[1..], s);
    if StartsWith(t, ']') {
      TailSuffix(t, s, 1);
    } else {
      ElemsSuffix(t);
      SuffixTransitive(ParseElems(t).rest, t, s);
    }
  }

  lemma {:induction false} ObjectSuffix(s: string)
    requires StartsWith(s, '{') && ParseObject(s).Parsed?
    ensures SuffixOf(ParseObject(s).rest, s)
    decreases |s|, 0
  {
    var t := Skip(s[1..]);
    hide ParseMembers, SuffixOf, Skip;
    SkipSuffix(s[1..]);
    DropSuffix(s, 1);
    SuffixTransitive(t, s[1..], s);
    if StartsWith(t, '}') {
      TailSuffix(t, s, 1);
    } else {
      MembersSuffix(t);
      SuffixTransitive(ParseMembers(t).rest, t, s);
    }
  }

  lemma DropSuffix(s: string, k: nat)
    requires k <= |s|
    ensures SuffixOf(s[k..], s)
  {}

  lemma {:induction false} ElemsSuffix(s: string)
    requires ParseElems(s).Parsed?
    ensures SuffixOf(ParseElems(s).rest, s)
    decreases |s|, 2
  {
    hide ParseValue, SuffixOf;
    var u := Skip(s);
    var r := ParseValue(u).rest;
    var t := Skip(r);
    SkipSuffix(s);
    ValueSuffix(u);
    SkipSuffix(r);
    SuffixTransitive(r, u, s);
    SuffixTransitive(t, r, s);
    TailSuffix(t, s, 1);
    if StartsWith(t, ',') {
      ElemsSuffix(t[1..]);
      SuffixTransitive(ParseElems(t[1..]).rest, t[1..], s);
    }
  }

  lemma {:induction false} MemberSuffix(s: string)
    requires ParseMember(s).Parsed?
    ensures SuffixOf(ParseMember(s).rest, s)
    decreases |s|, 2
  {
    hide ParseValue, ParseString, SuffixOf;
    var u := Skip(s);
    var r := ParseString(u).rest;
    var colon := Skip(r);
    SkipSuffix(s);
    StringSuffix(u);
    SuffixTransitive(r, u, s);
    SkipSuffix(r);
    SuffixTransitive(colon, r, s);
    TailSuffix(colon, s, 1);
    var w := Skip(colon[1..]);
    SkipSuffix(colon[1..]);
    SuffixTransitive(w, colon[1..], s);
    ValueSuffix(w);
    SuffixTransitive(ParseValue(w).rest, w, s);
  }

  lemma {:induction false} MembersSuffix(s: string)
    requires ParseMembers(s).Parsed?
    ensures SuffixOf(ParseMembers(s).rest, s)
    decreases |s|, 3
  {
    hide ParseMember, SuffixOf;
    var r := ParseMember(s).rest;
    var t := Skip(r);
    MemberSuffix(s);
    SkipSuffix(r);
    SuffixTransitive(t, r, s);
    TailSuffix(t, s, 1);
    if StartsWith(t, ',') {
      MembersSuffix(t[1..]);
      SuffixTransitive(ParseMembers(t[1..]).rest, t[1..], s);
    }
  }

  // ----- Parsed values are representable -----

  lemma {:induction false} UnescapeNulFree(s: string)
    requires NulFree(s) && Unescape(s).Some?
    ensures NulFree(Unescape(s).value)
    decreases |s|
  {
    hide UnicodeEscape, Utf8;
    if s == [] {
    } else if s[0] != '\\' {
      UnescapeNulFree(s[1..]);
    } else if s[1] != 'u' {
      UnescapeNulFree(s[2..]);
    } else {
      var e := UnicodeEscape(s);
      Utf8NulFree(e.cp);
      UnescapeNulFree(s[e.used..]);
    }
  }

  lemma Utf8NulFree(cp: nat)
    requires 0 < cp < 0x110000
    ensures NulFree(Utf8(cp))
  {}

  lemma StringRepresentable(s: string)
    requires NulFree(s) && ParseString(s).Parsed?
    ensures NulFree(ParseString(s).value)
  {
    hide Unescape, CloseIndex;
    var e := CloseIndex(s[1..]);
    UnescapeNulFree(s[1..][..e]);
  }

  lemma NumberRepresentable(s: string)
    requires s != [] && (s[0] == '-' || IsDigit(s[0])) && ParseNumber(s).Parsed?
    ensures Representable(ParseNumber(s).value)
  {
    hide IntegerRun, Value;
  }

  /** The texts ParseMember looks at are parts of s. */
  lemma MemberParts(s: string)
    requires NulFree(s) && ParseMember(s).Parsed?
    ensures var r := ParseString(Skip(s)).rest; NulFree(r) && NulFree(Skip(r)[1..]) && NulFree(Skip(Skip(r)[1..]))
  {
    hide ParseValue, ParseString, SuffixOf, NulFree;
    var u := Skip(s);
    var r := ParseString(u).rest;
    var colon := Skip(r);
    SkipSuffix(s);
    StringSuffix(u);
    SuffixTransitive(r, u, s);
    SuffixNulFree(r, s);
    SkipSuffix(r);
    SuffixTransitive(colon, r, s);
    TailSuffix(colon, s, 1);
    SuffixNulFree(colon[1..], s);
    SkipSuffix(colon[1..]);
    SuffixNulFree(Skip(colon[1..]), colon[1..]);
  }

  /** The texts ParseElems looks at are parts of s. */
  lemma ElemsParts(s: string)
    requires NulFree(s) && ParseElems(s).Parsed?
    ensures var r := ParseValue(Skip(s)).rest; NulFree(Skip(s)) && NulFree(r) && NulFree(Skip(r)[1..])
  {
    hide ParseValue, SuffixOf, NulFree;
    var u := Skip(s);
    var r := ParseValue(u).rest;
    SkipSuffix(s);
    ValueSuffix(u);
    SuffixNulFree(u, s);
    SuffixNulFree(r, u);
    SkipSuffix(r);
    TailSuffix(Skip(r), r, 1);
    SuffixNulFree(Skip(r)[1..], r);
  }

  /** Every value read from a text can be printed and read back. */
  lemma {:induction false} ParsedIsRepresentable(s: string)
    requires NulFree(s) && ParseValue(s).Parsed?
    ensures Representable(ParseValue(s).value)
    decreases |s|, 1
  {
    hide ParseString, ParseNumber, ParseArray, ParseObject;
    if StartsWith(s, '"') {
      StringRepresentable(s);
    } else if s[0] == '-' || IsDigit(s[0]) {
      NumberRepresentable(s);
    } else if StartsWith(s, '[') {
      ArrayRepresentable(s);
    } else if StartsWith(s, '{') {
      ObjectRepresentable(s);
    }
  }

  lemma SkipNulFree(s: string)
    requires NulFree(s) && s != []
    ensures NulFree(Skip(s[1..]))
  {
    SkipSuffix(s[1..]);
    SuffixTransitive(Skip(s[1..]), s[1..], s);
    SuffixNulFree(Skip(s[1..]), s);
  }

  lemma {:induction false} ArrayRepresentable(s: string)
    requires NulFree(s) && StartsWith(s, '[') && ParseArray(s).Parsed?
    ensures Representable(ParseArray(s).value)
    decreases |s|, 0
  {
    hide ParseElems, NulFree, Skip;
    SkipNulFree(s);
    if !StartsWith(Skip(s[1..]), ']') {
      ElemsRepresentable(Skip(s[1..]));
    }
  }

  lemma {:induction false} ObjectRepresentable(s: string)
    requires NulFree(s) && StartsWith(s, '{') && ParseObject(s).Parsed?
    ensures Representable(ParseObject(s).value)
    decreases |s|, 0
  {
    hide ParseMembers, NulFree, Skip;
    SkipNulFree(s);
    if !StartsWith(Skip(s[1..]), '}') {
      MembersRepresentable(Skip(s[1..]));
    }
  }

  lemma {:induction false} ElemsRepresentable(s: string)
    requires NulFree(s) && ParseElems(s).Parsed?
    ensures forall e :: e in ParseElems(s).value ==> Representable(e)
    decreases |s|, 2
  {
    hide ParseValue, NulFree, Representable;
    var t := Skip(ParseValue(Skip(s)).rest);
    ElemsParts(s);
    ParsedIsRepresentable(Skip(s));
    if StartsWith(t, ',') {
      ElemsRepresentable(t[1..]);
    }
  }

  lemma {:induction false} MemberRepresentable(s: string)
    requires NulFree(s) && ParseMember(s).Parsed?
    ensures NulFree(ParseMember(s).value.name) && Representable(ParseMember(s).value.value)
    decreases |s|, 2
  {
    hide ParseValue, ParseString, NulFree, Representable;
    MemberParts(s);
    SkipSuffix(s);
    SuffixNulFree(Skip(s), s);
    StringRepresentable(Skip(s));
    ParsedIsRepresentable(Skip(Skip(ParseString(Skip(s)).rest)[1..]));
  }

  lemma {:induction false} MembersRepresentable(s: string)
    requires NulFree(s) && ParseMembers(s).Parsed?
    ensures forall m :: m in ParseMembers(s).value ==> NulFree(m.name) && Representable(m.value)
    decreases |s|, 3
  {
    hide ParseMember, SuffixOf, NulFree, Representable;
    var r := ParseMember(s).rest;
    var t := Skip(r);
    MemberRepresentable(s);
    MemberSuffix(s);
    SkipSuffix(r);
    SuffixTransitive(t, r, s);
    if StartsWith(t, ',') {
      TailSuffix(t, s, 1);
      SuffixNulFree(t[1..], s);
      MembersRepresentable(t[1..]);
    }
  }

  /** Printing what was read and reading it again changes nothing, whatever the text looked like. */
  lemma PrintNormalises(s: string, fmt: bool)
    requires NulFree(s) && ParseValue(Skip(s)).Parsed?
    ensures ParseValue(Skip(Print(ParseValue(Skip(s)).value, 0, fmt))) == Parsed(ParseValue(Skip(s)).value, [])
  {
    SkipSuffix(s);
    SuffixNulFree(Skip(s), s);
    ParsedIsRepresentable(Skip(s));
    RoundTrip(ParseValue(Skip(s)).value, fmt);
  }
}
