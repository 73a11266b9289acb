/** Reading back the text of a representable value gives the value, formatted or not. */
module JsonRoundTrip {
  import opened Decimal
  import opened CStrings
  import opened JsonText

  // ----- Strings -----

  lemma EscapeCharCloses(c: char, t: string)
    ensures CloseIndex(EscapeChar(c) + t) == |EscapeChar(c)| + CloseIndex(t)
  {
    var e := EscapeChar(c);
    var s := e + t;
    if |e| == 1 {
      assert s[1..] == t;
    } else {
      assert s[2..] == e[2..] + t;
      SkipPlain(e[2..], t);
    }
  }

  lemma {:induction false} SkipPlain(p: string, t: string)
    requires forall i :: 0 <= i < |p| ==> p[i] != '"' && p[i] != '\\'
    ensures CloseIndex(p + t) == |p| + CloseIndex(t)
    decreases |p|
  {
    if p == [] {
      assert p + t == t;
    } else {
      SkipPlain(p[1..], t);
      assert (p + t)[1..] == p[1..] + t;
    }
  }

  lemma ControlEscape(c: char, t: string)
    requires '\0' < c < ' ' && |EscapeChar(c)| == 6
    ensures UnicodeEscape(EscapeChar(c) + t) == Escaped(c as int, 6)
  {
    var s := EscapeChar(c) + t;
    var hex := s[2..];
    assert hex[0] == '0' && hex[1] == '0';
    assert HexValue(hex[2]) == c as int / 16 && HexValue(hex[3]) == c as int % 16;
    assert Hex4(hex) == c as int;
  }

  lemma ShortEscape(c: char)
    requires |EscapeChar(c)| == 2
    ensures var e := EscapeChar(c);
      e[0] == '\\' && e[1] != 'u' && SimpleEscape(e[1]) == c
  {}

  lemma LongEscape(c: char)
    requires |EscapeChar(c)| > 2
    ensures |EscapeChar(c)| == 6 && c < ' ' && "\\u" <= EscapeChar(c)
  {}

  lemma NoEscape(c: char)
    requires |EscapeChar(c)| == 1
    ensures EscapeChar(c) == [c] && c != '\\'
  {}

  lemma EscapeCharReadBack(c: char, t: string)
    requires c != '\0' && Unescape(t).Some?
    ensures Unescape(EscapeChar(c) + t) == Some([c] + Unescape(t).value)
  {
    hide EscapeChar, UnicodeEscape, SimpleEscape;
    var e := EscapeChar(c);
    var s := e + t;
    assert s[|e|..] == t;
    if |e| == 1 {
      NoEscape(c);
    } else if |e| == 2 {
      ShortEscape(c);
    } else {
      LongEscape(c);
      ControlEscape(c, t);
      assert Utf8(c as int) == [c];
    }
  }

  lemma {:induction false} EscapeCloses(v: string, t: string)
    ensures CloseIndex(Escape(v) + t) == |Escape(v)| + CloseIndex(t)
  {
    hide CloseIndex, EscapeChar;
    if v == [] {
      assert Escape(v) + t == t;
    } else {
      EscapeCloses(v[1..], t);
      EscapeCharCloses(v[0], Escape(v[1..]) + t);
      assert Escape(v) + t == EscapeChar(v[0]) + (Escape(v[1..]) + t);
    }
  }

  lemma {:induction false} EscapeReadBack(v: string)
    requires NulFree(v)
    ensures Unescape(Escape(v)) == Some(v)
  {
    if v != [] {
      hide Unescape, EscapeChar;
      EscapeReadBack(v[1..]);
      EscapeCharReadBack(v[0], Escape(v[1..]));
      assert [v[0]] + v[1..] == v;
    }
  }

  lemma CloseAtQuote(s: string)
    requires StartsWith(s, '"')
    ensures CloseIndex(s) == 0
  {}

  lemma StringReadBack(v: string, rest: string)
    requires NulFree(v)
    ensures ParseString(PrintString(v) + rest) == Parsed(v, rest)
  {
    hide CloseIndex, Escape, Unescape;
    var close := "\"" + rest;
    var body := Escape(v) + close;
    EscapeReadBack(v);
    EscapeCloses(v, close);
    CloseAtQuote(close);
    assert (PrintString(v) + rest)[1..] == body;
    assert body[..|Escape(v)|] == Escape(v);
    assert body[|Escape(v)| + 1..] == rest;
  }

  // ----- Numbers -----

  /** rest does not go on with a numeral. */
  predicate EndsNumber(rest: string) {
    rest == [] || !(IsDigit(rest[0]) || rest[0] == '.' || rest[0] == 'e' || rest[0] == 'E')
  }

  lemma IntegerRunOfNumeral(m: nat, rest: string)
    requires EndsNumber(rest)
    ensures IntegerRun(Numeral(m) + rest) == |Numeral(m)|
  {
    hide Numeral;
    var digits := Numeral(m);
    var t := digits + rest;
    assert t[0] == digits[0];
    if m == 0 {
      assert t[1..] == rest;
      RunLengthOfPrefix([], rest);
      assert [] + rest == rest;
    } else {
      assert t[0..] == t;
      RunLengthOfPrefix(digits, rest);
    }
  }

  lemma NumberReadBack(n: int, rest: string)
    requires INT_MIN <= n <= INT_MAX && EndsNumber(rest)
    ensures ParseNumber(PrintNumber(n) + rest) == Parsed(Number(n), rest)
  {
    hide Numeral, IntegerRun, Value;
    var m := if n < 0 then -n else n;
    var digits := Numeral(m);
    var s := PrintNumber(n) + rest;
    var t := digits + rest;
    assert if n < 0 then s[0] == '-' && s[1..] == t else s == t && s[0] == digits[0] && s[0] != '-';
    IntegerRunOfNumeral(m, rest);
    assert t[..|digits|] == digits && t[|digits|..] == rest;
    ValueOfNumeral(m);
  }

  // ----- Values -----

  lemma SkipNothing(s: string)
    requires s == [] || s[0] > ' '
    ensures Skip(s) == s
  {}

  /** Print starts with a character that is neither white space nor a closing bracket. */
  lemma PrintStart(j: Json, depth: nat, fmt: bool)
    ensures Print(j, depth, fmt) != []
    ensures var c := Print(j, depth, fmt)[0]; c > ' ' && c != ']' && c != '}' && c != ','
  {
    match j
    case Number(n) => var d := if n < 0 then Numeral(-n) else Numeral(n);
    case _ =>
  }

  lemma SkipTabs(depth: nat, t: string)
    requires t != [] && t[0] > ' '
    ensures Skip("\n" + Tabs(depth) + t) == t
  {
    var s := "\n" + Tabs(depth) + t;
    SkipRun(s, depth + 1);
    assert s[depth + 1..] == t;
  }

  lemma {:induction false} SkipRun(s: string, k: nat)
    requires k <= |s| && forall i :: 0 <= i < k ==> '\0' < s[i] <= ' '
    ensures Skip(s) == Skip(s[k..])
    decreases k
  {
    if k != 0 {
      SkipRun(s[1..], k - 1);
      assert s[1..][k - 1..] == s[k..];
    } else {
      assert s[0..] == s;
    }
  }

  lemma LiteralReadBack(j: Json, depth: nat, fmt: bool, rest: string)
    requires j.Null? || j.False? || j.True?
    ensures ParseValue(Print(j, depth, fmt) + rest) == Parsed(j, rest)
  {
    var text := Print(j, depth, fmt);
    var s := text + rest;
    assert s[..|text|] == text && s[|text|..] == rest;
    assert s[0] == text[0];
  }

  lemma {:induction false} ValueReadBack(j: Json, depth: nat, fmt: bool, rest: string)
    requires Representable(j) && EndsNumber(rest)
    ensures ParseValue(Print(j, depth, fmt) + rest) == Parsed(j, rest)
    decreases j, 1
  {
    hide PrintElems, PrintMembers, ParseString, ParseNumber, ParseArray, ParseObject;
    var s := Print(j, depth, fmt) + rest;
    match j
    case Number(n) =>
      assert s[0] == '-' || IsDigit(s[0]);
      NumberReadBack(n, rest);
    case Str(v) =>
      assert s[0] == '"';
      StringReadBack(v, rest);
    case Arr(elems) => ArrayReadBack(elems, depth, fmt, rest);
    case Obj(members) => ObjectReadBack(members, depth, fmt, rest);
    case _ => LiteralReadBack(j, depth, fmt, rest);
  }

  lemma {:induction false} ArrayReadBack(elems: seq<Json>, depth: nat, fmt: bool, rest: string)
    requires forall e :: e in elems ==> Representable(e)
    ensures ParseArray(Print(Arr(elems), depth, fmt) + rest) == Parsed(Arr(elems), rest)
    decreases elems, 1
  {
    hide ParseElems;
    var s := Print(Arr(elems), depth, fmt) + rest;
    var close := "]" + rest;
    assert close[1..] == rest;
    if elems == [] {
      assert s[1..] == close;
    } else {
      var t := PrintElems(elems, depth + 1, fmt) + close;
      assert s[1..] == t;
      PrintStart(elems[0], depth + 1, fmt);
      SkipNothing(t);
      ElemsReadBack(elems, depth + 1, fmt, rest);
    }
  }

  lemma {:induction false} ObjectReadBack(members: seq<Member>, depth: nat, fmt: bool, rest: string)
    requires forall m :: m in members ==> NulFree(m.name) && Representable(m.value)
    ensures ParseObject(Print(Obj(members), depth, fmt) + rest) == Parsed(Obj(members), rest)
    decreases members, 2
  {
    hide ParseMembers;
    var s := Print(Obj(members), depth, fmt) + rest;
    var close := "}" + rest;
    assert close[1..] == rest;
    if members == [] {
      assert s[1..] == if fmt then "\n" + Tabs(depth) + close else close;
      SkipTabs(depth, close);
    } else {
      var t := PrintMembers(members, depth + 1, fmt) + close;
      assert s[1..] == t;
      assert t[0] == PrintMember(members[0], depth + 1, fmt)[0] == '"';
      SkipNothing(t);
      MembersReadBack(members, depth + 1, fmt, rest);
    }
  }

  /** What ParseElems does after its first element. */
  lemma ElemsStep(s: string, v: Json, after: string, elems: seq<Json>, rest: string)
    requires ParseValue(Skip(s)) == Parsed(v, after)
    requires if elems == [] then after == "]" + rest
             else StartsWith(after, ',') && ParseElems(after[1..]) == Parsed(elems, rest)
    ensures ParseElems(s) == Parsed([v] + elems, rest)
  {
    hide ParseValue;
    SkipNothing(after);
    assert StartsWith(after, ']') ==> after[1..] == rest;
    assert [v] + [] == [v];
  }

  lemma ElemsText(elems: seq<Json>, depth: nat, fmt: bool, tail: string) returns (after: string)
    requires elems != []
    ensures PrintElems(elems, depth, fmt) + tail == Print(elems[0], depth, fmt) + after
    ensures after == if |elems| == 1 then tail else Comma(fmt) + (PrintElems(elems[1..], depth, fmt) + tail)
  {
    hide Print;
    if |elems| == 1 {
      after := tail;
      assert Print(elems[0], depth, fmt) + "" == Print(elems[0], depth, fmt);
    } else {
      after := Comma(fmt) + (PrintElems(elems[1..], depth, fmt) + tail);
    }
  }

  lemma {:induction false} ElemsReadBack(elems: seq<Json>, depth: nat, fmt: bool, rest: string)
    requires elems != [] && forall e :: e in elems ==> Representable(e)
    ensures ParseElems(PrintElems(elems, depth, fmt) + ("]" + rest)) == Parsed(elems, rest)
    decreases elems, 0
  {
    hide ParseElems, ParseValue, PrintElems, Print;
    var after := ElemsText(elems, depth, fmt, "]" + rest);
    if |elems| > 1 {
      ElemsReadBack(elems[1..], depth, fmt, rest);
      var more := PrintElems(elems[1..], depth, fmt) + ("]" + rest);
      SkipBlank(more, fmt);
      assert after[1..] == if fmt then " " + more else more;
    }
    ValueReadBack(elems[0], depth, fmt, after);
    PrintStart(elems[0], depth, fmt);
    var s := Print(elems[0], depth, fmt) + after;
    SkipNothing(s);
    ElemsStep(s, elems[0], after, elems[1..], rest);
    assert [elems[0]] + elems[1..] == elems;
  }

  /** A list of elements reads the same behind the blank of the formatted text. */
  lemma SkipBlank(more: string, fmt: bool)
    ensures ParseElems(if fmt then " " + more else more) == ParseElems(more)
  {
    assert (" " + more)[1..] == more;
  }

  lemma MemberStep(s: string, name: string, text: string, v: Json, rest: string)
    requires StartsWith(s, '"') && ParseString(s) == Parsed(name, ":" + text)
    requires text != [] && text[0] > ' ' && ParseValue(text) == Parsed(v, rest)
    ensures ParseMember(s) == Parsed(Member(name, v), rest)
  {
    hide ParseString, ParseValue;
    SkipNothing(s);
    SkipNothing(":" + text);
    SkipNothing(text);
    assert (":" + text)[1..] == text;
  }

  lemma {:induction false} MemberReadBack(m: Member, depth: nat, fmt: bool, rest: string)
    requires NulFree(m.name) && Representable(m.value) && EndsNumber(rest)
    ensures ParseMember(PrintMember(m, depth, fmt) + rest) == Parsed(m, rest)
    decreases m, 0
  {
    hide ParseMember, ParseString, ParseValue, Print, Escape;
    var s := PrintMember(m, depth, fmt) + rest;
    var text := Print(m.value, depth, fmt) + rest;
    assert s == PrintString(m.name) + (":" + text);
    assert s[0] == '"';
    StringReadBack(m.name, ":" + text);
    PrintStart(m.value, depth, fmt);
    ValueReadBack(m.value, depth, fmt, rest);
    MemberStep(s, m.name, text, m.value, rest);
  }

  lemma MembersText(members: seq<Member>, depth: nat, fmt: bool, tail: string) returns (after: string)
    requires members != []
    ensures PrintMembers(members, depth, fmt) + tail == PrintMember(members[0], depth, fmt) + after
    ensures after == if |members| == 1 then tail else "," + (PrintMembers(members[1..], depth, fmt) + tail)
  {
    hide PrintMember;
    if |members| == 1 {
      after := tail;
      assert PrintMember(members[0], depth, fmt) + "" == PrintMember(members[0], depth, fmt);
    } else {
      after := "," + (PrintMembers(members[1..], depth, fmt) + tail);
    }
  }

  lemma MembersStep(s: string, m: Member, after: string, members: seq<Member>, rest: string)
    requires ParseMember(s) == Parsed(m, after)
    requires if members == [] then after == "}" + rest
             else StartsWith(after, ',') && ParseMembers(after[1..]) == Parsed(members, rest)
    ensures ParseMembers(s) == Parsed([m] + members, rest)
  {
    hide ParseMember;
    SkipNothing(after);
    assert StartsWith(after, '}') ==> after[1..] == rest;
    assert [m] + [] == [m];
  }

  lemma {:induction false} MembersReadBack(members: seq<Member>, depth: nat, fmt: bool, rest: string)
    requires members != [] && forall m :: m in members ==> NulFree(m.name) && Representable(m.value)
    ensures ParseMembers(PrintMembers(members, depth, fmt) + ("}" + rest)) == Parsed(members, rest)
    decreases members, 1
  {
    hide ParseMember, ParseMembers, PrintMember, PrintMembers;
    var after := MembersText(members, depth, fmt, "}" + rest);
    if |members| > 1 {
      MembersReadBack(members[1..], depth, fmt, rest);
      assert after[1..] == PrintMembers(members[1..], depth, fmt) + ("}" + rest);
    }
    MemberReadBack(members[0], depth, fmt, after);
    MembersStep(PrintMember(members[0], depth, fmt) + after, members[0], after, members[1..], rest);
    assert [members[0]] + members[1..] == members;
  }

  /** The whole text is consumed, whatever the format. */
  lemma RoundTrip(j: Json, fmt: bool)
    requires Representable(j)
    ensures ParseValue(Skip(Print(j, 0, fmt))) == Parsed(j, [])
  {
    PrintStart(j, 0, fmt);
    assert Print(j, 0, fmt) + [] == Print(j, 0, fmt);
    ValueReadBack(j, 0, fmt, []);
  }
}
