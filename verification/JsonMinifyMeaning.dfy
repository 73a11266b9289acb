/** Minifying any text that reads as a value, printed by this library or not, keeps the value. */
module JsonMinifyMeaning {
  import opened Decimal
  import opened CStrings
  import opened JsonText
  import opened JsonRoundTrip
  import opened JsonMinify
  import opened JsonParsed

  /** Behind white space, s is at its end or goes on with a structural character. */
  predicate Stops(s: string) {
    var t := Skip(s);
    t == [] || t[0] in ",:]}"
  }

  lemma {:induction false} MinifyBehindSpace(s: string)
    requires NulFree(s) && MinifyText(Skip(s)).Some?
    requires Skip(s) != [] ==> Skip(s)[0] != '/'
    ensures MinifyText(s).Some?
    ensures Skip(MinifyText(s).value) == Skip(MinifyText(Skip(s)).value)
    ensures Stops(s) ==> EndsNumber(MinifyText(s).value)
    decreases |s|
  {
    if s != [] && s[0] <= ' ' {
      MinifyBehindSpace(s[1..]);
      MinifySpace(s);
      if !IsBlank(s[0]) {
        var m := MinifyText(s[1..]).value;
        assert ([s[0]] + m)[1..] == m;
      }
    } else if s != [] && Stops(s) {
      MinifyToken(s);
    }
  }

  lemma MinifySpace(s: string)
    requires s != [] && '\0' < s[0] <= ' '
    ensures MinifyText(s) == if IsBlank(s[0]) then MinifyText(s[1..]) else Prepend([s[0]], MinifyText(s[1..]))
  {}

  /** The first character of a token survives. */
  lemma MinifyToken(s: string)
    requires s != [] && s[0] > ' ' && s[0] != '/'
    ensures MinifyText(s).Some? ==> MinifyText(s).value != [] && MinifyText(s).value[0] == s[0]
    ensures s[0] != '"' ==> MinifyText(s) == Prepend([s[0]], MinifyText(s[1..]))
  {}

  /** A structural character behind white space. */
  lemma MinifyToStructure(s: string, c: char)
    requires NulFree(s) && StartsWith(Skip(s), c) && c in ",:]}" && MinifyText(Skip(s)[1..]).Some?
    ensures MinifyText(s).Some? && EndsNumber(MinifyText(s).value)
    ensures Skip(MinifyText(s).value) == [c] + MinifyText(Skip(s)[1..]).value
  {
    hide MinifyText;
    MinifyToken(Skip(s));
    MinifyBehindSpace(s);
    SkipNothing([c] + MinifyText(Skip(s)[1..]).value);
  }

  // ----- Literals -----

  lemma StringKept(s: string, rest: string, v: string)
    requires ParseString(s) == Parsed(v, rest) && CloseIndex(s[1..]) < |s| - 1
    requires MinifyText(rest).Some?
    ensures MinifyText(s).Some? && ParseString(MinifyText(s).value) == Parsed(v, MinifyText(rest).value)
    ensures MinifyText(s).value != [] && MinifyText(s).value[0] == '"'
  {
    hide MinifyText, Unescape, CloseIndex;
    var body := s[1..];
    var e := CloseIndex(body);
    assert rest == s[e + 2..] == body[e + 1..];
    MinifyLiteral(s, e + 2);
    var m := s[..e + 2] + MinifyText(rest).value;
    assert forall i :: 0 <= i <= e ==> m[1..][i] == m[i + 1] == s[i + 1] == body[i];
    CloseIndexLocal(body, m[1..], e);
    assert m[1..][..e] == body[..e];
    assert m[1..][e + 1..] == MinifyText(rest).value;
  }

  lemma IntegerRunKept(t: string, rest: string)
    requires EndsNumber(rest) && !StartsWith(t[IntegerRun(t)..], '0')
    ensures IntegerRun(t[..IntegerRun(t)] + rest) == IntegerRun(t)
  {
    var k := IntegerRun(t);
    var u := t[..k] + rest;
    var z := if StartsWith(t, '0') then 1 else 0;
    var z' := if StartsWith(u, '0') then 1 else 0;
    assert k == 0 ==> u == rest;
    assert k > 0 ==> u[0] == t[0];
    assert t[z..][k - z..] == t[k..];
    assert z' == z;
    RunLengthOfPrefix(t[z..k], rest);
    assert u[z..] == t[z..k] + rest;
    assert k > z ==> u[z] == t[z] == t[z..][0];
  }

  lemma NumberText(s: string, rest: string, v: Json) returns (p: string)
    requires s != [] && (s[0] == '-' || IsDigit(s[0])) && ParseNumber(s) == Parsed(v, rest)
    ensures p != [] && s == p + rest
    ensures forall i :: 0 <= i < |p| ==> p[i] == '-' || IsDigit(p[i])
    ensures |p| == IntegerRun(if s[0] == '-' then s[1..] else s) + if s[0] == '-' then 1 else 0
  {
    hide Value, IntegerRun;
    var z := if s[0] == '-' then 1 else 0;
    var t := s[z..];
    p := s[..z + IntegerRun(t)];
    assert t[IntegerRun(t)..] == rest;
    assert forall i :: z <= i < |p| ==> p[i] == t[i - z];
    if z == 0 {
      IntegerRunPositive(s);
    }
  }

  lemma NumberBefore(s: string, p: string, rest: string, v: Json, m: string)
    requires s != [] && (s[0] == '-' || IsDigit(s[0])) && ParseNumber(s) == Parsed(v, rest)
    requires p != [] && s == p + rest && EndsNumber(m) && !StartsWith(rest, '0')
    requires |p| == IntegerRun(if s[0] == '-' then s[1..] else s) + if s[0] == '-' then 1 else 0
    ensures ParseNumber(p + m) == Parsed(v, m)
  {
    hide Value, IntegerRun;
    var z := if s[0] == '-' then 1 else 0;
    var t, u := s[z..], (p + m)[z..];
    var k := IntegerRun(t);
    assert t[k..] == rest && t[..k] == p[z..];
    IntegerRunKept(t, m);
    assert u == t[..k] + m;
    assert u[..k] == t[..k] && u[k..] == m;
    assert (p + m)[0] == s[0];
  }

  lemma NumberKept(s: string, rest: string, v: Json)
    requires s != [] && (s[0] == '-' || IsDigit(s[0])) && ParseNumber(s) == Parsed(v, rest)
    requires Stops(rest) && MinifyText(rest).Some? && EndsNumber(MinifyText(rest).value)
    ensures MinifyText(s).Some? && MinifyText(s).value != [] && MinifyText(s).value[0] == s[0]
    ensures ParseNumber(MinifyText(s).value) == Parsed(v, MinifyText(rest).value)
  {
    hide MinifyText, Strips, ParseNumber, Stops;
    var p := NumberText(s, rest, v);
    StripsPlain(p);
    StripsHere(p, p, rest);
    NoMoreZeros(rest);
    NumberBefore(s, p, rest, v, MinifyText(rest).value);
    assert s[0] == p[0];
  }

  lemma StripsHere(p: string, q: string, t: string)
    requires Strips(p, q)
    ensures MinifyText(p + t) == Prepend(q, MinifyText(t))
  {
    hide MinifyText;
  }

  lemma NoMoreZeros(rest: string)
    requires Stops(rest)
    ensures !StartsWith(rest, '0')
  {}

  lemma IntegerRunPositive(t: string)
    requires t != [] && IsDigit(t[0])
    ensures IntegerRun(t) > 0
  {
    assert t[0..] == t;
  }

  // ----- Values -----

  predicate ClosedLiteral(s: string) {
    StartsWith(s, '"') ==> CloseIndex(s[1..]) < |s| - 1
  }

  lemma UnclosedEndsText(s: string)
    requires ParseValue(s).Parsed? && ParseValue(s).rest != []
    ensures ClosedLiteral(s)
  {
    hide CloseIndex, ParseArray, ParseObject, ParseNumber, Unescape;
  }

  lemma UnclosedNameEndsText(s: string)
    requires ParseString(s).Parsed? && ParseString(s).rest != []
    ensures ClosedLiteral(s)
  {
    hide CloseIndex, Unescape;
  }

  /** A value starts with a character that is no white space, comment or structure. */
  lemma ValueStart(s: string)
    requires ParseValue(s).Parsed?
    ensures s != [] && s[0] > ' ' && s[0] != '/' && s[0] !in ",:]}"
  {
    hide ParseString, ParseArray, ParseObject, ParseNumber;
  }

  lemma LiteralKept(s: string, word: string, v: Json)
    requires (word == "null" && v == Null) || (word == "false" && v == False) || (word == "true" && v == True)
    requires word <= s && MinifyText(s[|word|..]).Some?
    ensures MinifyText(s) == Some(word + MinifyText(s[|word|..]).value)
    ensures ParseValue(word + MinifyText(s[|word|..]).value) == Parsed(v, MinifyText(s[|word|..]).value)
  {
    hide MinifyText, Strips;
    StripsPlain(word);
    StripsHere(word, word, s[|word|..]);
    assert word + s[|word|..] == s;
    LiteralReadBack(v, 0, false, MinifyText(s[|word|..]).value);
  }

  lemma {:induction false} ValueKept(s: string)
    requires NulFree(s) && ParseValue(s).Parsed? && ClosedLiteral(s)
    requires Stops(ParseValue(s).rest) && MinifyText(ParseValue(s).rest).Some? &&
      EndsNumber(MinifyText(ParseValue(s).rest).value)
    ensures MinifyText(s).Some? &&
      ParseValue(MinifyText(s).value) == Parsed(ParseValue(s).value, MinifyText(ParseValue(s).rest).value)
    decreases |s|, 1
  {
    hide MinifyText, ParseString, ParseNumber, ParseArray, ParseObject, Stops, CloseIndex, EndsNumber;
    var rest := ParseValue(s).rest;
    if "null" <= s {
      LiteralKept(s, "null", Null);
    } else if "false" <= s {
      LiteralKept(s, "false", False);
    } else if "true" <= s {
      LiteralKept(s, "true", True);
    } else if s[0] == '"' {
      StringKept(s, rest, ParseString(s).value);
    } else if s[0] == '-' || IsDigit(s[0]) {
      NumberKept(s, rest, ParseNumber(s).value);
    } else if s[0] == '[' {
      MinifyToken(s);
      ArrayKept(s);
    } else {
      MinifyToken(s);
      ObjectKept(s);
    }
  }

  lemma {:induction false} ArrayKept(s: string)
    requires NulFree(s) && StartsWith(s, '[') && ParseArray(s).Parsed? && MinifyText(ParseArray(s).rest).Some?
    ensures MinifyText(s).Some? && StartsWith(MinifyText(s).value, '[')
    ensures ParseArray(MinifyText(s).value) == Parsed(ParseArray(s).value, MinifyText(ParseArray(s).rest).value)
    decreases |s|, 0
  {
    hide MinifyText, ParseElems, NulFree, Skip, EndsNumber;
    var inner := s[1..];
    var t := Skip(inner);
    SkipSuffix(inner);
    SkipNulFree(s);
    InnerNulFree(s);
    MinifyToken(s);
    if StartsWith(t, ']') {
      MinifyToStructure(inner, ']');
    } else {
      ElemsStart(t);
      ElemsKept(t);
      MinifyInside(inner);
      SkipNothing(MinifyText(t).value);
    }
    assert ("[" + MinifyText(inner).value)[1..] == MinifyText(inner).value;
  }

  lemma InnerNulFree(s: string)
    requires NulFree(s) && s != []
    ensures NulFree(s[1..])
  {}

  /** White space in front of a token: minified, it is still only white space in front of the token. */
  lemma MinifyInside(s: string)
    requires NulFree(s) && MinifyText(Skip(s)).Some?
    requires Skip(s) != [] && Skip(s)[0] != '/' && Skip(s)[0] > ' '
    ensures MinifyText(s).Some? && Skip(MinifyText(s).value) == MinifyText(Skip(s)).value
    ensures MinifyText(Skip(s)).value != [] && MinifyText(Skip(s)).value[0] == Skip(s)[0]
  {
    hide MinifyText;
    MinifyBehindSpace(s);
    MinifyToken(Skip(s));
    SkipNothing(MinifyText(Skip(s)).value);
  }

  lemma ElemsStart(s: string)
    requires ParseElems(s).Parsed? && Skip(s) == s
    ensures s != [] && s[0] > ' ' && s[0] != '/' && s[0] !in ",:]}"
  {
    hide ParseValue;
    ValueStart(s);
  }

  lemma {:induction false} ElemsKept(s: string)
    requires NulFree(s) && ParseElems(s).Parsed? && MinifyText(ParseElems(s).rest).Some?
    ensures MinifyText(s).Some?
    ensures ParseElems(MinifyText(s).value) == Parsed(ParseElems(s).value, MinifyText(ParseElems(s).rest).value)
    decreases |s|, 2
  {
    hide MinifyText, ParseValue, NulFree, EndsNumber;
    var u := Skip(s);
    var r := ParseValue(u).rest;
    var t := Skip(r);
    ElemsParts(s);
    if StartsWith(t, ',') {
      ElemsKept(t[1..]);
    }
    MinifyToStructure(r, t[0]);
    ValueStart(u);
    UnclosedEndsText(u);
    ValueKept(u);
    MinifyInside(s);
    assert ([t[0]] + MinifyText(t[1..]).value)[1..] == MinifyText(t[1..]).value;
  }

  lemma {:induction false} ObjectKept(s: string)
    requires NulFree(s) && StartsWith(s, '{') && ParseObject(s).Parsed? && MinifyText(ParseObject(s).rest).Some?
    ensures MinifyText(s).Some? && StartsWith(MinifyText(s).value, '{')
    ensures ParseObject(MinifyText(s).value) == Parsed(ParseObject(s).value, MinifyText(ParseObject(s).rest).value)
    decreases |s|, 0
  {
    hide MinifyText, ParseMembers, NulFree, Skip, EndsNumber;
    var inner := s[1..];
    var t := Skip(inner);
    SkipSuffix(inner);
    SkipNulFree(s);
    InnerNulFree(s);
    MinifyToken(s);
    if StartsWith(t, '}') {
      MinifyToStructure(inner, '}');
    } else {
      MembersStart(t);
      MembersKept(t);
      MinifyInside(inner);
      SkipNothing(MinifyText(t).value);
    }
    assert ("{" + MinifyText(inner).value)[1..] == MinifyText(inner).value;
  }

  lemma MembersStart(s: string)
    requires ParseMembers(s).Parsed? && Skip(s) == s
    ensures StartsWith(s, '"')
  {
    hide ParseValue, CloseIndex, Unescape;
    assert ParseMember(s).Parsed?;
  }

  lemma {:induction false} MemberKept(s: string)
    requires NulFree(s) && ParseMember(s).Parsed?
    requires Stops(ParseMember(s).rest) && ParseMember(s).rest != []
    requires MinifyText(ParseMember(s).rest).Some? && EndsNumber(MinifyText(ParseMember(s).rest).value)
    ensures MinifyText(s).Some?
    ensures ParseMember(MinifyText(s).value) == Parsed(ParseMember(s).value, MinifyText(ParseMember(s).rest).value)
    decreases |s|, 2
  {
    hide MinifyText, ParseValue, ParseString, NulFree, EndsNumber, Stops, Skip;
    var u := Skip(s);
    var r := ParseString(u).rest;
    var inner := Skip(r)[1..];
    var w := Skip(inner);
    MemberParts(s);
    UnclosedEndsText(w);
    ValueKept(w);
    NameKept(s, r);
    ColonKept(r);
  }

  /** The colon and the white space around it. */
  lemma ColonKept(r: string)
    requires NulFree(r) && StartsWith(Skip(r), ':') && NulFree(Skip(r)[1..])
    requires ParseValue(Skip(Skip(r)[1..])).Parsed? && MinifyText(Skip(Skip(r)[1..])).Some?
    ensures MinifyText(r).Some? && StartsWith(Skip(MinifyText(r).value), ':')
    ensures Skip(Skip(MinifyText(r).value)[1..]) == MinifyText(Skip(Skip(r)[1..])).value
  {
    hide MinifyText, ParseValue, NulFree, Skip;
    var inner := Skip(r)[1..];
    ValueStart(Skip(inner));
    MinifyInside(inner);
    MinifyToStructure(r, ':');
    assert ([':'] + MinifyText(inner).value)[1..] == MinifyText(inner).value;
  }

  lemma NameKept(s: string, r: string)
    requires NulFree(s) && ParseString(Skip(s)).Parsed? && r == ParseString(Skip(s)).rest != []
    ensures MinifyText(r).Some? ==>
      && MinifyText(s).Some?
      && ParseString(Skip(MinifyText(s).value)) == Parsed(ParseString(Skip(s)).value, MinifyText(r).value)
  {
    if MinifyText(r).Some? {
      hide MinifyText, ParseString, NulFree, Skip;
      var u := Skip(s);
      UnclosedNameEndsText(u);
      NameStart(u);
      StringKept(u, r, ParseString(u).value);
      MinifyInside(s);
    }
  }

  lemma NameStart(s: string)
    requires ParseString(s).Parsed?
    ensures StartsWith(s, '"')
  {
    hide CloseIndex, Unescape;
  }

  lemma {:induction false} MembersKept(s: string)
    requires NulFree(s) && ParseMembers(s).Parsed? && MinifyText(ParseMembers(s).rest).Some?
    ensures MinifyText(s).Some?
    ensures ParseMembers(MinifyText(s).value) == Parsed(ParseMembers(s).value, MinifyText(ParseMembers(s).rest).value)
    decreases |s|, 3
  {
    hide MinifyText, ParseMember, NulFree, SuffixOf, EndsNumber;
    var r := ParseMember(s).rest;
    var t := Skip(r);
    MemberSuffix(s);
    SkipSuffix(r);
    SuffixTransitive(t, r, s);
    SuffixNulFree(r, s);
    if StartsWith(t, ',') {
      TailSuffix(t, s, 1);
      SuffixNulFree(t[1..], s);
      MembersKept(t[1..]);
    }
    var c := t[0];
    MinifyToStructure(r, c);
    MemberKept(s);
    assert ([c] + MinifyText(t[1..]).value)[1..] == MinifyText(t[1..]).value;
  }

  /** A text that reads as one value, with nothing but white space behind it, reads as the same value
      when minified, unless it is a string literal that the end of the text cuts off. */
  lemma MinifyKeepsMeaning(s: string)
    requires NulFree(s) && ParseValue(Skip(s)).Parsed? && Skip(ParseValue(Skip(s)).rest) == []
    requires ClosedLiteral(Skip(s))
    ensures MinifyText(s).Some?
    ensures ParseValue(Skip(MinifyText(s).value)).Parsed?
    ensures ParseValue(Skip(MinifyText(s).value)).value == ParseValue(Skip(s)).value
    ensures Skip(ParseValue(Skip(MinifyText(s).value)).rest) == []
  {
    hide MinifyText, ParseValue, SuffixOf, EndsNumber;
    var u := Skip(s);
    var r := ParseValue(u).rest;
    SkipSuffix(s);
    SuffixNulFree(u, s);
    ValueSuffix(u);
    SuffixNulFree(r, u);
    MinifyEmpty();
    MinifyBehindSpace(r);
    ValueStart(u);
    ValueKept(u);
    MinifyInside(s);
  }

  lemma MinifyEmpty()
    ensures MinifyText([]) == Some([])
  {}

  lemma {:induction false} NothingBehindSpace(s: string)
    requires NulFree(s) && StartsWith(Skip(s), '"') && MinifyText(Skip(s)).None?
    ensures MinifyText(s).None?
    decreases |s|
  {
    if s[0] <= ' ' {
      NothingBehindSpace(s[1..]);
      MinifySpace(s);
    }
  }

  /** The exception is exact: of the texts that read as one value, minifying is defined for all but a cut-off literal.
      */
  lemma MinifyDefined(s: string)
    requires NulFree(s) && ParseValue(Skip(s)).Parsed? && Skip(ParseValue(Skip(s)).rest) == []
    ensures MinifyText(s).Some? <==> ClosedLiteral(Skip(s))
  {
    hide ParseValue;
    if ClosedLiteral(Skip(s)) {
      MinifyKeepsMeaning(s);
    } else {
      NothingBehindSpace(s);
    }
  }

  /** Such a literal: a quote and one letter. It reads as that letter, and minifying it runs past its end. */
  lemma CutOffLiteral()
    ensures ParseValue(Skip("\"a")) == Parsed(Str("a"), []) && MinifyText("\"a").None?
  {
    var s := "\"a";
    assert s[1..] == "a" && "a"[1..] == "";
    assert CloseIndex("a") == 1 && Unescape("") == Some("") && ["a"[0]] + "" == "a" == "a"[..1];
  }
}
