/**
  What minifying does to any text: the text is cut into blanks, comments, string literals and other characters, and the
  literals and the other characters are kept.
*/
module JsonMinifyLexemes {
  import opened CStrings
  import opened JsonText
  import opened JsonMinify
  import opened JsonMinifyMeaning

  /** The body of a block comment starts with its first star and ends with its end. */
  datatype Lexeme = Space(c: char) | Line(body: string) | Block(body: string) | Quoted(body: string) | Other(c: char)

  function Spelled(l: Lexeme): string {
    match l
    case Space(c) => [c]
    case Line(body) => "//" + body
    case Block(body) => "/" + body
    case Quoted(body) => "\"" + body + "\""
    case Other(c) => [c]
  }

  function KeptOf(l: Lexeme): string {
    if l.Quoted? || l.Other? then Spelled(l) else []
  }

  predicate EndAt(s: string, i: nat)
    requires i + 1 < |s|
  {
    s[i] == '*' && s[i + 1] == '/'
  }

  /** A quote is in it only behind a backslash. */
  predicate QuotedBody(b: string)
    decreases |b|
  {
    || b == []
    || (b[0] == '\\' && |b| >= 2 && QuotedBody(b[2..]))
    || (b[0] != '\\' && b[0] != '"' && QuotedBody(b[1..]))
  }

  predicate WellFormed(l: Lexeme) {
    match l
    case Space(c) => c in " \t\r\n"
    case Line(body) => '\n' !in body
    case Block(body) =>
      && |body| >= 2 && body[0] == '*'
      && forall i :: 0 <= i < |body| - 1 ==> (EndAt(body, i) <==> i == |body| - 2)
    case Quoted(body) => QuotedBody(body)
    case Other(c) => c !in " \t\r\n\""
  }

  /** What a lexeme can stand in front of: a line comment goes on to the end of the line, and a slash is none that
      starts a comment. */
  predicate InFrontOf(l: Lexeme, rest: string) {
    && (l.Line? ==> rest == [] || rest[0] == '\n')
    && (l == Other('/') ==> rest == [] || (rest[0] != '/' && rest[0] != '*'))
  }

  function Text(ls: seq<Lexeme>): string {
    if ls == [] then [] else Spelled(ls[0]) + Text(ls[1..])
  }

  function Kept(ls: seq<Lexeme>): string {
    if ls == [] then [] else KeptOf(ls[0]) + Kept(ls[1..])
  }

  predicate Lexed(ls: seq<Lexeme>) {
    ls == [] || (WellFormed(ls[0]) && InFrontOf(ls[0], Text(ls[1..])) && Lexed(ls[1..]))
  }

  // ----- One lexeme -----

  lemma PrependNothing(t: Option<string>)
    ensures Prepend([], t) == t
  {
    if t.Some? {
      assert [] + t.value == t.value;
    }
  }

  lemma {:induction false} LineEndAt(b: string, rest: string)
    requires '\n' !in b && (rest == [] || rest[0] == '\n')
    ensures LineEnd(b + rest) == rest
  {
    if b == [] {
      assert b + rest == rest;
    } else {
      LineEndAt(b[1..], rest);
      assert (b + rest)[1..] == b[1..] + rest;
    }
  }

  /** The first end of a comment from i on. */
  lemma {:induction false} CommentEndAt(b: string, i: nat, rest: string)
    requires |b| >= 2 && i <= |b| - 2 && forall k :: i <= k < |b| - 1 ==> (EndAt(b, k) <==> k == |b| - 2)
    ensures CommentEnd(b[i..] + rest) == Some(rest)
    decreases |b| - i
  {
    var s := b[i..] + rest;
    assert s[0] == b[i] && s[1] == b[i + 1];
    assert EndAt(b, i) <==> i == |b| - 2;
    if i == |b| - 2 {
      assert s[2..] == rest;
    } else {
      CommentEndAt(b, i + 1, rest);
      assert s[1..] == b[i + 1..] + rest;
    }
  }

  lemma {:induction false} CloseIndexAt(b: string, rest: string)
    requires QuotedBody(b)
    ensures CloseIndex(b + "\"" + rest) == |b|
    decreases |b|
  {
    var s := b + "\"" + rest;
    if b != [] {
      var k := if b[0] == '\\' then 2 else 1;
      CloseIndexAt(b[k..], rest);
      assert s[k..] == b[k..] + "\"" + rest;
    }
  }

  lemma OneLiteral(body: string, rest: string)
    requires QuotedBody(body)
    ensures MinifyText("\"" + body + "\"" + rest) == Prepend("\"" + body + "\"", MinifyText(rest))
  {
    hide MinifyText, CloseIndex, QuotedBody;
    var s, e := "\"" + body + "\"" + rest, |body| + 2;
    CloseIndexAt(body, rest);
    assert s[1..] == body + "\"" + rest;
    assert s[..e] == "\"" + body + "\"" && s[e..] == rest;
    MinifyLiteral(s, e);
  }

  lemma OneLine(body: string, rest: string)
    requires '\n' !in body && (rest == [] || rest[0] == '\n')
    ensures MinifyText("//" + body + rest) == MinifyText(rest)
  {
    hide LineEnd;
    var s := "//" + body + rest;
    LineEndAt("/" + body, rest);
    assert s[1..] == "/" + body + rest;
  }

  lemma OneBlock(body: string, rest: string)
    requires WellFormed(Block(body))
    ensures MinifyText("/" + body + rest) == MinifyText(rest)
  {
    hide CommentEnd;
    var s := "/" + body + rest;
    BlockEnds(body, rest);
    assert s[1] == body[0];
  }

  lemma OneCharacter(c: char, rest: string)
    requires c != '"' && InFrontOf(Other(c), rest)
    ensures MinifyText([c] + rest) == if c in " \t\r\n" then MinifyText(rest) else Prepend([c], MinifyText(rest))
  {
    var s := [c] + rest;
    assert s[1..] == rest;
  }

  /** A lexeme in front of anything that it can stand in front of. */
  lemma OneLexeme(l: Lexeme, rest: string)
    requires WellFormed(l) && InFrontOf(l, rest)
    ensures MinifyText(Spelled(l) + rest) == Prepend(KeptOf(l), MinifyText(rest))
  {
    hide MinifyText, QuotedBody;
    PrependNothing(MinifyText(rest));
    match l
    case Space(c) => OneCharacter(c, rest);
    case Line(body) => OneLine(body, rest);
    case Block(body) => OneBlock(body, rest);
    case Quoted(body) => OneLiteral(body, rest);
    case Other(c) => OneCharacter(c, rest);
  }

  lemma BlockEnds(body: string, rest: string)
    requires WellFormed(Block(body))
    ensures CommentEnd("/" + body + rest) == Some(rest)
  {
    CommentEndAt(body, 0, rest);
    var s := "/" + body + rest;
    assert s[1..] == body[0..] + rest;
  }

  // ----- Any text -----

  /** Minifying keeps the string literals and the other characters, in their order, and nothing else. */
  lemma {:induction false} MinifyLexed(ls: seq<Lexeme>)
    requires Lexed(ls)
    ensures MinifyText(Text(ls)) == Some(Kept(ls))
  {
    hide MinifyText, WellFormed, InFrontOf, Spelled, KeptOf;
    if ls == [] {
      MinifyEmpty();
    } else {
      MinifyLexed(ls[1..]);
      OneLexeme(ls[0], Text(ls[1..]));
    }
  }

  lemma {:induction false} LineEndFinds(s: string)
    ensures var t := LineEnd(s);
      s[|s| - |t|..] == t && '\n' !in s[..|s| - |t|] && (t == [] || t[0] == '\n')
  {
    if s != [] && s[0] != '\n' {
      LineEndFinds(s[1..]);
    }
  }

  lemma {:induction false} CommentEndFinds(s: string)
    requires CommentEnd(s).Some?
    ensures var t := CommentEnd(s).value;
      var b := s[..|s| - |t|];
      && s[|b|..] == t && |b| >= 2
      && forall i :: 0 <= i < |b| - 1 ==> (EndAt(b, i) <==> i == |b| - 2)
  {
    if !StartsWith2(s, '*', '/') {
      CommentEndFinds(s[1..]);
      var t := CommentEnd(s).value;
      var b, c := s[..|s| - |t|], s[1..][..|s| - 1 - |t|];
      assert b[1..] == c && b[0] == s[0] && b[1] == s[1];
      forall i | 0 <= i < |b| - 1
        ensures EndAt(b, i) <==> i == |b| - 2
      {
        if i > 0 {
          assert b[i] == c[i - 1] && b[i + 1] == c[i];
          assert EndAt(c, i - 1) <==> i - 1 == |c| - 2;
        }
      }
    }
  }

  lemma {:induction false} CloseIndexFinds(s: string)
    requires CloseIndex(s) < |s|
    ensures QuotedBody(s[..CloseIndex(s)])
    decreases |s|
  {
    if s[0] != '"' {
      var k := if s[0] == '\\' then 2 else 1;
      CloseIndexFinds(s[k..]);
      assert s[..CloseIndex(s)][k..] == s[k..][..CloseIndex(s[k..])];
    }
  }

  /** The lexeme at the front of a text that can be minified. */
  lemma FirstLexeme(s: string) returns (l: Lexeme, rest: string)
    requires s != [] && MinifyText(s).Some?
    ensures WellFormed(l) && InFrontOf(l, rest) && s == Spelled(l) + rest && |rest| < |s| && MinifyText(rest).Some?
  {
    hide LineEnd, CommentEnd, CloseIndex, QuotedBody;
    if IsBlank(s[0]) {
      l, rest := Space(s[0]), s[1..];
    } else if StartsWith2(s, '/', '/') {
      LineEndFinds(s[1..]);
      rest := LineEnd(s[1..]);
      l := LineOf(s, rest);
    } else if StartsWith2(s, '/', '*') {
      CommentEndFinds(s);
      rest := CommentEnd(s).value;
      l := BlockOf(s, rest);
    } else if s[0] == '"' {
      var e := CloseIndex(s[1..]) + 2;
      CloseIndexFinds(s[1..]);
      l, rest := Quoted(s[1..][..e - 2]), s[e..];
      assert s == Spelled(l) + rest;
    } else {
      l, rest := Other(s[0]), s[1..];
    }
  }

  lemma LineOf(s: string, rest: string) returns (l: Lexeme)
    requires StartsWith2(s, '/', '/') && |rest| <= |s| - 1 && s[1..][|s| - 1 - |rest|..] == rest
    requires '\n' !in s[1..][..|s| - 1 - |rest|] && (rest == [] || rest[0] == '\n')
    ensures WellFormed(l) && InFrontOf(l, rest) && s == Spelled(l) + rest
  {
    var b := s[1..][..|s| - 1 - |rest|];
    assert |b| > 0 by {
      assert s[1..][0] == '/';
    }
    l := Line(b[1..]);
    assert s == [s[0]] + s[1..] == [s[0]] + (b + rest);
    assert b == [b[0]] + b[1..];
  }

  lemma BlockOf(s: string, rest: string) returns (l: Lexeme)
    requires StartsWith2(s, '/', '*') && |rest| + 2 <= |s| && s[|s| - |rest|..] == rest
    requires var b := s[..|s| - |rest|];
      forall i :: 0 <= i < |b| - 1 ==> (EndAt(b, i) <==> i == |b| - 2)
    ensures WellFormed(l) && InFrontOf(l, rest) && s == Spelled(l) + rest
  {
    var b := s[..|s| - |rest|];
    assert EndAt(b, |b| - 2);
    l := Block(b[1..]);
    forall i | 0 <= i < |b| - 2
      ensures EndAt(b[1..], i) <==> i == |b| - 3
    {
      assert EndAt(b, i + 1) <==> i + 1 == |b| - 2;
    }
    assert b == "/" + b[1..];
  }

  /** And every text that can be minified is cut in that way. */
  lemma {:induction false} FindLexemes(s: string) returns (ls: seq<Lexeme>)
    requires MinifyText(s).Some?
    ensures Lexed(ls) && Text(ls) == s && Kept(ls) == MinifyText(s).value
    decreases |s|
  {
    hide MinifyText, WellFormed, InFrontOf, Spelled, KeptOf;
    if s == [] {
      MinifyEmpty();
      ls := [];
    } else {
      var l, rest := FirstLexeme(s);
      var more := FindLexemes(rest);
      ls := [l] + more;
      assert ls[1..] == more;
      OneLexeme(l, rest);
    }
  }

  ghost predicate CutInto(s: string, m: string) {
    exists ls :: Lexed(ls) && Text(ls) == s && Kept(ls) == m
  }

  /** Exactly: the text becomes m if and only if it can be cut so that m is what is kept. */
  lemma MinifyExactly(s: string, m: string)
    ensures MinifyText(s) == Some(m) <==> CutInto(s, m)
  {
    hide MinifyText, Lexed, Text, Kept;
    if MinifyText(s) == Some(m) {
      var ls := FindLexemes(s);
    }
    forall ls | Lexed(ls) && Text(ls) == s && Kept(ls) == m
      ensures MinifyText(s) == Some(m)
    {
      MinifyLexed(ls);
    }
  }

  // ----- Comments -----

  function WithoutComments(ls: seq<Lexeme>): seq<Lexeme> {
    if ls == [] then []
    else if ls[0].Line? || ls[0].Block? then WithoutComments(ls[1..])
    else [ls[0]] + WithoutComments(ls[1..])
  }

  lemma {:induction false} KeptWithout(ls: seq<Lexeme>)
    ensures Kept(WithoutComments(ls)) == Kept(ls)
  {
    if ls != [] {
      KeptWithout(ls[1..]);
    }
  }

  /** A text with comments between its tokens minifies as the text without them. */
  lemma CommentsGone(ls: seq<Lexeme>)
    requires Lexed(ls) && Lexed(WithoutComments(ls))
    ensures MinifyText(Text(ls)) == MinifyText(Text(WithoutComments(ls)))
  {
    MinifyLexed(ls);
    MinifyLexed(WithoutComments(ls));
    KeptWithout(ls);
  }

  /** So a value with comments between its tokens, which the parser does not read, is read when it has been minified. */
  lemma CommentedValue(ls: seq<Lexeme>)
    requires Lexed(ls) && Lexed(WithoutComments(ls))
    requires var s := Text(WithoutComments(ls));
      NulFree(s) && ParseValue(Skip(s)).Parsed? && Skip(ParseValue(Skip(s)).rest) == [] && ClosedLiteral(Skip(s))
    ensures MinifyText(Text(ls)).Some?
    ensures var s, m := Text(WithoutComments(ls)), MinifyText(Text(ls)).value;
      && ParseValue(Skip(m)).Parsed? && ParseValue(Skip(m)).value == ParseValue(Skip(s)).value
      && Skip(ParseValue(Skip(m)).rest) == []
  {
    hide MinifyText, ParseValue, Lexed, Text;
    CommentsGone(ls);
    MinifyKeepsMeaning(Text(WithoutComments(ls)));
  }

  /** A line comment goes up to the line feed. */
  lemma LineCommentGone(c: string, rest: string)
    requires '\n' !in c
    ensures MinifyText("//" + c + "\n" + rest) == MinifyText(rest)
  {
    hide MinifyText;
    OneLexeme(Line(c), "\n" + rest);
    OneLexeme(Space('\n'), rest);
    PrependNothing(MinifyText("\n" + rest));
    PrependNothing(MinifyText(rest));
    assert "//" + c + "\n" + rest == "//" + c + ("\n" + rest);
  }

  /** The first end in c + "*" + "/" is the one behind c. */
  predicate EndsBehind(c: string) {
    forall i :: 0 <= i < |c| ==> !EndAt(c + "*/", i)
  }

  /** A block comment goes up to its first end, and that may share its star with the start: of a comment that goes on
      with a slash only the first three characters go. */
  lemma BlockCommentGone(c: string, rest: string)
    requires EndsBehind(c)
    ensures MinifyText("/*" + c + "*/" + rest) ==
            MinifyText(if StartsWith(c, '/') then c[1..] + "*/" + rest else rest)
  {
    hide MinifyText;
    var s := "/*" + c + "*/" + rest;
    var body, more := if StartsWith(c, '/') then "*/" else "*" + c + "*/",
                      if StartsWith(c, '/') then c[1..] + "*/" + rest else rest;
    assert s == Spelled(Block(body)) + more;
    BlockBody(c);
    OneLexeme(Block(body), more);
    PrependNothing(MinifyText(more));
  }

  lemma BlockBody(c: string)
    requires EndsBehind(c)
    ensures WellFormed(Block(if StartsWith(c, '/') then "*/" else "*" + c + "*/"))
  {
    if !StartsWith(c, '/') {
      var b, d := "*" + c + "*/", c + "*/";
      assert b[1..] == d;
      forall i | 0 <= i < |b| - 1
        ensures EndAt(b, i) <==> i == |b| - 2
      {
        if i > 0 {
          assert b[i] == d[i - 1] && b[i + 1] == d[i];
          assert i - 1 < |c| ==> !EndAt(d, i - 1);
        } else {
          assert b[1] == d[0];
        }
      }
    }
  }

  /** Such a comment: what looks like one, in front of a 1, leaves its second half behind. */
  lemma CommentLeft()
    ensures EndsBehind("/a") && MinifyText("/*" + "/a" + "*/" + "1") == Some("a*/1")
  {
    hide MinifyText;
    assert "/a" + "*/" == "/a*/";
    BlockCommentGone("/a", "1");
    assert "/a"[1..] == "a" && "a" + "*/" + "1" == "a*/1";
    LeftBehind();
  }

  lemma LeftBehind()
    ensures MinifyText("a*/1") == Some("a*/1")
  {
    var ls := [Other('a'), Other('*'), Other('/'), Other('1')];
    assert ls[1..] == [Other('*'), Other('/'), Other('1')] && ls[2..] == [Other('/'), Other('1')];
    assert ls[1..][1..] == ls[2..] && ls[2..][1..] == [Other('1')] && [Other('1')][1..] == [];
    assert Text([]) == "" && Text([Other('1')]) == "1" && Text(ls[2..]) == "/1" && Text(ls[1..]) == "*/1";
    assert Lexed([]) && Lexed([Other('1')]) && Lexed(ls[2..]) && Lexed(ls[1..]) && Lexed(ls);
    assert Text(ls) == "a*/1" == Kept(ls) by {
      assert Kept([Other('1')]) == "1" && Kept(ls[2..]) == "/1" && Kept(ls[1..]) == "*/1";
    }
    MinifyLexed(ls);
  }

  /** Blanks and whole comments: nothing is kept of it, and it does not go on into what comes behind it. */
  predicate Vanishes(p: string) {
    MinifyText(p) == Some("") && MinifyText(p + "0") == Some("0")
  }

  /** In front of every text it leaves no trace. */
  ghost predicate Gone(p: string) {
    forall rest: string {:trigger MinifyText(p + rest)} :: MinifyText(p + rest) == MinifyText(rest)
  }

  /** A blank or a comment goes, whatever is put behind what follows it. */
  lemma OneGone(l: Lexeme, more: string, end: string)
    requires WellFormed(l) && KeptOf(l) == [] && InFrontOf(l, more) && (l.Line? ==> more != [])
    ensures MinifyText(Spelled(l) + more + end) == MinifyText(more + end)
  {
    hide MinifyText, WellFormed;
    assert Spelled(l) + more + end == Spelled(l) + (more + end);
    OneLexeme(l, more + end);
    PrependNothing(MinifyText(more + end));
  }

  lemma SomeText(ls: seq<Lexeme>)
    requires ls != []
    ensures Text(ls) != []
  {}

  lemma {:induction false} GoneOrOpen(ls: seq<Lexeme>, rest: string)
    requires Lexed(ls) && Kept(ls) == []
    ensures if ls == [] || !ls[|ls| - 1].Line? then MinifyText(Text(ls) + rest) == MinifyText(rest)
            else MinifyText(Text(ls) + "0") == Some("")
  {
    hide MinifyText, WellFormed, InFrontOf, Spelled, KeptOf;
    if ls == [] {
      assert [] + rest == rest;
    } else {
      var l, more := ls[0], ls[1..];
      GoneOrOpen(more, rest);
      if more != [] {
        SomeText(more);
      }
      if l.Line? && more == [] {
        assert ls == [Line(l.body)];
        OpenLine(l.body);
      } else {
        OneGone(l, Text(more), if more == [] || !more[|more| - 1].Line? then rest else "0");
      }
    }
  }

  lemma OpenLine(body: string)
    requires WellFormed(Line(body))
    ensures MinifyText(Text([Line(body)]) + "0") == Some("")
  {
    hide MinifyText;
    OneLine(body + "0", "");
    MinifyEmpty();
    assert Text([Line(body)]) == "//" + body + Text([]);
    assert "//" + (body + "0") + "" == "//" + body + "" + "0";
  }

  lemma VanishesExactly(p: string)
    ensures Vanishes(p) <==> Gone(p)
  {
    hide MinifyText, Lexed, Text, Kept;
    if Vanishes(p) {
      var ls := FindLexemes(p);
      forall rest
        ensures MinifyText(p + rest) == MinifyText(rest)
      {
        GoneOrOpen(ls, rest);
      }
    }
    if Gone(p) {
      MinifyEmpty();
      assert p + "" == p;
      OneCharacter('0', "");
      assert MinifyText("0") == Some("0") by {
        assert "0" + "" == "0";
      }
      assert MinifyText(p + "") == MinifyText("") && MinifyText(p + "0") == MinifyText("0");
    }
  }

  /** So what is written as one block comment leaves no trace exactly when it does not go on with a slash, or when what
      is left behind that slash is blanks and comments again. */
  lemma BlockCommentExactly(c: string)
    requires EndsBehind(c)
    ensures Gone("/*" + c + "*/") <==> !StartsWith(c, '/') || Vanishes(c[1..] + "*/")
  {
    hide MinifyText, Vanishes, EndsBehind;
    var p := "/*" + c + "*/";
    if StartsWith(c, '/') {
      var q := c[1..] + "*/";
      VanishesExactly(q);
      forall rest
        ensures MinifyText(p + rest) == MinifyText(q + rest)
      {
        BlockCommentGone(c, rest);
      }
      GoneAlike(p, q);
    } else {
      forall rest
        ensures MinifyText(p + rest) == MinifyText(rest)
      {
        BlockCommentGone(c, rest);
      }
    }
  }

  lemma GoneAlike(p: string, q: string)
    requires forall rest: string {:trigger MinifyText(p + rest)} {:trigger MinifyText(q + rest)} ::
      MinifyText(p + rest) == MinifyText(q + rest)
    ensures Gone(p) <==> Gone(q)
  {
    hide MinifyText;
  }
}
