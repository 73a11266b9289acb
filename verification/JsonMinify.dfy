/** Removing blanks and comments from a text in place, and what that does to its meaning. */
module JsonMinify {
  import opened Decimal
  import opened JsonText
  import opened JsonRoundTrip

  predicate IsBlank(c: char) {
    c == ' ' || c == '\t' || c == '\r' || c == '\n'
  }

  predicate StartsWith2(s: string, c: char, d: char) {
    |s| >= 2 && s[0] == c && s[1] == d
  }

  /** The text from the line feed that ends a line comment. */
  function LineEnd(s: string): (t: string)
    ensures |t| <= |s|
  {
    if s == [] || s[0] == '\n' then s else LineEnd(s[1..])
  }

  /** The text behind the next end of comment, if there is one. */
  function CommentEnd(s: string): (t: Option<string>)
    ensures t.Some? ==> |t.value| + 2 <= |s|
  {
    if s == [] then None
    else if StartsWith2(s, '*', '/') then Some(s[2..])
    else CommentEnd(s[1..])
  }

  function Prepend(p: string, t: Option<string>): Option<string> {
    match t
    case None => None
    case Some(s) => Some(p + s)
  }

  /** The minified text; None when the reading position would pass the terminator, in an unterminated
      literal or comment. */
  function MinifyText(s: string): (m: Option<string>)
    ensures m.Some? ==> |m.value| <= |s|
    decreases |s|
  {
    if s == [] then Some([])
    else if IsBlank(s[0]) then MinifyText(s[1..])
    else if StartsWith2(s, '/', '/') then MinifyText(LineEnd(s[1..]))
    else if StartsWith2(s, '/', '*') then
      var t := CommentEnd(s);
      if t.None? then None else MinifyText(t.value)
    else if s[0] == '"' then
      var e := CloseIndex(s[1..]) + 2;
      if e > |s| then None else Prepend(s[..e], MinifyText(s[e..]))
    else Prepend([s[0]], MinifyText(s[1..]))
  }

  // ----- How minifying splits along tokens -----

  /** In front of any text, p becomes q. */
  ghost predicate Strips(p: string, q: string) {
    forall t: string {:trigger MinifyText(p + t)} :: MinifyText(p + t) == Prepend(q, MinifyText(t))
  }

  lemma StripsConcat(p1: string, q1: string, p2: string, q2: string)
    requires Strips(p1, q1) && Strips(p2, q2)
    ensures Strips(p1 + p2, q1 + q2)
  {
    forall t: string
      ensures MinifyText((p1 + p2) + t) == Prepend(q1 + q2, MinifyText(t))
    {
      hide MinifyText;
      assert (p1 + p2) + t == p1 + (p2 + t);
      if MinifyText(t).Some? {
        assert q1 + (q2 + MinifyText(t).value) == (q1 + q2) + MinifyText(t).value;
      }
    }
  }

  lemma StripsNothing()
    ensures Strips([], [])
  {
    forall t: string
      ensures MinifyText([] + t) == Prepend([], MinifyText(t))
    {
      hide MinifyText;
      assert [] + t == t;
      if MinifyText(t).Some? {
        assert [] + MinifyText(t).value == MinifyText(t).value;
      }
    }
  }

  predicate IsPlain(c: char) {
    !IsBlank(c) && c != '/' && c != '"'
  }

  lemma StripsChar(c: char)
    requires IsPlain(c) || IsBlank(c)
    ensures Strips([c], if IsBlank(c) then [] else [c])
  {
    forall t: string
      ensures MinifyText([c] + t) == Prepend(if IsBlank(c) then [] else [c], MinifyText(t))
    {
      assert ([c] + t)[1..] == t;
      if MinifyText(t).Some? {
        assert [] + MinifyText(t).value == MinifyText(t).value;
      }
    }
  }

  /** The characters of s that are not blanks. */
  function Dense(s: string): string {
    if s == [] then [] else (if IsBlank(s[0]) then [] else [s[0]]) + Dense(s[1..])
  }

  lemma {:induction false} StripsRun(p: string)
    requires forall i :: 0 <= i < |p| ==> IsPlain(p[i]) || IsBlank(p[i])
    ensures Strips(p, Dense(p))
  {
    if p == [] {
      StripsNothing();
    } else {
      StripsChar(p[0]);
      StripsRun(p[1..]);
      StripsConcat([p[0]], if IsBlank(p[0]) then [] else [p[0]], p[1..], Dense(p[1..]));
      assert [p[0]] + p[1..] == p;
    }
  }

  lemma {:induction false} DensePlain(p: string)
    requires forall i :: 0 <= i < |p| ==> IsPlain(p[i])
    ensures Dense(p) == p
  {
    if p != [] {
      DensePlain(p[1..]);
    }
  }

  lemma StripsPlain(p: string)
    requires forall i :: 0 <= i < |p| ==> IsPlain(p[i])
    ensures Strips(p, p)
  {
    DensePlain(p);
    StripsRun(p);
  }

  /** The closing quote is found without looking behind it. */
  lemma {:induction false} CloseIndexLocal(s: string, s': string, e: nat)
    requires CloseIndex(s) == e < |s| && e < |s'| && forall i :: 0 <= i <= e ==> s[i] == s'[i]
    ensures CloseIndex(s') == e
    decreases |s|
  {
    if e != 0 {
      assert s[0] == s'[0];
      var k := if s[0] == '\\' then 2 else 1;
      assert CloseIndex(s) == k + CloseIndex(s[k..]);
      assert forall i :: 0 <= i <= e - k ==> s[k..][i] == s[k + i] && s'[k..][i] == s'[k + i];
      CloseIndexLocal(s[k..], s'[k..], e - k);
    }
  }

  lemma MinifyLiteral(s: string, e: nat)
    requires StartsWith(s, '"') && e == CloseIndex(s[1..]) + 2 <= |s|
    ensures MinifyText(s) == Prepend(s[..e], MinifyText(s[e..]))
  {
    hide CloseIndex;
  }

  lemma StripsLiteral(body: string)
    requires CloseIndex(body + "\"") == |body|
    ensures Strips("\"" + body + "\"", "\"" + body + "\"")
  {
    hide CloseIndex, MinifyText;
    var p := "\"" + body + "\"";
    forall t: string
      ensures MinifyText(p + t) == Prepend(p, MinifyText(t))
    {
      var s := p + t;
      assert s[1..] == body + "\"" + t;
      CloseIndexLocal(body + "\"", s[1..], |body|);
      assert s[..|p|] == p && s[|p|..] == t;
      MinifyLiteral(s, |p|);
    }
  }

  lemma StripsPrintString(v: string)
    ensures Strips(PrintString(v), PrintString(v))
  {
    EscapeCloses(v, "\"");
    CloseAtQuote("\"");
    StripsLiteral(Escape(v));
  }

  // ----- Minifying printed text -----

  /** The formatted text of a value minifies to its unformatted text. */
  lemma {:induction false} StripsPrint(j: Json, depth: nat, fmt: bool, d: nat)
    ensures Strips(Print(j, depth, fmt), Print(j, d, false))
    decreases j, 1
  {
    hide Strips, PrintString, Numeral;
    match j
    case Number(n) =>
      StripsPlain(PrintNumber(n)) by {
        forall i | 0 <= i < |PrintNumber(n)|
          ensures IsPlain(PrintNumber(n)[i])
        {
          assert PrintNumber(n)[i] == '-' || IsDigit(PrintNumber(n)[i]);
        }
      }
    case Str(v) => StripsPrintString(v);
    case Arr(elems) =>
      if elems == [] {
        StripsPlain("[]");
      } else {
        StripsElems(elems, depth + 1, fmt, d + 1);
        StripsBracketed('[', PrintElems(elems, depth + 1, fmt), PrintElems(elems, d + 1, false), ']');
      }
    case Obj(members) =>
      if members != [] {
        StripsMembers(members, depth + 1, fmt, d + 1);
        StripsBracketed('{', PrintMembers(members, depth + 1, fmt), PrintMembers(members, d + 1, false), '}');
      } else if fmt {
        StripsTabs(depth);
        StripsBracketed('{', "\n" + Tabs(depth), [], '}');
        assert "{" + ("\n" + Tabs(depth)) + "}" == "{\n" + Tabs(depth) + "}";
        assert "{" + [] + "}" == "{}";
      } else {
        StripsPlain("{}");
      }
    case _ => StripsPlain(Print(j, depth, fmt));
  }

  lemma StripsBracketed(open: char, p: string, q: string, close: char)
    requires IsPlain(open) && IsPlain(close) && Strips(p, q)
    ensures Strips([open] + p + [close], [open] + q + [close])
  {
    hide Strips;
    StripsChar(open);
    StripsChar(close);
    StripsConcat([open], [open], p, q);
    StripsConcat([open] + p, [open] + q, [close], [close]);
  }

  lemma {:induction false} StripsTabs(depth: nat)
    ensures Strips("\n" + Tabs(depth), [])
  {
    var p := "\n" + Tabs(depth);
    StripsRun(p);
    DenseBlank(p);
  }

  lemma {:induction false} DenseBlank(p: string)
    requires forall i :: 0 <= i < |p| ==> IsBlank(p[i])
    ensures Dense(p) == []
  {
    if p != [] {
      DenseBlank(p[1..]);
    }
  }

  lemma StripsComma(fmt: bool)
    ensures Strips(Comma(fmt), ",")
  {
    StripsRun(Comma(fmt));
    assert ", "[1..] == " " && " "[1..] == "" && ","[1..] == "";
    assert Dense(" ") == "";
  }

  lemma {:induction false} StripsElems(elems: seq<Json>, depth: nat, fmt: bool, d: nat)
    requires elems != []
    ensures Strips(PrintElems(elems, depth, fmt), PrintElems(elems, d, false))
    decreases elems, 0
  {
    hide Strips, Print;
    var p, q := Print(elems[0], depth, fmt), Print(elems[0], d, false);
    StripsPrint(elems[0], depth, fmt, d);
    if |elems| == 1 {
      assert p + "" == p && q + "" == q;
    } else {
      var p', q' := PrintElems(elems[1..], depth, fmt), PrintElems(elems[1..], d, false);
      StripsElems(elems[1..], depth, fmt, d);
      StripsComma(fmt);
      StripsConcat(Comma(fmt), ",", p', q');
      StripsConcat(p, q, Comma(fmt) + p', "," + q');
    }
  }

  lemma {:induction false} StripsMember(m: Member, depth: nat, fmt: bool, d: nat)
    ensures Strips(PrintMember(m, depth, fmt), PrintMember(m, d, false))
    decreases m, 0
  {
    hide Strips, Print, PrintString;
    var name := PrintString(m.name);
    StripsPrintString(m.name);
    StripsChar(':');
    StripsConcat(name, name, ":", ":");
    StripsPrint(m.value, depth, fmt, d);
    StripsConcat(name + ":", name + ":", Print(m.value, depth, fmt), Print(m.value, d, false));
  }

  lemma {:induction false} StripsMembers(members: seq<Member>, depth: nat, fmt: bool, d: nat)
    requires members != []
    ensures Strips(PrintMembers(members, depth, fmt), PrintMembers(members, d, false))
    decreases members, 1
  {
    hide Strips, PrintMember;
    var p, q := PrintMember(members[0], depth, fmt), PrintMember(members[0], d, false);
    StripsMember(members[0], depth, fmt, d);
    if |members| == 1 {
      assert p + "" == p && q + "" == q;
    } else {
      var p', q' := PrintMembers(members[1..], depth, fmt), PrintMembers(members[1..], d, false);
      StripsMembers(members[1..], depth, fmt, d);
      StripsChar(',');
      StripsConcat(",", ",", p', q');
      StripsConcat(p, q, "," + p', "," + q');
    }
  }

  lemma MinifyOfPrint(j: Json, fmt: bool)
    ensures MinifyText(Print(j, 0, fmt)) == Some(Print(j, 0, false))
  {
    StripsPrint(j, 0, fmt, 0);
    assert Print(j, 0, fmt) + [] == Print(j, 0, fmt) && Print(j, 0, false) + [] == Print(j, 0, false);
  }
}
