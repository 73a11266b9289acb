/** The in-place minifier: one writing position behind one reading position. */
module JsonMinifyInPlace {
  import opened JsonText
  import opened JsonMinify
  import opened CStrings

  /** The text read so far has become the text written so far. */
  ghost predicate Progress(text: string, written: string, r: nat)
    requires r <= |text|
  {
    MinifyText(text) == Prepend(written, MinifyText(text[r..]))
  }

  /** Consuming text[r..r'] and writing q is one step of the minifier. */
  lemma Advance(text: string, written: string, q: string, r: nat, r': nat)
    requires r <= r' <= |text| && Progress(text, written, r)
    requires MinifyText(text[r..]) == Prepend(q, MinifyText(text[r'..]))
    ensures Progress(text, written + q, r')
  {
    hide MinifyText;
    if MinifyText(text[r'..]).Some? {
      assert written + (q + MinifyText(text[r'..]).value) == (written + q) + MinifyText(text[r'..]).value;
    }
  }

  lemma AdvanceSilently(text: string, written: string, r: nat, r': nat)
    requires r <= r' <= |text| && Progress(text, written, r)
    requires MinifyText(text[r..]) == MinifyText(text[r'..])
    ensures Progress(text, written, r')
  {}

  lemma Start(text: string)
    ensures Progress(text, [], 0)
  {
    hide MinifyText;
    assert text[0..] == text;
    if MinifyText(text).Some? {
      assert [] + MinifyText(text).value == MinifyText(text).value;
    }
  }

  /** One step of the outer loop on the front of s. */
  lemma Blank(s: string)
    requires s != [] && IsBlank(s[0])
    ensures MinifyText(s) == MinifyText(s[1..])
  {}

  lemma LineComment(s: string)
    requires StartsWith2(s, '/', '/')
    ensures MinifyText(s) == MinifyText(LineEnd(s))
  {}

  lemma BlockComment(s: string)
    requires StartsWith2(s, '/', '*') && MinifyText(s).Some?
    ensures CommentEnd(s).Some? && MinifyText(s) == MinifyText(CommentEnd(s).value)
  {}

  lemma Other(s: string)
    requires s != [] && !IsBlank(s[0]) && s[0] != '"'
    requires !StartsWith2(s, '/', '/') && !StartsWith2(s, '/', '*')
    ensures MinifyText(s) == Prepend([s[0]], MinifyText(s[1..]))
  {}

  lemma Literal(s: string)
    requires StartsWith(s, '"') && MinifyText(s).Some?
    ensures CloseIndex(s[1..]) + 2 <= |s|
  {
    hide CloseIndex;
  }

  lemma {:induction false} LineEndSuffix(s: string)
    ensures LineEnd(s) == s[|s| - |LineEnd(s)|..]
  {
    if s != [] && s[0] != '\n' {
      LineEndSuffix(s[1..]);
    }
  }

  lemma {:induction false} CommentEndSuffix(s: string)
    requires CommentEnd(s).Some?
    ensures CommentEnd(s).value == s[|s| - |CommentEnd(s).value|..]
  {
    if !StartsWith2(s, '*', '/') {
      CommentEndSuffix(s[1..]);
    }
  }

  lemma {:induction false} MinifiedIsNulFree(s: string)
    requires NulFree(s) && MinifyText(s).Some?
    ensures NulFree(MinifyText(s).value)
    decreases |s|
  {
    if s == [] {
    } else if StartsWith2(s, '/', '/') {
      LineEndSuffix(s[1..]);
      MinifiedIsNulFree(LineEnd(s[1..]));
    } else if StartsWith2(s, '/', '*') {
      CommentEndSuffix(s);
      MinifiedIsNulFree(CommentEnd(s).value);
    } else {
      var e := if s[0] == '"' then CloseIndex(s[1..]) + 2 else 1;
      MinifiedIsNulFree(s[e..]);
    }
  }

  /** From the reading position on, json still holds the text it started with. */
  ghost predicate Unread(json: array<char>, text: string, r: nat)
    reads json
  {
    && r <= |text| < json.Length
    && NulFree(text)
    && json[r..|text|] == text[r..]
    && json[|text|] == '\0'
  }

  lemma UnreadAt(json: array<char>, text: string, r: nat, k: nat)
    requires Unread(json, text, r) && r <= k <= |text|
    ensures Unread(json, text, k)
    ensures k < |text| ==> json[k] == text[k] == text[k..][0] && text[k..][1..] == text[k + 1..]
    ensures json[k] == '\0' <==> k == |text|
  {
    assert forall i :: r <= i < |text| ==> json[i] == json[r..|text|][i - r] == text[i];
  }

  method SkipLineComment(json: array<char>, ghost text: string, start: nat) returns (r: nat)
    requires Unread(json, text, start)
    ensures start <= r <= |text| && text[r..] == LineEnd(text[start..])
  {
    r := start;
    UnreadAt(json, text, start, r);
    while json[r] != '\0' && json[r] != '\n'
      invariant start <= r <= |text|
      invariant LineEnd(text[r..]) == LineEnd(text[start..])
      decreases |text| - r
    {
      UnreadAt(json, text, start, r);
      r := r + 1;
      UnreadAt(json, text, start, r);
    }
    UnreadAt(json, text, start, r);
  }

  method SkipBlockComment(json: array<char>, ghost text: string, start: nat) returns (r: nat)
    requires Unread(json, text, start) && CommentEnd(text[start..]).Some?
    ensures start + 2 <= r <= |text| && text[r..] == CommentEnd(text[start..]).value
  {
    r := start;
    UnreadAt(json, text, start, r);
    while json[r] != '\0' && !(json[r] == '*' && json[r + 1] == '/')
      invariant start <= r < |text|
      invariant CommentEnd(text[r..]) == CommentEnd(text[start..])
      invariant Unread(json, text, r)
      decreases |text| - r
    {
      UnreadAt(json, text, start, r + 1);
      UnreadAt(json, text, start, r);
      r := r + 1;
    }
    UnreadAt(json, text, start, r);
    UnreadAt(json, text, start, r + 1);
    r := r + 2;
    assert text[r - 2..][2..] == text[r..];
  }

  /** What one turn of the literal scan leaves to scan. */
  lemma CloseStep(text: string, r: nat)
    requires r < |text| && text[r] != '"' && CloseIndex(text[r..]) < |text| - r
    ensures var k := if text[r] == '\\' then 2 else 1;
      r + k <= |text| && CloseIndex(text[r..]) == k + CloseIndex(text[r + k..])
  {
    assert text[r..][0] == text[r] && text[r..][1..] == text[r + 1..];
    if text[r] == '\\' && |text| - r > 1 {
      assert text[r..][2..] == text[r + 2..];
    }
  }

  lemma CloseNow(text: string, r: nat)
    requires r < |text| && CloseIndex(text[r..]) < |text| - r
    ensures CloseIndex(text[r..]) == 0 <==> text[r] == '"'
  {
    assert text[r..][0] == text[r];
  }

  /** In the middle of a literal: `before`, then the text from `start` to the reading position, is written. */
  ghost predicate Copying(json: array<char>, text: string, w: nat, r: nat, before: string, start: nat)
    reads json
  {
    && w <= r && start <= r
    && Unread(json, text, r)
    && json[..w] == before + text[start..r]
  }

  method CopyChar(json: array<char>, ghost text: string, into: nat, from: nat, ghost before: string, ghost start: nat)
    returns (w: nat, r: nat)
    requires Copying(json, text, into, from, before, start) && from < |text|
    modifies json
    ensures w == into + 1 && r == from + 1
    ensures Copying(json, text, w, r, before, start)
    ensures json[|text|..] == old(json[|text|..])
  {
    UnreadAt(json, text, from, from);
    UnreadAt(json, text, from, from + 1);
    json[into] := json[from];
    w, r := into + 1, from + 1;
    assert json[..w] == json[..into] + [text[from]];
    assert text[start..r] == text[start..from] + [text[from]];
  }

  lemma CopyingAt(json: array<char>, text: string, w: nat, r: nat, before: string, start: nat)
    requires Copying(json, text, w, r, before, start)
    ensures r <= |text| < json.Length && (json[r] == '\0' <==> r == |text|)
    ensures r < |text| ==> json[r] == text[r]
  {
    UnreadAt(json, text, r, r);
  }

  /** Copies the literal that starts at the reading position, quotes included. */
  method CopyLiteral(json: array<char>, ghost text: string, into: nat, start: nat, ghost before: string)
    returns (w: nat, r: nat)
    requires Copying(json, text, into, start, before, start) && start < |text| && text[start] == '"'
    requires CloseIndex(text[start + 1..]) + 2 <= |text| - start
    modifies json
    ensures r == start + CloseIndex(text[start + 1..]) + 2
    ensures Copying(json, text, w, r, before, start)
    ensures json[|text|..] == old(json[|text|..])
  {
    hide CloseIndex, Copying, Unread;
    ghost var close := start + 1 + CloseIndex(text[start + 1..]);
    w, r := CopyChar(json, text, into, start, before, start);
    CopyingAt(json, text, w, r, before, start);
    while json[r] != '\0' && json[r] != '"'
      invariant r <= close < |text| < json.Length && CloseIndex(text[r..]) == close - r
      invariant Copying(json, text, w, r, before, start)
      invariant json[|text|..] == old(json[|text|..])
      decreases |text| - r
    {
      CopyingAt(json, text, w, r, before, start);
      CloseStep(text, r);
      if json[r] == '\\' {
        w, r := CopyChar(json, text, w, r, before, start);
      }
      w, r := CopyChar(json, text, w, r, before, start);
    }
    CopyingAt(json, text, w, r, before, start);
    CloseNow(text, r);
    w, r := CopyChar(json, text, w, r, before, start);
  }

  /** The writing position is not ahead of the reading position, and what was read has been minified. */
  ghost predicate Between(json: array<char>, text: string, w: nat, r: nat)
    reads json
  {
    && w <= r
    && Unread(json, text, r)
    && Progress(text, json[..w], r)
  }

  method StepLiteral(json: array<char>, ghost text: string, into: nat, from: nat) returns (w: nat, r: nat)
    requires Between(json, text, into, from) && from < |text| && text[from] == '"' && MinifyText(text).Some?
    modifies json
    ensures Between(json, text, w, r) && from < r
    ensures json[|text|..] == old(json[|text|..])
  {
    hide CloseIndex, MinifyText;
    ghost var s, before := text[from..], json[..into];
    assert s[1..] == text[from + 1..];
    Literal(s);
    ghost var e := CloseIndex(s[1..]) + 2;
    MinifyLiteral(s, e);
    assert s[..e] == text[from..from + e] && s[e..] == text[from + e..];
    Advance(text, before, s[..e], from, from + e);
    assert text[from..from] == [];
    w, r := CopyLiteral(json, text, into, from, before);
  }

  method StepOther(json: array<char>, ghost text: string, into: nat, from: nat) returns (w: nat, r: nat)
    requires Between(json, text, into, from) && from < |text|
    requires MinifyText(text[from..]) == Prepend([text[from]], MinifyText(text[from + 1..]))
    modifies json
    ensures Between(json, text, w, r) && from < r
    ensures json[|text|..] == old(json[|text|..])
  {
    hide MinifyText;
    UnreadAt(json, text, from, from);
    UnreadAt(json, text, from, from + 1);
    Advance(text, json[..into], [text[from]], from, from + 1);
    ghost var before := json[..into];
    json[into] := json[from];
    w, r := into + 1, from + 1;
    assert json[..w] == before + [text[from]];
  }

  method StepComment(json: array<char>, ghost text: string, ghost into: nat, from: nat) returns (r: nat)
    requires Between(json, text, into, from) && from < |text| && MinifyText(text).Some?
    requires StartsWith2(text[from..], '/', '/') || StartsWith2(text[from..], '/', '*')
    ensures Between(json, text, into, r) && from < r
  {
    ghost var s := text[from..];
    UnreadAt(json, text, from, from + 1);
    if json[from + 1] == '/' {
      LineComment(s);
      r := SkipLineComment(json, text, from);
      assert LineEnd(s) == LineEnd(s[1..]);
    } else {
      BlockComment(s);
      r := SkipBlockComment(json, text, from);
    }
    UnreadAt(json, text, from, r);
    AdvanceSilently(text, json[..into], from, r);
  }

  /** The array ends up holding the minified text, and nothing behind the old terminator changes. */
  method Minify(json: array<char>, ghost text: string)
    requires Holds(json, 0, text) && MinifyText(text).Some?
    modifies json
    ensures Holds(json, 0, MinifyText(text).value)
    ensures json[|text| + 1..] == old(json[|text| + 1..])
  {
    hide CloseIndex, MinifyText, LineEnd, CommentEnd, Progress;
    var w: nat, r: nat := 0, 0;
    Start(text);
    while json[r] != '\0'
      invariant Between(json, text, w, r)
      invariant json[|text|..] == old(json[|text|..])
      decreases |text| - r
    {
      UnreadAt(json, text, r, r);
      UnreadAt(json, text, r, r + 1);
      if json[r] == ' ' || json[r] == '\t' || json[r] == '\r' || json[r] == '\n' {
        Blank(text[r..]);
        AdvanceSilently(text, json[..w], r, r + 1);
        r := r + 1;
      } else if json[r] == '/' && (json[r + 1] == '/' || json[r + 1] == '*') {
        r := StepComment(json, text, w, r);
      } else if json[r] == '"' {
        w, r := StepLiteral(json, text, w, r);
      } else {
        Other(text[r..]);
        w, r := StepOther(json, text, w, r);
      }
    }
    UnreadAt(json, text, r, r);
    Finish(text, json[..w]);
    MinifiedIsNulFree(text);
    json[w] := '\0';
    assert json[|text| + 1..] == old(json[|text| + 1..]);
  }

  lemma Finish(text: string, written: string)
    requires Progress(text, written, |text|)
    ensures MinifyText(text) == Some(written)
  {
    assert text[|text|..] == [];
    assert written + [] == written;
  }
}
