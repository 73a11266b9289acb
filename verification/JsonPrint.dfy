/** Printing an item into memory that is allocated to measure. */
module JsonPrint {
  import opened Decimal
  import opened JsonText
  import opened CStrings
  import opened JsonTree

  // ----- Strings -----

  predicate NeedsEscape(c: char) {
    c < ' ' || c == '"' || c == '\\'
  }

  lemma EscapeCharLength(c: char)
    ensures |EscapeChar(c)| ==
      1 + (if c in "\"\\\n\r\t" || c == BACKSPACE || c == FORMFEED then 1 else if c < ' ' then 5 else 0)
    ensures !NeedsEscape(c) ==> EscapeChar(c) == [c]
  {}

  lemma {:induction false} EscapeMore(s: string, c: char)
    ensures Escape(s + [c]) == Escape(s) + EscapeChar(c)
  {
    hide EscapeChar;
    if s == [] {
      assert Escape([c]) == EscapeChar(c) + Escape([]);
      assert EscapeChar(c) + [] == EscapeChar(c);
    } else {
      EscapeMore(s[1..], c);
      assert (s + [c])[1..] == s[1..] + [c];
    }
  }

  lemma EscapeUpTo(s: string, i: nat)
    requires i < |s|
    ensures Escape(s[..i + 1]) == Escape(s[..i]) + EscapeChar(s[i])
  {
    EscapeMore(s[..i], s[i]);
    assert s[..i + 1] == s[..i] + [s[i]];
  }

  lemma {:induction false} EscapePlain(s: string)
    requires forall c :: c in s ==> !NeedsEscape(c)
    ensures Escape(s) == s
  {
    hide EscapeChar;
    if s != [] {
      EscapePlain(s[1..]);
      EscapeCharLength(s[0]);
    }
  }

  /** What has to be reserved for a string literal and its terminator, and whether anything in it is escaped. */
  method StringSize(s: string) returns (size: nat, flag: bool)
    ensures size == |PrintString(s)| + 1
    ensures !flag ==> Escape(s) == s
  {
    hide Escape, EscapeChar;
    flag := false;
    for i := 0 to |s|
      invariant flag <==> exists j :: 0 <= j < i && NeedsEscape(s[j])
    {
      flag := flag || NeedsEscape(s[i]);
    }
    if !flag {
      EscapePlain(s);
      return |s| + 3, flag;
    }
    var len := 0;
    EscapeNothing(s);
    for i := 0 to |s|
      invariant len == |Escape(s[..i])|
    {
      EscapeUpTo(s, i);
      EscapeCharLength(s[i]);
      var token := s[i];
      len := len + 1;
      if token in "\"\\\n\r\t" || token == BACKSPACE || token == FORMFEED {
        len := len + 1;
      } else if token < ' ' {
        len := len + 5;
      }
    }
    assert s[..|s|] == s;
    size := len + 3;
  }

  lemma EscapeNothing(s: string)
    ensures s[..0] == [] && Escape([]) == []
  {}

  method PutEscaped(out: array<char>, at: nat, c: char) returns (p: nat)
    requires at + |EscapeChar(c)| <= out.Length
    modifies out
    ensures p == at + |EscapeChar(c)| && out[..p] == old(out[..at]) + EscapeChar(c)
  {
    if !NeedsEscape(c) {
      p := Put(out, at, [c]);
      return;
    }
    var e;
    if c == '\\' {
      e := "\\";
    } else if c == '"' {
      e := "\"";
    } else if c == BACKSPACE {
      e := "b";
    } else if c == FORMFEED {
      e := "f";
    } else if c == '\n' {
      e := "n";
    } else if c == '\r' {
      e := "r";
    } else if c == '\t' {
      e := "t";
    } else {
      e := "u00" + [HexDigit(c as int / 16), HexDigit(c as int % 16)];
    }
    assert EscapeChar(c) == "\\" + e;
    p := Put(out, at, "\\" + e);
  }

  /** The literal at a position of a buffer, as a C string. */
  method WriteString(s: string, flag: bool, out: array<char>, at: nat)
    requires NulFree(s) && at + |PrintString(s)| < out.Length && (!flag ==> Escape(s) == s)
    modifies out
    ensures out[..at] == old(out[..at]) && Holds(out, at, PrintString(s))
  {
    hide Escape, EscapeChar;
    ghost var before := out[..at];
    var p := Put(out, at, "\"");
    if !flag {
      p := Put(out, p, s);
    } else {
      EscapeNothing(s);
      assert "\"" + [] == "\"";
      for i := 0 to |s|
        invariant p == at + 1 + |Escape(s[..i])| <= at + 1 + |Escape(s)|
        invariant out[..p] == before + "\"" + Escape(s[..i])
      {
        EscapeUpTo(s, i);
        EscapeFits(s, i);
        p := PutEscaped(out, p, s[i]);
        assert out[..p] == before + "\"" + Escape(s[..i + 1]);
      }
      assert s[..|s|] == s;
    }
    p := Put(out, p, "\"");
    PrintStringNulFree(s);
    assert out[..p] == before + PrintString(s);
    assert out[..p][..at] == before && out[..p][at..] == out[at..p];
    Terminate(out, p, at, PrintString(s));
    assert out[..p][..at] == out[..at];
  }

  lemma {:induction false} EscapeFits(s: string, i: nat)
    requires i < |s|
    ensures |Escape(s[..i])| + |EscapeChar(s[i])| <= |Escape(s)|
    decreases |s| - i
  {
    EscapeUpTo(s, i);
    if i + 1 < |s| {
      EscapeFits(s, i + 1);
    } else {
      assert s[..i + 1] == s;
    }
  }

  lemma {:induction false} EscapeNulFree(s: string)
    requires NulFree(s)
    ensures NulFree(Escape(s))
  {
    if s != [] {
      EscapeNulFree(s[1..]);
      EscapeCharNulFree(s[0]);
    }
  }

  lemma EscapeCharNulFree(c: char)
    requires c != '\0'
    ensures NulFree(EscapeChar(c))
  {}

  lemma PrintStringNulFree(s: string)
    requires NulFree(s)
    ensures NulFree(PrintString(s))
  {
    EscapeNulFree(s);
  }

  /** The literal for a string value, a null value printing as the empty string. */
  method StringText(str: Option<string>) returns (text: string)
    requires str.Some? ==> NulFree(str.value)
    ensures text == PrintString(OrEmpty(str))
  {
    if str.None? {
      return "\"\"";
    }
    var size, flag := StringSize(str.value);
    var out := new char[size];
    WriteString(str.value, flag, out, 0);
    text := out[..size - 1];
  }

  // ----- Numbers -----

  lemma NumberFits(n: int)
    requires INT_MIN <= n <= INT_MAX
    ensures |PrintNumber(n)| <= 11 && NulFree(PrintNumber(n))
  {
    var m := if n < 0 then -n else n;
    assert Pow10(10) == 10000000000 by {
      assert Pow10(2) == 100 && Pow10(4) == 10000 && Pow10(6) == 1000000 && Pow10(8) == 100000000;
    }
    NumeralLength(m, 10);
    NumeralNulFree(m);
  }

  /** The source reserves 21 characters for any number but zero. */
  function NumberSize(n: int): nat {
    if n == 0 then 2 else 21
  }

  method WriteNumber(n: int, out: array<char>, at: nat)
    requires INT_MIN <= n <= INT_MAX && at + NumberSize(n) <= out.Length
    modifies out
    ensures out[..at] == old(out[..at]) && Holds(out, at, PrintNumber(n))
  {
    ghost var before := out[..at];
    ZeroText();
    NumberFits(n);
    var text := if n == 0 then "0" else PrintNumber(n);
    var p := Put(out, at, text);
    assert out[..p][..at] == before && out[..p][at..] == out[at..p];
    Terminate(out, p, at, text);
    assert out[..p][..at] == out[..at];
  }

  lemma ZeroText()
    ensures PrintNumber(0) == "0"
  {}

  method NumberText(n: int) returns (text: string)
    requires INT_MIN <= n <= INT_MAX
    ensures text == PrintNumber(n)
  {
    var out := new char[NumberSize(n)];
    WriteNumber(n, out, 0);
    var k := Length(out, 0, PrintNumber(n));
    text := out[..k];
  }
}
