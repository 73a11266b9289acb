/**
  What is printed, as a text of RFC 8259: which of the many texts of a value it is, down to the last blank and escape.
*/
module JsonPrintLayout {
  import opened Decimal
  import opened CStrings
  import opened JsonText
  import opened JsonUnicode
  import opened JsonGrammar

  /** A character as it is, unless it is a quote, a backslash or a control character; then its short escape, if it has
      one but the slash, or else the escape of its code with digits in lower case. */
  predicate Shortest(p: Piece) {
    match p
    case Plain(c) => c >= ' ' && c != '"' && c != '\\'
    case Short(c) => c in "\"\\bfnrt"
    case Coded(s, cp) =>
      && 0 < cp < 0x20 && cp !in {8, 9, 10, 12, 13}
      && s == "\\u00" + [if cp < 16 then '0' else '1', "0123456789abcdef"[cp % 16]]
  }

  predicate AllShortest(ps: seq<Piece>) {
    forall p :: p in ps ==> Shortest(p)
  }

  /** A line feed and as many tabs. */
  predicate Indent(s: string, depth: nat) {
    |s| == depth + 1 && s[0] == '\n' && forall i :: 1 <= i < |s| ==> s[i] == '\t'
  }

  /** White space is only printed when it is asked for: a blank behind each comma of an array, and an indented line in
      an object without members. Numbers have no zero in front and zero has no sign. */
  predicate LaidOut(x: Syntax, depth: nat, fmt: bool)
    decreases x, 1
  {
    match x
    case Digits(minus, digits) => StrictDigits(digits) && !(minus && digits == "0")
    case Literal(pieces, closed) => closed && AllShortest(pieces)
    case List(blank, items) =>
      && blank == ""
      && forall i :: 0 <= i < |items| ==>
           items[i].before == (if fmt && i > 0 then " " else "") && ItemLaidOut(items[i], depth + 1, fmt)
    case Table(blank, entries) =>
      && (if fmt && entries == [] then Indent(blank, depth) else blank == "")
      && forall i :: 0 <= i < |entries| ==> EntryLaidOut(entries[i], depth + 1, fmt)
    case _ => true
  }

  predicate ItemLaidOut(i: Item, depth: nat, fmt: bool)
    decreases i, 0
  {
    i.after == "" && LaidOut(i.value, depth, fmt)
  }

  predicate EntryLaidOut(e: Entry, depth: nat, fmt: bool)
    decreases e, 0
  {
    && e.beforeName == "" && AllShortest(e.name) && e.afterName == ""
    && e.item.before == "" && ItemLaidOut(e.item, depth, fmt)
  }

  // ----- Strings -----

  lemma OnePiece(c: char) returns (p: Piece)
    requires c != '\0'
    ensures Shortest(p) && StrictPiece(p) && PieceText(p) == EscapeChar(c) && PieceValue(p) == [c]
  {
    if c == '\\' || c == '"' {
      p := Short(c);
    } else if c == BACKSPACE {
      p := Short('b');
    } else if c == FORMFEED {
      p := Short('f');
    } else if c == '\n' {
      p := Short('n');
    } else if c == '\r' {
      p := Short('r');
    } else if c == '\t' {
      p := Short('t');
    } else if c < ' ' {
      p := ControlPiece(c);
    } else {
      p := Plain(c);
    }
  }

  lemma ControlPiece(c: char) returns (p: Piece)
    requires '\0' < c < ' ' && c != BACKSPACE && c != FORMFEED && c != '\n' && c != '\r' && c != '\t'
    ensures Shortest(p) && StrictPiece(p) && PieceText(p) == EscapeChar(c) && PieceValue(p) == [c]
  {
    var cp := c as nat;
    var s := "\\u00" + [HexDigit(cp / 16), HexDigit(cp % 16)];
    p := Coded(s, cp);
    assert s == "\\u" + HexQuad(cp) by {
      assert cp / 4096 == 0 && cp / 256 == 0 && cp / 16 % 16 == cp / 16;
    }
    assert s[..|s|] == s;
    assert LowerAll(s) == s;
  }

  lemma {:induction false} PiecesOf(s: string) returns (ps: seq<Piece>)
    requires NulFree(s)
    ensures AllShortest(ps) && (forall p :: p in ps ==> StrictPiece(p)) && PiecesOk(ps)
    ensures PiecesText(ps) == Escape(s) && PiecesValue(ps) == s
  {
    hide Shortest, PieceText, EscapeChar;
    if s == [] {
      ps := [];
    } else {
      var p := OnePiece(s[0]);
      var more := PiecesOf(s[1..]);
      ps := [p] + more;
      assert ps[1..] == more;
      assert s == [s[0]] + s[1..];
    }
  }

  // ----- Numbers -----

  lemma {:induction false} NumeralDigits(n: nat)
    ensures StrictDigits(Numeral(n)) && (Numeral(n) == "0" <==> n == 0)
  {
    if n >= 10 {
      NumeralDigits(n / 10);
      assert Numeral(n) == Numeral(n / 10) + [DigitChar(n % 10)];
    }
  }

  lemma NumberDigits(n: int) returns (x: Syntax)
    requires INT_MIN <= n <= INT_MAX
    ensures Strict(x) && Lenient(x) && LaidOut(x, 0, false) && Text(x) == PrintNumber(n) && Meaning(x) == Number(n)
    ensures x.Digits?
  {
    hide Numeral, Value;
    var m := if n < 0 then -n else n;
    x := Digits(n < 0, Numeral(m));
    NumeralDigits(m);
    ValueOfNumeral(m);
    StrictIsLenient(x);
  }

  // ----- Values -----

  /** The text is this derivation, laid out like this. */
  predicate Prints(x: Syntax, j: Json, depth: nat, fmt: bool) {
    Strict(x) && Lenient(x) && LaidOut(x, depth, fmt) && Text(x) == Print(j, depth, fmt) && Meaning(x) == j
  }

  /** Every representable value is printed as a text of RFC 8259 that means the value, laid out exactly as stated. */
  lemma {:induction false} PrintLayout(j: Json, depth: nat, fmt: bool) returns (x: Syntax)
    requires Representable(j)
    ensures Prints(x, j, depth, fmt)
    decreases j, 1
  {
    match j {
      case Null => x := NullWord;
      case False => x := FalseWord;
      case True => x := TrueWord;
      case Number(n) =>
        x := NumberDigits(n);
      case Str(s) =>
        x := StringLayout(s, depth, fmt);
      case Arr(elems) =>
        x := ArrayLayout(elems, depth, fmt);
      case Obj(members) =>
        x := ObjectLayout(members, depth, fmt);
    }
  }

  lemma StringLayout(s: string, depth: nat, fmt: bool) returns (x: Syntax)
    requires NulFree(s)
    ensures Prints(x, Str(s), depth, fmt)
  {
    hide StrictPiece, AllShortest;
    var ps := PiecesOf(s);
    x := Literal(ps, true);
  }

  lemma {:induction false} ArrayLayout(elems: seq<Json>, depth: nat, fmt: bool) returns (x: Syntax)
    requires forall e :: e in elems ==> Representable(e)
    ensures Prints(x, Arr(elems), depth, fmt)
    decreases elems, 1
  {
    if elems == [] {
      x := List("", []);
      assert "[" + "" + "]" == "[]";
    } else {
      var items := ItemsLayout(elems, depth + 1, fmt, true);
      x := List("", items);
      ListPrints(items, elems, depth, fmt);
    }
  }

  /** The items of an array, the first one of all or not. */
  predicate ItemsPrint(items: seq<Item>, elems: seq<Json>, depth: nat, fmt: bool, first: bool) {
    && items != [] && elems != []
    && (forall i :: i in items ==> StrictItem(i) && LenientItem(i))
    && (forall i :: 0 <= i < |items| ==>
          items[i].before == (if fmt && !(first && i == 0) then " " else "") && ItemLaidOut(items[i], depth, fmt))
    && ItemsText(items) == (if fmt && !first then " " else "") + PrintElems(elems, depth, fmt) + "]"
    && ItemsMeaning(items) == elems
  }

  lemma ListPrints(items: seq<Item>, elems: seq<Json>, depth: nat, fmt: bool)
    requires ItemsPrint(items, elems, depth + 1, fmt, true)
    ensures Prints(List("", items), Arr(elems), depth, fmt)
  {
    hide StrictItem, LenientItem, ItemLaidOut, ItemsText, ItemsMeaning, PrintElems;
    assert "" + PrintElems(elems, depth + 1, fmt) == PrintElems(elems, depth + 1, fmt);
    assert "[" + (PrintElems(elems, depth + 1, fmt) + "]") == "[" + PrintElems(elems, depth + 1, fmt) + "]";
  }

  lemma {:induction false} ItemsLayout(elems: seq<Json>, depth: nat, fmt: bool, first: bool) returns (items: seq<Item>)
    requires elems != [] && forall e :: e in elems ==> Representable(e)
    ensures ItemsPrint(items, elems, depth, fmt, first)
    decreases elems, 0
  {
    hide Prints, ItemsPrint;
    var x := PrintLayout(elems[0], depth, fmt);
    var i := Item(if fmt && !first then " " else "", x, "");
    if |elems| == 1 {
      items := [i];
      LastPrints(i, elems, depth, fmt, first);
    } else {
      var more := ItemsLayout(elems[1..], depth, fmt, false);
      items := [i] + more;
      FirstPrints(i, more, elems, depth, fmt, first);
    }
  }

  lemma ItemPrints(i: Item, j: Json, depth: nat, fmt: bool, first: bool)
    requires Prints(i.value, j, depth, fmt) && i.before == (if fmt && !first then " " else "") && i.after == ""
    ensures StrictItem(i) && LenientItem(i) && ItemLaidOut(i, depth, fmt)
    ensures ItemText(i) == i.before + Print(j, depth, fmt) && Meaning(i.value) == j
  {
    hide Strict, Lenient, LaidOut, Text, Meaning, Print;
    StrictIsLenient(i.value);
    assert i.before + Text(i.value) + "" == i.before + Text(i.value);
  }

  lemma LastPrints(i: Item, elems: seq<Json>, depth: nat, fmt: bool, first: bool)
    requires |elems| == 1 && Prints(i.value, elems[0], depth, fmt)
    requires i.before == (if fmt && !first then " " else "") && i.after == ""
    ensures ItemsPrint([i], elems, depth, fmt, first)
  {
    hide Prints, StrictItem, LenientItem, ItemLaidOut, ItemText, Print, Meaning;
    ItemPrints(i, elems[0], depth, fmt, first);
    var p := Print(elems[0], depth, fmt);
    assert PrintElems(elems, depth, fmt) == p by {
      assert p + "" == p;
    }
    assert ItemsText([i]) == ItemText(i) + "]";
    MeaningOne(i);
    assert elems == [elems[0]];
  }

  lemma MeaningOne(i: Item)
    requires LenientItem(i)
    ensures ItemsMeaning([i]) == [Meaning(i.value)]
  {
    assert [i][1..] == [];
    assert forall k :: k in [i] ==> k == i;
  }

  lemma MeaningMore(i: Item, more: seq<Item>)
    requires LenientItem(i) && forall k :: k in more ==> LenientItem(k)
    ensures forall k :: k in [i] + more ==> LenientItem(k)
    ensures ItemsMeaning([i] + more) == [Meaning(i.value)] + ItemsMeaning(more)
  {
    hide LenientItem;
    assert ([i] + more)[1..] == more;
  }

  lemma FirstPrints(i: Item, more: seq<Item>, elems: seq<Json>, depth: nat, fmt: bool, first: bool)
    requires |elems| > 1 && Prints(i.value, elems[0], depth, fmt)
    requires i.before == (if fmt && !first then " " else "") && i.after == ""
    requires ItemsPrint(more, elems[1..], depth, fmt, false)
    ensures ItemsPrint([i] + more, elems, depth, fmt, first)
  {
    hide Prints, StrictItem, LenientItem, ItemLaidOut, ItemText, Print, Meaning;
    ItemPrints(i, elems[0], depth, fmt, first);
    var items := [i] + more;
    assert items[1..] == more;
    MeaningMore(i, more);
    assert elems == [elems[0]] + elems[1..];
    var p, q := Print(elems[0], depth, fmt), PrintElems(elems[1..], depth, fmt);
    var blank := if fmt then " " else "";
    assert PrintElems(elems, depth, fmt) == p + (Comma(fmt) + q);
    assert ItemsText(items) == ItemText(i) + ("," + ItemsText(more));
    assert ItemsText(more) == blank + q + "]";
    assert "," + (blank + q + "]") == Comma(fmt) + q + "]";
    assert i.before + p + (Comma(fmt) + q + "]") == i.before + (p + (Comma(fmt) + q)) + "]";
    assert forall k {:trigger items[k]} :: 0 < k < |items| ==> items[k] == more[k - 1];
  }

  lemma {:induction false} ObjectLayout(members: seq<Member>, depth: nat, fmt: bool) returns (x: Syntax)
    requires forall m :: m in members ==> NulFree(m.name) && Representable(m.value)
    ensures Prints(x, Obj(members), depth, fmt)
    decreases members, 2
  {
    hide Prints, EntriesPrint;
    if members == [] {
      x := EmptyLayout(depth, fmt);
    } else {
      var entries := EntriesLayout(members, depth + 1, fmt);
      x := Table("", entries);
      TablePrints(entries, members, depth, fmt);
    }
  }

  lemma IndentOk(tabs: string, depth: nat)
    requires tabs == Tabs(depth)
    ensures Indent("\n" + tabs, depth) && StrictBlank("\n" + tabs) && Blank("\n" + tabs)
  {}

  lemma EmptyText(tabs: string)
    ensures "{" + ("\n" + tabs) + "}" == "{\n" + tabs + "}" && "{" + "" + "}" == "{}"
  {}

  lemma EmptyLayout(depth: nat, fmt: bool) returns (x: Syntax)
    ensures Prints(x, Obj([]), depth, fmt)
  {
    hide Indent, Tabs, StrictBlank, Blank;
    IndentOk(Tabs(depth), depth);
    EmptyText(Tabs(depth));
    NoBlank();
    var blank := if fmt then "\n" + Tabs(depth) else "";
    x := Table(blank, []);
    assert Lenient(x) && Meaning(x) == Obj([]);
    assert Text(x) == "{" + blank + "}";
    assert Print(Obj([]), depth, fmt) == if fmt then "{\n" + Tabs(depth) + "}" else "{}";
  }

  lemma NoBlank()
    ensures StrictBlank("") && Blank("")
  {}

  predicate EntriesPrint(entries: seq<Entry>, members: seq<Member>, depth: nat, fmt: bool) {
    && entries != [] && members != []
    && (forall e :: e in entries ==> StrictEntry(e) && LenientEntry(e))
    && (forall i :: 0 <= i < |entries| ==> EntryLaidOut(entries[i], depth, fmt))
    && EntriesText(entries) == PrintMembers(members, depth, fmt) + "}"
    && EntriesMeaning(entries) == members
  }

  lemma TablePrints(entries: seq<Entry>, members: seq<Member>, depth: nat, fmt: bool)
    requires EntriesPrint(entries, members, depth + 1, fmt)
    ensures Prints(Table("", entries), Obj(members), depth, fmt)
  {
    hide StrictEntry, LenientEntry, EntryLaidOut, EntriesText, EntriesMeaning, PrintMembers;
    assert "{" + (PrintMembers(members, depth + 1, fmt) + "}") == "{" + PrintMembers(members, depth + 1, fmt) + "}";
  }

  /** The derivation of one member. */
  predicate EntryPrints(e: Entry, m: Member, depth: nat, fmt: bool) {
    && StrictEntry(e) && LenientEntry(e) && EntryLaidOut(e, depth, fmt)
    && EntryText(e) == PrintMember(m, depth, fmt) && EntryMeaning(e) == m
  }

  lemma {:induction false} EntriesLayout(members: seq<Member>, depth: nat, fmt: bool) returns (entries: seq<Entry>)
    requires members != [] && forall m :: m in members ==> NulFree(m.name) && Representable(m.value)
    ensures EntriesPrint(entries, members, depth, fmt)
    decreases members, 1
  {
    hide EntriesPrint, EntryPrints;
    var e := EntryLayout(members[0], depth, fmt);
    if |members| == 1 {
      entries := [e];
      LastEntryPrints(e, members, depth, fmt);
    } else {
      var more := EntriesLayout(members[1..], depth, fmt);
      entries := [e] + more;
      FirstEntryPrints(e, more, members, depth, fmt);
    }
  }

  lemma {:induction false} EntryLayout(m: Member, depth: nat, fmt: bool) returns (e: Entry)
    requires NulFree(m.name) && Representable(m.value)
    ensures EntryPrints(e, m, depth, fmt)
    decreases m, 0
  {
    hide Prints, StrictPiece, AllShortest, PiecesOk;
    var x := PrintLayout(m.value, depth, fmt);
    var ps := PiecesOf(m.name);
    e := Entry("", ps, "", Item("", x, ""));
    EntryBuilt(e, m, x, depth, fmt);
  }

  lemma EntryBuilt(e: Entry, m: Member, x: Syntax, depth: nat, fmt: bool)
    requires e == Entry("", e.name, "", Item("", x, "")) && Prints(x, m.value, depth, fmt)
    requires AllShortest(e.name) && (forall p :: p in e.name ==> StrictPiece(p)) && PiecesOk(e.name)
    requires PiecesText(e.name) == Escape(m.name) && PiecesValue(e.name) == m.name
    ensures EntryPrints(e, m, depth, fmt)
  {
    hide Prints, StrictItem, LenientItem, ItemLaidOut, ItemText, Print, Meaning, AllShortest, StrictPiece, PiecesOk;
    hide PiecesText, PiecesValue, Escape;
    ItemPrints(e.item, m.value, depth, fmt, true);
    var name, p := "\"" + Escape(m.name) + "\"", Print(m.value, depth, fmt);
    assert "" + "\"" + Escape(m.name) + "\"" + "" + ":" + ("" + p) == name + ":" + p;
  }

  lemma EntryMeaningMore(e: Entry, more: seq<Entry>)
    requires LenientEntry(e) && forall k :: k in more ==> LenientEntry(k)
    ensures forall k :: k in [e] + more ==> LenientEntry(k)
    ensures EntriesMeaning([e] + more) == [EntryMeaning(e)] + EntriesMeaning(more)
  {
    hide LenientEntry;
    assert ([e] + more)[1..] == more;
  }

  lemma LastEntryPrints(e: Entry, members: seq<Member>, depth: nat, fmt: bool)
    requires |members| == 1 && EntryPrints(e, members[0], depth, fmt)
    ensures EntriesPrint([e], members, depth, fmt)
  {
    hide StrictEntry, LenientEntry, EntryLaidOut, EntryText, EntryMeaning, PrintMember;
    EntryMeaningMore(e, []);
    assert [e] + [] == [e] && EntriesMeaning([]) == [];
    var p := PrintMember(members[0], depth, fmt);
    assert p + "" == p;
    assert members == [members[0]];
  }

  lemma FirstEntryPrints(e: Entry, more: seq<Entry>, members: seq<Member>, depth: nat, fmt: bool)
    requires |members| > 1 && EntryPrints(e, members[0], depth, fmt) && EntriesPrint(more, members[1..], depth, fmt)
    ensures EntriesPrint([e] + more, members, depth, fmt)
  {
    hide StrictEntry, LenientEntry, EntryLaidOut, EntryText, EntryMeaning, PrintMember;
    var entries := [e] + more;
    assert entries[1..] == more;
    EntryMeaningMore(e, more);
    assert members == [members[0]] + members[1..];
    var p, q := PrintMember(members[0], depth, fmt), PrintMembers(members[1..], depth, fmt);
    assert p + ("," + (q + "}")) == p + ("," + q) + "}";
    assert forall k {:trigger entries[k]} :: 0 < k < |entries| ==> entries[k] == more[k - 1];
  }
}
