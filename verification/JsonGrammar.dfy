/**
  The texts that are accepted: a grammar whose derivations are values, what each derivation spells and what it means,
  and the parser as its exact recogniser. The grammar of RFC 8259 is the strict part of it.
*/
module JsonGrammar {
  import opened Decimal
  import opened JsonText
  import opened JsonRoundTrip
  import opened JsonUnicode
  import opened JsonDocument

  // ----- The grammar -----

  /** What passes for white space. */
  predicate Blank(s: string) {
    forall i :: 0 <= i < |s| ==> '\0' < s[i] <= ' '
  }

  /** One character of a literal: as it is, behind a backslash, or as the escape of a code point. */
  datatype Piece = Plain(c: char) | Short(c: char) | Coded(spelling: string, cp: nat)

  predicate PieceOk(p: Piece) {
    match p
    case Plain(c) => c != '"' && c != '\\'
    case Short(c) => c != 'u'
    case Coded(s, cp) => cp != 0 && Spells(s, |s|, cp)
  }

  predicate PiecesOk(ps: seq<Piece>) {
    forall p :: p in ps ==> PieceOk(p)
  }

  function PieceText(p: Piece): string {
    match p
    case Plain(c) => [c]
    case Short(c) => ['\\', c]
    case Coded(s, _) => s
  }

  function PieceValue(p: Piece): string
    requires PieceOk(p)
  {
    match p
    case Plain(c) => [c]
    case Short(c) => [SimpleEscape(c)]
    case Coded(_, cp) => Utf8(cp)
  }

  function PiecesText(ps: seq<Piece>): string {
    if ps == [] then "" else PieceText(ps[0]) + PiecesText(ps[1..])
  }

  function PiecesValue(ps: seq<Piece>): string
    requires PiecesOk(ps)
  {
    if ps == [] then "" else PieceValue(ps[0]) + PiecesValue(ps[1..])
  }

  /** A literal that is not closed ends with the text. */
  datatype Syntax =
    | NullWord
    | FalseWord
    | TrueWord
    | Digits(minus: bool, digits: string)
    | Literal(pieces: seq<Piece>, closed: bool)
    | List(blank: string, items: seq<Item>)
    | Table(blank: string, entries: seq<Entry>)

  datatype Item = Item(before: string, value: Syntax, after: string)

  datatype Entry = Entry(beforeName: string, name: seq<Piece>, afterName: string, item: Item)

  predicate Open(x: Syntax) {
    x.Literal? && !x.closed
  }

  predicate AllDigits(s: string) {
    forall i :: 0 <= i < |s| ==> IsDigit(s[i])
  }

  function Signed(minus: bool, digits: string): int
    requires AllDigits(digits)
  {
    var m: int := Value(0, digits);
    if minus then -m else m
  }

  /** A number may start with one zero too many, and may be nothing but a minus sign. */
  predicate DigitsOk(minus: bool, digits: string) {
    && AllDigits(digits) && !("00" <= digits) && (minus || digits != "")
    && INT_MIN <= Signed(minus, digits) <= INT_MAX
  }

  predicate Lenient(x: Syntax)
    decreases x, 1
  {
    match x
    case NullWord => true
    case FalseWord => true
    case TrueWord => true
    case Digits(minus, digits) => DigitsOk(minus, digits)
    case Literal(pieces, _) => PiecesOk(pieces)
    case List(blank, items) => Blank(blank) && forall i :: i in items ==> LenientItem(i)
    case Table(blank, entries) => Blank(blank) && forall e :: e in entries ==> LenientEntry(e)
  }

  predicate LenientItem(i: Item)
    decreases i, 0
  {
    Blank(i.before) && Lenient(i.value) && !Open(i.value) && Blank(i.after)
  }

  predicate LenientEntry(e: Entry)
    decreases e, 0
  {
    Blank(e.beforeName) && PiecesOk(e.name) && Blank(e.afterName) && LenientItem(e.item)
  }

  // ----- What a derivation spells -----

  function Text(x: Syntax): string
    decreases x, 1
  {
    match x
    case NullWord => "null"
    case FalseWord => "false"
    case TrueWord => "true"
    case Digits(minus, digits) => (if minus then "-" else "") + digits
    case Literal(pieces, closed) => "\"" + PiecesText(pieces) + (if closed then "\"" else "")
    case List(blank, items) => if items == [] then "[" + blank + "]" else "[" + ItemsText(items)
    case Table(blank, entries) => if entries == [] then "{" + blank + "}" else "{" + EntriesText(entries)
  }

  function ItemText(i: Item): string
    decreases i, 0
  {
    i.before + Text(i.value) + i.after
  }

  /** Up to and including the closing bracket. */
  function ItemsText(items: seq<Item>): string
    requires items != []
    decreases items, 0
  {
    ItemText(items[0]) + (if |items| == 1 then "]" else "," + ItemsText(items[1..]))
  }

  function EntryText(e: Entry): string
    decreases e, 0
  {
    e.beforeName + "\"" + PiecesText(e.name) + "\"" + e.afterName + ":" + ItemText(e.item)
  }

  function EntriesText(entries: seq<Entry>): string
    requires entries != []
    decreases entries, 0
  {
    EntryText(entries[0]) + (if |entries| == 1 then "}" else "," + EntriesText(entries[1..]))
  }

  // ----- What it means -----

  function Meaning(x: Syntax): Json
    requires Lenient(x)
    decreases x, 1
  {
    match x
    case NullWord => Null
    case FalseWord => False
    case TrueWord => True
    case Digits(minus, digits) => Number(Signed(minus, digits))
    case Literal(pieces, _) => Str(PiecesValue(pieces))
    case List(_, items) => Arr(ItemsMeaning(items))
    case Table(_, entries) => Obj(EntriesMeaning(entries))
  }

  function ItemsMeaning(items: seq<Item>): seq<Json>
    requires forall i :: i in items ==> LenientItem(i)
    decreases items, 0
  {
    if items == [] then []
    else
      assert LenientItem(items[0]);
      [Meaning(items[0].value)] + ItemsMeaning(items[1..])
  }

  function EntryMeaning(e: Entry): Member
    requires LenientEntry(e)
    decreases e, 0
  {
    assert LenientItem(e.item);
    Member(PiecesValue(e.name), Meaning(e.item.value))
  }

  function EntriesMeaning(entries: seq<Entry>): seq<Member>
    requires forall e :: e in entries ==> LenientEntry(e)
    decreases entries, 0
  {
    if entries == [] then []
    else
      assert LenientEntry(entries[0]);
      [EntryMeaning(entries[0])] + EntriesMeaning(entries[1..])
  }

  // ----- Derivable texts are read: literals -----

  lemma UnitPlain(s: string, i: nat, u: nat)
    requires UnitAt(s, i, u)
    ensures forall k :: i + 2 <= k < i + 6 ==> s[k] != '"' && s[k] != '\\'
  {
    hide HexDigit, LowerHex, LowerAll;
    var q, d := s[i + 2..i + 6], [u / 4096, u / 256 % 16, u / 16 % 16, u % 16];
    forall k | i + 2 <= k < i + 6
      ensures s[k] != '"' && s[k] != '\\'
    {
      assert q[k - i - 2] == s[k] && LowerHex(s[k]) == HexQuad(u)[k - i - 2] == HexDigit(d[k - i - 2]);
      DigitPlain(s[k], d[k - i - 2]);
    }
  }

  lemma DigitPlain(c: char, d: nat)
    requires d < 16 && LowerHex(c) == HexDigit(d)
    ensures c != '"' && c != '\\'
  {}

  lemma CodedUnits(s: string, cp: nat)
    requires Spells(s, |s|, cp)
    ensures |s| == 6 || |s| == 12
    ensures exists u :: UnitAt(s, 0, u)
    ensures |s| == 12 ==> exists v :: UnitAt(s, 6, v)
  {
    hide HexQuad;
    assert s[..|s|] == s;
    if cp < 0x10000 {
      assert s[0..6] == s;
      UnitSpelled(s, 0, cp);
    } else {
      assert s[..12] == s;
      PairSpelled(s, 0xD800 + (cp - 0x10000) / 0x400, 0xDC00 + (cp - 0x10000) % 0x400);
    }
  }

  lemma UnitCloses(s: string, u: nat, t: string)
    requires |s| == 6 && UnitAt(s, 0, u)
    ensures CloseIndex(s + t) == 6 + CloseIndex(t)
  {
    UnitPlain(s, 0, u);
    SkipPlain(s[2..], t);
    assert (s + t)[2..] == s[2..] + t;
  }

  lemma PieceCloses(p: Piece, t: string)
    requires PieceOk(p)
    ensures CloseIndex(PieceText(p) + t) == |PieceText(p)| + CloseIndex(t)
  {
    hide Spells, UnitAt;
    var s := PieceText(p) + t;
    match p
    case Plain(c) => assert s[1..] == t;
    case Short(c) => assert s[2..] == t;
    case Coded(e, cp) =>
      CodedUnits(e, cp);
      CodedCloses(e, t);
  }

  lemma CodedCloses(e: string, t: string)
    requires |e| == 6 || |e| == 12
    requires exists u :: UnitAt(e, 0, u)
    requires |e| == 12 ==> exists v :: UnitAt(e, 6, v)
    ensures CloseIndex(e + t) == |e| + CloseIndex(t)
  {
    hide CloseIndex, HexQuad, LowerAll;
    var u :| UnitAt(e, 0, u);
    if |e| == 6 {
      UnitCloses(e, u, t);
    } else {
      var v :| UnitAt(e, 6, v);
      assert e[6..][2..6] == e[8..12] && e[..6][2..6] == e[2..6];
      UnitCloses(e[..6], u, e[6..] + t);
      UnitCloses(e[6..], v, t);
      assert e[..6] + (e[6..] + t) == e + t;
    }
  }

  lemma {:induction false} PiecesClose(ps: seq<Piece>, t: string)
    requires PiecesOk(ps)
    ensures CloseIndex(PiecesText(ps) + t) == |PiecesText(ps)| + CloseIndex(t)
    decreases |ps|
  {
    hide CloseIndex, PieceText, PieceOk;
    if ps == [] {
      assert PiecesText(ps) + t == t;
    } else {
      PiecesClose(ps[1..], t);
      PieceCloses(ps[0], PiecesText(ps[1..]) + t);
      assert PiecesText(ps) + t == PieceText(ps[0]) + (PiecesText(ps[1..]) + t);
    }
  }

  lemma PieceRead(p: Piece, t: string)
    requires PieceOk(p) && Unescape(t).Some?
    ensures Unescape(PieceText(p) + t) == Some(PieceValue(p) + Unescape(t).value)
  {
    hide UnicodeEscape, Spell, LowerAll, Utf8;
    var s := PieceText(p) + t;
    match p
    case Plain(c) => assert s[1..] == t;
    case Short(c) => assert s[2..] == t;
    case Coded(e, cp) => CodedRead(e, cp, t);
  }

  lemma CodedRead(e: string, cp: nat, t: string)
    requires cp != 0 && Spells(e, |e|, cp) && Unescape(t).Some?
    ensures Unescape(e + t) == Some(Utf8(cp) + Unescape(t).value)
  {
    hide Unescape, Utf8, HexQuad;
    var s := e + t;
    CodedUnits(e, cp);
    var u :| UnitAt(e, 0, u);
    assert s[..|e|] == e && e[..|e|] == e && s[|e|..] == t;
    EscapeMeansCodePoint(s, |e|, cp);
  }

  lemma {:induction false} PiecesRead(ps: seq<Piece>)
    requires PiecesOk(ps)
    ensures Unescape(PiecesText(ps)) == Some(PiecesValue(ps))
    decreases |ps|
  {
    if ps != [] {
      hide Unescape, PieceText, PieceValue, PieceOk;
      PiecesRead(ps[1..]);
      PieceRead(ps[0], PiecesText(ps[1..]));
    }
  }

  lemma ReadLiteral(ps: seq<Piece>, closed: bool, rest: string)
    requires PiecesOk(ps) && (!closed ==> rest == [])
    ensures ParseString("\"" + PiecesText(ps) + (if closed then "\"" else "") + rest) == Parsed(PiecesValue(ps), rest)
  {
    hide CloseIndex, PiecesText, Unescape, PiecesValue, PiecesOk;
    var t := PiecesText(ps);
    var close := (if closed then "\"" else "") + rest;
    var s := "\"" + t + (if closed then "\"" else "") + rest;
    PiecesRead(ps);
    PiecesClose(ps, close);
    CloseHere(close, closed);
    assert s[1..] == t + close;
    assert (t + close)[..|t|] == t;
    assert closed ==> (t + close)[|t| + 1..] == rest;
  }

  lemma CloseHere(s: string, closed: bool)
    requires if closed then StartsWith(s, '"') else s == []
    ensures CloseIndex(s) == 0
  {}

  // ----- Numbers -----

  lemma ReadDigits(minus: bool, digits: string, rest: string)
    requires DigitsOk(minus, digits) && EndsNumber(rest)
    ensures var s := Text(Digits(minus, digits)) + rest;
      s != [] && (s[0] == '-' || IsDigit(s[0])) && ParseNumber(s) == Parsed(Number(Signed(minus, digits)), rest)
  {
    hide IntegerRun, Value;
    var s := Text(Digits(minus, digits)) + rest;
    var t := digits + rest;
    assert if minus then s[0] == '-' && s[1..] == t else s == t && s[0] == digits[0] && s[0] != '-';
    RunOfDigits(digits, rest);
    assert t[..|digits|] == digits && t[|digits|..] == rest;
  }

  lemma RunOfDigits(digits: string, rest: string)
    requires AllDigits(digits) && !("00" <= digits) && (rest == [] || !IsDigit(rest[0]))
    ensures IntegerRun(digits + rest) == |digits|
  {
    var t := digits + rest;
    if StartsWith(t, '0') {
      assert digits != [];
      assert t[1..] == digits[1..] + rest;
      RunLengthOfPrefix(digits[1..], rest);
    } else {
      assert t[0..] == t;
      RunLengthOfPrefix(digits, rest);
    }
  }

  /** A fraction or an exponent goes on. */
  predicate GoesOn(rest: string) {
    && rest != []
    && (rest[0] == 'e' || rest[0] == 'E' || (rest[0] == '.' && |rest| > 1 && '0' <= rest[1] <= '9'))
  }

  /** A run of digits is read as an int, or left to the arithmetic of reals that is not modelled: that is so exactly
      when a fraction or an exponent goes on, or when it is no int. */
  lemma NumberExactly(minus: bool, digits: string, rest: string)
    requires AllDigits(digits) && !("00" <= digits) && (minus || digits != "") && (rest == [] || !IsDigit(rest[0]))
    ensures var s := (if minus then "-" else "") + digits + rest;
      var n := Signed(minus, digits);
      && s != [] && (s[0] == '-' || IsDigit(s[0]))
      && ParseNumber(s) ==
         if GoesOn(rest) || !(-0x8000_0000 <= n <= 0x7FFF_FFFF) then Unmodelled else Parsed(Number(n), rest)
  {
    hide IntegerRun, Value;
    var s := (if minus then "-" else "") + digits + rest;
    var t := digits + rest;
    assert if minus then s[0] == '-' && s[1..] == t else s == t && s[0] == digits[0] && s[0] != '-';
    RunOfDigits(digits, rest);
    assert t[..|digits|] == digits && t[|digits|..] == rest;
  }

  // ----- Values -----

  lemma SkipBlanks(b: string, t: string)
    requires Blank(b) && t != [] && t[0] > ' '
    ensures Skip(b + t) == t
  {
    SkipRun(b + t, |b|);
    assert (b + t)[|b|..] == t;
    SkipNothing(t);
  }

  lemma SkipAll(b: string)
    requires Blank(b)
    ensures Skip(b) == []
  {
    SkipRun(b, |b|);
    assert b[|b|..] == [];
  }

  lemma {:induction false} SkipTwice(s: string)
    ensures Skip(Skip(s)) == Skip(s)
    decreases |s|
  {
    if s != [] && '\0' < s[0] <= ' ' {
      SkipTwice(s[1..]);
    }
  }

  /** A value starts with a character that is neither white space nor closes or separates anything. */
  lemma TextStart(x: Syntax)
    requires Lenient(x)
    ensures Text(x) != [] && Text(x)[0] > ' ' && Text(x)[0] !in "]},"
  {
    match x
    case Digits(minus, digits) => assert !minus ==> IsDigit(digits[0]);
    case _ =>
  }

  /** What follows a value in a list or a table. */
  predicate Follows(after: string, more: string) {
    Blank(after) && more != [] && more[0] in ",]}"
  }

  lemma FollowingEnds(after: string, more: string)
    requires Follows(after, more)
    ensures EndsNumber(after + more) && Skip(after + more) == more
  {
    SkipBlanks(after, more);
  }

  lemma ItemStart(i: Item, more: string)
    requires LenientItem(i)
    ensures var s := Text(i.value) + (i.after + more);
      && ItemText(i) + more == i.before + s
      && Skip(ItemText(i) + more) == s && s != [] && s[0] !in "]},"
  {
    hide Text, Lenient;
    var s := Text(i.value) + (i.after + more);
    TextStart(i.value);
    assert ItemText(i) + more == i.before + s;
    SkipBlanks(i.before, s);
  }

  lemma ReadWord(x: Syntax, rest: string)
    requires x.NullWord? || x.FalseWord? || x.TrueWord?
    ensures ParseValue(Text(x) + rest) == Parsed(Meaning(x), rest)
  {
    var text := Text(x);
    var s := text + rest;
    assert s[..|text|] == text && s[|text|..] == rest;
    assert s[0] == text[0];
  }

  /** Every derivable text is read, as the value it means, up to its end. */
  lemma {:induction false} ReadValue(x: Syntax, rest: string)
    requires Lenient(x) && EndsNumber(rest) && (Open(x) ==> rest == [])
    ensures ParseValue(Text(x) + rest) == Parsed(Meaning(x), rest)
    decreases x, 2
  {
    hide ItemsText, EntriesText, ParseString, ParseNumber, ParseArray, ParseObject, DigitsOk, PiecesText, PiecesOk;
    var s := Text(x) + rest;
    match x
    case Digits(minus, digits) => ReadDigits(minus, digits, rest);
    case Literal(pieces, closed) =>
      assert s[0] == '"';
      ReadLiteral(pieces, closed, rest);
    case List(blank, items) =>
      assert s[0] == '[';
      ReadList(blank, items, rest);
    case Table(blank, entries) =>
      assert s[0] == '{';
      ReadTable(blank, entries, rest);
    case _ => ReadWord(x, rest);
  }

  lemma {:induction false} ReadList(blank: string, items: seq<Item>, rest: string)
    requires Blank(blank) && forall i :: i in items ==> LenientItem(i)
    ensures ParseArray(Text(List(blank, items)) + rest) == Parsed(Arr(ItemsMeaning(items)), rest)
    decreases items, 1
  {
    hide ParseElems, LenientItem, ItemsText;
    var s := Text(List(blank, items)) + rest;
    if items == [] {
      var close := "]" + rest;
      assert s[1..] == blank + close && close[1..] == rest;
      SkipBlanks(blank, close);
    } else {
      var t := ItemsText(items) + rest;
      assert s[1..] == t;
      ReadItems(items, rest);
      FirstItem(items, rest);
    }
  }

  /** Nothing is lost when the white space in front of the first item has been skipped already. */
  lemma FirstItem(items: seq<Item>, rest: string)
    requires items != [] && LenientItem(items[0])
    ensures var t := ItemsText(items) + rest;
      !StartsWith(Skip(t), ']') && ParseElems(Skip(t)) == ParseElems(t)
  {
    hide LenientItem, ItemText, ParseValue;
    var t := ItemsText(items) + rest;
    var more := (if |items| == 1 then "]" else "," + ItemsText(items[1..])) + rest;
    assert t == ItemText(items[0]) + more;
    ItemStart(items[0], more);
    SkipTwice(t);
  }

  lemma ItemsStep(s: string, v: Json, after: string, more: string, vs: seq<Json>, rest: string)
    requires ParseValue(Skip(s)) == Parsed(v, after) && Skip(after) == more
    requires if vs == [] then more == "]" + rest
             else StartsWith(more, ',') && ParseElems(more[1..]) == Parsed(vs, rest)
    ensures ParseElems(s) == Parsed([v] + vs, rest)
  {
    hide ParseValue;
    assert StartsWith(more, ']') ==> more[1..] == rest;
    assert [v] + [] == [v];
  }

  lemma {:induction false} ReadItems(items: seq<Item>, rest: string)
    requires items != [] && forall i :: i in items ==> LenientItem(i)
    ensures ParseElems(ItemsText(items) + rest) == Parsed(ItemsMeaning(items), rest)
    decreases items, 0
  {
    hide ParseElems, ParseValue, ItemText, Meaning, Text, Lenient, Skip;
    var i := items[0];
    assert LenientItem(i);
    var more := (if |items| == 1 then "]" else "," + ItemsText(items[1..])) + rest;
    var s := ItemsText(items) + rest;
    assert s == ItemText(i) + more;
    ItemStart(i, more);
    FollowingEnds(i.after, more);
    ReadValue(i.value, i.after + more);
    if |items| > 1 {
      ReadItems(items[1..], rest);
      assert more[1..] == ItemsText(items[1..]) + rest;
      assert ItemsMeaning(items[1..]) != [];
    }
    ItemsStep(s, Meaning(i.value), i.after + more, more, ItemsMeaning(items[1..]), rest);
  }

  lemma {:induction false} ReadTable(blank: string, entries: seq<Entry>, rest: string)
    requires Blank(blank) && forall e :: e in entries ==> LenientEntry(e)
    ensures ParseObject(Text(Table(blank, entries)) + rest) == Parsed(Obj(EntriesMeaning(entries)), rest)
    decreases entries, 2
  {
    hide ParseMembers, LenientEntry, EntriesText;
    var s := Text(Table(blank, entries)) + rest;
    if entries == [] {
      var close := "}" + rest;
      assert s[1..] == blank + close && close[1..] == rest;
      SkipBlanks(blank, close);
    } else {
      var t := EntriesText(entries) + rest;
      assert s[1..] == t;
      ReadEntries(entries, rest);
      FirstEntry(entries, rest);
    }
  }

  /** What stands behind the name of an entry. */
  function EntryTail(e: Entry, more: string): string {
    e.afterName + (":" + (ItemText(e.item) + more))
  }

  lemma EntryStart(e: Entry, more: string)
    requires LenientEntry(e)
    ensures var s := "\"" + PiecesText(e.name) + "\"" + EntryTail(e, more);
      EntryText(e) + more == e.beforeName + s && Skip(EntryText(e) + more) == s
  {
    hide ItemText, PiecesText;
    var s := "\"" + PiecesText(e.name) + "\"" + EntryTail(e, more);
    assert EntryText(e) + more == e.beforeName + s;
    SkipBlanks(e.beforeName, s);
  }

  lemma FirstEntry(entries: seq<Entry>, rest: string)
    requires entries != [] && LenientEntry(entries[0])
    ensures var t := EntriesText(entries) + rest;
      !StartsWith(Skip(t), '}') && ParseMembers(Skip(t)) == ParseMembers(t)
  {
    hide LenientEntry, EntryText, ParseMembers, Skip, EntryTail, PiecesText;
    var t := EntriesText(entries) + rest;
    var more := (if |entries| == 1 then "}" else "," + EntriesText(entries[1..])) + rest;
    assert t == EntryText(entries[0]) + more;
    EntryStart(entries[0], more);
    MembersSkip(t);
  }

  lemma MembersSkip(t: string)
    ensures ParseMembers(Skip(t)) == ParseMembers(t)
  {
    hide ParseValue, ParseString;
    SkipTwice(t);
  }

  lemma EntryStep(s: string, name: string, tail: string, text: string, v: Json, rest: string)
    requires ParseString(Skip(s)) == Parsed(name, tail) && Skip(tail) == ":" + text
    requires ParseValue(Skip(text)) == Parsed(v, rest)
    ensures ParseMember(s) == Parsed(Member(name, v), rest)
  {
    hide ParseString, ParseValue, Skip;
    assert (":" + text)[1..] == text;
  }

  lemma {:induction false} ReadEntry(e: Entry, more: string)
    requires LenientEntry(e) && Follows(e.item.after, more)
    ensures ParseMember(EntryText(e) + more) == Parsed(EntryMeaning(e), e.item.after + more)
    decreases e, 0
  {
    hide ParseMember, ParseString, ParseValue, ItemText, EntryText, Meaning, Text, Lenient, Skip, PiecesText, PiecesOk;
    var i, tail := e.item, EntryTail(e, more);
    assert LenientItem(i);
    EntryStart(e, more);
    ReadLiteral(e.name, true, tail);
    SkipBlanks(e.afterName, ":" + (ItemText(i) + more));
    ItemStart(i, more);
    FollowingEnds(i.after, more);
    ReadValue(i.value, i.after + more);
    EntryStep(EntryText(e) + more, PiecesValue(e.name), tail, ItemText(i) + more, Meaning(i.value), i.after + more);
  }

  lemma EntriesStep(s: string, m: Member, after: string, more: string, ms: seq<Member>, rest: string)
    requires ParseMember(s) == Parsed(m, after) && Skip(after) == more
    requires if ms == [] then more == "}" + rest
             else StartsWith(more, ',') && ParseMembers(more[1..]) == Parsed(ms, rest)
    ensures ParseMembers(s) == Parsed([m] + ms, rest)
  {
    hide ParseMember;
    assert StartsWith(more, '}') ==> more[1..] == rest;
    assert [m] + [] == [m];
  }

  lemma {:induction false} ReadEntries(entries: seq<Entry>, rest: string)
    requires entries != [] && forall e :: e in entries ==> LenientEntry(e)
    ensures ParseMembers(EntriesText(entries) + rest) == Parsed(EntriesMeaning(entries), rest)
    decreases entries, 1
  {
    hide ParseMembers, ParseMember, EntryText, EntryMeaning, Lenient, Skip;
    var e := entries[0];
    assert LenientEntry(e);
    assert Blank(e.item.after) by {
      assert LenientItem(e.item);
    }
    var more := (if |entries| == 1 then "}" else "," + EntriesText(entries[1..])) + rest;
    var s := EntriesText(entries) + rest;
    assert s == EntryText(e) + more;
    FollowingEnds(e.item.after, more);
    ReadEntry(e, more);
    if |entries| > 1 {
      ReadEntries(entries[1..], rest);
      assert more[1..] == EntriesText(entries[1..]) + rest;
      assert EntriesMeaning(entries[1..]) != [];
    }
    EntriesStep(s, EntryMeaning(e), e.item.after + more, more, EntriesMeaning(entries[1..]), rest);
  }

  // ----- Texts that are read are derivable -----

  lemma {:induction false} FindBlank(s: string) returns (b: string)
    ensures Blank(b) && s == b + Skip(s)
    decreases |s|
  {
    if s != [] && '\0' < s[0] <= ' ' {
      var c := FindBlank(s[1..]);
      b := [s[0]] + c;
      assert s == [s[0]] + s[1..];
    } else {
      b := [];
    }
  }

  /** The piece in front of a literal body. */
  lemma FindPiece(s: string) returns (p: Piece)
    requires s != [] && s[0] != '"' && Unescape(s).Some?
    ensures PieceOk(p) && PieceText(p) != [] && PieceText(p) <= s
    ensures Unescape(s[|PieceText(p)|..]).Some?
    ensures Unescape(s) == Some(PieceValue(p) + Unescape(s[|PieceText(p)|..]).value)
  {
    hide Spells, Utf8, SimpleEscape;
    if s[0] != '\\' {
      p := Plain(s[0]);
    } else if s[1] != 'u' {
      p := Short(s[1]);
    } else {
      var e := UnicodeEscape(s);
      EscapeExact(s, e.cp, e.used);
      p := Coded(s[..e.used], e.cp);
      SpelledPrefix(s, e.used, e.cp);
    }
  }

  lemma SpelledPrefix(s: string, n: nat, cp: nat)
    requires Spells(s, n, cp)
    ensures n <= |s| && Spells(s[..n], |s[..n]|, cp) && n > 0
  {
    hide HexQuad;
    assert s[..n][..n] == s[..n];
  }

  lemma FirstPiece(ps: seq<Piece>, p: Piece)
    requires PieceOk(p) && PiecesOk(ps)
    ensures PiecesOk([p] + ps) && PiecesText([p] + ps) == PieceText(p) + PiecesText(ps)
    ensures PiecesValue([p] + ps) == PieceValue(p) + PiecesValue(ps)
  {
    assert ([p] + ps)[1..] == ps;
  }

  /** The pieces up to the quote that closes a literal, or up to the end of the text. */
  lemma {:induction false} FindPieces(s: string) returns (ps: seq<Piece>)
    requires CloseIndex(s) <= |s| && Unescape(s[..CloseIndex(s)]).Some?
    ensures PiecesOk(ps) && PiecesText(ps) == s[..CloseIndex(s)]
    ensures PiecesValue(ps) == Unescape(s[..CloseIndex(s)]).value
    decreases |s|
  {
    hide PieceText, PieceValue, PieceOk, Unescape;
    var e := CloseIndex(s);
    if e == 0 {
      ps := [];
      UnescapeNothing();
    } else {
      hide CloseIndex;
      NotClosed(s);
      var p := FindPiece(s[..e]);
      var n := |PieceText(p)|;
      var t := s[n..];
      assert s == PieceText(p) + t;
      PieceCloses(p, t);
      assert s[..e][n..] == t[..e - n];
      var qs := FindPieces(t);
      ps := [p] + qs;
      FirstPiece(qs, p);
      assert s[..e] == PieceText(p) + t[..e - n];
    }
  }

  lemma UnescapeNothing()
    ensures Unescape([]) == Some("")
  {}

  lemma NotClosed(s: string)
    requires CloseIndex(s) > 0
    ensures s != [] && s[0] != '"'
  {}

  lemma FindLiteral(s: string) returns (ps: seq<Piece>, closed: bool)
    requires ParseString(s).Parsed?
    ensures PiecesOk(ps) && PiecesValue(ps) == ParseString(s).value
    ensures s == "\"" + PiecesText(ps) + (if closed then "\"" else "") + ParseString(s).rest
    ensures !closed ==> ParseString(s).rest == []
  {
    hide CloseIndex, Unescape, PiecesText, PiecesValue, PiecesOk;
    var body := s[1..];
    var e := CloseIndex(body);
    ps := FindPieces(body);
    closed := e < |body|;
    assert s == ['"'] + body;
    assert closed ==> body == body[..e] + ['"'] + body[e + 1..];
    assert !closed ==> body == body[..e];
  }

  lemma FindDigits(s: string) returns (minus: bool, digits: string)
    requires s != [] && (s[0] == '-' || IsDigit(s[0])) && ParseNumber(s).Parsed?
    ensures DigitsOk(minus, digits) && s == Text(Digits(minus, digits)) + ParseNumber(s).rest
    ensures ParseNumber(s).value == Number(Signed(minus, digits))
  {
    hide Value, IntegerRun, FloatTail, Text;
    minus := s[0] == '-';
    var t := if minus then s[1..] else s;
    var k := IntegerRun(t);
    digits := t[..k];
    RunShort(t);
    DigitsBuilt(s, minus, t, k);
  }

  lemma DigitsBuilt(s: string, minus: bool, t: string, k: nat)
    requires k <= |t| && if minus then StartsWith(s, '-') && s[1..] == t else s == t
    ensures s == Text(Digits(minus, t[..k])) + t[k..]
  {
    assert t == t[..k] + t[k..];
    if minus {
      Behind(s, '-', t[..k], t[k..]);
    } else {
      assert "" + t[..k] == t[..k];
    }
  }

  lemma RunShort(t: string)
    ensures var d := t[..IntegerRun(t)];
      AllDigits(d) && !("00" <= d) && (t != [] && IsDigit(t[0]) ==> d != "")
  {
    var k := IntegerRun(t);
    if k >= 2 && t[0] == '0' {
      assert t[1..][0] == t[1];
    }
  }

  lemma {:induction false} FindValue(s: string) returns (x: Syntax)
    requires ParseValue(s).Parsed?
    ensures Lenient(x) && Meaning(x) == ParseValue(s).value && s == Text(x) + ParseValue(s).rest
    ensures Open(x) ==> ParseValue(s).rest == []
    decreases |s|, 1
  {
    hide ParseString, ParseNumber, ParseArray, ParseObject, PiecesText, PiecesOk, DigitsOk, Lenient, Meaning;
    if "null" <= s {
      x := NullWord;
      WordMeans(x);
    } else if "false" <= s {
      x := FalseWord;
      WordMeans(x);
    } else if "true" <= s {
      x := TrueWord;
      WordMeans(x);
    } else if StartsWith(s, '"') {
      var ps, closed := FindLiteral(s);
      x := Literal(ps, closed);
      LiteralMeans(ps, closed);
    } else if s[0] == '-' || IsDigit(s[0]) {
      var minus, digits := FindDigits(s);
      x := Digits(minus, digits);
      DigitsMean(minus, digits);
    } else if StartsWith(s, '[') {
      x := FindList(s);
    } else {
      x := FindTable(s);
    }
  }

  lemma WordMeans(x: Syntax)
    requires x.NullWord? || x.FalseWord? || x.TrueWord?
    ensures Lenient(x) && Meaning(x) == match x case NullWord => Null case FalseWord => False case _ => True
  {}

  lemma LiteralMeans(ps: seq<Piece>, closed: bool)
    requires PiecesOk(ps)
    ensures Lenient(Literal(ps, closed)) && Meaning(Literal(ps, closed)) == Str(PiecesValue(ps))
  {}

  lemma DigitsMean(minus: bool, digits: string)
    requires DigitsOk(minus, digits)
    ensures Lenient(Digits(minus, digits)) && Meaning(Digits(minus, digits)) == Number(Signed(minus, digits))
  {}

  /** Concatenation is associative. */
  lemma Regroup(a: string, b: string, c: string)
    ensures a + (b + c) == a + b + c
  {}

  /** The first character of a text and what follows it. */
  lemma Behind(t: string, c: char, text: string, rest: string)
    requires StartsWith(t, c) && t[1..] == text + rest
    ensures t == [c] + text + rest
  {
    assert t == [t[0]] + t[1..];
    Regroup([c], text, rest);
  }

  lemma {:induction false} FindList(s: string) returns (x: Syntax)
    requires StartsWith(s, '[') && ParseArray(s).Parsed?
    ensures x.List? && Lenient(x) && Meaning(x) == ParseArray(s).value && s == Text(x) + ParseArray(s).rest
    decreases |s|, 0
  {
    hide ParseElems, LenientItem, ItemsText, ItemsMeaning, Text, Lenient, Meaning, Skip;
    var b := FindBlank(s[1..]);
    var t := Skip(s[1..]);
    var items: seq<Item> := [];
    NoItems();
    if !StartsWith(t, ']') {
      items := FindItems(t);
    } else {
      Behind(t, ']', "", t[1..]);
    }
    x := ListBuilt(s, b, t, items, ParseArray(s).rest);
  }

  lemma ListBuilt(s: string, b: string, t: string, items: seq<Item>, rest: string) returns (x: Syntax)
    requires StartsWith(s, '[') && s[1..] == b + t && Blank(b) && forall i :: i in items ==> LenientItem(i)
    requires t == (if items == [] then "]" else ItemsText(items)) + rest
    ensures x.List? && Lenient(x) && Meaning(x) == Arr(ItemsMeaning(items)) && s == Text(x) + rest
  {
    hide LenientItem, ItemsText, ItemsMeaning;
    if items == [] {
      x := List(b, []);
      Regroup(b, "]", rest);
      Behind(s, '[', b + "]", rest);
      Regroup("[", b, "]");
    } else {
      var more := InFront(b, items);
      x := List("", more);
      Regroup(b, ItemsText(items), rest);
      Behind(s, '[', ItemsText(more), rest);
    }
  }

  /** The white space in front of a list belongs to its first item. */
  lemma InFront(b: string, items: seq<Item>) returns (more: seq<Item>)
    requires Blank(b) && items != [] && forall i :: i in items ==> LenientItem(i)
    ensures more != [] && forall i :: i in more ==> LenientItem(i)
    ensures ItemsMeaning(more) == ItemsMeaning(items) && ItemsText(more) == b + ItemsText(items)
  {
    hide Text, Lenient, Meaning;
    var i := items[0];
    assert LenientItem(i);
    var j := Item(b + i.before, i.value, i.after);
    more := [j] + items[1..];
    assert more[1..] == items[1..];
    assert ItemText(j) == b + ItemText(i);
    assert LenientItem(j);
  }

  lemma FirstItemOf(i: Item, items: seq<Item>, s: string, t: string, rest: string)
    requires LenientItem(i) && forall k :: k in items ==> LenientItem(k)
    requires s == ItemText(i) + t && t == (if items == [] then "]" else "," + ItemsText(items)) + rest
    ensures forall k :: k in [i] + items ==> LenientItem(k)
    ensures ItemsMeaning([i] + items) == [Meaning(i.value)] + ItemsMeaning(items)
    ensures s == ItemsText([i] + items) + rest
  {
    hide Text, Lenient, Meaning, ItemText;
    assert ([i] + items)[1..] == items;
    Regroup(ItemText(i), if items == [] then "]" else "," + ItemsText(items), rest);
  }

  lemma {:induction false} FindItems(s: string) returns (items: seq<Item>)
    requires ParseElems(s).Parsed?
    ensures items != [] && forall i :: i in items ==> LenientItem(i)
    ensures ItemsMeaning(items) == ParseElems(s).value && s == ItemsText(items) + ParseElems(s).rest
    decreases |s|, 3
  {
    hide ParseValue, LenientItem, ItemText, ItemsText, ItemsMeaning, Meaning, Text, Lenient, Skip;
    var i := FindItem(s);
    var t := Skip(ParseValue(Skip(s)).rest);
    var rest := ParseElems(s).rest;
    var more: seq<Item> := [];
    NoItems();
    if StartsWith(t, ',') {
      more := FindItems(t[1..]);
      Behind(t, ',', ItemsText(more), rest);
    } else {
      Behind(t, ']', "", rest);
    }
    items := [i] + more;
    FirstItemOf(i, more, s, t, rest);
  }

  lemma NoItems()
    ensures ItemsMeaning([]) == []
  {}

  /** A value with the white space around it. */
  lemma {:induction false} FindItem(s: string) returns (i: Item)
    requires ParseValue(Skip(s)).Parsed? && Skip(ParseValue(Skip(s)).rest) != []
    ensures LenientItem(i) && Meaning(i.value) == ParseValue(Skip(s)).value
    ensures s == ItemText(i) + Skip(ParseValue(Skip(s)).rest)
    decreases |s|, 2
  {
    hide ParseValue, Meaning, Text, Lenient, Skip;
    var r := ParseValue(Skip(s)).rest;
    var b := FindBlank(s);
    var a := FindBlank(r);
    var x := FindValue(Skip(s));
    SkipNothing([]);
    i := Item(b, x, a);
    Regroup(Text(x), a, Skip(r));
    Regroup(b, Text(x) + a, Skip(r));
    Regroup(b, Text(x), a);
  }

  lemma {:induction false} FindTable(s: string) returns (x: Syntax)
    requires StartsWith(s, '{') && ParseObject(s).Parsed?
    ensures x.Table? && Lenient(x) && Meaning(x) == ParseObject(s).value && s == Text(x) + ParseObject(s).rest
    decreases |s|, 0
  {
    hide ParseMembers, LenientEntry, EntriesText, EntriesMeaning, Text, Lenient, Meaning, Skip;
    var b := FindBlank(s[1..]);
    var t := Skip(s[1..]);
    var entries: seq<Entry> := [];
    NoEntries();
    if !StartsWith(t, '}') {
      entries := FindEntries(t);
    } else {
      Behind(t, '}', "", t[1..]);
    }
    x := TableBuilt(s, b, t, entries, ParseObject(s).rest);
  }

  lemma TableBuilt(s: string, b: string, t: string, entries: seq<Entry>, rest: string) returns (x: Syntax)
    requires StartsWith(s, '{') && s[1..] == b + t && Blank(b) && forall e :: e in entries ==> LenientEntry(e)
    requires t == (if entries == [] then "}" else EntriesText(entries)) + rest
    ensures x.Table? && Lenient(x) && Meaning(x) == Obj(EntriesMeaning(entries)) && s == Text(x) + rest
  {
    hide LenientEntry, EntriesText, EntriesMeaning;
    if entries == [] {
      x := Table(b, []);
      Regroup(b, "}", rest);
      Behind(s, '{', b + "}", rest);
      Regroup("{", b, "}");
    } else {
      var more := EntryInFront(b, entries);
      x := Table("", more);
      Regroup(b, EntriesText(entries), rest);
      Behind(s, '{', EntriesText(more), rest);
    }
  }

  lemma EntryInFront(b: string, entries: seq<Entry>) returns (more: seq<Entry>)
    requires Blank(b) && entries != [] && forall e :: e in entries ==> LenientEntry(e)
    ensures more != [] && forall e :: e in more ==> LenientEntry(e)
    ensures EntriesMeaning(more) == EntriesMeaning(entries) && EntriesText(more) == b + EntriesText(entries)
  {
    hide ItemText, LenientItem, Meaning, PiecesText, PiecesOk;
    var e := entries[0];
    assert LenientEntry(e);
    var d := Entry(b + e.beforeName, e.name, e.afterName, e.item);
    more := [d] + entries[1..];
    assert more[1..] == entries[1..];
    assert EntryText(d) == b + EntryText(e);
    assert LenientEntry(d);
  }

  lemma FirstEntryOf(e: Entry, entries: seq<Entry>, s: string, t: string, rest: string)
    requires LenientEntry(e) && forall k :: k in entries ==> LenientEntry(k)
    requires s == EntryText(e) + t && t == (if entries == [] then "}" else "," + EntriesText(entries)) + rest
    ensures forall k :: k in [e] + entries ==> LenientEntry(k)
    ensures EntriesMeaning([e] + entries) == [EntryMeaning(e)] + EntriesMeaning(entries)
    ensures s == EntriesText([e] + entries) + rest
  {
    hide LenientItem, EntryMeaning, EntryText;
    assert ([e] + entries)[1..] == entries;
    Regroup(EntryText(e), if entries == [] then "}" else "," + EntriesText(entries), rest);
  }

  lemma NoEntries()
    ensures EntriesMeaning([]) == []
  {}

  lemma {:induction false} FindEntries(s: string) returns (entries: seq<Entry>)
    requires ParseMembers(s).Parsed?
    ensures entries != [] && forall e :: e in entries ==> LenientEntry(e)
    ensures EntriesMeaning(entries) == ParseMembers(s).value && s == EntriesText(entries) + ParseMembers(s).rest
    decreases |s|, 4
  {
    hide ParseMember, LenientEntry, EntriesText, EntriesMeaning, EntryMeaning, EntryText, Skip;
    var e := FindEntry(s);
    var t := Skip(ParseMember(s).rest);
    var rest := ParseMembers(s).rest;
    var more: seq<Entry> := [];
    NoEntries();
    if StartsWith(t, ',') {
      more := FindEntries(t[1..]);
      Behind(t, ',', EntriesText(more), rest);
    } else {
      Behind(t, '}', "", rest);
    }
    entries := [e] + more;
    FirstEntryOf(e, more, s, t, rest);
  }

  lemma {:induction false} FindEntry(s: string) returns (e: Entry)
    requires ParseMember(s).Parsed? && Skip(ParseMember(s).rest) != []
    ensures LenientEntry(e) && EntryMeaning(e) == ParseMember(s).value
    ensures s == EntryText(e) + Skip(ParseMember(s).rest)
    decreases |s|, 3
  {
    hide ParseString, ParseValue, Meaning, LenientItem, LenientEntry, ItemText, EntryText, EntryMeaning;
    hide PiecesText, PiecesOk, PiecesValue, Skip;
    var b := FindBlank(s);
    var ps, closed := FindLiteral(Skip(s));
    var tail := ParseString(Skip(s)).rest;
    var a := FindBlank(tail);
    var colon := Skip(tail);
    SkipNothing([]);
    var i := FindItem(colon[1..]);
    e := EntryBuilt(s, b, ps, a, colon, i, Skip(ParseMember(s).rest));
  }

  lemma EntryBuilt(s: string, b: string, ps: seq<Piece>, a: string, colon: string, i: Item, more: string)
    returns (e: Entry)
    requires Blank(b) && PiecesOk(ps) && Blank(a) && LenientItem(i)
    requires s == b + ("\"" + PiecesText(ps) + "\"" + (a + colon))
    requires StartsWith(colon, ':') && colon[1..] == ItemText(i) + more
    ensures LenientEntry(e) && EntryMeaning(e) == Member(PiecesValue(ps), Meaning(i.value))
    ensures s == EntryText(e) + more
  {
    hide Meaning, LenientItem, ItemText, PiecesText, PiecesOk, PiecesValue;
    e := Entry(b, ps, a, i);
    Behind(colon, ':', "", ItemText(i) + more);
    assert colon == ":" + (ItemText(i) + more);
    EntryStart(e, more);
  }

  // ----- Whole texts -----

  /** s is x with white space around it, and x means v; nothing stands behind a literal that is not closed. */
  predicate Derives(s: string, before: string, x: Syntax, after: string, v: Json) {
    && Blank(before) && Lenient(x) && Blank(after) && (Open(x) ==> after == [])
    && s == before + Text(x) + after && Meaning(x) == v
  }

  ghost predicate Derivable(s: string, v: Json) {
    exists before, x, after :: Derives(s, before, x, after, v)
  }

  lemma BlankEnds(s: string)
    requires Blank(s)
    ensures EndsNumber(s)
  {}

  lemma DerivableRead(s: string, before: string, x: Syntax, after: string, v: Json)
    requires Derives(s, before, x, after, v)
    ensures ParseText(s, true) == Parsed(v, [])
  {
    hide Text, Lenient, Meaning, ParseValue;
    BlankEnds(after);
    TextStart(x);
    assert s == before + (Text(x) + after);
    SkipBlanks(before, Text(x) + after);
    ReadValue(x, after);
    SkipAll(after);
  }

  /** A text is accepted, up to its end, with a value exactly when it can be derived with that value. */
  lemma AcceptedExactly(s: string, v: Json)
    ensures ParseText(s, true) == Parsed(v, []) <==> Derivable(s, v)
  {
    hide Text, Lenient, Meaning, ParseValue, Derives;
    if ParseText(s, true) == Parsed(v, []) {
      var before := FindBlank(s);
      var x := FindValue(Skip(s));
      var after := ParseValue(Skip(s)).rest;
      var b := FindBlank(after);
      assert b + [] == b;
      DerivedBy(s, before, x, after, v);
    }
    if Derivable(s, v) {
      var before, x, after :| Derives(s, before, x, after, v);
      DerivableRead(s, before, x, after, v);
    }
  }

  lemma DerivedBy(s: string, before: string, x: Syntax, after: string, v: Json)
    requires Blank(before) && Lenient(x) && Blank(after) && (Open(x) ==> after == [])
    requires s == before + (Text(x) + after) && Meaning(x) == v
    ensures Derives(s, before, x, after, v)
  {
    hide Text, Lenient, Meaning;
    assert before + (Text(x) + after) == before + Text(x) + after;
  }

  // ----- RFC 8259 -----

  /** The white space of section 2. */
  predicate StrictBlank(s: string) {
    forall i :: 0 <= i < |s| ==> s[i] in " \t\n\r"
  }

  /** The characters and escapes of section 7, but for \u0000 and halves of surrogate pairs. */
  predicate StrictPiece(p: Piece) {
    PieceOk(p) && match p case Plain(c) => c >= ' ' case Short(c) => c in "\"\\/bfnrt" case Coded(_, _) => true
  }

  /** The int of section 6. */
  predicate StrictDigits(digits: string) {
    digits != "" && AllDigits(digits) && (digits[0] == '0' ==> digits == "0")
  }

  /** The values of sections 3 to 7, with numbers that are ints. */
  predicate Strict(x: Syntax)
    decreases x, 1
  {
    match x
    case NullWord => true
    case FalseWord => true
    case TrueWord => true
    case Digits(minus, digits) => StrictDigits(digits) && INT_MIN <= Signed(minus, digits) <= INT_MAX
    case Literal(pieces, closed) => closed && forall p :: p in pieces ==> StrictPiece(p)
    case List(blank, items) => StrictBlank(blank) && forall i :: i in items ==> StrictItem(i)
    case Table(blank, entries) => StrictBlank(blank) && forall e :: e in entries ==> StrictEntry(e)
  }

  predicate StrictItem(i: Item)
    decreases i, 0
  {
    StrictBlank(i.before) && Strict(i.value) && StrictBlank(i.after)
  }

  predicate StrictEntry(e: Entry)
    decreases e, 0
  {
    && StrictBlank(e.beforeName) && StrictBlank(e.afterName) && StrictItem(e.item)
    && forall p :: p in e.name ==> StrictPiece(p)
  }

  lemma {:induction false} StrictIsLenient(x: Syntax)
    requires Strict(x)
    ensures Lenient(x) && !Open(x)
    decreases x, 1
  {
    hide PieceOk, Signed;
    match x
    case List(blank, items) =>
      forall i | i in items
        ensures LenientItem(i)
      {
        StrictItemIsLenient(i);
      }
    case Table(blank, entries) =>
      forall e | e in entries
        ensures LenientEntry(e)
      {
        StrictItemIsLenient(e.item);
      }
    case _ =>
  }

  lemma {:induction false} StrictItemIsLenient(i: Item)
    requires StrictItem(i)
    ensures LenientItem(i)
    decreases i, 0
  {
    StrictIsLenient(i.value);
  }

  /** Every text of RFC 8259 with int numbers is accepted, with its value. */
  lemma StandardAccepted(before: string, x: Syntax, after: string)
    requires StrictBlank(before) && Strict(x) && StrictBlank(after)
    ensures Lenient(x) && ParseText(before + Text(x) + after, true) == Parsed(Meaning(x), [])
  {
    hide Text, Lenient, Meaning, Strict;
    StrictIsLenient(x);
    DerivableRead(before + Text(x) + after, before, x, after, Meaning(x));
  }

  /** And more than those: this one has a zero too many. */
  lemma LeadingZeroAccepted()
    ensures ParseText("01", true) == Parsed(Number(1), [])
    ensures forall before, x, after :: StrictBlank(before) && Strict(x) && StrictBlank(after) ==>
      before + Text(x) + after != "01"
  {
    var x := Digits(false, "01");
    assert Value(0, "01") == 1 by {
      assert "01"[1..] == "1" && "1"[1..] == "";
    }
    assert "" + "01" + "" == "01";
    assert Derives("01", "", x, "", Number(1));
    DerivableRead("01", "", x, "", Number(1));
    forall before, x, after | StrictBlank(before) && Strict(x) && StrictBlank(after)
      ensures before + Text(x) + after != "01"
    {
      NotLeadingZero(before, x, after);
    }
  }

  lemma NotLeadingZero(before: string, x: Syntax, after: string)
    requires StrictBlank(before) && Strict(x) && StrictBlank(after)
    ensures before + Text(x) + after != "01"
  {
    hide Signed;
    var s := before + Text(x) + after;
    StrictIsLenient(x);
    TextStart(x);
    assert before != [] ==> s[0] == before[0];
    assert s[|before|] == Text(x)[0];
    assert after != [] ==> s[|s| - 1] == after[|after| - 1];
  }
}
