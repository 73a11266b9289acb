/**
  JSON values, the text cJSON prints for them and the values cJSON reads from text.

  A C string is a `string` without its terminator: reading at the end of the sequence reads NUL.
  Characters stand for the unsigned bytes of the target's `char`.
*/
module JsonText {
  import opened CStrings
  import opened Decimal

  datatype Json =
    | Null
    | False
    | True
    | Number(n: int)
    | Str(s: string)
    | Arr(elems: seq<Json>)
    | Obj(members: seq<Member>)

  datatype Member = Member(name: string, value: Json)

  const INT_MIN: int := -0x8000_0000
  const INT_MAX: int := 0x7FFF_FFFF

  const BACKSPACE: char := '\U{08}'
  const FORMFEED: char := '\U{0C}'

  /** The values whose text can be read back: int numbers, and strings C can hold. */
  predicate Representable(j: Json) {
    match j
    case Number(n) => INT_MIN <= n <= INT_MAX
    case Str(s) => NulFree(s)
    case Arr(elems) => forall e :: e in elems ==> Representable(e)
    case Obj(members) => forall m :: m in members ==> NulFree(m.name) && Representable(m.value)
    case _ => true
  }

  // ----- Printing -----

  function HexDigit(d: nat): char
    requires d < 16
  {
    "0123456789abcdef"[d]
  }

  /** The characters a string literal holds for c. */
  function EscapeChar(c: char): (e: string)
    ensures e != []
  {
    if c == '\\' then "\\\\"
    else if c == '"' then "\\\""
    else if c == BACKSPACE then "\\b"
    else if c == FORMFEED then "\\f"
    else if c == '\n' then "\\n"
    else if c == '\r' then "\\r"
    else if c == '\t' then "\\t"
    else if c < ' ' then "\\u00" + [HexDigit(c as int / 16), HexDigit(c as int % 16)]
    else [c]
  }

  function Escape(s: string): string {
    if s == [] then [] else EscapeChar(s[0]) + Escape(s[1..])
  }

  function PrintString(s: string): string {
    "\"" + Escape(s) + "\""
  }

  function PrintNumber(n: int): string {
    if n < 0 then "-" + Numeral(-n) else Numeral(n)
  }

  function Tabs(depth: nat): string {
    seq(depth, _ => '\t')
  }

  function Comma(fmt: bool): string {
    if fmt then ", " else ","
  }

  /** The text of j at the given nesting depth, formatted or not. */
  function Print(j: Json, depth: nat, fmt: bool): string
    decreases j, 1
  {
    match j
    case Null => "null"
    case False => "false"
    case True => "true"
    case Number(n) => PrintNumber(n)
    case Str(s) => PrintString(s)
    case Arr(elems) => if elems == [] then "[]" else "[" + PrintElems(elems, depth + 1, fmt) + "]"
    case Obj(members) =>
      if members != [] then "{" + PrintMembers(members, depth + 1, fmt) + "}"
      else if fmt then "{\n" + Tabs(depth) + "}"
      else "{}"
  }

  function PrintElems(elems: seq<Json>, depth: nat, fmt: bool): string
    requires elems != []
    decreases elems, 0
  {
    Print(elems[0], depth, fmt) + if |elems| == 1 then "" else Comma(fmt) + PrintElems(elems[1..], depth, fmt)
  }

  function PrintMember(m: Member, depth: nat, fmt: bool): string
    decreases m, 0
  {
    PrintString(m.name) + ":" + Print(m.value, depth, fmt)
  }

  function PrintMembers(members: seq<Member>, depth: nat, fmt: bool): string
    requires members != []
    decreases members, 0
  {
    PrintMember(members[0], depth, fmt) + if |members| == 1 then "" else "," + PrintMembers(members[1..], depth, fmt)
  }

  // ----- Parsing -----

  /** What is read from the front of a text, and the text after it. Unmodelled: a number that is not
      an int numeral, or a literal whose closing backslash escapes the terminator. */
  datatype Parsed<+T> = Parsed(value: T, rest: string) | Malformed | Unmodelled {
    predicate IsFailure() { !Parsed? }
    function PropagateFailure<U>(): Parsed<U>
      requires IsFailure()
    {
      if Malformed? then Malformed else Unmodelled
    }
    function Extract(): (T, string)
      requires Parsed?
    {
      (value, rest)
    }
  }

  function Skip(s: string): (t: string)
    ensures |t| <= |s|
    ensures t != [] ==> t[0] > ' ' || t[0] == '\0'
  {
    if s != [] && '\0' < s[0] <= ' ' then Skip(s[1..]) else s
  }

  predicate StartsWith(s: string, c: char) {
    s != [] && s[0] == c
  }

  /** The index of the quote that closes a literal body; |s| when the terminator comes first, and
      |s| + 1 when a backslash hides the terminator. */
  function CloseIndex(s: string): (e: nat)
    ensures e <= |s| + 1
    ensures e < |s| ==> s[e] == '"'
    decreases |s|
  {
    if s == [] || s[0] == '"' then 0
    else if s[0] != '\\' then 1 + CloseIndex(s[1..])
    else if |s| == 1 then 2
    else 2 + CloseIndex(s[2..])
  }

  predicate IsHex(c: char) {
    IsDigit(c) || 'A' <= c <= 'F' || 'a' <= c <= 'f'
  }

  function HexValue(c: char): (v: nat)
    requires IsHex(c)
    ensures v < 16
  {
    if IsDigit(c) then DigitValue(c)
    else if 'A' <= c <= 'F' then 10 + (c as int - 'A' as int)
    else 10 + (c as int - 'a' as int)
  }

  /** The value of the four hex digits at the front of s, or 0 if they are not all there. */
  function Hex4(s: string): (v: nat)
    ensures v < 0x10000
  {
    if |s| >= 4 && IsHex(s[0]) && IsHex(s[1]) && IsHex(s[2]) && IsHex(s[3]) then
      ((HexValue(s[0]) * 16 + HexValue(s[1])) * 16 + HexValue(s[2])) * 16 + HexValue(s[3])
    else 0
  }

  function Byte(b: nat): char
    requires b < 256
  {
    b as char
  }

  /** The UTF-8 encoding of a code point: section 3 of RFC 3629. */
  function Utf8(cp: nat): (s: string)
    requires cp < 0x110000
    ensures 1 <= |s| <= 4
  {
    if cp < 0x80 then [Byte(cp)]
    else if cp < 0x800 then [Byte(0xC0 + cp / 64), Byte(0x80 + cp % 64)]
    else if cp < 0x10000 then [Byte(0xE0 + cp / 4096), Byte(0x80 + cp / 64 % 64), Byte(0x80 + cp % 64)]
    else [Byte(0xF0 + cp / 262144), Byte(0x80 + cp / 4096 % 64), Byte(0x80 + cp / 64 % 64), Byte(0x80 + cp % 64)]
  }

  predicate IsHighSurrogate(u: nat) {
    0xD800 <= u <= 0xDBFF
  }

  predicate IsLowSurrogate(u: nat) {
    0xDC00 <= u <= 0xDFFF
  }

  datatype Escaped = Escaped(cp: nat, used: nat) | BadEscape

  /** The code point a \u escape at the front of s stands for, and how many characters spell it:
      section 7 of RFC 8259 and section 2.2 of RFC 2781. NUL is refused as well. */
  function UnicodeEscape(s: string): (e: Escaped)
    requires 2 <= |s| && s[0] == '\\' && s[1] == 'u'
    ensures e.Escaped? ==> 0 < e.cp < 0x110000 && !(0xD800 <= e.cp <= 0xDFFF)
    ensures e.Escaped? ==> 6 <= e.used <= |s| && |Utf8(e.cp)| < e.used
  {
    var u := Hex4(s[2..]);
    if u == 0 || IsLowSurrogate(u) then BadEscape
    else if !IsHighSurrogate(u) then Escaped(u, 6)
    else if |s| < 12 || s[6] != '\\' || s[7] != 'u' then BadEscape
    else
      var v := Hex4(s[8..]);
      if !IsLowSurrogate(v) then BadEscape
      else Escaped(0x10000 + (u - 0xD800) * 0x400 + (v - 0xDC00), 12)
  }

  datatype Option<+T> = None | Some(value: T)

  function SimpleEscape(c: char): char {
    match c
    case 'b' => BACKSPACE
    case 'f' => FORMFEED
    case 'n' => '\n'
    case 'r' => '\r'
    case 't' => '\t'
    case _ => c
  }

  /** The bytes a literal body stands for; None for a bad \u escape. */
  function Unescape(s: string): (r: Option<string>)
    decreases |s|
  {
    if s == [] then Some("")
    else if s[0] != '\\' then
      match Unescape(s[1..])
      case None => None
      case Some(t) => Some([s[0]] + t)
    else if |s| == 1 then None
    else if s[1] != 'u' then
      match Unescape(s[2..])
      case None => None
      case Some(t) => Some([SimpleEscape(s[1])] + t)
    else
      match UnicodeEscape(s)
      case BadEscape => None
      case Escaped(cp, used) =>
        match Unescape(s[used..])
        case None => None
        case Some(t) => Some(Utf8(cp) + t)
  }

  function ParseString(s: string): (r: Parsed<string>)
    ensures r.Parsed? ==> |r.rest| < |s|
  {
    if !StartsWith(s, '"') then Malformed
    else
      var body := s[1..];
      var e := CloseIndex(body);
      if e > |body| then Unmodelled
      else
        match Unescape(body[..e])
        case None => Malformed
        case Some(t) => Parsed(t, if e < |body| then body[e + 1..] else [])
  }

  /** The integer part of a number: optional zero, then digits unless they start with zero again. */
  function IntegerRun(s: string): (k: nat)
    ensures k <= |s|
    ensures forall i :: 0 <= i < k ==> IsDigit(s[i])
  {
    var z := if StartsWith(s, '0') then 1 else 0;
    if StartsWith(s[z..], '0') then z else z + RunLength(s[z..])
  }

  /** A fraction or an exponent follows. */
  predicate FloatTail(s: string) {
    || (StartsWith(s, '.') && |s| > 1 && IsDigit(s[1]))
    || StartsWith(s, 'e') || StartsWith(s, 'E')
  }

  function ParseNumber(s: string): (r: Parsed<Json>)
    requires s != [] && (s[0] == '-' || IsDigit(s[0]))
    ensures r.Parsed? ==> |r.rest| < |s|
  {
    var t := if s[0] == '-' then s[1..] else s;
    var k := IntegerRun(t);
    var m: int := Value(0, t[..k]);
    var n := if s[0] == '-' then -m else m;
    if FloatTail(t[k..]) || !(INT_MIN <= n <= INT_MAX) then Unmodelled
    else Parsed(Number(n), t[k..])
  }

  function ParseValue(s: string): (r: Parsed<Json>)
    ensures r.Parsed? ==> |r.rest| < |s|
    decreases |s|, 1
  {
    if "null" <= s then Parsed(Null, s[4..])
    else if "false" <= s then Parsed(False, s[5..])
    else if "true" <= s then Parsed(True, s[4..])
    else if StartsWith(s, '"') then
      var (t, rest) :- ParseString(s);
      Parsed(Str(t), rest)
    else if s != [] && (s[0] == '-' || IsDigit(s[0])) then ParseNumber(s)
    else if StartsWith(s, '[') then ParseArray(s)
    else if StartsWith(s, '{') then ParseObject(s)
    else Malformed
  }

  function ParseArray(s: string): (r: Parsed<Json>)
    requires StartsWith(s, '[')
    ensures r.Parsed? ==> |r.rest| < |s|
    decreases |s|, 0
  {
    var t := Skip(s[1..]);
    if StartsWith(t, ']') then Parsed(Arr([]), t[1..])
    else
      var (elems, rest) :- ParseElems(t);
      Parsed(Arr(elems), rest)
  }

  function ParseObject(s: string): (r: Parsed<Json>)
    requires StartsWith(s, '{')
    ensures r.Parsed? ==> |r.rest| < |s|
    decreases |s|, 0
  {
    var t := Skip(s[1..]);
    if StartsWith(t, '}') then Parsed(Obj([]), t[1..])
    else
      var (members, rest) :- ParseMembers(t);
      Parsed(Obj(members), rest)
  }

  /** The elements up to and including the closing bracket. */
  function ParseElems(s: string): (r: Parsed<seq<Json>>)
    ensures r.Parsed? ==> r.value != [] && |r.rest| < |s|
    decreases |s|, 2
  {
    var (v, rest) :- ParseValue(Skip(s));
    var t := Skip(rest);
    if StartsWith(t, ',') then
      var (vs, end) :- ParseElems(t[1..]);
      Parsed([v] + vs, end)
    else if StartsWith(t, ']') then Parsed([v], t[1..])
    else Malformed
  }

  function ParseMember(s: string): (r: Parsed<Member>)
    ensures r.Parsed? ==> |r.rest| < |s|
    decreases |s|, 2
  {
    var (name, afterName) :- ParseString(Skip(s));
    var colon := Skip(afterName);
    if !StartsWith(colon, ':') then Malformed
    else
      var (v, rest) :- ParseValue(Skip(colon[1..]));
      Parsed(Member(name, v), rest)
  }

  /** The members up to and including the closing brace. */
  function ParseMembers(s: string): (r: Parsed<seq<Member>>)
    ensures r.Parsed? ==> r.value != [] && |r.rest| < |s|
    decreases |s|, 3
  {
    var (m, rest) :- ParseMember(s);
    var t := Skip(rest);
    if StartsWith(t, ',') then
      var (ms, end) :- ParseMembers(t[1..]);
      Parsed([m] + ms, end)
    else if StartsWith(t, '}') then Parsed([m], t[1..])
    else Malformed
  }
}
