/** The recursive-descent parser: it reads text from a position and builds linked items. */
module JsonParser {
  import opened Decimal
  import opened JsonText
  import opened CStrings
  import opened JsonStrings
  import opened JsonNodes
  import opened JsonBuild
  import opened JsonTree

  // ----- Numbers -----

  method SkipSpace(text: string, pos: nat) returns (p: nat)
    requires NulFree(text) && pos <= |text|
    ensures pos <= p <= |text| && text[p..] == Skip(text[pos..])
  {
    p := pos;
    while CharAt(text, p) != '\0' && CharAt(text, p) <= ' '
      invariant pos <= p <= |text| && Skip(text[p..]) == Skip(text[pos..])
      decreases |text| - p
    {
      assert text[p..][0] == text[p] && text[p..][1..] == text[p + 1..];
      p := p + 1;
    }
    assert p < |text| ==> text[p..][0] == text[p];
  }

  lemma RunStep(text: string, p: nat, acc: nat)
    requires p < |text| && IsDigit(text[p])
    ensures RunLength(text[p..]) == 1 + RunLength(text[p + 1..])
    ensures Value(acc, text[p..][..RunLength(text[p..])]) ==
            Value(10 * acc + DigitValue(text[p]), text[p + 1..][..RunLength(text[p + 1..])])
  {
    var s := text[p..];
    assert s[0] == text[p] && s[1..] == text[p + 1..];
    var k := RunLength(s);
    assert s[..k][1..] == s[1..][..k - 1];
  }

  lemma RunStops(text: string, p: nat)
    requires p <= |text| && !IsDigit(CharAt(text, p))
    ensures RunLength(text[p..]) == 0
  {
    if p < |text| {
      assert text[p..][0] == text[p];
    }
  }

  /** The digits from pos on, folded into acc. */
  method ReadDigits(text: string, pos: nat, acc: nat) returns (p: nat, n: nat)
    requires pos <= |text|
    ensures p == pos + RunLength(text[pos..])
    ensures n == Value(acc, text[pos..][..RunLength(text[pos..])])
  {
    hide RunLength, Value;
    p, n := pos, acc;
    while IsDigit(CharAt(text, p))
      invariant pos <= p <= |text|
      invariant p + RunLength(text[p..]) == pos + RunLength(text[pos..])
      invariant Value(n, text[p..][..RunLength(text[p..])]) == Value(acc, text[pos..][..RunLength(text[pos..])])
      decreases |text| - p
    {
      RunStep(text, p, n);
      n := n * 10 + DigitValue(CharAt(text, p));
      p := p + 1;
    }
    RunStops(text, p);
    assert text[p..][..0] == [];
    ValueOfNothing(n);
  }

  lemma ValueOfNothing(n: nat)
    ensures Value(n, []) == n
  {}

  lemma IntegerParts(text: string, q: nat)
    requires q <= |text|
    ensures var z := q + (if CharAt(text, q) == '0' then 1 else 0);
      && z <= |text|
      && IntegerRun(text[q..]) == z - q + (if '1' <= CharAt(text, z) <= '9' then RunLength(text[z..]) else 0)
      && (!('1' <= CharAt(text, z) <= '9') ==> Value(0, text[q..][..z - q]) == 0)
      && ('1' <= CharAt(text, z) <= '9' ==>
            Value(0, text[q..][..IntegerRun(text[q..])]) == Value(0, text[z..][..RunLength(text[z..])]))
  {
    var s := text[q..];
    assert q < |text| ==> s[0] == text[q];
    var z := q + (if CharAt(text, q) == '0' then 1 else 0);
    assert s[z - q..] == text[z..];
    assert z < |text| ==> text[z..][0] == text[z];
    if !('1' <= CharAt(text, z) <= '9') && !(z < |text| && text[z] == '0') {
      RunStops(text, z);
    }
    var k := IntegerRun(s);
    if z == q {
      assert s[..0] == [];
    } else {
      assert s[..k][1..] == s[1..][..k - 1] && s[..1][1..] == [];
      assert Value(0, s[..k]) == Value(0, s[..k][1..]);
      assert Value(0, s[..1]) == Value(0, s[..1][1..]);
    }
  }

  lemma FloatTailAt(text: string, p: nat)
    requires p <= |text| && NulFree(text)
    ensures FloatTail(text[p..]) <==>
      || (CharAt(text, p) == '.' && IsDigit(CharAt(text, p + 1)))
      || CharAt(text, p) == 'e' || CharAt(text, p) == 'E'
  {
    var s := text[p..];
    assert p < |text| ==> s[0] == text[p];
    assert p + 1 < |text| ==> s[1] == text[p + 1];
  }

  /** The integer part from q on. */
  method ReadInteger(text: string, q: nat) returns (p: nat, m: nat)
    requires NulFree(text) && q <= |text|
    ensures p == q + IntegerRun(text[q..]) && p <= |text|
    ensures m == Value(0, text[q..][..IntegerRun(text[q..])])
  {
    hide IntegerRun, Value, RunLength;
    IntegerParts(text, q);
    p, m := q, 0;
    if CharAt(text, p) == '0' {
      p := p + 1;
    }
    if '1' <= CharAt(text, p) <= '9' {
      p, m := ReadDigits(text, p, 0);
    }
  }

  method ReadNumber(text: string, pos: nat) returns (r: Outcome, n: int)
    requires NulFree(text) && pos < |text| && (text[pos] == '-' || IsDigit(text[pos]))
    ensures Ends(ParseNumber(text[pos..]), r, text)
    ensures r.End? ==> Number(n) == ParseNumber(text[pos..]).value
  {
    hide IntegerRun, Value, FloatTail;
    ghost var s := text[pos..];
    var q := pos;
    var sign: int := 1;
    if text[pos] == '-' {
      sign, q := -1, q + 1;
    }
    assert s[0] == text[pos];
    assert s[q - pos..] == text[q..];
    var p, m := ReadInteger(text, q);
    assert text[q..][p - q..] == text[p..];
    n := sign * m;
    FloatTailAt(text, p);
    if (CharAt(text, p) == '.' && IsDigit(CharAt(text, p + 1))) || CharAt(text, p) == 'e' || CharAt(text, p) == 'E' {
      return OutOfModel, n;
    }
    if !(INT_MIN <= n <= INT_MAX) {
      return OutOfModel, n;
    }
    r := End(p);
  }

  // ----- Lists of elements and members, from the left -----

  /** What follows an element. */
  ghost function ElemsTail(s: string): Parsed<seq<Json>> {
    if StartsWith(s, ',') then ParseElems(s[1..]) else if StartsWith(s, ']') then Parsed([], s[1..]) else Malformed
  }

  ghost function MembersTail(s: string): Parsed<seq<Member>> {
    if StartsWith(s, ',') then ParseMembers(s[1..]) else if StartsWith(s, '}') then Parsed([], s[1..]) else Malformed
  }

  ghost function After<T>(vs: seq<T>, p: Parsed<seq<T>>): Parsed<seq<T>> {
    match p
    case Parsed(ws, rest) => Parsed(vs + ws, rest)
    case _ => p
  }

  lemma AfterTwice<T>(vs: seq<T>, ws: seq<T>, p: Parsed<seq<T>>)
    ensures After(vs, After(ws, p)) == After(vs + ws, p)
  {
    if p.Parsed? {
      assert vs + (ws + p.value) == (vs + ws) + p.value;
    }
  }

  lemma ElemsFromLeft(s: string)
    ensures var v := ParseValue(Skip(s));
      ParseElems(s) == if v.Parsed? then After([v.value], ElemsTail(Skip(v.rest)))
                       else if v.Malformed? then Malformed else Unmodelled
  {
    hide ParseValue;
    var v := ParseValue(Skip(s));
    if v.Parsed? {
      assert [v.value] + [] == [v.value];
    }
  }

  lemma MembersFromLeft(s: string)
    ensures var m := ParseMember(s);
      ParseMembers(s) == if m.Parsed? then After([m.value], MembersTail(Skip(m.rest)))
                         else if m.Malformed? then Malformed else Unmodelled
  {
    hide ParseMember;
    var m := ParseMember(s);
    if m.Parsed? {
      assert [m.value] + [] == [m.value];
    }
  }

  // ----- Values -----

  /** The text goes on with a keyword. */
  predicate Word(text: string, pos: nat, word: string)
    requires pos <= |text|
  {
    |word| <= |text| - pos && text[pos..pos + |word|] == word
  }

  lemma WordIsPrefix(text: string, pos: nat, word: string)
    requires pos <= |text|
    ensures Word(text, pos, word) <==> word <= text[pos..]
    ensures Word(text, pos, word) ==> text[pos..][|word|..] == text[pos + |word|..]
  {
    if Word(text, pos, word) {
      assert text[pos..][..|word|] == word;
    }
    if word <= text[pos..] {
      assert text[pos..pos + |word|] == text[pos..][..|word|];
    }
  }

  method SetLeaf(item: Node, kind: Kind, valueint: int, valuestring: Option<string>)
    requires Leaf(item)
    modifies item`kind, item`valueint, item`valuestring, item`tree
    ensures Leaf(item) && item.kind == kind && item.valuestring == valuestring
    ensures item.tree == old(item.tree).(kind := kind, valueint := valueint, valuestring := valuestring)
  {
    item.kind, item.valueint, item.valuestring := kind, valueint, valuestring;
    item.tree := item.tree.(kind := kind, valueint := valueint, valuestring := valuestring);
  }

  /** How a parse of the text from pos on ends, and what it has read when it succeeds. */
  ghost predicate Reads<T>(p: Parsed<T>, r: Outcome, text: string, v: T) {
    match p
    case Parsed(w, rest) => r.End? && r.pos <= |text| && text[r.pos..] == rest && v == w
    case Malformed => r == Failed
    case Unmodelled => r == OutOfModel
  }

  /** A string; the buffer of one that fails stays with the item. */
  method ParseStringInto(item: Node, text: string, pos: nat) returns (r: Outcome)
    requires Leaf(item) && NulFree(text) && pos <= |text| && CharAt(text, pos) == '"'
    modifies item`kind, item`valueint, item`valuestring, item`tree
    ensures Leaf(item)
    ensures Reads(ParseValue(text[pos..]), r, text, ToJson(item.tree))
    ensures item.kind == StringKind && item.valuestring.Some?
    ensures item.tree.name == old(item.tree.name) && (old(Bare(item.tree)) && r.End? ==> Proper(item.tree))
  {
    hide ParseString, Leaf;
    OpenLeaf(item);
    assert text[pos..][0] == text[pos];
    var v;
    r, v := ReadString(text, pos);
    SetLeaf(item, StringKind, item.valueint, Some(v));
  }

  method ParseNumberInto(item: Node, text: string, pos: nat) returns (r: Outcome)
    requires Leaf(item) && NulFree(text) && pos < |text| && (text[pos] == '-' || IsDigit(text[pos]))
    modifies item`kind, item`valueint, item`valuestring, item`tree
    ensures Leaf(item)
    ensures Reads(ParseValue(text[pos..]), r, text, ToJson(item.tree))
    ensures item.tree.name == old(item.tree.name) && (old(Bare(item.tree)) && r.End? ==> Proper(item.tree))
  {
    hide ParseNumber, Leaf;
    OpenLeaf(item);
    assert text[pos..][0] == text[pos];
    var n;
    r, n := ReadNumber(text, pos);
    SetLeaf(item, NumberKind, n, item.valuestring);
  }

  /** Anything but an array or an object. The buffer of a string that fails stays with the item. */
  method ParseScalar(item: Node, text: string, pos: nat) returns (r: Outcome)
    requires Leaf(item) && NulFree(text) && pos <= |text|
    requires CharAt(text, pos) != '[' && CharAt(text, pos) != '{'
    modifies item`kind, item`valueint, item`valuestring, item`tree
    ensures Leaf(item)
    ensures Reads(ParseValue(text[pos..]), r, text, ToJson(item.tree))
    ensures CharAt(text, pos) == '"' ==> item.kind == StringKind && item.valuestring.Some?
    ensures item.tree.name == old(item.tree.name) && (old(Bare(item.tree)) && r.End? ==> Proper(item.tree))
  {
    hide ParseString, ParseNumber, ParseArray, ParseObject, Leaf;
    ghost var s := text[pos..];
    OpenLeaf(item);
    assert pos < |text| ==> s[0] == text[pos];
    WordIsPrefix(text, pos, "null");
    WordIsPrefix(text, pos, "false");
    WordIsPrefix(text, pos, "true");
    if Word(text, pos, "null") {
      SetLeaf(item, NullKind, item.valueint, item.valuestring);
      r := End(pos + 4);
    } else if Word(text, pos, "false") {
      SetLeaf(item, FalseKind, item.valueint, item.valuestring);
      r := End(pos + 5);
    } else if Word(text, pos, "true") {
      SetLeaf(item, TrueKind, 1, item.valuestring);
      r := End(pos + 4);
    } else if CharAt(text, pos) == '"' {
      r := ParseStringInto(item, text, pos);
    } else if CharAt(text, pos) == '-' || IsDigit(CharAt(text, pos)) {
      r := ParseNumberInto(item, text, pos);
    } else {
      r := Failed;
    }
  }

  /** Reads the value at pos into item, which has no children yet. Whatever happens, item stays well formed and owns all
      that has been made, so that a failed parse can be deleted. */
  method ParseInto(item: Node, text: string, pos: nat) returns (r: Outcome)
    requires Leaf(item) && NulFree(text) && pos <= |text|
    modifies item`child, item`kind, item`valueint, item`valuestring, item`kids, item`repr, item`owned, item`tree
    ensures Grown(item) && fresh(item.repr - {item})
    ensures Reads(ParseValue(text[pos..]), r, text, ToJson(item.tree))
    ensures item.tree.name == old(item.tree.name) && (old(Bare(item.tree)) && r.End? ==> Proper(item.tree))
    decreases |text| - pos, 3
  {
    hide ParseValue, ParseArray, ParseObject, Leaf, Grown, Reads, ToJson, Proper, Bare;
    Brackets(text, pos);
    if CharAt(text, pos) == '[' {
      r := ParseArrayInto(item, text, pos);
    } else if CharAt(text, pos) == '{' {
      r := ParseObjectInto(item, text, pos);
    } else {
      r := ParseScalar(item, text, pos);
      LeafGrown(item);
      LeafAlone(item);
    }
  }

  lemma Brackets(text: string, pos: nat)
    requires pos <= |text|
    ensures CharAt(text, pos) == '[' ==>
      StartsWith(text[pos..], '[') && ParseValue(text[pos..]) == ParseArray(text[pos..])
    ensures CharAt(text, pos) == '{' ==>
      StartsWith(text[pos..], '{') && ParseValue(text[pos..]) == ParseObject(text[pos..])
  {
    hide ParseArray, ParseObject;
    assert pos < |text| ==> text[pos..][0] == text[pos];
  }

  /** Reads, where the white space behind the value is passed too. */
  ghost predicate ReadsOn<T>(p: Parsed<T>, r: Outcome, text: string, v: T) {
    match p
    case Parsed(w, rest) => r.End? && r.pos <= |text| && text[r.pos..] == Skip(rest) && v == w
    case Malformed => r == Failed
    case Unmodelled => r == OutOfModel
  }

  lemma PassedOn<T>(p: Parsed<T>, r: Outcome, text: string, v: T)
    requires Reads(p, r, text, v)
    ensures !r.End? ==> ReadsOn(p, r, text, v)
    ensures r.End? ==> r.pos <= |text| && forall q :: r.pos <= q <= |text| && text[q..] == Skip(text[r.pos..]) ==>
              ReadsOn(p, End(q), text, v)
  {}

  /** A value with the white space around it. */
  method ParseSpaced(x: Node, text: string, pos: nat) returns (q: Outcome)
    requires Leaf(x) && NulFree(text) && pos <= |text|
    modifies x`child, x`kind, x`valueint, x`valuestring, x`kids, x`repr, x`owned, x`tree
    ensures Grown(x) && fresh(x.repr - {x})
    ensures ReadsOn(ParseValue(Skip(text[pos..])), q, text, ToJson(x.tree))
    ensures q.End? ==> pos < q.pos
    ensures x.tree.name == old(x.tree.name) && (old(Bare(x.tree)) && q.End? ==> Proper(x.tree))
    decreases |text| - pos, 4
  {
    hide ParseValue, Grown, Leaf, Reads, ToJson, Skip, ReadsOn, Proper, Bare;
    var p := SkipSpace(text, pos);
    q := ParseInto(x, text, p);
    PassedOn(ParseValue(text[p..]), q, text, ToJson(x.tree));
    if q.End? {
      EndsFurther(ParseValue(text[p..]), q, text, p, ToJson(x.tree));
      var e := SkipSpace(text, q.pos);
      q := End(e);
    }
  }

  lemma EndsFurther<T>(p: Parsed<T>, q: Outcome, text: string, pos: nat, v: T)
    requires pos <= |text| && Reads(p, q, text, v) && q.End? && (p.Parsed? ==> |p.rest| < |text[pos..]|)
    ensures pos < q.pos <= |text|
  {}

  method SetName(x: Node, name: string)
    requires Leaf(x)
    modifies x`kind, x`valuestring, x`name, x`tree
    ensures Leaf(x) && x.name == Some(name) && x.tree.name == Some(name)
    ensures old(Bare(x.tree)) ==> Bare(x.tree)
  {
    x.kind, x.valuestring, x.name := StringKind, None, Some(name);
    x.tree := x.tree.(kind := StringKind, valuestring := None, name := Some(name));
  }

  /** A name, a colon and a value, all into x. The buffer of a name that fails stays with x, as its value. */
  method ParseNamed(x: Node, text: string, pos: nat) returns (q: Outcome)
    requires Leaf(x) && NulFree(text) && pos <= |text|
    modifies x`child, x`kind, x`valueint, x`valuestring, x`name, x`kids, x`repr, x`owned, x`tree
    ensures Grown(x) && fresh(x.repr - {x})
    ensures ReadsOn(ParseMember(text[pos..]), q, text, ToMember(x.tree))
    ensures q.End? ==> pos < q.pos
    ensures StartsWith(Skip(text[pos..]), '"') && ParseString(Skip(text[pos..])).Malformed? ==>
      x.kind == StringKind && x.valuestring.Some?
    ensures old(Bare(x.tree)) && q.End? ==> Proper(x.tree) && x.tree.name.Some?
    decreases |text| - pos, 4
  {
    hide ParseValue, ParseString, Grown, Leaf, ToJson, Skip, ReadsOn, Proper, Bare;
    LeafAlone(x);
    var p := SkipSpace(text, pos);
    var name;
    q, name := ReadString(text, p);
    ghost var m, named := ParseMember(text[pos..]), ParseString(text[p..]);
    if !q.End? {
      assert p < |text| ==> text[p..][0] == text[p];
      if CharAt(text, p) == '"' {
        SetLeaf(x, StringKind, x.valueint, Some(name));
      }
      LeafGrown(x);
      LeafAlone(x);
      NoMember(m, q, text, ToMember(x.tree));
      return;
    }
    SetName(x, name);
    LeafGrown(x);
    LeafAlone(x);
    p := SkipSpace(text, q.pos);
    ColonAt(text, p);
    if CharAt(text, p) != ':' {
      NoMember(m, Failed, text, ToMember(x.tree));
      return Failed;
    }
    q := ParseSpaced(x, text, p + 1);
    GrownName(x);
    ghost var v := ParseValue(Skip(text[p + 1..]));
    MemberOf(m, v, q, text, name, ToJson(x.tree));
  }

  lemma ColonAt(text: string, p: nat)
    requires p <= |text|
    ensures CharAt(text, p) == ':' <==> StartsWith(text[p..], ':')
    ensures StartsWith(text[p..], ':') ==> text[p..][1..] == text[p + 1..]
  {
    assert p < |text| ==> text[p..][0] == text[p];
  }

  lemma GrownName(x: Node)
    requires Grown(x)
    ensures x.tree.name == x.name
  {}

  lemma NoMember<T>(p: Parsed<T>, q: Outcome, text: string, v: T)
    requires (p.Malformed? && q == Failed) || (p.Unmodelled? && q == OutOfModel)
    ensures ReadsOn(p, q, text, v)
  {}

  lemma MemberOf(m: Parsed<Member>, v: Parsed<Json>, q: Outcome, text: string, name: string, j: Json)
    requires ReadsOn(v, q, text, j)
    requires match v
      case Parsed(w, rest) => m == Parsed(Member(name, w), rest)
      case Malformed => m.Malformed?
      case Unmodelled => m.Unmodelled?
    ensures ReadsOn(m, q, text, Member(name, j))
  {}

  /** Makes a new item behind last and reads a value into it. */
  method ParseElement(n: Node, last: Node?, ghost s: seq<Node>, ghost t: seq<Tree>, ghost r: set<Node>, text: string,
    pos: nat)
    returns (x: Node, q: Outcome, ghost u: seq<Node>, ghost t': seq<Tree>, ghost r': set<Node>)
    requires Building(n, s, last, t, r) && NulFree(text) && pos <= |text|
    modifies n`child, s`next
    ensures Building(n, u, x, t', r')
    ensures u == s + [x] && fresh(x) && fresh(r' - r) && |t'| == |t| + 1 && t' == t + [t'[|t|]]
    ensures ReadsOn(ParseValue(Skip(text[pos..])), q, text, ToJson(t'[|t|]))
    ensures q.End? ==> pos < q.pos
    ensures q.End? && AllProper(t, false) ==> AllProper(t', false)
    decreases |text| - pos, 5
  {
    hide Building, Prefix, ParseValue, Grown, Leaf, ReadsOn, ToJson, Reprs, Skip, Proper, AllProper;
    x := NewBehind(n, last, s, t, r);
    u := s + [x];
    PrefixAway(n, s, t, r, x, u);
    q := ParseSpaced(x, text, pos);
    t', r' := t + [x.tree], r + x.repr;
    if q.End? && AllProper(t, false) {
      ProperMore(t, x.tree, false, t');
    }
    Rejoined(n, s, t, r, x, u);
  }

  /** Makes a new item behind last and reads a name and a value into it. */
  method ParseMemberItem(n: Node, last: Node?, ghost s: seq<Node>, ghost t: seq<Tree>, ghost r: set<Node>,
    text: string, pos: nat)
    returns (x: Node, q: Outcome, ghost u: seq<Node>, ghost t': seq<Tree>, ghost r': set<Node>)
    requires Building(n, s, last, t, r) && NulFree(text) && pos <= |text|
    modifies n`child, s`next
    ensures Building(n, u, x, t', r')
    ensures u == s + [x] && fresh(x) && fresh(r' - r) && |t'| == |t| + 1 && t' == t + [t'[|t|]]
    ensures ReadsOn(ParseMember(text[pos..]), q, text, ToMember(t'[|t|]))
    ensures q.End? ==> pos < q.pos
    ensures q.End? && AllProper(t, true) ==> AllProper(t', true)
    decreases |text| - pos, 5
  {
    hide Building, Prefix, ParseMember, Grown, Leaf, ReadsOn, ToMember, Reprs, Skip, Proper, AllProper;
    x := NewBehind(n, last, s, t, r);
    u := s + [x];
    PrefixAway(n, s, t, r, x, u);
    q := ParseNamed(x, text, pos);
    t', r' := t + [x.tree], r + x.repr;
    if q.End? && AllProper(t, true) {
      ProperMore(t, x.tree, true, t');
    }
    Rejoined(n, s, t, r, x, u);
  }

  /** The elements read so far and the text from p on make up all the elements from p0 on. */
  ghost predicate ElemsSoFar(text: string, p0: nat, p: nat, t: seq<Tree>) {
    p0 <= p <= |text| && ParseElems(text[p0..]) == After(ToElems(t), ElemsTail(text[p..]))
  }

  ghost predicate MembersSoFar(text: string, p0: nat, p: nat, t: seq<Tree>) {
    p0 <= p <= |text| && ParseMembers(text[p0..]) == After(ToMembers(t), MembersTail(text[p..]))
  }

  ghost predicate Fails<T>(p: Parsed<T>, q: Outcome) {
    (p.Malformed? && q == Failed) || (p.Unmodelled? && q == OutOfModel)
  }

  lemma FirstElem(text: string, p0: nat, t: seq<Tree>, q: Outcome)
    requires p0 <= |text| && |t| == 1 && ReadsOn(ParseValue(Skip(text[p0..])), q, text, ToJson(t[0]))
    requires q.End? ==> p0 < q.pos
    ensures if q.End? then ElemsSoFar(text, p0, q.pos, t) else Fails(ParseElems(text[p0..]), q)
  {
    hide ParseValue, ToJson, ParseElems, ElemsTail, ToElems;
    ElemsFromLeft(text[p0..]);
    OneElem(t[0]);
    assert t == [t[0]];
  }

  lemma NextElem(text: string, p0: nat, p: nat, t: seq<Tree>, t': seq<Tree>, q: Outcome)
    requires ElemsSoFar(text, p0, p, t) && CharAt(text, p) == ',' && p < |text|
    requires |t'| == |t| + 1 && t' == t + [t'[|t|]]
    requires ReadsOn(ParseValue(Skip(text[p + 1..])), q, text, ToJson(t'[|t|])) && (q.End? ==> p + 1 < q.pos)
    ensures if q.End? then ElemsSoFar(text, p0, q.pos, t') else Fails(ParseElems(text[p0..]), q)
  {
    hide ParseValue, ToJson, ParseElems, ToElems;
    var x := t'[|t|];
    assert text[p..][0] == text[p] && text[p..][1..] == text[p + 1..];
    FirstElem(text, p + 1, [x], q);
    ElemsMore(t, x);
    OneElem(x);
    if q.End? {
      AfterTwice(ToElems(t), ToElems([x]), ElemsTail(text[q.pos..]));
    }
  }

  lemma OneElem(x: Tree)
    ensures ToElems([x]) == [ToJson(x)]
  {
    ElemsMore([], x);
    assert [] + [x] == [x];
  }

  lemma LastElem(text: string, p0: nat, p: nat, t: seq<Tree>)
    requires ElemsSoFar(text, p0, p, t) && CharAt(text, p) != ','
    ensures ParseElems(text[p0..]) == if CharAt(text, p) == ']' then Parsed(ToElems(t), text[p + 1..]) else Malformed
    ensures CharAt(text, p) == ']' ==> p < |text|
  {
    hide ParseElems, ToElems;
    assert p < |text| ==> text[p..][0] == text[p] && text[p..][1..] == text[p + 1..];
    assert ToElems(t) + [] == ToElems(t);
  }

  lemma FirstMember(text: string, p0: nat, t: seq<Tree>, q: Outcome)
    requires p0 <= |text| && |t| == 1 && ReadsOn(ParseMember(text[p0..]), q, text, ToMember(t[0]))
    requires q.End? ==> p0 < q.pos
    ensures if q.End? then MembersSoFar(text, p0, q.pos, t) else Fails(ParseMembers(text[p0..]), q)
  {
    hide ParseMember, ToMember, ParseMembers, MembersTail, ToMembers;
    MembersFromLeft(text[p0..]);
    OneMember(t[0]);
    assert t == [t[0]];
  }

  lemma NextMember(text: string, p0: nat, p: nat, t: seq<Tree>, t': seq<Tree>, q: Outcome)
    requires MembersSoFar(text, p0, p, t) && CharAt(text, p) == ',' && p < |text|
    requires |t'| == |t| + 1 && t' == t + [t'[|t|]]
    requires ReadsOn(ParseMember(text[p + 1..]), q, text, ToMember(t'[|t|])) && (q.End? ==> p + 1 < q.pos)
    ensures if q.End? then MembersSoFar(text, p0, q.pos, t') else Fails(ParseMembers(text[p0..]), q)
  {
    hide ParseMember, ToMember, ParseMembers, ToMembers;
    var x := t'[|t|];
    assert text[p..][0] == text[p] && text[p..][1..] == text[p + 1..];
    FirstMember(text, p + 1, [x], q);
    MembersMore(t, x);
    OneMember(x);
    if q.End? {
      AfterTwice(ToMembers(t), ToMembers([x]), MembersTail(text[q.pos..]));
    }
  }

  lemma OneMember(x: Tree)
    ensures ToMembers([x]) == [ToMember(x)]
  {
    MembersMore([], x);
    assert [] + [x] == [x];
  }

  lemma LastMember(text: string, p0: nat, p: nat, t: seq<Tree>)
    requires MembersSoFar(text, p0, p, t) && CharAt(text, p) != ','
    ensures ParseMembers(text[p0..]) ==
      if CharAt(text, p) == '}' then Parsed(ToMembers(t), text[p + 1..]) else Malformed
    ensures CharAt(text, p) == '}' ==> p < |text|
  {
    hide ParseMembers, ToMembers;
    assert p < |text| ==> text[p..][0] == text[p] && text[p..][1..] == text[p + 1..];
    assert ToMembers(t) + [] == ToMembers(t);
  }

  /** The elements of an array and its closing bracket. */
  method ParseElements(n: Node, text: string, p0: nat)
    returns (q: Outcome, ghost s: seq<Node>, last: Node, ghost t: seq<Tree>, ghost r: set<Node>)
    requires n.child == null && !n.reference && NulFree(text) && p0 <= |text|
    modifies n`child
    ensures Building(n, s, last, t, r) && fresh(r)
    ensures Reads(ParseElems(text[p0..]), q, text, ToElems(t))
    ensures q.End? ==> AllProper(t, false)
    decreases |text| - p0, 6
  {
    hide Building, ParseValue, ParseElems, ReadsOn, ToElems, ElemsSoFar, Proper, AllProper;
    NoneProper();
    BuildingNothing(n);
    last, q, s, t, r := ParseElement(n, null, [], [], {}, text, p0);
    FirstElem(text, p0, t, q);
    if !q.End? {
      return;
    }
    var p := q.pos;
    SoFarInside(text, p0, p, t);
    while CharAt(text, p) == ','
      invariant Building(n, s, last, t, r) && fresh(r) && fresh(s)
      invariant p0 < p <= |text| && ElemsSoFar(text, p0, p, t) && AllProper(t, false)
      decreases |text| - p
    {
      ghost var t0 := t;
      last, q, s, t, r := ParseElement(n, last, s, t, r, text, p + 1);
      NextElem(text, p0, p, t0, t, q);
      if !q.End? {
        return;
      }
      p := q.pos;
      SoFarInside(text, p0, p, t);
    }
    LastElem(text, p0, p, t);
    q := if CharAt(text, p) == ']' then End(p + 1) else Failed;
  }

  lemma NoneProper()
    ensures AllProper([], false) && AllProper([], true)
  {}

  lemma SoFarInside(text: string, p0: nat, p: nat, t: seq<Tree>)
    requires ElemsSoFar(text, p0, p, t)
    ensures p0 <= p <= |text|
  {}

  lemma MembersInside(text: string, p0: nat, p: nat, t: seq<Tree>)
    requires MembersSoFar(text, p0, p, t)
    ensures p0 <= p <= |text|
  {}

  /** The members of an object and its closing brace. */
  method ParseMembersInto(n: Node, text: string, p0: nat)
    returns (q: Outcome, ghost s: seq<Node>, last: Node, ghost t: seq<Tree>, ghost r: set<Node>)
    requires n.child == null && !n.reference && NulFree(text) && p0 <= |text|
    modifies n`child
    ensures Building(n, s, last, t, r) && fresh(r)
    ensures Reads(ParseMembers(text[p0..]), q, text, ToMembers(t))
    ensures q.End? ==> AllProper(t, true)
    decreases |text| - p0, 6
  {
    hide Building, ParseMember, ParseMembers, ReadsOn, ToMembers, MembersSoFar, Proper, AllProper;
    NoneProper();
    BuildingNothing(n);
    last, q, s, t, r := ParseMemberItem(n, null, [], [], {}, text, p0);
    FirstMember(text, p0, t, q);
    if !q.End? {
      return;
    }
    var p := q.pos;
    MembersInside(text, p0, p, t);
    while CharAt(text, p) == ','
      invariant Building(n, s, last, t, r) && fresh(r) && fresh(s)
      invariant p0 < p <= |text| && MembersSoFar(text, p0, p, t) && AllProper(t, true)
      decreases |text| - p
    {
      ghost var t0 := t;
      last, q, s, t, r := ParseMemberItem(n, last, s, t, r, text, p + 1);
      NextMember(text, p0, p, t0, t, q);
      if !q.End? {
        return;
      }
      p := q.pos;
      MembersInside(text, p0, p, t);
    }
    LastMember(text, p0, p, t);
    q := if CharAt(text, p) == '}' then End(p + 1) else Failed;
  }

  method ParseArrayInto(item: Node, text: string, pos: nat) returns (r: Outcome)
    requires Leaf(item) && NulFree(text) && pos <= |text| && StartsWith(text[pos..], '[')
    modifies item`child, item`kind, item`valueint, item`valuestring, item`kids, item`repr, item`owned, item`tree
    ensures Grown(item) && fresh(item.repr - {item})
    ensures Reads(ParseArray(text[pos..]), r, text, ToJson(item.tree))
    ensures item.tree.name == old(item.tree.name) && (old(Bare(item.tree)) && r.End? ==> Proper(item.tree))
    decreases |text| - pos, 2
  {
    hide ParseElems, Building, Grown, Skip, ToElems, Leaf, Proper, AllProper, Bare;
    ghost var bare := item.tree;
    OpenLeaf(item);
    NoneProper();
    SetLeaf(item, ArrayKind, item.valueint, item.valuestring);
    assert text[pos..][1..] == text[pos + 1..];
    var p := SkipSpace(text, pos + 1);
    assert p < |text| ==> text[p..][0] == text[p] && text[p..][1..] == text[p + 1..];
    if CharAt(text, p) == ']' {
      LeafGrown(item);
      LeafAlone(item);
      NoElems(item);
      if Bare(bare) {
        EmptyProper(bare, ArrayKind);
      }
      return End(p + 1);
    }
    OpenLeaf(item);
    ghost var s, t, below;
    var last;
    r, s, last, t, below := ParseElements(item, text, p);
    Finish(item, s, last, t, below);
    if Bare(bare) && r.End? {
      ProperList(bare, ArrayKind, t);
    }
  }

  lemma EmptyProper(b: Tree, kind: Kind)
    requires Bare(b) && (kind == ArrayKind || kind == ObjectKind)
    ensures Proper(b.(kind := kind))
  {
    ProperList(b, kind, []);
  }

  lemma OpenLeaf(item: Node)
    requires Leaf(item)
    ensures item.child == null && !item.reference && item.Labelled() && item.tree.kids == []
  {}

  lemma NoElems(item: Node)
    requires Leaf(item)
    ensures ToElems(item.tree.kids) == [] && ToMembers(item.tree.kids) == []
  {}

  method ParseObjectInto(item: Node, text: string, pos: nat) returns (r: Outcome)
    requires Leaf(item) && NulFree(text) && pos <= |text| && StartsWith(text[pos..], '{')
    modifies item`child, item`kind, item`valueint, item`valuestring, item`kids, item`repr, item`owned, item`tree
    ensures Grown(item) && fresh(item.repr - {item})
    ensures Reads(ParseObject(text[pos..]), r, text, ToJson(item.tree))
    ensures item.tree.name == old(item.tree.name) && (old(Bare(item.tree)) && r.End? ==> Proper(item.tree))
    decreases |text| - pos, 2
  {
    hide ParseMembers, Building, Grown, Skip, ToMembers, Leaf, Proper, AllProper, Bare;
    ghost var bare := item.tree;
    OpenLeaf(item);
    NoneProper();
    SetLeaf(item, ObjectKind, item.valueint, item.valuestring);
    assert text[pos..][1..] == text[pos + 1..];
    var p := SkipSpace(text, pos + 1);
    assert p < |text| ==> text[p..][0] == text[p] && text[p..][1..] == text[p + 1..];
    if CharAt(text, p) == '}' {
      LeafGrown(item);
      LeafAlone(item);
      NoElems(item);
      if Bare(bare) {
        EmptyProper(bare, ObjectKind);
      }
      return End(p + 1);
    }
    OpenLeaf(item);
    ghost var s, t, below;
    var last;
    r, s, last, t, below := ParseMembersInto(item, text, p);
    Finish(item, s, last, t, below);
    if Bare(bare) && r.End? {
      ProperList(bare, ObjectKind, t);
    }
  }
}
