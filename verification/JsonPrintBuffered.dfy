/** Printing into one buffer that grows on demand. */
module JsonPrintBuffered {
  import opened Bits
  import opened JsonText
  import opened CStrings
  import opened JsonNodes
  import opened JsonLists
  import opened JsonTree
  import opened JsonPrint
  import opened JsonPrintTree

  /** The largest size that pow2gt can round up to in an int. */
  const MAX_SIZE: nat := 0x4000_0000

  /** What may be reserved beyond the text itself, by a number. */
  const SLACK: nat := 21

  class PrintBuffer {
    var buffer: array<char>
    var length: nat
    var offset: nat

    ghost predicate Valid()
      reads this
    {
      buffer.Length == length && offset <= length
    }

    /** The text written so far. */
    ghost predicate Holding(text: string)
      reads this, buffer
    {
      Valid() && buffer[..offset] == text
    }

    /** The text stands behind `before` as a C string; offset has not passed its end. */
    ghost predicate Written(before: string, text: string)
      reads this, buffer
    {
      && Valid() && |before| <= offset <= |before| + |text|
      && Holds(buffer, |before|, text) && buffer[..|before|] == before
    }

    constructor (prebuffer: nat)
      requires 0 < prebuffer
      ensures fresh(buffer) && Holding("") && offset == 0 && length == prebuffer
    {
      var b := new char[prebuffer];
      buffer, length, offset := b, prebuffer, 0;
    }

    /** Makes room behind offset. Nothing in the old buffer is lost, and a new buffer has the least power of two that is
        large enough. */
    method Ensure(needed: nat)
      requires Valid() && 0 < offset + needed && (offset + needed > length ==> offset + needed <= MAX_SIZE)
      modifies `buffer, `length
      ensures Valid() && offset + needed <= length
      ensures buffer == old(buffer) || fresh(buffer)
      ensures old(length) <= length && buffer[..old(length)] == old(buffer[..])
      ensures if old(offset + needed <= length) then buffer == old(buffer) && length == old(length)
              else fresh(buffer) && LeastPow2(length, old(offset + needed))
    {
      hide Pow2gt;
      var size := needed + offset;
      if size <= length {
        return;
      }
      SizeFits(size);
      var newsize := Pow2gt(size);
      var newbuffer := new char[newsize];
      for i := 0 to length
        invariant buffer == old(buffer) && length == old(length)
        invariant newbuffer[..i] == buffer[..i]
        invariant buffer[..] == old(buffer[..])
      {
        newbuffer[i] := buffer[i];
        assert newbuffer[..i + 1] == newbuffer[..i] + [buffer[i]];
        assert buffer[..i + 1] == buffer[..i] + [buffer[i]];
      }
      buffer, length := newbuffer, newsize;
    }

    /** Sets offset behind the C string that starts there. */
    method Update(ghost before: string, ghost text: string)
      requires Written(before, text)
      modifies `offset
      ensures Holding(before + text)
    {
      ghost var rest := text[offset - |before|..];
      assert buffer[offset..offset + |rest|] == buffer[|before|..|before| + |text|][offset - |before|..];
      var n := Length(buffer, offset, rest);
      offset := offset + n;
      assert buffer[..offset] == buffer[..|before|] + buffer[|before|..|before| + |text|];
    }

    /** Writes text at offset and moves behind it. */
    method Append(text: string, needed: nat)
      requires Valid() && |text| <= needed && 0 < offset + needed <= MAX_SIZE
      modifies this, buffer
      ensures buffer == old(buffer) || fresh(buffer)
      ensures Holding(old(buffer[..offset]) + text)
    {
      ghost var before := buffer[..offset];
      Ensure(needed);
      assert buffer[..offset] == before;
      offset := Put(buffer, offset, text);
    }

    /** Writes text at offset as a C string and stays there. */
    method Place(text: string, needed: nat)
      requires Valid() && NulFree(text) && |text| < needed && offset + needed <= MAX_SIZE
      modifies this, buffer
      ensures buffer == old(buffer) || fresh(buffer)
      ensures Written(old(buffer[..offset]), text) && offset == old(offset)
    {
      ghost var before := buffer[..offset];
      Ensure(needed);
      assert buffer[..offset] == before;
      var p := Put(buffer, offset, text);
      assert buffer[..p][offset..] == buffer[offset..p];
      assert buffer[..p][..offset] == before;
      Terminate(buffer, p, offset, text);
      assert buffer[..p][..offset] == buffer[..offset];
    }
  }

  lemma SizeFits(size: nat)
    requires 0 < size <= MAX_SIZE
    ensures LeastPow2(Pow2gt(size), size) && size <= Pow2gt(size) <= MAX_SIZE
  {
    hide Pow2gt, Pow2;
    Powers();
    Pow2gtIsLeast(size);
    var k :| Pow2gt(size) == Pow2(k) && forall j :: size <= Pow2(j) ==> k <= j;
    Pow2Monotone(k, 30);
  }

  // ----- The tree -----

  /** Reserving for the text and for a number at its end stays within the sizes pow2gt can round up to. */
  predicate Roomy(before: string, text: string) {
    |before| + |text| + SLACK <= MAX_SIZE
  }

  lemma PrintableKids(item: Node)
    requires Readable(item) && Printable(item.tree) && (item.kind == ArrayKind || item.kind == ObjectKind)
    ensures forall k :: k in item.tree.kids ==> Printable(k)
  {}

  /** The string literal at offset. */
  method PutString(p: PrintBuffer, str: Option<string>, ghost before: string)
    requires p.Holding(before) && (str.Some? ==> NulFree(str.value)) && Roomy(before, PrintString(OrEmpty(str)))
    modifies p, p.buffer
    ensures p.buffer == old(p.buffer) || fresh(p.buffer)
    ensures p.Written(before, PrintString(OrEmpty(str)))
  {
    if str.None? {
      p.Place("\"\"", 3);
      return;
    }
    hide PrintString, Escape;
    var size, flag := StringSize(str.value);
    p.Ensure(size);
    assert p.buffer[..p.offset] == before;
    WriteString(str.value, flag, p.buffer, p.offset);
  }

  method PutNumber(p: PrintBuffer, n: int, ghost before: string)
    requires p.Holding(before) && INT_MIN <= n <= INT_MAX && |before| + SLACK <= MAX_SIZE
    modifies p, p.buffer
    ensures p.buffer == old(p.buffer) || fresh(p.buffer)
    ensures p.Written(before, PrintNumber(n))
  {
    hide PrintNumber;
    p.Ensure(NumberSize(n));
    assert p.buffer[..p.offset] == before;
    WriteNumber(n, p.buffer, p.offset);
  }

  /** Prints an item at offset, unformatted. */
  method PutValue(p: PrintBuffer, item: Node, depth: nat, ghost before: string)
    requires Readable(item) && Printable(item.tree) && p.Holding(before)
    requires Roomy(before, Print(ToJson(item.tree), depth, false))
    modifies p, p.buffer
    ensures p.buffer == old(p.buffer) || fresh(p.buffer)
    ensures p.Written(before, Print(ToJson(item.tree), depth, false))
    decreases item.repr, 2
  {
    hide PrintBuffer.Holding, PrintBuffer.Written, PrintString, PrintNumber, ToElems, ToMembers;
    OpenHolding(p, before);
    assert item.tree.kind == item.kind && item.tree.valueint == item.valueint &&
      item.tree.valuestring == item.valuestring;
    match item.kind {
      case Blank => assert false;
      case NullKind => p.Place("null", 5);
      case FalseKind => p.Place("false", 6);
      case TrueKind => p.Place("true", 5);
      case NumberKind => PutNumber(p, item.valueint, before);
      case StringKind => PutString(p, item.valuestring, before);
      case ArrayKind => PutArray(p, item, depth, before);
      case ObjectKind => PutObject(p, item, depth, before);
    }
  }

  lemma OpenHolding(p: PrintBuffer, before: string)
    requires p.Holding(before)
    ensures p.Valid() && p.buffer[..p.offset] == before && p.offset == |before|
  {}

  /** The last character of a text, and its terminator; offset stays before it. */
  method Close(p: PrintBuffer, c: string, ghost before: string, ghost text: string, ghost body: string)
    requires p.Holding(before + body) && |c| == 1 && text == body + c && NulFree(text) && Roomy(before, text)
    modifies p, p.buffer
    ensures p.buffer == old(p.buffer) || fresh(p.buffer)
    ensures p.Written(before, text)
  {
    assert c[0] == text[|text| - 1];
    p.Place(c, 2);
    assert p.buffer[|before|..|before| + |text|] == text by {
      assert p.buffer[..p.offset][|before|..] == body;
      assert p.buffer[|before|..p.offset] == body;
    }
    assert p.buffer[..p.offset][..|before|] == before;
  }

  method PutArray(p: PrintBuffer, item: Node, depth: nat, ghost before: string)
    requires Readable(item) && Printable(item.tree) && item.kind == ArrayKind && p.Holding(before)
    requires Roomy(before, Print(ToJson(item.tree), depth, false))
    modifies p, p.buffer
    ensures p.buffer == old(p.buffer) || fresh(p.buffer)
    ensures p.Written(before, Print(ToJson(item.tree), depth, false))
    decreases item.repr, 1
  {
    hide PrintBuffer.Holding, PrintBuffer.Written, Readable, Print, ToElems, Chain;
    ReadableKids(item);
    PrintableKids(item);
    OpenHolding(p, before);
    ghost var ts := item.tree.kids;
    var n := Count(item);
    if n == 0 {
      EmptyArrayText(ts, depth, false);
      p.Place("[]", 3);
      return;
    }
    ghost var es := ElemTexts(ts, depth + 1);
    ghost var text := Print(Arr(ToElems(ts)), depth, false);
    ArrayJoined(ts, depth, false, es);
    ReadableNulFree(item, depth, false);
    p.Append("[", 1);
    PutElements(p, item, depth + 1, before + "[", es);
    assert before + "[" + Joined(es, ",", 0) == before + ("[" + Joined(es, ",", 0));
    Close(p, "]", before, text, "[" + Joined(es, ",", 0));
  }

  /** The elements with commas between them. */
  method PutElements(p: PrintBuffer, item: Node, depth: nat, ghost before: string, ghost es: seq<string>)
    requires Readable(item) && Printable(item.tree) && item.kind == ArrayKind && p.Holding(before)
    requires es == ElemTexts(item.tree.kids, depth) && Roomy(before, Joined(es, ",", 0))
    modifies p, p.buffer
    ensures p.buffer == old(p.buffer) || fresh(p.buffer)
    ensures p.Holding(before + Joined(es, ",", 0))
    decreases item.repr, 0
  {
    hide PrintBuffer.Holding, PrintBuffer.Written, Readable, Print, ToElems, ToJson, Chain, Joined, Printable,
      PrintBuffer.Valid;
    ReadableKids(item);
    PrintableKids(item);
    ghost var i, w, n := 0, before, |item.kids|;
    var child := item.child;
    while child != null
      invariant 0 <= i <= n && child == At(item.kids, i)
      invariant p.buffer == old(p.buffer) || fresh(p.buffer)
      invariant p.Holding(w) && w + Joined(es, ",", i) == before + Joined(es, ",", 0)
      decreases n - i
    {
      ChainAt(item.kids, i);
      ReadableKids(item);
      JoinedStep(es, ",", i, w);
      PutElement(p, child, depth, w);
      w := w + es[i] + (if i + 1 == n then "" else ",");
      child := child.next;
      i := i + 1;
    }
    JoinedEnd(es, ",", w);
  }

  /** A value and, unless it is the last one, a comma. */
  method PutElement(p: PrintBuffer, child: Node, depth: nat, ghost before: string)
    requires Readable(child) && Printable(child.tree) && p.Holding(before)
    requires Roomy(before, Print(ToJson(child.tree), depth, false) + (if child.next == null then "" else ","))
    modifies p, p.buffer
    ensures p.buffer == old(p.buffer) || fresh(p.buffer)
    ensures p.Holding(before + Print(ToJson(child.tree), depth, false) + (if child.next == null then "" else ","))
    decreases child.repr, 3
  {
    hide PrintBuffer.Holding, PrintBuffer.Written, Readable, Print, ToJson, Printable;
    ghost var text := Print(ToJson(child.tree), depth, false);
    PutValue(p, child, depth, before);
    p.Update(before, text);
    OpenHolding(p, before + text);
    if child.next != null {
      p.Append(",", 2);
    } else {
      assert before + text + "" == before + text;
    }
  }

  lemma JoinedEnd(es: seq<string>, sep: string, w: string)
    ensures w + Joined(es, sep, |es|) == w
  {}

  ghost function ElemTexts(ts: seq<Tree>, depth: nat): (es: seq<string>)
    ensures |es| == |ts| && forall i :: 0 <= i < |ts| ==> es[i] == Print(ToJson(ts[i]), depth, false)
  {
    seq(|ts|, i requires 0 <= i < |ts| => Print(ToJson(ts[i]), depth, false))
  }

  lemma JoinedStep(es: seq<string>, sep: string, i: nat, w: string)
    requires i < |es|
    ensures w + Joined(es, sep, i) == w + es[i] + (if i + 1 == |es| then "" else sep) + Joined(es, sep, i + 1)
  {}

  method PutObject(p: PrintBuffer, item: Node, depth: nat, ghost before: string)
    requires Readable(item) && Printable(item.tree) && item.kind == ObjectKind && p.Holding(before)
    requires Roomy(before, Print(ToJson(item.tree), depth, false))
    modifies p, p.buffer
    ensures p.buffer == old(p.buffer) || fresh(p.buffer)
    ensures p.Written(before, Print(ToJson(item.tree), depth, false))
    decreases item.repr, 1
  {
    hide PrintBuffer.Holding, PrintBuffer.Written, Readable, Print, PrintString, ToMembers, Chain;
    ReadableKids(item);
    PrintableKids(item);
    OpenHolding(p, before);
    ghost var ts := item.tree.kids;
    var n := Count(item);
    if n == 0 {
      EmptyObjectText(ts, depth, false);
      p.Place("{}", 3);
      return;
    }
    ghost var es := MemberTexts(ts, depth + 1);
    ghost var text := Print(Obj(ToMembers(ts)), depth, false);
    ObjectJoined(ts, depth, false, es);
    ReadableNulFree(item, depth, false);
    p.Append("{", 2);
    PutMembers(p, item, depth + 1, before + "{", es);
    assert before + "{" + Joined(es, ",", 0) == before + ("{" + Joined(es, ",", 0));
    Close(p, "}", before, text, "{" + Joined(es, ",", 0));
  }

  /** The members with commas between them. */
  method PutMembers(p: PrintBuffer, item: Node, depth: nat, ghost before: string, ghost es: seq<string>)
    requires Readable(item) && Printable(item.tree) && item.kind == ObjectKind && p.Holding(before)
    requires es == MemberTexts(item.tree.kids, depth) && Roomy(before, Joined(es, ",", 0))
    modifies p, p.buffer
    ensures p.buffer == old(p.buffer) || fresh(p.buffer)
    ensures p.Holding(before + Joined(es, ",", 0))
    decreases item.repr, 0
  {
    hide PrintBuffer.Holding, PrintBuffer.Written, PrintBuffer.Valid, Readable, PrintMember, Print, ToMember, ToJson,
      Chain, Joined, Printable, OrEmpty, NulFree, MemberTexts;
    ReadableKids(item);
    PrintableKids(item);
    ghost var i, w, n := 0, before, |item.kids|;
    var child := item.child;
    while child != null
      invariant 0 <= i <= n && child == At(item.kids, i)
      invariant p.buffer == old(p.buffer) || fresh(p.buffer)
      invariant p.Holding(w) && w + Joined(es, ",", i) == before + Joined(es, ",", 0)
      decreases n - i
    {
      ChainAt(item.kids, i);
      ReadableKids(item);
      JoinedStep(es, ",", i, w);
      PutMember(p, child, depth, w);
      w := w + es[i] + (if i + 1 == n then "" else ",");
      child := child.next;
      i := i + 1;
    }
    JoinedEnd(es, ",", w);
  }

  ghost function MemberTexts(ts: seq<Tree>, depth: nat): (es: seq<string>)
    ensures |es| == |ts| && forall i :: 0 <= i < |ts| ==> es[i] == PrintMember(ToMember(ts[i]), depth, false)
  {
    seq(|ts|, i requires 0 <= i < |ts| => PrintMember(ToMember(ts[i]), depth, false))
  }

  /** A name and a colon. */
  method PutName(p: PrintBuffer, name: Option<string>, ghost before: string)
    requires NulFree(OrEmpty(name)) && p.Holding(before) && Roomy(before, PrintString(OrEmpty(name)))
    modifies p, p.buffer
    ensures p.buffer == old(p.buffer) || fresh(p.buffer)
    ensures p.Holding(before + PrintString(OrEmpty(name)) + ":")
  {
    hide PrintBuffer.Holding, PrintBuffer.Written, PrintString;
    PutString(p, name, before);
    p.Update(before, PrintString(OrEmpty(name)));
    OpenHolding(p, before + PrintString(OrEmpty(name)));
    p.Append(":", 1);
  }

  /** A member and, unless it is the last one, a comma. */
  method PutMember(p: PrintBuffer, child: Node, depth: nat, ghost before: string)
    requires Readable(child) && Printable(child.tree) && NulFree(OrEmpty(child.name)) && p.Holding(before)
    requires Roomy(before, PrintMember(ToMember(child.tree), depth, false) + (if child.next == null then "" else ","))
    modifies p, p.buffer
    ensures p.buffer == old(p.buffer) || fresh(p.buffer)
    ensures p.Holding(
      before + PrintMember(ToMember(child.tree), depth, false) + (if child.next == null then "" else ","))
    decreases child.repr, 4
  {
    hide PrintBuffer.Holding, PrintBuffer.Written, PrintBuffer.Valid, Readable, Print, PrintString, ToJson, Printable;
    NamedChild(child);
    ghost var name := PrintString(OrEmpty(child.name));
    ghost var comma := if child.next == null then "" else ",";
    PutName(p, child.name, before);
    PutElement(p, child, depth, before + name + ":");
    ghost var value := Print(ToJson(child.tree), depth, false);
    assert before + name + ":" + value + comma == before + (name + ":" + value) + comma;
  }

  /** cJSON_PrintBuffered: the text does not depend on the size of the first buffer. */
  method PrintBuffered(item: Node, prebuffer: nat) returns (text: string)
    requires Readable(item) && Printable(item.tree) && 0 < prebuffer
    requires Roomy("", Print(ToJson(item.tree), 0, false))
    ensures text == Print(ToJson(item.tree), 0, false)
  {
    hide PrintBuffer.Holding, Readable, Print;
    var p := new PrintBuffer(prebuffer);
    ghost var whole := Print(ToJson(item.tree), 0, false);
    PutValue(p, item, 0, "");
    var n := Length(p.buffer, 0, whole);
    text := p.buffer[..n];
  }

  /** Buffered and unbuffered printing agree, whatever the size of the first buffer. */
  method PrintBothWays(item: Node, prebuffer: nat) returns (buffered: string, unbuffered: Option<string>)
    requires Readable(item) && Printable(item.tree) && 0 < prebuffer
    requires Roomy("", Print(ToJson(item.tree), 0, false))
    ensures unbuffered == Some(buffered)
  {
    hide Readable, Print;
    buffered := PrintBuffered(item, prebuffer);
    unbuffered := ValueText(item, 0, false);
  }
}
