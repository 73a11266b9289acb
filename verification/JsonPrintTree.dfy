/** Printing a tree of items into memory measured from the texts of its parts. */
module JsonPrintTree {
  import opened JsonText
  import opened CStrings
  import opened JsonNodes
  import opened JsonLists
  import opened JsonTree
  import opened JsonPrint

  /** No item that is printed has the type of zeroed memory. */
  predicate Printable(t: Tree) {
    && t.kind != Blank
    && (t.kind == ArrayKind || t.kind == ObjectKind ==> forall k :: k in t.kids ==> Printable(k))
  }

  /** The texts from i on with sep between them. */
  function Joined(ts: seq<string>, sep: string, i: nat): string
    requires i <= |ts|
    decreases |ts| - i
  {
    if i == |ts| then "" else ts[i] + (if i + 1 == |ts| then "" else sep) + Joined(ts, sep, i + 1)
  }

  /** What is reserved for the texts from i on, with `extra` more for each. */
  function Room(ts: seq<string>, extra: nat, i: nat): nat
    requires i <= |ts|
    decreases |ts| - i
  {
    if i == |ts| then 0 else |ts[i]| + extra + Room(ts, extra, i + 1)
  }

  lemma {:induction false} RoomMore(ts: seq<string>, t: string, extra: nat, i: nat)
    requires i <= |ts|
    ensures Room(ts + [t], extra, i) == Room(ts, extra, i) + |t| + extra
    decreases |ts| - i
  {
    if i == |ts| {
      assert Room(ts + [t], extra, i + 1) == 0;
    } else {
      RoomMore(ts, t, extra, i + 1);
    }
  }

  /** The bracketed text of the entries: the memory reserved is enough for it and its terminator. */
  method Compose(opening: string, closing: string, sep: string, entries: seq<string>, extra: nat, len: nat)
    returns (text: string)
    requires entries != [] && |sep| <= extra && |opening| == |closing| == 1
    requires NulFree(opening) && NulFree(closing) && NulFree(sep) && forall e :: e in entries ==> NulFree(e)
    requires len >= Room(entries, extra, 0) + 3
    ensures text == opening + Joined(entries, sep, 0) + closing
  {
    var out := new char[len];
    var p: nat := Put(out, 0, opening);
    ghost var whole := opening + Joined(entries, sep, 0);
    assert out[..0] == [];
    for i := 0 to |entries|
      invariant p + Room(entries, extra, i) + 2 <= len && p <= len
      invariant out[..p] + Joined(entries, sep, i) == whole
    {
      p := Put(out, p, entries[i]);
      if i != |entries| - 1 {
        p := Put(out, p, sep);
      }
    }
    assert out[..p] + "" == out[..p];
    p := Put(out, p, closing);
    text := out[..p];
    out[p] := '\0';
  }

  lemma ElemAt(ts: seq<Tree>, i: nat)
    requires i < |ts|
    ensures ToElems(ts)[i] == ToJson(ts[i])
    ensures ToMembers(ts)[i] == ToMember(ts[i])
  {
    if i < |ts| - 1 {
      assert ts[..|ts| - 1][i] == ts[i];
      ElemAt(ts[..|ts| - 1], i);
    }
  }

  lemma {:induction false} ElemsJoined(elems: seq<Json>, depth: nat, fmt: bool, ts: seq<string>, i: nat)
    requires i < |elems| == |ts| && forall k :: 0 <= k < |ts| ==> ts[k] == Print(elems[k], depth, fmt)
    ensures PrintElems(elems[i..], depth, fmt) == Joined(ts, Comma(fmt), i)
    decreases |ts| - i
  {
    hide Print;
    var s := elems[i..];
    if i + 1 < |ts| {
      ElemsJoined(elems, depth, fmt, ts, i + 1);
      assert s[1..] == elems[i + 1..];
      assert ts[i] + (Comma(fmt) + Joined(ts, Comma(fmt), i + 1)) == ts[i] + Comma(fmt) + Joined(ts, Comma(fmt), i + 1);
    } else {
      assert Joined(ts, Comma(fmt), i + 1) == "";
      assert ts[i] + "" == ts[i];
    }
  }

  lemma {:induction false} MembersJoined(members: seq<Member>, depth: nat, fmt: bool, ts: seq<string>, i: nat)
    requires i < |members| == |ts| && forall k :: 0 <= k < |ts| ==> ts[k] == PrintMember(members[k], depth, fmt)
    ensures PrintMembers(members[i..], depth, fmt) == Joined(ts, ",", i)
    decreases |ts| - i
  {
    hide PrintMember;
    var s := members[i..];
    if i + 1 < |ts| {
      MembersJoined(members, depth, fmt, ts, i + 1);
      assert s[1..] == members[i + 1..];
      assert ts[i] + ("," + Joined(ts, ",", i + 1)) == ts[i] + "," + Joined(ts, ",", i + 1);
    } else {
      assert Joined(ts, ",", i + 1) == "";
      assert ts[i] + "" == ts[i];
    }
  }

  lemma {:induction false} PrintNulFree(j: Json, depth: nat, fmt: bool)
    requires Representable(j)
    ensures NulFree(Print(j, depth, fmt))
    decreases j, 1
  {
    match j
    case Number(n) => NumberFits(n);
    case Str(s) => PrintStringNulFree(s);
    case Arr(elems) =>
      if elems != [] {
        ElemsNulFree(elems, depth + 1, fmt);
      }
    case Obj(members) =>
      if members != [] {
        MembersNulFree(members, depth + 1, fmt);
      }
    case _ =>
  }

  lemma {:induction false} ElemsNulFree(elems: seq<Json>, depth: nat, fmt: bool)
    requires elems != [] && forall e :: e in elems ==> Representable(e)
    ensures NulFree(PrintElems(elems, depth, fmt))
    decreases elems, 0
  {
    hide Representable;
    PrintNulFree(elems[0], depth, fmt);
    if |elems| > 1 {
      ElemsNulFree(elems[1..], depth, fmt);
    }
  }

  lemma {:induction false} MembersNulFree(members: seq<Member>, depth: nat, fmt: bool)
    requires members != [] && forall m :: m in members ==> NulFree(m.name) && Representable(m.value)
    ensures NulFree(PrintMembers(members, depth, fmt))
    decreases members, 0
  {
    hide Representable, Print;
    PrintStringNulFree(members[0].name);
    PrintNulFree(members[0].value, depth, fmt);
    if |members| > 1 {
      MembersNulFree(members[1..], depth, fmt);
    }
  }

  // ----- The tree -----

  /** A well-formed item whose numbers fit an int and whose strings are C strings. */
  ghost predicate Readable(item: Node)
    reads item`child, item`kind, item`reference, item`constName, item`valueint, item`valuestring, item`name, item`kids,
      item`repr, item`tree, item.repr - {item}
  {
    item.Framed() && item.Valid() && Representable(ToJson(item.tree))
  }

  lemma ReadableKids(item: Node)
    requires Readable(item) && (item.kind == ArrayKind || item.kind == ObjectKind)
    ensures Chain(item.kids) && item.child == First(item.kids)
    ensures |item.tree.kids| == |item.kids| && item.tree.kind == item.kind && item in item.repr
    ensures forall i :: 0 <= i < |item.kids| ==>
      && item.kids[i] in item.repr - {item} && item.kids[i].repr <= item.repr - {item}
      && Readable(item.kids[i]) && item.tree.kids[i] == item.kids[i].tree
    ensures item.kind == ObjectKind ==> forall i :: 0 <= i < |item.kids| ==> NulFree(OrEmpty(item.kids[i].name))
  {
    OpenValid(item);
    var ts := item.tree.kids;
    forall i | 0 <= i < |item.kids|
      ensures Readable(item.kids[i]) && (item.kind == ObjectKind ==> NulFree(OrEmpty(item.kids[i].name)))
    {
      ElemAt(ts, i);
      if item.kind == ArrayKind {
        assert ToElems(ts)[i] in ToElems(ts);
      } else {
        assert ToMembers(ts)[i] in ToMembers(ts);
      }
    }
  }

  /** The text of an item as print_value returns it, or null when an item in it has no type. */
  method ValueText(item: Node, depth: nat, fmt: bool) returns (text: Option<string>)
    requires Readable(item)
    ensures text.Some? <==> Printable(item.tree)
    ensures text.Some? ==> text.value == Print(ToJson(item.tree), depth, fmt)
    decreases item.repr, 2
  {
    assert item.tree.kind == item.kind && item.tree.valueint == item.valueint &&
      item.tree.valuestring == item.valuestring;
    match item.kind {
      case Blank => text := None;
      case NullKind => text := Some("null");
      case FalseKind => text := Some("false");
      case TrueKind => text := Some("true");
      case NumberKind =>
        var t := NumberText(item.valueint);
        text := Some(t);
      case StringKind =>
        var t := StringText(item.valuestring);
        text := Some(t);
      case ArrayKind => text := ArrayText(item, depth, fmt);
      case ObjectKind => text := ObjectText(item, depth, fmt);
    }
  }

  method Count(item: Node) returns (n: nat)
    requires Chain(item.kids) && item.child == First(item.kids)
    ensures n == |item.kids|
  {
    n := 0;
    var child := item.child;
    while child != null
      invariant n <= |item.kids| && child == At(item.kids, n)
      decreases |item.kids| - n
    {
      ChainAt(item.kids, n);
      child := child.next;
      n := n + 1;
    }
  }

  method ArrayText(item: Node, depth: nat, fmt: bool) returns (text: Option<string>)
    requires Readable(item) && item.kind == ArrayKind
    ensures text.Some? <==> Printable(item.tree)
    ensures text.Some? ==> text.value == Print(ToJson(item.tree), depth, fmt)
    decreases item.repr, 1
  {
    hide Readable, Print, ToElems, Room, Chain;
    ReadableKids(item);
    ghost var ts := item.tree.kids;
    var n := Count(item);
    if n == 0 {
      EmptyArrayText(ts, depth, fmt);
      return Some("[]");
    }
    var entries: seq<string> := [];
    var len := 5;
    var extra := if fmt then 3 else 2;
    var child := item.child;
    RoomNothing(extra);
    while child != null
      invariant |entries| <= n && child == At(item.kids, |entries|)
      invariant forall i :: 0 <= i < |entries| ==>
        Printable(ts[i]) && NulFree(entries[i]) && entries[i] == Print(ToJson(ts[i]), depth + 1, fmt)
      invariant len == 5 + Room(entries, extra, 0)
      decreases n - |entries|
    {
      ghost var i := |entries|;
      ChainAt(item.kids, i);
      var ret := ValueText(child, depth + 1, fmt);
      if ret.None? {
        assert ts[i] in ts && !Printable(ts[i]);
        return None;
      }
      ReadableNulFree(child, depth + 1, fmt);
      RoomMore(entries, ret.value, extra, 0);
      len := len + |ret.value| + extra;
      entries := entries + [ret.value];
      child := child.next;
    }
    var t := Compose("[", "]", Comma(fmt), entries, extra, len);
    ArrayJoined(ts, depth, fmt, entries);
    text := Some(t);
  }

  lemma RoomNothing(extra: nat)
    ensures Room([], extra, 0) == 0
  {}

  lemma ReadableNulFree(item: Node, depth: nat, fmt: bool)
    requires Readable(item)
    ensures NulFree(Print(ToJson(item.tree), depth, fmt))
  {
    PrintNulFree(ToJson(item.tree), depth, fmt);
  }

  lemma EmptyArrayText(ts: seq<Tree>, depth: nat, fmt: bool)
    requires ts == []
    ensures Print(Arr(ToElems(ts)), depth, fmt) == "[]"
  {}

  lemma ArrayJoined(ts: seq<Tree>, depth: nat, fmt: bool, entries: seq<string>)
    requires ts != [] && |entries| == |ts|
    requires forall i :: 0 <= i < |ts| ==> entries[i] == Print(ToJson(ts[i]), depth + 1, fmt)
    ensures Print(Arr(ToElems(ts)), depth, fmt) == "[" + Joined(entries, Comma(fmt), 0) + "]"
  {
    hide ToElems;
    var es := ToElems(ts);
    forall i | 0 <= i < |ts|
      ensures entries[i] == Print(es[i], depth + 1, fmt)
    {
      ElemAt(ts, i);
    }
    ElemsJoined(es, depth + 1, fmt, entries, 0);
    assert es[0..] == es;
  }

  method ObjectText(item: Node, depth: nat, fmt: bool) returns (text: Option<string>)
    requires Readable(item) && item.kind == ObjectKind
    ensures text.Some? <==> Printable(item.tree)
    ensures text.Some? ==> text.value == Print(ToJson(item.tree), depth, fmt)
    decreases item.repr, 1
  {
    hide Readable, Print, PrintMember, ToMembers, ToMember, Room, Chain;
    ReadableKids(item);
    ghost var ts := item.tree.kids;
    var n := Count(item);
    if n == 0 {
      var t := EmptyObject(depth, fmt);
      EmptyObjectText(ts, depth, fmt);
      return Some(t);
    }
    var entries: seq<string> := [];
    var extra := if fmt then 3 + depth + 1 else 1;
    var len := 7 + (if fmt then depth + 1 else 0);
    var child := item.child;
    RoomNothing(extra);
    while child != null
      invariant |entries| <= n && child == At(item.kids, |entries|)
      invariant forall i :: 0 <= i < |entries| ==>
        Printable(ts[i]) && NulFree(entries[i]) && entries[i] == PrintMember(ToMember(ts[i]), depth + 1, fmt)
      invariant len >= 7 + Room(entries, extra, 0)
      decreases n - |entries|
    {
      ghost var i := |entries|;
      ChainAt(item.kids, i);
      var entry, size := MemberText(child, depth + 1, fmt);
      if entry.None? {
        assert ts[i] in ts && !Printable(ts[i]);
        return None;
      }
      RoomMore(entries, entry.value, extra, 0);
      len := len + size + 2 + (if fmt then 2 + depth + 1 else 0);
      entries := entries + [entry.value];
      child := child.next;
    }
    var t := Compose("{", "}", ",", entries, extra, len);
    ObjectJoined(ts, depth, fmt, entries);
    text := Some(t);
  }

  /** The name and the text of a member with a colon between them, and their length without it. */
  method MemberText(child: Node, depth: nat, fmt: bool) returns (text: Option<string>, size: nat)
    requires Readable(child) && NulFree(OrEmpty(child.name))
    ensures text.Some? <==> Printable(child.tree)
    ensures text.Some? ==> text.value == PrintMember(ToMember(child.tree), depth, fmt)
    ensures text.Some? ==> NulFree(text.value) && |text.value| == size + 1
    decreases child.repr, 3
  {
    hide Readable, Print, PrintString, ToJson;
    NamedChild(child);
    var str := StringText(child.name);
    var ret := ValueText(child, depth, fmt);
    if ret.None? {
      return None, 0;
    }
    ReadableNulFree(child, depth, fmt);
    PrintStringNulFree(OrEmpty(child.name));
    return Some(str + ":" + ret.value), |ret.value| + |str|;
  }

  lemma NamedChild(child: Node)
    requires Readable(child)
    ensures child.tree.name == child.name
  {}

  method EmptyObject(depth: nat, fmt: bool) returns (text: string)
    ensures text == if fmt then "{\n" + Tabs(depth) + "}" else "{}"
  {
    var out := new char[if fmt then depth + 4 else 3];
    assert out[..0] == [];
    var p: nat := Put(out, 0, "{");
    if fmt {
      p := Put(out, p, "\n");
      for i := 0 to depth
        invariant p == 2 + i && out[..p] == "{\n" + Tabs(i)
      {
        p := Put(out, p, "\t");
      }
    }
    p := Put(out, p, "}");
    out[p] := '\0';
    text := out[..p];
  }

  lemma EmptyObjectText(ts: seq<Tree>, depth: nat, fmt: bool)
    requires ts == []
    ensures Print(Obj(ToMembers(ts)), depth, fmt) == if fmt then "{\n" + Tabs(depth) + "}" else "{}"
  {}

  lemma ObjectJoined(ts: seq<Tree>, depth: nat, fmt: bool, entries: seq<string>)
    requires ts != [] && |entries| == |ts|
    requires forall i :: 0 <= i < |ts| ==> entries[i] == PrintMember(ToMember(ts[i]), depth + 1, fmt)
    ensures Print(Obj(ToMembers(ts)), depth, fmt) == "{" + Joined(entries, ",", 0) + "}"
  {
    hide ToMembers, PrintMember;
    var ms := ToMembers(ts);
    forall i | 0 <= i < |ts|
      ensures entries[i] == PrintMember(ms[i], depth + 1, fmt)
    {
      ElemAt(ts, i);
    }
    MembersJoined(ms, depth + 1, fmt, entries, 0);
    assert ms[0..] == ms;
  }
}
