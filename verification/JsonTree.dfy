/** The JSON value an item stands for. */
module JsonTree {
  import opened JsonText
  import opened JsonNodes

  function OrEmpty(s: Option<string>): string {
    if s.Some? then s.value else ""
  }

  /** What the printer makes of an item and the parser makes an item of; a null string reads as the empty one. */
  function ToJson(t: Tree): Json
    decreases t, 1
  {
    match t.kind
    case Blank => Null
    case NullKind => Null
    case FalseKind => False
    case TrueKind => True
    case NumberKind => Number(t.valueint)
    case StringKind => Str(OrEmpty(t.valuestring))
    case ArrayKind => Arr(ToElems(t.kids))
    case ObjectKind => Obj(ToMembers(t.kids))
  }

  function ToElems(ts: seq<Tree>): (es: seq<Json>)
    ensures |es| == |ts|
    decreases ts, 0
  {
    if ts == [] then [] else ToElems(ts[..|ts| - 1]) + [ToJson(ts[|ts| - 1])]
  }

  function ToMember(t: Tree): Member
    decreases t, 2
  {
    Member(OrEmpty(t.name), ToJson(t))
  }

  function ToMembers(ts: seq<Tree>): (ms: seq<Member>)
    ensures |ms| == |ts|
    decreases ts, 0
  {
    if ts == [] then [] else ToMembers(ts[..|ts| - 1]) + [ToMember(ts[|ts| - 1])]
  }

  lemma ElemsMore(ts: seq<Tree>, t: Tree)
    ensures ToElems(ts + [t]) == ToElems(ts) + [ToJson(t)]
  {
    assert (ts + [t])[..|ts|] == ts;
  }

  lemma MembersMore(ts: seq<Tree>, t: Tree)
    ensures ToMembers(ts + [t]) == ToMembers(ts) + [ToMember(t)]
  {
    assert (ts + [t])[..|ts|] == ts;
  }

  // ----- The items of the parser -----

  /** An item as the parser leaves it: no flags, an integer in a number, 1 in a true and 0 in any other item, a string
      in a string and in no other item, and children with names in an object and without in an array. */
  predicate Proper(t: Tree) {
    && !t.reference && !t.constName && t.kind != Blank
    && (t.kind != NumberKind ==> t.valueint == if t.kind == TrueKind then 1 else 0)
    && (t.valuestring.Some? <==> t.kind == StringKind)
    && (t.kind != ArrayKind && t.kind != ObjectKind ==> t.kids == [])
    && forall k :: k in t.kids ==> Proper(k) && (k.name.Some? <==> t.kind == ObjectKind)
  }

  predicate AllProper(ts: seq<Tree>, named: bool) {
    forall k :: k in ts ==> Proper(k) && (k.name.Some? <==> named)
  }

  /** An item that nothing has been read into yet. */
  predicate Bare(t: Tree) {
    !t.reference && !t.constName && t.valueint == 0 && t.valuestring == None && t.kids == []
  }

  lemma ProperMore(ts: seq<Tree>, t: Tree, named: bool, us: seq<Tree>)
    requires AllProper(ts, named) && Proper(t) && (t.name.Some? <==> named) && us == ts + [t]
    ensures AllProper(us, named)
  {
    hide Proper;
  }

  lemma ProperList(b: Tree, kind: Kind, ts: seq<Tree>)
    requires Bare(b) && (kind == ArrayKind || kind == ObjectKind) && AllProper(ts, kind == ObjectKind)
    ensures Proper(b.(kind := kind, kids := ts))
  {}

  /** Such an item is all determined by the value and the name. */
  lemma {:induction false} ProperUnique(t: Tree, u: Tree)
    requires Proper(t) && Proper(u) && ToJson(t) == ToJson(u) && t.name == u.name
    ensures t == u
    decreases t, 1
  {
    hide Proper, ToElems, ToMembers;
    ProperFields(t);
    ProperFields(u);
    if t.kind == ArrayKind || t.kind == ObjectKind {
      KidsUnique(t.kids, u.kids, t.kind == ObjectKind);
    }
  }

  lemma ProperFields(t: Tree)
    requires Proper(t)
    ensures !t.reference && !t.constName && t.kind != Blank
    ensures t.kind != NumberKind ==> t.valueint == if t.kind == TrueKind then 1 else 0
    ensures t.valuestring.Some? <==> t.kind == StringKind
    ensures t.kind != ArrayKind && t.kind != ObjectKind ==> t.kids == []
    ensures AllProper(t.kids, t.kind == ObjectKind)
  {}

  lemma {:induction false} KidsUnique(ts: seq<Tree>, us: seq<Tree>, named: bool)
    requires AllProper(ts, named) && AllProper(us, named)
    requires if named then ToMembers(ts) == ToMembers(us) else ToElems(ts) == ToElems(us)
    ensures ts == us
    decreases ts, 0
  {
    hide Proper, ToJson;
    assert |ts| == |us|;
    if ts != [] {
      var n := |ts| - 1;
      assert ts == ts[..n] + [ts[n]] && us == us[..n] + [us[n]];
      if named {
        assert ToMembers(ts)[..n] == ToMembers(ts[..n]) && ToMembers(us)[..n] == ToMembers(us[..n]);
        assert ToMembers(ts)[n] == ToMember(ts[n]) && ToMembers(us)[n] == ToMember(us[n]);
      } else {
        assert ToElems(ts)[..n] == ToElems(ts[..n]) && ToElems(us)[..n] == ToElems(us[..n]);
        assert ToElems(ts)[n] == ToJson(ts[n]) && ToElems(us)[n] == ToJson(us[n]);
      }
      KidsUnique(ts[..n], us[..n], named);
      ProperUnique(ts[n], us[n]);
    }
  }
}
