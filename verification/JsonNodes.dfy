/** cJSON's heap: items linked to their siblings and to the first of their children. */
module JsonNodes {
  import opened JsonText

  /** The `type` of an item without its two flag bits; Blank is the type of zeroed memory. */
  datatype Kind = Blank | NullKind | FalseKind | TrueKind | NumberKind | StringKind | ArrayKind | ObjectKind

  /** An item and everything below it, as a value. */
  datatype Tree = Tree(
    kind: Kind, reference: bool, constName: bool,
    valueint: int, valuestring: Option<string>, name: Option<string>, kids: seq<Tree>)

  const BLANK_TREE := Tree(Blank, false, false, 0, None, None, [])

  class Node {
    var next: Node?
    var prev: Node?
    var child: Node?
    var kind: Kind
    var reference: bool
    var constName: bool
    var valueint: int
    var valuestring: Option<string>
    var name: Option<string>

    ghost var kids: seq<Node>    // the chain behind `child`
    ghost var repr: set<Node>    // every item that can be read from here
    ghost var owned: set<Node>   // the items that go when this one is deleted
    ghost var tree: Tree

    /** A zeroed item. */
    constructor ()
      ensures Framed() && Valid() && Private() && Labelled() && tree == BLANK_TREE && repr == owned == {this}
      ensures next == null && prev == null && child == null && kids == []
    {
      next, prev, child := null, null, null;
      kind, reference, constName := Blank, false, false;
      valueint, valuestring, name := 0, None, None;
      kids, repr, owned, tree := [], {this}, {this}, BLANK_TREE;
    }

    /** The scalar fields are those of the tree. */
    ghost predicate Labelled()
      reads `kind, `reference, `constName, `valueint, `valuestring, `name, `tree
    {
      && tree.kind == kind && tree.reference == reference && tree.constName == constName
      && tree.valueint == valueint && tree.valuestring == valuestring && tree.name == name
    }

    /** The items below this one, and only those, are in `repr`. */
    ghost predicate Framed()
      reads `kids, `repr, repr - {this}
    {
      && this in repr
      && forall i :: 0 <= i < |kids| ==> kids[i] in repr - {this} && kids[i].repr <= repr - {this}
    }

    /** The part of the heap below this item is well formed and described by `tree`. An item's own place
        among its siblings is its parent's business. */
    ghost predicate Valid()
      reads `child, `kind, `reference, `constName, `valueint, `valuestring, `name, `kids, `repr, `tree, repr - {this}
      decreases repr, 1
    {
      && Framed()
      && Labelled()
      && Chain(kids)
      && child == First(kids)
      && Described()
      && forall i :: 0 <= i < |kids| ==> kids[i].Valid()
    }

    /** The trees of the children are the children of the tree. */
    ghost predicate Described()
      requires Framed()
      reads `kids, `repr, `tree, repr - {this}
    {
      && |tree.kids| == |kids|
      && forall i :: 0 <= i < |kids| ==> tree.kids[i] == kids[i].tree
    }

    /** Deleting this item frees every item of `owned` once. The children of a reference are not its own. */
    ghost predicate Private()
      requires Framed()
      reads `reference, `kids, `repr, `owned, repr - {this}
      decreases repr
    {
      && this in owned && owned <= repr
      && if reference then owned == {this} else
        && owned == {this} + Owned(kids)
        && Apart(kids)
        && forall i :: 0 <= i < |kids| ==> this !in kids[i].owned && kids[i].Framed() && kids[i].Private()
    }
  }

  ghost function First(s: seq<Node>): Node? {
    if s == [] then null else s[0]
  }

  ghost function At(s: seq<Node>, i: int): Node? {
    if 0 <= i < |s| then s[i] else null
  }

  ghost predicate Distinct<T>(s: seq<T>) {
    forall i, j :: 0 <= i < j < |s| ==> s[i] != s[j]
  }

  /** The items of s are exactly the siblings of one another, in this order. */
  ghost predicate Chain(s: seq<Node>)
    reads s`next, s`prev
  {
    && Distinct(s)
    && (forall i {:trigger s[i].next} :: 0 <= i < |s| ==> s[i].next == At(s, i + 1))
    && (forall i {:trigger s[i].prev} :: 0 <= i < |s| ==> s[i].prev == At(s, i - 1))
  }

  ghost function Owned(s: seq<Node>): set<Node>
    reads s`owned
  {
    set k, n | k in s && n in k.owned :: n
  }

  ghost function Reprs(s: seq<Node>): set<Node>
    reads s`repr
  {
    set k, n | k in s && n in k.repr :: n
  }

  ghost predicate Apart(s: seq<Node>)
    reads s`owned
  {
    forall k, m :: k in s && m in s && k != m ==> k.owned !! m.owned
  }

  /** Neither item can be read from the other, and none goes with both. They may show the same children, if these are at
      most one's own. */
  ghost predicate Aside(k: Node, m: Node)
    reads k`repr, k`owned, m`repr, m`owned
  {
    k !in m.repr && m !in k.repr && k.owned !! m.owned
  }

  ghost predicate Separated(s: seq<Node>)
    reads s`repr, s`owned
  {
    forall k, m :: k in s && m in s && k != m ==> Aside(k, m)
  }

  /** An array or object whose children can be relinked: they are its own, and it may hold references to them. */
  ghost predicate Editable(a: Node)
    reads a, a.repr
  {
    a.Valid() && a.Private() && !a.reference && Separated(a.kids)
  }

  /** An item that is in no chain and lies aside of the array it goes into and of its children. */
  ghost predicate Loose(item: Node, a: Node)
    reads item, item.repr, a
  {
    && item.Valid() && item.Private() && item.next == null && item.prev == null
    && Aside(item, a) && forall k :: k in a.kids ==> k !in item.repr
  }

  ghost function Trees(s: seq<Node>): (t: seq<Tree>)
    reads s`tree
    ensures |t| == |s| && forall i :: 0 <= i < |s| ==> t[i] == s[i].tree
  {
    if s == [] then [] else [s[0].tree] + Trees(s[1..])
  }

  /** An item that stands on its own, away from a. */
  ghost predicate Part(a: Node, k: Node)
    reads k`child, k`kind, k`reference, k`constName, k`valueint, k`valuestring, k`name, k`kids, k`repr, k`tree,
      k`owned, k.repr - {k}
  {
    k in k.repr && k.Framed() && k.Valid() && k.Private() && a !in k.repr
  }

  ghost predicate Parts(a: Node, s: seq<Node>)
    reads s, set k, n | k in s && n in k.repr :: n
  {
    && (forall k :: k in s ==> Part(a, k))
    && Separated(s)
  }

  lemma PartsApart(s: seq<Node>)
    requires Separated(s)
    ensures Apart(s)
  {
    assert forall k, m :: k in s && m in s && k != m ==> Aside(k, m);
  }

  lemma AssembledFrame(a: Node, s: seq<Node>)
    requires a.kids == s && a.repr == {a} + Reprs(s)
    requires forall k :: k in s ==> a !in k.repr && k in k.repr
    ensures a.Framed()
  {
    assert forall k :: k in s ==> k.repr <= Reprs(s);
    assert forall i :: 0 <= i < |s| ==> s[i] in s;
  }

  lemma AssembledValid(a: Node, s: seq<Node>)
    requires a.kids == s && a.Framed() && Chain(s) && a.child == First(s) && a.Labelled()
    requires a.tree.kids == Trees(s)
    requires forall k :: k in s ==> k.Valid()
    ensures a.Valid()
  {}

  lemma AssembledPrivate(a: Node, s: seq<Node>)
    requires a.kids == s && a.Framed() && !a.reference
    requires a.repr == {a} + Reprs(s) && a.owned == {a} + Owned(s)
    requires forall k :: k in s ==> a !in k.repr && k.Framed() && k.Private()
    requires Separated(s)
    ensures a.Private()
  {
    PartsApart(s);
    hide Separated, Aside;
    assert forall k :: k in s ==> k.owned <= k.repr;
  }

  /** The ghost fields of a after its chain has become s. */
  ghost method Adopt(a: Node, s: seq<Node>, t: seq<Tree>)
    requires !a.reference && a.Labelled() && Chain(s) && a.child == First(s)
    requires Parts(a, s) && Trees(s) == t
    modifies a`kids, a`repr, a`owned, a`tree
    ensures Editable(a) && a.kids == s
    ensures a.tree == old(a.tree).(kids := t) && a.repr == {a} + old(Reprs(s)) && a.owned == {a} + old(Owned(s))
  {
    hide Node.Valid, Node.Private, Node.Framed, Chain, Separated, Reprs, Owned, Trees;
    assert forall k :: k in s ==> a != k;
    ghost var r, o := Reprs(s), Owned(s);
    assert a !in s;
    a.kids, a.repr, a.owned, a.tree := s, {a} + r, {a} + o, a.tree.(kids := t);
    assert Trees(s) == t && Reprs(s) == r && Owned(s) == o;
    AssembledFrame(a, s);
    AssembledValid(a, s);
    AssembledPrivate(a, s);
  }
}
