/** Building the chain of children of an item from items that belong to nobody else. */
module JsonBuild {
  import opened JsonNodes
  import opened JsonLists

  /** An item that shares nothing: what is read from it is what goes when it is deleted. */
  ghost predicate Grown(n: Node)
    reads n`child, n`kind, n`reference, n`constName, n`valueint, n`valuestring, n`name, n`kids, n`repr, n`owned,
      n`tree, n.repr - {n}
  {
    n.Framed() && n.Valid() && n.Private() && n.owned == n.repr && !n.reference
  }

  /** Such an item outside any chain. */
  ghost predicate Standalone(n: Node)
    reads n, n.repr
  {
    Grown(n) && n.next == null && n.prev == null
  }

  lemma LeafAlone(n: Node)
    requires Leaf(n)
    ensures n.repr == {n}
  {}

  lemma GrownAlone(n: Node)
    requires Grown(n) && n.next == null && n.prev == null
    ensures Standalone(n)
  {}

  lemma OpenStandalone(n: Node)
    requires Standalone(n)
    ensures Grown(n) && n.next == null && n.prev == null && n.owned == n.repr
  {}

  lemma PartsMore(n: Node, s: seq<Node>, x: Node, u: seq<Node>)
    requires Parts(n, s) && Grown(x) && u == s + [x]
    requires n !in x.repr && forall k :: k in s ==> k.repr !! x.repr
    ensures Parts(n, u) && x !in s
  {
    PartsOutside(n, s);
    ApartAside(n, s, x);
    assert x in x.repr;
    assert Part(n, x);
    Members(s, x, u);
    PartsWith(n, s, u, x);
  }

  lemma ApartAside(n: Node, s: seq<Node>, x: Node)
    requires Parts(n, s) && Grown(x) && forall k :: k in s ==> k.repr !! x.repr
    ensures forall k :: k in s ==> Aside(k, x) && Aside(x, k)
  {
    hide Node.Valid;
    forall k | k in s
      ensures Aside(k, x) && Aside(x, k)
    {
      assert Part(n, k) && x in x.repr;
      assert k.owned <= k.repr;
    }
  }

  /** The items s are linked behind n, make up the trees t and are, with all below them, the items of r. */
  ghost predicate Building(n: Node, s: seq<Node>, last: Node?, t: seq<Tree>, r: set<Node>)
    reads n, s, Reprs(s)
  {
    && Chain(s) && n.child == First(s) && last == At(s, |s| - 1)
    && Parts(n, s) && Trees(s) == t && Reprs(s) == r && Owned(s) == r
  }

  /** An item without children. */
  ghost predicate Leaf(n: Node)
    reads n`child, n`kind, n`reference, n`constName, n`valueint, n`valuestring, n`name, n`kids, n`repr, n`owned, n`tree
  {
    && n.kids == [] && n.child == null && !n.reference
    && n.repr == {n} && n.owned == {n} && n.Labelled() && n.tree.kids == []
  }

  lemma LeafGrown(n: Node)
    requires Leaf(n)
    ensures Grown(n)
  {
    assert Owned([]) == {};
  }

  lemma OpenBuilding(n: Node, s: seq<Node>, last: Node?, t: seq<Tree>, r: set<Node>)
    requires Building(n, s, last, t, r)
    ensures Parts(n, s) && Trees(s) == t && Reprs(s) == r && Owned(s) == r
  {}

  lemma BuildingNothing(n: Node)
    requires n.child == null && !n.reference
    ensures Building(n, [], null, [], {})
  {}

  lemma Extended(n: Node, s: seq<Node>, x: Node, u: seq<Node>, t: seq<Tree>, t': seq<Tree>, r: set<Node>)
    requires Parts(n, s) && Trees(s) == t && Reprs(s) == r && Owned(s) == r
    requires Grown(x) && n !in x.repr && x.repr !! r
    requires u == s + [x] && t' == t + [x.tree]
    ensures x !in s && Parts(n, u) && Trees(u) == t'
    ensures Reprs(u) == r + x.repr && Owned(u) == r + x.repr
  {
    hide Node.Valid, Node.Private, Node.Framed;
    DisjointFromEach(s, x);
    PartsMore(n, s, x, u);
    TreesAt(u, t');
    hide Parts, Trees;
    ReprsExtended(s, x, u);
  }

  lemma DisjointFromEach(s: seq<Node>, x: Node)
    requires x.repr !! Reprs(s)
    ensures forall k :: k in s ==> k.repr !! x.repr
  {}

  lemma ReprsExtended(s: seq<Node>, x: Node, u: seq<Node>)
    requires u == s + [x]
    ensures Reprs(u) == Reprs(s) + x.repr && Owned(u) == Owned(s) + x.owned
  {
    Members(s, x, u);
  }

  method AppendNew(n: Node, last: Node?, x: Node, ghost s: seq<Node>, ghost u: seq<Node>,
                    ghost t: seq<Tree>, ghost t': seq<Tree>, ghost r: set<Node>)
    requires Building(n, s, last, t, r) && Standalone(x) && u == s + [x] && t' == t + [x.tree]
    requires n !in x.repr && x.repr !! r
    modifies n`child, x`prev, s`next
    ensures Building(n, u, x, t', r + old(x.repr))
  {
    hide Parts, Chain, Trees, Reprs, Owned, Standalone, Grown;
    ghost var r' := r + x.repr;
    OpenStandalone(x);
    Extended(n, s, x, u, t, t', r);
    assert u[|u| - 1] == x;
    AppendBehind(n, last, x, s, u, t', r', r');
    assert Building(n, u, x, t', r');
  }

  ghost method Finish(n: Node, s: seq<Node>, last: Node?, t: seq<Tree>, r: set<Node>)
    requires Building(n, s, last, t, r) && n.Labelled() && !n.reference
    modifies n`kids, n`repr, n`owned, n`tree
    ensures Grown(n) && n.repr == {n} + r && n.tree == old(n.tree).(kids := t)
  {
    Adopt(n, s, t);
  }

  /** All of Building but the link to the last item, which is about to change. */
  ghost predicate Prefix(n: Node, s: seq<Node>, t: seq<Tree>, r: set<Node>, x: Node, u: seq<Node>)
    reads n, u`next, u`prev, Reprs(s), s
  {
    && u == s + [x] && Chain(u) && n.child == First(u) && x !in s && x != n
    && Parts(n, s) && Trees(s) == t && Reprs(s) == r && Owned(s) == r && x !in r
  }

  lemma PrefixFrom(n: Node, s: seq<Node>, t: seq<Tree>, r: set<Node>, x: Node, u: seq<Node>, t': seq<Tree>)
    requires u == s + [x] && Building(n, u, x, t', r + {x}) && x !in s && x != n && x !in r
    requires Trees(s) == t && Reprs(s) == r && Owned(s) == r
    ensures Prefix(n, s, t, r, x, u)
  {
    hide Trees, Reprs, Owned, Chain, Parts;
    PartsOf(n, u, s);
  }

  lemma PrefixAway(n: Node, s: seq<Node>, t: seq<Tree>, r: set<Node>, x: Node, u: seq<Node>)
    requires Prefix(n, s, t, r, x, u)
    ensures x != n && x !in s && x !in Reprs(s) && Reprs(s) == r
  {}

  /** A new item behind the last one, still blank. */
  method NewBehind(n: Node, last: Node?, ghost s: seq<Node>, ghost t: seq<Tree>, ghost r: set<Node>)
    returns (x: Node)
    requires Building(n, s, last, t, r)
    modifies n`child, s`next
    ensures fresh(x) && Leaf(x) && x.tree == BLANK_TREE
    ensures Prefix(n, s, t, r, x, s + [x])
  {
    hide Parts, Chain, Trees, Reprs, Owned, Standalone, Grown, Building, Leaf, Prefix;
    OpenBuilding(n, s, last, t, r);
    x := NewItem();
    ghost var u := s + [x];
    AppendNew(n, last, x, s, u, t, t + [x.tree], r);
    PrefixFrom(n, s, t, r, x, u, t + [x.tree]);
  }

  method NewItem() returns (x: Node)
    ensures fresh(x) && Leaf(x) && Standalone(x) && x.tree == BLANK_TREE && x.repr == {x}
  {
    x := new Node();
    LeafGrown(x);
  }

  /** The last item again, after something has been read into it. */
  lemma Rejoined(n: Node, s: seq<Node>, t: seq<Tree>, r: set<Node>, x: Node, u: seq<Node>)
    requires Prefix(n, s, t, r, x, u) && Grown(x) && n !in x.repr && x.repr !! r
    ensures Building(n, u, x, t + [x.tree], r + x.repr)
  {
    Extended(n, s, x, u, t, t + [x.tree], r);
    hide Parts, Chain, Trees, Reprs, Owned, Grown;
    assert u[|u| - 1] == x;
  }
}
