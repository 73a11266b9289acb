/** Deleting a chain of items with everything they own. */
module JsonDelete {
  import opened JsonNodes
  import opened JsonLists

  /** A block of memory handed back: an item, its string value or its name. */
  datatype Block = NodeBlock(n: Node) | ValueBlock(n: Node) | NameBlock(n: Node)

  /** n owns the block b itself: not through a reference, and not a constant name. */
  ghost predicate Has(n: Node, b: Block)
    requires b.n == n
    reads n
  {
    match b
    case NodeBlock(_) => true
    case ValueBlock(_) => !n.reference && n.valuestring.Some?
    case NameBlock(_) => !n.constName && n.name.Some?
  }

  /** freed holds every block of the items of s, each of them once, and nothing else. */
  ghost predicate FreesAll(freed: seq<Block>, s: set<Node>)
    reads s
  {
    && Distinct(freed)
    && (forall b :: b in freed ==> b.n in s && Has(b.n, b))
    && (forall n :: n in s ==> NodeBlock(n) in freed)
    && (forall n :: n in s && Has(n, ValueBlock(n)) ==> ValueBlock(n) in freed)
    && (forall n :: n in s && Has(n, NameBlock(n)) ==> NameBlock(n) in freed)
  }

  lemma FreesBoth(f: seq<Block>, s: set<Node>, g: seq<Block>, t: set<Node>)
    requires FreesAll(f, s) && FreesAll(g, t) && s !! t
    ensures FreesAll(f + g, s + t)
  {
    forall i, j | 0 <= i < j < |f + g|
      ensures (f + g)[i] != (f + g)[j]
    {
      if i < |f| <= j {
        assert f[i] in f && g[j - |f|] in g;
      }
    }
  }

  lemma OwnedKids(c: Node)
    requires c.Framed() && c.Private() && !c.reference
    ensures c.owned == {c} + Owned(c.kids) && c !in Owned(c.kids) && Apart(c.kids)
    ensures forall k :: k in c.kids ==> k.Framed() && k.Private()
  {}

  method FreeItem(c: Node) returns (own: seq<Block>)
    ensures FreesAll(own, {c})
  {
    own := [];
    if !c.reference && c.valuestring.Some? {
      own := own + [ValueBlock(c)];
    }
    if !c.constName && c.name.Some? {
      own := own + [NameBlock(c)];
    }
    own := own + [NodeBlock(c)];
  }

  method DeleteBelow(c: Node) returns (freed: seq<Block>)
    requires c.Framed() && c.Valid() && c.Private()
    ensures FreesAll(freed, c.owned - {c})
    decreases c.owned, 0
  {
    if !c.reference && c.child != null {
      OpenValid(c);
      OwnedKids(c);
      hide FreesAll, Node.Valid, Node.Private, Node.Framed, Owned, Chain;
      assert c.owned - {c} == Owned(c.kids);
      assert forall k :: k in c.kids ==> k.Framed() && k.Valid() && k.Private();
      freed := Delete(c.child, c.kids);
    } else {
      NothingBelow(c);
      freed := [];
    }
  }

  /** Frees the children, then the value, the name and the item itself. */
  method DeleteItem(c: Node) returns (freed: seq<Block>)
    requires c.Framed() && c.Valid() && c.Private()
    ensures FreesAll(freed, c.owned)
    decreases c.owned, 1
  {
    assert c in c.owned;
    hide FreesAll, Node.Valid, Node.Private, Node.Framed;
    freed := DeleteBelow(c);
    var own := FreeItem(c);
    FreesBoth(freed, c.owned - {c}, own, {c});
    assert c.owned - {c} + {c} == c.owned;
    freed := freed + own;
  }

  lemma NothingBelow(c: Node)
    requires c.Framed() && c.Valid() && c.Private() && (c.reference || c.child == null)
    ensures c.owned == {c} && FreesAll([], c.owned - {c})
  {}

  lemma OwnedStep(s: seq<Node>, i: nat)
    requires i < |s| && Apart(s) && Distinct(s)
    ensures Owned(s[..i]) !! s[i].owned && Owned(s[..i + 1]) == Owned(s[..i]) + s[i].owned
  {
    assert s[..i + 1] == s[..i] + [s[i]];
    assert forall k :: k in s[..i] ==> k in s && k != s[i];
  }

  /** Deletes c and the siblings behind it, which are the items of s. No item is looked at after it has been freed. */
  method Delete(c: Node?, ghost s: seq<Node>) returns (freed: seq<Block>)
    requires Chain(s) && c == First(s) && Apart(s)
    requires forall k :: k in s ==> k.Framed() && k.Valid() && k.Private()
    ensures FreesAll(freed, Owned(s))
    decreases Owned(s), 2
  {
    hide Node.Valid, Node.Private, Node.Framed, Owned;
    freed := [];
    var d := c;
    ghost var i := 0;
    assert s[..0] == [];
    OwnedNothing();
    while d != null
      invariant 0 <= i <= |s| && d == At(s, i)
      invariant FreesAll(freed, Owned(s[..i]))
      decreases |s| - i
    {
      ChainAt(s, i);
      OwnedStep(s, i);
      OwnedPart(s, d);
      assert NodeBlock(d) !in freed;
      var next := d.next;
      var f := DeleteItem(d);
      FreesBoth(freed, Owned(s[..i]), f, d.owned);
      freed := freed + f;
      d := next;
      i := i + 1;
    }
    assert s[..i] == s;
  }

  lemma OwnedNothing()
    ensures Owned([]) == {} && FreesAll([], {})
  {}

  lemma OwnedPart(s: seq<Node>, d: Node)
    requires d in s && d.Framed() && d.Private()
    ensures d in d.owned && d.owned <= Owned(s)
  {}

  lemma LooseAlone(c: Node, list: Node)
    requires Loose(c, list)
    ensures c.Framed() && c.Valid() && c.Private() && Chain([c]) && Apart([c])
    ensures Owned([c]) == c.owned
  {
    assert forall k :: k in [c] ==> k == c;
  }

  /** Deletes an item that is in no chain. */
  method Discard(c: Node, ghost list: Node) returns (freed: seq<Block>)
    requires Loose(c, list)
    ensures FreesAll(freed, c.owned)
  {
    LooseAlone(c, list);
    hide FreesAll, Loose, Owned, Chain, Apart, Node.Valid, Node.Private, Node.Framed;
    assert forall k :: k in [c] ==> k == c;
    freed := Delete(c, [c]);
  }

  /** Nothing that has been freed can still be read from a. */
  ghost predicate Spared(freed: seq<Block>, a: Node)
    reads a`repr
  {
    forall b :: b in freed ==> b.n !in a.repr
  }

  lemma SparedWhen(freed: seq<Block>, c: Node, a: Node)
    requires FreesAll(freed, c.owned)
    ensures Spared(freed, a) <==> c.owned !! a.repr
  {
    if Spared(freed, a) {
      forall n | n in c.owned
        ensures n !in a.repr
      {
        assert NodeBlock(n) in freed;
      }
    }
  }

  /** The item at the index gives way to newitem and is deleted; past the end nothing happens. */
  method ReplaceItemInArray(list: Node, which: int, newitem: Node) returns (freed: seq<Block>)
    requires Editable(list) && Loose(newitem, list)
    modifies list`child, list`kids, list`repr, list`owned, list`tree, newitem`next, newitem`prev, list.kids`next,
      list.kids`prev
    ensures Editable(list)
    ensures Slot(which) >= |old(list.kids)| ==>
      freed == [] && list.kids == old(list.kids) && list.tree == old(list.tree)
    ensures Slot(which) < |old(list.kids)| ==>
      && list.kids == old(list.kids)[Slot(which) := newitem]
      && Slot(which) < |old(list.tree).kids|
      && list.tree == old(list.tree).(kids := old(list.tree).kids[Slot(which) := newitem.tree])
      && FreesAll(freed, old(list.kids)[Slot(which)].owned)
      && (Spared(freed, list) <==> old(list.kids)[Slot(which)].owned !! list.repr)
  {
    freed := [];
    Ready(list);
    var c := Nth(list, which);
    if c != null {
      hide Editable, Loose, Chain, Owned, Apart, Parts, FreesAll, Spared, Node.Valid, Node.Private, Node.Framed;
      ReplaceChild(list, c, newitem, Slot(which));
      freed := Discard(c, list);
      SparedWhen(freed, c, list);
    }
  }

  /** Detaches the item at the index, if there is one, and deletes it. */
  method DeleteItemFromArray(list: Node, which: int) returns (freed: seq<Block>)
    requires Editable(list)
    modifies list`child, list`kids, list`repr, list`owned, list`tree, list.kids`next, list.kids`prev
    ensures Editable(list)
    ensures Slot(which) >= |old(list.kids)| ==>
      freed == [] && list.kids == old(list.kids) && list.tree == old(list.tree)
    ensures Slot(which) < |old(list.kids)| ==>
      && list.kids == RemoveAt(old(list.kids), Slot(which))
      && FreesAll(freed, old(list.kids)[Slot(which)].owned)
      && (Spared(freed, list) <==> old(list.kids)[Slot(which)].owned !! list.repr)
  {
    freed := [];
    var c := DetachItemFromArray(list, which);
    if c != null {
      hide Editable, Loose, Chain, Owned, Apart, RemoveAt, FreesAll, Spared, Node.Valid, Node.Private, Node.Framed;
      freed := Discard(c, list);
      SparedWhen(freed, c, list);
    }
  }
}
