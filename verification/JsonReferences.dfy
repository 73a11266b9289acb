/** Items that stand for others: they show the children of the original, and own nothing but themselves. */
module JsonReferences {
  import opened JsonText
  import opened JsonNodes
  import opened JsonLists
  import opened JsonDelete

  lemma SharedKids(item: Node, r: Node)
    requires item.Framed() && item.Valid() && r != item && r !in item.repr
    requires r.kids == item.kids && r.child == item.child && r.repr == item.repr - {item} + {r}
    requires r.Labelled() && r.tree.kids == item.tree.kids
    ensures r.Framed() && r.Valid()
  {
    OpenValid(item);
    forall i | 0 <= i < |r.kids|
      ensures r.kids[i] in r.repr - {r} && r.kids[i].repr <= r.repr - {r}
    {
      assert item.kids[i] in item.repr - {item} && item.kids[i].repr <= item.repr - {item};
    }
  }

  lemma OwnsItself(r: Node)
    requires r.Framed() && r.reference && r.owned == {r}
    ensures r.Private()
  {}

  method CopyItem(r: Node, item: Node)
    requires r != item
    modifies r
    ensures r.child == item.child && r.kids == item.kids && r.repr == item.repr - {item} + {r} && r.owned == {r}
    ensures r.reference && r.next == null && r.prev == null
    ensures r.kind == item.kind && r.constName == item.constName && r.valueint == item.valueint
    ensures r.valuestring == item.valuestring && r.name == None && r.tree == item.tree.(reference := true, name := None)
  {
    r.next, r.prev, r.child := null, null, item.child;
    r.kind, r.reference, r.constName := item.kind, true, item.constName;
    r.valueint, r.valuestring, r.name := item.valueint, item.valuestring, None;
    r.kids, r.repr, r.owned := item.kids, item.repr - {item} + {r}, {r};
    r.tree := item.tree.(reference := true, name := None);
  }

  /** A copy of the item itself, without its name and outside any chain, that shares its children. */
  method CreateReference(item: Node) returns (r: Node)
    requires item.Framed() && item.Valid()
    ensures fresh(r) && r.Framed() && r.Valid() && r.Private() && r.next == null && r.prev == null
    ensures r.tree == item.tree.(reference := true, name := None)
    ensures r.kids == item.kids && r.owned == {r} && r.repr == item.repr - {item} + {r}
  {
    hide Chain, Node.Valid, Node.Private, Node.Framed;
    r := new Node();
    Inside(item);
    CopyItem(r, item);
    OpenValid(item);
    SharedKids(item, r);
    OwnsItself(r);
  }

  lemma Inside(item: Node)
    requires item.Framed()
    ensures item in item.repr
  {}

  /** Appends a reference; the original stays where it is, which may be in the same list. */
  method AddItemReferenceToArray(list: Node, item: Node) returns (r: Node)
    requires Editable(list) && item.Framed() && item.Valid()
    requires list !in item.repr && forall k :: k in list.kids && k != item ==> k !in item.repr
    modifies list`child, list`kids, list`repr, list`owned, list`tree, list.kids`next
    ensures Editable(list) && fresh(r) && r.owned == {r}
    ensures list.kids == old(list.kids) + [r]
    ensures list.tree == old(list.tree).(kids :=
      old(list.tree).kids + [old(item.tree).(reference := true, name := None)])
  {
    hide Editable, Loose, Chain, Node.Valid, Node.Private, Node.Framed;
    r := CreateReference(item);
    LooseReference(r, list);
    AddItemToArray(list, r);
  }

  lemma LooseReference(r: Node, list: Node)
    requires r.Framed() && r.Valid() && r.Private() && r.next == null && r.prev == null && r.owned == {r}
    requires r !in list.repr && r !in list.owned && list !in r.repr && forall k :: k in list.kids ==> k !in r.repr
    ensures Loose(r, list)
  {}

  /** Deleting an original leaves a reference to it whole exactly when the original is a reference itself or has no
      children; otherwise it frees the children that the reference goes on showing. */
  lemma ReferenceDangles(item: Node, r: Node, freed: seq<Block>)
    requires item.Framed() && item.Private() && r.Framed() && r.kids == item.kids
    requires r !in item.repr && r.repr == item.repr - {item} + {r}
    requires FreesAll(freed, item.owned)
    ensures Spared(freed, r) <==> item.reference || item.kids == []
    ensures !item.reference && item.kids != [] ==> NodeBlock(r.kids[0]) in freed
  {
    SparedWhen(freed, item, r);
    if !item.reference {
      OwnedKids(item);
      if item.kids != [] {
        assert item.kids[0] in item.kids && item.kids[0].Framed() && item.kids[0].Private();
        assert item.kids[0] in item.kids[0].owned;
      }
    }
  }

  /** Deleting a reference frees the reference alone. */
  method DeleteReference(r: Node, ghost list: Node) returns (freed: seq<Block>)
    requires Loose(r, list) && r.reference
    ensures FreesAll(freed, {r})
  {
    assert r.owned == {r};
    freed := Discard(r, list);
  }
}
