/** Deep and shallow copies of an item. */
module JsonDuplicate {
  import opened JsonText
  import opened JsonNodes
  import opened JsonLists
  import opened JsonDelete
  import opened JsonBuild
  import opened JsonTree

  /** A tree without reference flags. */
  function Clean(t: Tree): (c: Tree)
    decreases t, 1
  {
    t.(reference := false, kids := CleanAll(t.kids))
  }

  function CleanAll(ts: seq<Tree>): (cs: seq<Tree>)
    ensures |cs| == |ts| && forall i :: 0 <= i < |ts| ==> cs[i] == Clean(ts[i])
    decreases ts, 0
  {
    if ts == [] then [] else [Clean(ts[0])] + CleanAll(ts[1..])
  }

  /** No item of the tree is a reference. */
  predicate ReferenceFree(t: Tree) {
    !t.reference && forall k :: k in t.kids ==> ReferenceFree(k)
  }

  /** What is free of references is copied as it is. */
  lemma {:induction false} CleanCopiesAll(t: Tree)
    requires ReferenceFree(t)
    ensures Clean(t) == t
  {
    forall i | 0 <= i < |t.kids|
      ensures Clean(t.kids[i]) == t.kids[i]
    {
      assert t.kids[i] in t.kids;
      CleanCopiesAll(t.kids[i]);
    }
    assert CleanAll(t.kids) == t.kids;
  }

  lemma {:induction false} CleanIsReferenceFree(t: Tree)
    ensures ReferenceFree(Clean(t))
  {
    forall k | k in Clean(t).kids
      ensures ReferenceFree(k)
    {
      var i :| 0 <= i < |t.kids| && k == Clean(t.kids[i]);
      CleanIsReferenceFree(t.kids[i]);
    }
  }

  /** A recursive copy stands for the value of the original, so it prints as the original does. */
  lemma {:induction false} CleanStandsFor(t: Tree)
    ensures ToJson(Clean(t)) == ToJson(t)
    decreases t, 1
  {
    hide ToElems, ToMembers, CleanAll;
    CleanKidsStandFor(t.kids);
  }

  lemma {:induction false} CleanKidsStandFor(ts: seq<Tree>)
    ensures ToElems(CleanAll(ts)) == ToElems(ts) && ToMembers(CleanAll(ts)) == ToMembers(ts)
    decreases ts, 0
  {
    hide ToJson, CleanAll;
    if ts != [] {
      var n := |ts| - 1;
      CleanKidsStandFor(ts[..n]);
      CleanStandsFor(ts[n]);
      assert CleanAll(ts)[..n] == CleanAll(ts[..n]);
    }
  }

  method CopyFields(item: Node) returns (n: Node)
    ensures Standalone(n) && fresh(n) && n.kids == [] && n.repr == {n} && n.child == null
    ensures n.tree == Tree(item.kind, false, item.constName, item.valueint, item.valuestring, item.name, [])
  {
    hide Standalone, Grown, Node.Framed, Node.Valid, Node.Private;
    n := new Node();
    n.kind, n.valueint, n.constName := item.kind, item.valueint, item.constName;
    n.valuestring, n.name := item.valuestring, item.name;
    n.tree := Tree(n.kind, false, n.constName, n.valueint, n.valuestring, n.name, []);
    LeafGrown(n);
    GrownAlone(n);
  }

  method Duplicate(item: Node, recurse: bool) returns (n: Node)
    requires item.Framed() && item.Valid()
    ensures Standalone(n) && fresh(n) && fresh(n.repr)
    ensures n.tree == if recurse then Clean(item.tree) else Clean(item.tree).(kids := [])
    ensures recurse ==> ToJson(n.tree) == ToJson(item.tree)
    decreases item.repr, 1
  {
    hide Node.Framed, Node.Valid, Standalone, Node.Labelled, Clean, CleanAll, ToJson;
    LabelsAgree(item);
    CleanTop(item.tree);
    CleanStandsFor(item.tree);
    n := CopyFields(item);
    if recurse {
      DuplicateKids(item, n);
    }
  }

  lemma CleanTop(t: Tree)
    ensures Clean(t) == Tree(t.kind, false, t.constName, t.valueint, t.valuestring, t.name, CleanAll(t.kids))
  {
    hide CleanAll;
  }

  lemma LabelsAgree(n: Node)
    requires n.Framed() && n.Valid()
    ensures n.tree == Tree(n.kind, n.reference, n.constName, n.valueint, n.valuestring, n.name, n.tree.kids)
  {}

  lemma KidAt(n: Node, i: nat)
    requires n.Framed() && n.Valid() && i < |n.kids|
    ensures n.kids[i].Framed() && n.kids[i].Valid() && n.kids[i].repr < n.repr && n.kids[i].repr <= n.repr
    ensures n.kids[i].next == At(n.kids, i + 1)
    ensures |n.tree.kids| == |n.kids| && n.tree.kids[i] == n.kids[i].tree
  {}

  method DuplicateKids(item: Node, n: Node)
    requires item.Framed() && item.Valid()
    requires Standalone(n) && n.kids == [] && n.repr == {n} && n.child == null && n !in item.repr
    modifies n`child, n`kids, n`repr, n`owned, n`tree
    ensures Standalone(n) && fresh(n.repr - {n})
    ensures n.tree == old(n.tree).(kids := CleanAll(item.tree.kids))
    decreases item.repr, 0
  {
    hide Building, Node.Framed, Node.Valid, Standalone, CleanAll, Clean, Chain, Node.Labelled, Reprs;
    Begin(item, n);
    ghost var clean := CleanAll(item.tree.kids);
    var cptr := item.child;
    var nptr: Node? := null;
    ghost var i: nat, s: seq<Node>, r: set<Node> := 0, [], {};
    while cptr != null
      invariant i <= |item.kids| && cptr == At(item.kids, i)
      invariant Building(n, s, nptr, clean[..i], r) && fresh(s) && fresh(r)
      invariant unchanged(n`kids) && unchanged(n`repr) && unchanged(n`owned) && unchanged(n`tree)
      invariant item.Framed() && item.Valid() && n.Labelled()
      decreases |item.kids| - i
    {
      KidAt(item, i);
      CleanStep(item.tree.kids, i);
      nptr, s, r := CopyNext(cptr, n, nptr, s, clean[..i], r);
      KidAt(item, i);
      cptr := cptr.next;
      i := i + 1;
    }
    assert clean[..i] == clean;
    Finish(n, s, nptr, clean, r);
    GrownAlone(n);
  }

  lemma Begin(item: Node, n: Node)
    requires item.Framed() && item.Valid() && Standalone(n) && n.kids == [] && n.child == null
    ensures item.child == First(item.kids) && |item.tree.kids| == |item.kids|
    ensures n.Labelled() && !n.reference && n.next == null && n.prev == null
    ensures Building(n, [], null, [], {})
  {
    BuildingNothing(n);
  }

  /** Copies one child and links the copy behind the others. */
  method CopyNext(cptr: Node, n: Node, nptr: Node?, ghost s: seq<Node>, ghost t: seq<Tree>, ghost r: set<Node>)
    returns (newchild: Node, ghost u: seq<Node>, ghost r': set<Node>)
    requires cptr.Framed() && cptr.Valid() && Building(n, s, nptr, t, r)
    modifies n`child, s`next
    ensures Building(n, u, newchild, t + [Clean(cptr.tree)], r')
    ensures u == s + [newchild] && fresh(newchild) && fresh(r' - r)
    decreases cptr.repr, 2
  {
    hide Building, Reprs, Node.Framed, Node.Valid, Standalone, CleanAll, Clean, Chain;
    ghost var t' := t + [Clean(cptr.tree)];
    OpenBuilding(n, s, nptr, t, r);
    newchild := Duplicate(cptr, true);
    u, r' := s + [newchild], r + newchild.repr;
    assert Building(n, s, nptr, t, r);
    AppendNew(n, nptr, newchild, s, u, t, t', r);
  }

  lemma CleanStep(ts: seq<Tree>, i: nat)
    requires i < |ts|
    ensures CleanAll(ts)[..i + 1] == CleanAll(ts)[..i] + [Clean(ts[i])]
  {
    hide Clean, CleanAll;
    var cs := CleanAll(ts);
    TakeOneMore(cs, i);
  }

  lemma TakeOneMore<T>(s: seq<T>, i: nat)
    requires i < |s|
    ensures s[..i + 1] == s[..i] + [s[i]]
  {}

  // ----- Names -----

  /** The item has a name that deleting it will not free. */
  predicate KeepsName(t: Tree) {
    t.constName && t.name.Some?
  }

  /** No item of the tree has. */
  predicate Tidy(t: Tree) {
    !KeepsName(t) && forall k :: k in t.kids ==> Tidy(k)
  }

  lemma {:induction false} CleanKeepsNames(t: Tree)
    ensures Tidy(Clean(t)) <==> Tidy(t)
  {
    var c := Clean(t);
    forall i | 0 <= i < |t.kids|
      ensures Tidy(c.kids[i]) <==> Tidy(t.kids[i])
    {
      CleanKeepsNames(t.kids[i]);
    }
    if Tidy(c) {
      assert forall i :: 0 <= i < |t.kids| ==> c.kids[i] in c.kids;
    }
    if Tidy(t) {
      assert forall i :: 0 <= i < |t.kids| ==> t.kids[i] in t.kids;
    }
  }

  /** Every name has been handed back. */
  ghost predicate NamesBack(freed: seq<Block>, s: set<Node>)
    reads s
  {
    forall n :: n in s && n.name.Some? ==> NameBlock(n) in freed
  }

  ghost predicate AllTidy(s: set<Node>)
    reads s
  {
    forall n :: n in s ==> !(n.constName && n.name.Some?)
  }

  lemma NamesBackWhen(freed: seq<Block>, s: set<Node>)
    requires FreesAll(freed, s)
    ensures NamesBack(freed, s) <==> AllTidy(s)
  {
    forall n | n in s && n.name.Some?
      ensures NameBlock(n) in freed <==> !n.constName
    {
      assert NameBlock(n) in freed ==> Has(n, NameBlock(n));
    }
  }

  /** The items that go with n are those of its tree. */
  lemma {:induction false} TidyBelow(n: Node)
    requires n.Framed() && n.Valid() && n.Private() && ReferenceFree(n.tree)
    ensures AllTidy(n.owned) <==> Tidy(n.tree)
    decreases n.repr
  {
    OpenValid(n);
    OwnedKids(n);
    forall i | 0 <= i < |n.kids|
      ensures n.tree.kids[i] in n.tree.kids && (AllTidy(n.kids[i].owned) <==> Tidy(n.tree.kids[i]))
    {
      KidAt(n, i);
      TidyBelow(n.kids[i]);
    }
    TidySplit(n);
  }

  lemma TidySplit(n: Node)
    requires n.Framed() && n.Labelled() && n.Described() && n.owned == {n} + Owned(n.kids)
    requires forall i :: 0 <= i < |n.kids| ==> (AllTidy(n.kids[i].owned) <==> Tidy(n.tree.kids[i]))
    ensures AllTidy(n.owned) <==> Tidy(n.tree)
  {
    if AllTidy(n.owned) {
      forall t | t in n.tree.kids
        ensures Tidy(t)
      {
        var i :| 0 <= i < |n.kids| && t == n.tree.kids[i];
        assert n.kids[i] in n.kids;
        assert AllTidy(n.kids[i].owned);
      }
    }
    if Tidy(n.tree) {
      forall m | m in n.owned
        ensures !(m.constName && m.name.Some?)
      {
        if m != n {
          var k :| k in n.kids && m in k.owned;
          var i :| 0 <= i < |n.kids| && k == n.kids[i];
          assert n.tree.kids[i] in n.tree.kids;
        }
      }
    }
  }

  /** Deleting a copy frees all of its items, none twice, and all of its names exactly when none is marked constant. */
  method DeleteCopy(n: Node) returns (freed: seq<Block>)
    requires Standalone(n) && ReferenceFree(n.tree)
    ensures FreesAll(freed, n.repr)
    ensures NamesBack(freed, n.repr) <==> Tidy(n.tree)
  {
    hide FreesAll, NamesBack, Tidy, ReferenceFree, Standalone, Node.Framed, Node.Valid, Node.Private;
    CopyOwnsItself(n);
    freed := DeleteItem(n);
    CopyBack(n, freed);
  }

  lemma CopyOwnsItself(n: Node)
    requires Standalone(n)
    ensures n.Framed() && n.Valid() && n.Private() && n.owned == n.repr
  {}

  lemma CopyBack(n: Node, freed: seq<Block>)
    requires Standalone(n) && ReferenceFree(n.tree) && FreesAll(freed, n.owned)
    ensures FreesAll(freed, n.repr) && (NamesBack(freed, n.repr) <==> Tidy(n.tree))
  {
    hide FreesAll, NamesBack, Tidy, ReferenceFree, Standalone, Node.Framed, Node.Valid, Node.Private;
    CopyOwnsItself(n);
    NamesBackWhen(freed, n.repr);
    TidyBelow(n);
  }

  /** A copy keeps the flag that says a name is constant, but gets a name of its own. So deleting the copy hands every
      name back exactly when no item copied has both the flag and a name. */
  lemma CopyNames(t: Tree, recurse: bool, n: Node, freed: seq<Block>)
    requires Standalone(n) && n.tree == (if recurse then Clean(t) else Clean(t).(kids := []))
    requires FreesAll(freed, n.repr)
    ensures NamesBack(freed, n.repr) <==> if recurse then Tidy(t) else !KeepsName(t)
  {
    hide FreesAll, NamesBack;
    CleanIsReferenceFree(t);
    NamesBackWhen(freed, n.repr);
    TidyBelow(n);
    CleanKeepsNames(t);
  }

  /** The smallest tree that loses a name: an item with the flag and a name. */
  lemma NameLost(n: Node, freed: seq<Block>)
    requires Standalone(n) && FreesAll(freed, n.repr)
    requires n.tree == Clean(Tree(NullKind, false, true, 0, None, Some("a"), []))
    ensures n.name == Some("a") && NameBlock(n) !in freed
  {
    assert NameBlock(n) in freed ==> Has(n, NameBlock(n));
  }
}
