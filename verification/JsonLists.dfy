/** Editing the children of an array or object through their sibling links. */
module JsonLists {
  import opened JsonNodes

  // ----- Opening a parent -----

  lemma OpenValid(a: Node)
    requires a.Valid()
    ensures a.Framed() && Chain(a.kids) && a.child == First(a.kids) && a.Labelled() && a.Described()
    ensures forall i :: 0 <= i < |a.kids| ==> a.kids[i].Valid() && a.kids[i].Framed()
  {}

  lemma OpenPrivate(a: Node)
    requires a.Framed() && a.Private() && !a.reference
    ensures forall i :: 0 <= i < |a.kids| ==> a.kids[i].Framed() && a.kids[i].Private()
  {}

  lemma OpenParts(a: Node)
    requires Editable(a)
    ensures forall k :: k in a.kids ==> Part(a, k)
  {
    OpenValid(a);
    OpenPrivate(a);
    hide Node.Valid, Node.Private, Chain;
    assert forall i :: 0 <= i < |a.kids| ==> Part(a, a.kids[i]);
  }

  lemma OpenReprs(a: Node)
    requires a.Framed()
    ensures Reprs(a.kids) <= a.repr - {a}
    ensures forall k :: k in a.kids ==> k.repr <= Reprs(a.kids)
  {}

  /** Everything Editable says about the children, one by one. */
  lemma Opened(a: Node)
    requires Editable(a)
    ensures a.Framed() && Chain(a.kids) && a.child == First(a.kids) && a.Labelled()
    ensures Parts(a, a.kids)
    ensures a.tree.kids == Trees(a.kids)
  {
    OpenParts(a);
    OpenValid(a);
    OpenReprs(a);
    hide Node.Valid, Node.Private, Chain, Part, Node.Framed;
  }

  lemma PartsWith(a: Node, s: seq<Node>, s': seq<Node>, item: Node)
    requires Parts(a, s) && forall k :: k in s' <==> k in s || k == item
    requires Part(a, item) && forall k :: k in s ==> Aside(k, item) && Aside(item, k)
    ensures Parts(a, s')
  {
    hide Part;
  }

  lemma LoosePart(item: Node, a: Node)
    requires Loose(item, a) && Editable(a)
    ensures Part(a, item)
    ensures forall k :: k in a.kids ==> Aside(k, item) && Aside(item, k)
  {
    OpenReprs(a);
    OwnedBelow(a);
  }

  lemma OwnedBelow(a: Node)
    requires a.Framed() && a.Private() && !a.reference
    ensures forall k :: k in a.kids ==> k.owned <= a.owned
  {}

  /** The tops of the parts are inside no other part, and a is inside none. */
  lemma TopsApart(a: Node, s: seq<Node>)
    requires Parts(a, s)
    ensures forall k, n :: k in s && n in k.repr && n != k ==> n !in s
    ensures forall k, n :: k in s && n in k.repr ==> n != a
    ensures forall k :: k in s ==> k != a
  {
    PartsOutside(a, s);
    hide Part;
  }

  lemma PartsOutside(a: Node, s: seq<Node>)
    requires Parts(a, s)
    ensures forall k :: k in s ==> a !in k.repr && k in k.repr
  {
    hide Node.Valid, Node.Framed, Node.Private;
  }

  // ----- Walking -----

  /** The child at an index, or null past the end. */
  method Nth(list: Node, which: int) returns (c: Node?)
    requires Chain(list.kids) && list.child == First(list.kids)
    ensures c == At(list.kids, if which < 0 then 0 else which)
  {
    ghost var i := 0;
    var w := which;
    c := list.child;
    while c != null && w > 0
      invariant 0 <= i <= |list.kids| && c == At(list.kids, i)
      invariant if which <= 0 then i == 0 && w == which else w >= 0 && i + w == which
      decreases |list.kids| - i
    {
      c, w := c.next, w - 1;
      i := i + 1;
    }
  }

  method Last(list: Node) returns (c: Node)
    requires Chain(list.kids) && list.child == First(list.kids) && list.kids != []
    ensures c == list.kids[|list.kids| - 1]
  {
    ghost var i := 0;
    c := list.child;
    while c.next != null
      invariant 0 <= i < |list.kids| && c == list.kids[i]
      decreases |list.kids| - i
    {
      c := c.next;
      i := i + 1;
    }
  }

  // ----- Relinking -----

  lemma ChainAt(s: seq<Node>, i: nat)
    requires Chain(s) && i < |s|
    ensures s[i].next == At(s, i + 1) && s[i].prev == At(s, i - 1)
  {}

  method LinkLast(list: Node, item: Node, ghost s: seq<Node>, ghost u: seq<Node>)
    requires list.kids == s && Chain(s) && list.child == First(s)
    requires item !in s && item.next == null && item.prev == null && u == s + [item]
    modifies list`child, item`prev, s`next
    ensures Chain(u) && list.child == First(u)
  {
    var c := list.child;
    if c == null {
      list.child := item;
    } else {
      c := Last(list);
      c.next := item;
      item.prev := c;
    }
  }

  function InsertAt<T>(s: seq<T>, k: nat, x: T): (t: seq<T>)
    requires k <= |s|
    ensures |t| == |s| + 1
    ensures forall i :: 0 <= i < |t| ==> t[i] == if i < k then s[i] else if i == k then x else s[i - 1]
  {
    s[..k] + [x] + s[k..]
  }

  function RemoveAt<T>(s: seq<T>, k: nat): (t: seq<T>)
    requires k < |s|
    ensures |t| == |s| - 1
    ensures forall i :: 0 <= i < |t| ==> t[i] == if i < k then s[i] else s[i + 1]
  {
    s[..k] + s[k + 1..]
  }

  lemma DistinctInserted(s: seq<Node>, k: nat, x: Node)
    requires k <= |s| && Distinct(s) && x !in s
    ensures Distinct(InsertAt(s, k, x))
  {}

  lemma DistinctRemoved(s: seq<Node>, k: nat)
    requires k < |s| && Distinct(s)
    ensures Distinct(RemoveAt(s, k))
  {}

  lemma ChainInserted(s: seq<Node>, k: nat, x: Node)
    requires k <= |s| && Distinct(s) && x !in s
    requires forall i {:trigger s[i].next} :: 0 <= i < |s| ==> s[i].next == if i + 1 == k then x else At(s, i + 1)
    requires forall i {:trigger s[i].prev} :: 0 <= i < |s| ==> s[i].prev == if i == k then x else At(s, i - 1)
    requires x.next == At(s, k) && x.prev == At(s, k - 1)
    ensures Chain(InsertAt(s, k, x))
  {
    DistinctInserted(s, k, x);
    hide Distinct;
    var t := InsertAt(s, k, x);
    forall i | 0 <= i < |t|
      ensures t[i].next == At(t, i + 1)
    {}
    forall i | 0 <= i < |t|
      ensures t[i].prev == At(t, i - 1)
    {}
  }

  lemma ChainRemoved(s: seq<Node>, k: nat)
    requires k < |s| && Distinct(s)
    requires forall i {:trigger s[i].next} :: 0 <= i < |s| && i != k ==>
      s[i].next == At(s, if i + 1 == k then i + 2 else i + 1)
    requires forall i {:trigger s[i].prev} :: 0 <= i < |s| && i != k ==>
      s[i].prev == At(s, if i == k + 1 then i - 2 else i - 1)
    ensures Chain(RemoveAt(s, k))
  {
    DistinctRemoved(s, k);
    hide Distinct;
    var t := RemoveAt(s, k);
    forall i | 0 <= i < |t|
      ensures t[i].next == At(t, i + 1)
    {}
    forall i | 0 <= i < |t|
      ensures t[i].prev == At(t, i - 1)
    {}
  }

  /** x has the place of s[k] among the others. */
  ghost predicate Replaces(s: seq<Node>, k: nat, x: Node)
    requires k < |s|
    reads s`next, s`prev, x`next, x`prev
  {
    && (forall i {:trigger s[i].next} :: 0 <= i < |s| && i != k ==> s[i].next == if i + 1 == k then x else At(s, i + 1))
    && (forall i {:trigger s[i].prev} :: 0 <= i < |s| && i != k ==> s[i].prev == if i == k + 1 then x else At(s, i - 1))
    && x.next == At(s, k + 1) && x.prev == At(s, k - 1)
  }

  lemma ChainReplaced(s: seq<Node>, k: nat, x: Node, t: seq<Node>)
    requires k < |s| && Distinct(s) && x !in s && Replaces(s, k, x)
    requires |t| == |s| && forall i :: 0 <= i < |t| ==> t[i] == if i == k then x else s[i]
    ensures Chain(t)
  {
    forall i | 0 <= i < |t|
      ensures t[i].next == At(t, i + 1)
    {}
    forall i | 0 <= i < |t|
      ensures t[i].prev == At(t, i - 1)
    {}
    forall i, j | 0 <= i < j < |t|
      ensures t[i] != t[j]
    {}
  }

  /** Puts newitem in front of c, which is s[k]. */
  method LinkBefore(list: Node, c: Node, newitem: Node, ghost s: seq<Node>, ghost k: nat)
    requires Chain(s) && list.child == First(s) && k < |s| && c == s[k]
    requires newitem !in s && list !in s && list != newitem
    modifies list`child, newitem`next, newitem`prev, s`next, s`prev
    ensures Chain(InsertAt(s, k, newitem)) && list.child == First(InsertAt(s, k, newitem))
  {
    newitem.next := c;
    newitem.prev := c.prev;
    c.prev := newitem;
    if c == list.child {
      list.child := newitem;
    } else {
      assert newitem.prev == s[k - 1];
      newitem.prev.next := newitem;
    }
    ChainInserted(s, k, newitem);
  }

  /** Takes c, which is s[k], out of its chain. */
  method LinkOut(list: Node, c: Node, ghost s: seq<Node>, ghost k: nat)
    requires Chain(s) && list.child == First(s) && k < |s| && c == s[k] && list !in s
    modifies list`child, s`next, s`prev
    ensures Chain(RemoveAt(s, k)) && list.child == First(RemoveAt(s, k))
    ensures c.next == null && c.prev == null
  {
    ChainAt(s, k);
    if c.prev != null {
      c.prev.next := c.next;
    }
    if c.next != null {
      c.next.prev := c.prev;
    }
    if c == list.child {
      list.child := c.next;
    }
    c.prev := null;
    c.next := null;
    ChainRemoved(s, k);
  }

  /** Gives newitem the place of c, which is s[k]. */
  method TakePlace(list: Node, c: Node, newitem: Node, ghost s: seq<Node>, ghost k: nat)
    requires Chain(s) && list.child == First(s) && k < |s| && c == s[k]
    requires newitem !in s && list !in s && list != newitem
    modifies list`child, newitem`next, newitem`prev, s`next, s`prev
    ensures Replaces(s, k, newitem) && list.child == if k == 0 then newitem else s[0]
  {
    ChainAt(s, k);
    newitem.next := c.next;
    newitem.prev := c.prev;
    if newitem.next != null {
      newitem.next.prev := newitem;
    }
    if c == list.child {
      list.child := newitem;
    } else {
      newitem.prev.next := newitem;
    }
  }

  method LinkInstead(list: Node, c: Node, newitem: Node, ghost s: seq<Node>, ghost k: nat)
    requires Chain(s) && list.child == First(s) && k < |s| && c == s[k]
    requires newitem !in s && list !in s && list != newitem
    modifies list`child, newitem`next, newitem`prev, s`next, s`prev
    ensures Chain(s[k := newitem]) && list.child == First(s[k := newitem])
    ensures c.next == null && c.prev == null
  {
    TakePlace(list, c, newitem, s, k);
    c.next := null;
    c.prev := null;
    ChainReplaced(s, k, newitem, s[k := newitem]);
  }

  lemma PartsOf(a: Node, s: seq<Node>, t: seq<Node>)
    requires Parts(a, s) && forall k :: k in t ==> k in s
    ensures Parts(a, t)
  {
    hide Part;
  }

  /** What the editing of list uses. */
  lemma Ready(list: Node)
    requires Editable(list)
    ensures Chain(list.kids) && list.child == First(list.kids) && list.Labelled() && !list.reference
    ensures |list.tree.kids| == |list.kids| && forall i :: 0 <= i < |list.kids| ==>
      list.kids[i].tree == list.tree.kids[i]
    ensures Parts(list, list.kids) && list !in list.kids
  {
    Opened(list);
    OpenValid(list);
    PartsOutside(list, list.kids);
  }

  /** What putting item into list uses. */
  lemma ReadyFor(list: Node, item: Node)
    requires Editable(list) && Loose(item, list)
    ensures Parts(list, list.kids + [item])
    ensures item !in list.kids && item != list && item.next == null && item.prev == null
  {
    Ready(list);
    OpenValid(list);
    LoosePart(item, list);
    PartsWith(list, list.kids, list.kids + [item], item);
    hide Node.Valid, Node.Private;
    assert item in item.repr;
    assert list in list.repr;
  }

  lemma Members(s: seq<Node>, x: Node, u: seq<Node>)
    requires u == s + [x]
    ensures forall n :: n in u <==> n in s || n == x
  {}

  /** Links inside s and around item may change; what hangs below them does not. */
  method AppendPart(list: Node, item: Node, ghost s: seq<Node>, ghost u: seq<Node>, ghost t: seq<Tree>)
    requires list.kids == s && Chain(s) && list.child == First(s)
    requires item !in s && item.next == null && item.prev == null
    requires Parts(list, u) && Trees(u) == t && u == s + [item]
    modifies list`child, item`prev, s`next
    ensures Chain(u) && list.child == First(u)
    ensures Parts(list, u) && Trees(u) == t
  {
    hide Part, Separated, Chain, Trees;
    TopsApart(list, u);
    Members(s, item, u);
    LinkLast(list, item, s, u);
    forall k | k in u
      ensures Part(list, k)
    {
      forall n | n in old(k.repr) && n != k
        ensures unchanged(n)
      {
        assert n !in u && n != list;
      }
    }
  }

  /** As LinkLast, when the last item is at hand. */
  method LinkBehind(list: Node, last: Node?, item: Node, ghost s: seq<Node>, ghost u: seq<Node>)
    requires Chain(s) && list.child == First(s) && last == At(s, |s| - 1)
    requires item !in s && item.next == null && item.prev == null && u == s + [item]
    modifies list`child, item`prev, s`next
    ensures Chain(u) && list.child == First(u)
  {
    if last != null {
      last.next := item;
      item.prev := last;
    } else {
      list.child := item;
    }
  }

  method AppendBehind(list: Node, last: Node?, item: Node, ghost s: seq<Node>, ghost u: seq<Node>, ghost t: seq<Tree>,
                      ghost r: set<Node>, ghost o: set<Node>)
    requires Chain(s) && list.child == First(s) && last == At(s, |s| - 1)
    requires item !in s && item.next == null && item.prev == null
    requires Parts(list, u) && Trees(u) == t && u == s + [item] && Reprs(u) == r && Owned(u) == o
    modifies list`child, item`prev, s`next
    ensures Chain(u) && list.child == First(u)
    ensures Parts(list, u) && Trees(u) == t && Reprs(u) == r && Owned(u) == o
  {
    hide Part, Separated, Chain, Trees, Reprs, Owned;
    TopsApart(list, u);
    Members(s, item, u);
    LinkBehind(list, last, item, s, u);
    forall k | k in u
      ensures Part(list, k)
    {
      forall n | n in old(k.repr) && n != k
        ensures unchanged(n)
      {
        assert n !in u && n != list;
      }
    }
  }

  method InsertPart(list: Node, c: Node, item: Node, ghost s: seq<Node>, ghost k: nat, ghost u: seq<Node>,
    ghost t: seq<Tree>)
    requires list.kids == s && Chain(s) && list.child == First(s) && k < |s| && c == s[k]
    requires item !in s && item != list && list !in s
    requires Parts(list, s + [item])
    requires u == InsertAt(s, k, item) && Trees(u) == t
    modifies list`child, item`next, item`prev, s`next, s`prev
    ensures Chain(u) && list.child == First(u)
    ensures Parts(list, s + [item])
    ensures Trees(u) == t
  {
    hide Part, Separated, Chain, Trees, InsertAt;
    ghost var s' := s + [item];
    TopsApart(list, s');
    assert forall n :: n in s' <==> n in s || n == item;
    LinkBefore(list, c, item, s, k);
    forall k | k in s'
      ensures Part(list, k)
    {
      forall n | n in old(k.repr) && n != k
        ensures unchanged(n)
      {
        assert n !in s' && n != list;
      }
    }
  }

  method ReplacePart(list: Node, c: Node, item: Node, ghost s: seq<Node>, ghost k: nat, ghost u: seq<Node>,
    ghost t: seq<Tree>)
    requires list.kids == s && Chain(s) && list.child == First(s) && k < |s| && c == s[k]
    requires item !in s && item != list && list !in s
    requires Parts(list, s + [item])
    requires u == s[k := item] && Trees(u) == t
    modifies list`child, item`next, item`prev, s`next, s`prev
    ensures Chain(u) && list.child == First(u)
    ensures c.next == null && c.prev == null
    ensures Parts(list, s + [item])
    ensures Trees(u) == t
  {
    hide Part, Separated, Chain, Trees;
    ghost var s' := s + [item];
    TopsApart(list, s');
    assert forall n :: n in s' <==> n in s || n == item;
    LinkInstead(list, c, item, s, k);
    forall k | k in s'
      ensures Part(list, k)
    {
      forall n | n in old(k.repr) && n != k
        ensures unchanged(n)
      {
        assert n !in s' && n != list;
      }
    }
  }

  method RemovePart(list: Node, c: Node, ghost s: seq<Node>, ghost k: nat, ghost u: seq<Node>, ghost t: seq<Tree>)
    requires list.kids == s && Chain(s) && list.child == First(s) && k < |s| && c == s[k]
    requires list !in s && Parts(list, s)
    requires u == RemoveAt(s, k) && Trees(u) == t
    modifies list`child, s`next, s`prev
    ensures Chain(u) && list.child == First(u)
    ensures c.next == null && c.prev == null
    ensures Parts(list, s)
    ensures Trees(u) == t
  {
    hide Part, Separated, Chain, Trees, RemoveAt;
    TopsApart(list, s);
    LinkOut(list, c, s, k);
    forall k | k in s
      ensures Part(list, k)
    {
      forall n | n in old(k.repr) && n != k
        ensures unchanged(n)
      {
        assert n !in s && n != list;
      }
    }
  }

  // ----- Editing -----

  lemma TreesAt(s: seq<Node>, t: seq<Tree>)
    requires |t| == |s| && forall i :: 0 <= i < |s| ==> s[i].tree == t[i]
    ensures Trees(s) == t
  {}

  method AddItemToArray(list: Node, item: Node)
    requires Editable(list) && Loose(item, list)
    modifies list`child, list`kids, list`repr, list`owned, list`tree, item`prev, list.kids`next
    ensures Editable(list) && list.kids == old(list.kids) + [item]
    ensures list.tree == old(list.tree.(kids := list.tree.kids + [item.tree]))
  {
    hide Parts, Reprs, Editable, Loose, Chain, Trees;
    ghost var s, t := list.kids, list.tree.kids + [item.tree];
    Ready(list);
    ReadyFor(list, item);
    TreesAt(s + [item], t);
    AppendPart(list, item, s, s + [item], t);
    Adopt(list, s + [item], t);
  }

  /** The index an insertion or removal acts on. */
  function Slot(which: int): nat {
    if which < 0 then 0 else which
  }

  lemma InsertedTrees(s: seq<Node>, k: nat, x: Node, t: seq<Tree>)
    requires k <= |s| == |t| && forall i :: 0 <= i < |s| ==> s[i].tree == t[i]
    ensures Trees(InsertAt(s, k, x)) == InsertAt(t, k, x.tree)
    ensures forall n :: n in InsertAt(s, k, x) ==> n in s + [x]
  {
    TreesAt(InsertAt(s, k, x), InsertAt(t, k, x.tree));
  }

  lemma RemovedTrees(s: seq<Node>, k: nat, t: seq<Tree>)
    requires k < |s| == |t| && Chain(s) && forall i :: 0 <= i < |s| ==> s[i].tree == t[i]
    ensures Trees(RemoveAt(s, k)) == RemoveAt(t, k)
    ensures s[k] !in RemoveAt(s, k) && forall n :: n in RemoveAt(s, k) ==> n in s
  {
    TreesAt(RemoveAt(s, k), RemoveAt(t, k));
  }

  method InsertBefore(list: Node, c: Node, newitem: Node, ghost k: nat)
    requires Editable(list) && Loose(newitem, list) && k < |list.kids| && c == list.kids[k]
    modifies list`child, list`kids, list`repr, list`owned, list`tree, newitem`next, newitem`prev, list.kids`next,
      list.kids`prev
    ensures Editable(list) && list.kids == InsertAt(old(list.kids), k, newitem)
    ensures list.tree == old(list.tree.(kids := InsertAt(list.tree.kids, k, newitem.tree)))
  {
    hide Parts, Reprs, Editable, Loose, Chain, Trees, InsertAt;
    ghost var s := list.kids;
    Ready(list);
    ReadyFor(list, newitem);
    ghost var s', t := InsertAt(s, k, newitem), InsertAt(list.tree.kids, k, newitem.tree);
    InsertedTrees(s, k, newitem, list.tree.kids);
    InsertPart(list, c, newitem, s, k, s', t);
    PartsOf(list, s + [newitem], s');
    Adopt(list, s', t);
  }

  lemma AppendedIsInserted<T>(s: seq<T>, x: T)
    ensures s + [x] == InsertAt(s, |s|, x)
  {}

  method InsertItemInArray(list: Node, which: int, newitem: Node)
    requires Editable(list) && Loose(newitem, list)
    modifies list`child, list`kids, list`repr, list`owned, list`tree, newitem`next, newitem`prev, list.kids`next,
      list.kids`prev
    ensures Editable(list)
    ensures var k := if Slot(which) < old(|list.kids|) then Slot(which) else old(|list.kids|);
      && list.kids == InsertAt(old(list.kids), k, newitem)
      && list.tree == old(list.tree.(kids := InsertAt(list.tree.kids, k, newitem.tree)))
  {
    hide Editable, Loose, Chain, Parts, InsertAt;
    Ready(list);
    AppendedIsInserted(list.kids, newitem);
    AppendedIsInserted(list.tree.kids, newitem.tree);
    var c := Nth(list, which);
    if c == null {
      AddItemToArray(list, newitem);
    } else {
      InsertBefore(list, c, newitem, Slot(which));
    }
  }

  ghost predicate AsideAll(c: Node, s: seq<Node>)
    reads c`repr, c`owned, s`repr, s`owned
  {
    forall k :: k in s ==> Aside(c, k)
  }

  /** What is taken out lies aside of what is left. */
  lemma TakenApart(list: Node, s: seq<Node>, t: seq<Node>, c: Node)
    requires Parts(list, s) && c in s && c !in t && forall k :: k in t ==> k in s
    ensures Part(list, c) && list !in c.repr && list != c && AsideAll(c, t)
    ensures Parts(list, t)
  {
    PartsOutside(list, s);
    PartsOf(list, s, t);
    hide Part;
  }

  lemma AsideTogether(c: Node, s: seq<Node>)
    requires AsideAll(c, s)
    ensures c !in Reprs(s) && c.owned !! Owned(s) && forall k :: k in s ==> k !in c.repr
  {
    assert forall k :: k in s ==> Aside(c, k);
  }

  lemma LoosePiece(list: Node, c: Node, r: set<Node>, o: set<Node>)
    requires Part(list, c) && c.next == null && c.prev == null && list != c
    requires c !in r && c.owned !! o && forall k :: k in list.kids ==> k !in c.repr
    requires list.repr == {list} + r && list.owned == {list} + o
    ensures Loose(c, list)
  {
    assert c.owned <= c.repr;
  }

  method DetachItemFromArray(list: Node, which: int) returns (c: Node?)
    requires Editable(list)
    modifies list`child, list`kids, list`repr, list`owned, list`tree, list.kids`next, list.kids`prev
    ensures Editable(list)
    ensures c == At(old(list.kids), Slot(which))
    ensures c == null ==> list.kids == old(list.kids) && list.tree == old(list.tree)
    ensures c != null ==>
      && list.kids == RemoveAt(old(list.kids), Slot(which))
      && list.tree == old(list.tree.(kids := RemoveAt(list.tree.kids, Slot(which))))
      && Loose(c, list) && c.tree == old(list.tree.kids[Slot(which)])
  {
    ghost var s, k := list.kids, Slot(which);
    Ready(list);
    c := Nth(list, which);
    if c != null {
      DetachChild(list, c, k);
    }
  }

  /** Settles list after c has been taken out of its chain. */
  ghost method AdoptRest(list: Node, s: seq<Node>, t: seq<Tree>, c: Node)
    requires !list.reference && list.Labelled() && Chain(s) && list.child == First(s)
    requires Parts(list, s) && Trees(s) == t
    requires Part(list, c) && list !in c.repr && list != c && AsideAll(c, s)
    requires c.next == null && c.prev == null
    modifies list`kids, list`repr, list`owned, list`tree
    ensures Editable(list) && Loose(c, list) && list.kids == s
    ensures list.tree == old(list.tree).(kids := t)
  {
    hide Part, Parts, Reprs, Owned, AsideAll, Editable, Loose, Chain, Trees, Node.Labelled;
    AsideTogether(c, s);
    ghost var r, o := Reprs(s), Owned(s);
    Adopt(list, s, t);
    LoosePiece(list, c, r, o);
  }

  /** Takes c out of the chain of list, which is left to be settled. */
  method TakeOut(list: Node, c: Node, ghost k: nat) returns (ghost u: seq<Node>, ghost t: seq<Tree>)
    requires Editable(list) && k < |list.kids| && c == list.kids[k]
    modifies list`child, list.kids`next, list.kids`prev
    ensures !list.reference && list.Labelled() && Chain(u) && list.child == First(u)
    ensures u == RemoveAt(list.kids, k) && k < |list.tree.kids| && t == RemoveAt(list.tree.kids, k)
    ensures Parts(list, u) && Trees(u) == t
    ensures Part(list, c) && list !in c.repr && list != c && AsideAll(c, u)
    ensures c.next == null && c.prev == null
  {
    hide Part, Parts, Reprs, Editable, Loose, Chain, Trees, RemoveAt;
    ghost var s := list.kids;
    Ready(list);
    u, t := RemoveAt(s, k), RemoveAt(list.tree.kids, k);
    RemovedTrees(s, k, list.tree.kids);
    RemovePart(list, c, s, k, u, t);
    TakenApart(list, s, u, c);
  }

  method DetachChild(list: Node, c: Node, ghost k: nat)
    requires Editable(list) && k < |list.kids| && c == list.kids[k]
    modifies list`child, list`kids, list`repr, list`owned, list`tree, list.kids`next, list.kids`prev
    ensures Editable(list) && Loose(c, list)
    ensures list.kids == RemoveAt(old(list.kids), k)
    ensures list.tree == old(list.tree.(kids := RemoveAt(list.tree.kids, k)))
  {
    hide Part, Parts, Reprs, Editable, Loose, Chain, Trees, RemoveAt, Node.Labelled;
    Ready(list);
    ghost var u, t := TakeOut(list, c, k);
    AdoptRest(list, u, t, c);
  }

  lemma ReplacedTrees(s: seq<Node>, k: nat, x: Node, t: seq<Tree>)
    requires k < |s| == |t| && Chain(s) && x !in s && forall i :: 0 <= i < |s| ==> s[i].tree == t[i]
    ensures Trees(s[k := x]) == t[k := x.tree]
    ensures s[k] !in s[k := x] && forall n :: n in s[k := x] ==> n in s + [x]
  {
    TreesAt(s[k := x], t[k := x.tree]);
  }

  /** Puts newitem in the place of c, which is handed back alone. */
  method TakeInstead(list: Node, c: Node, newitem: Node, ghost k: nat) returns (ghost u: seq<Node>, ghost t: seq<Tree>)
    requires Editable(list) && Loose(newitem, list) && k < |list.kids| && c == list.kids[k]
    modifies list`child, newitem`next, newitem`prev, list.kids`next, list.kids`prev
    ensures !list.reference && list.Labelled() && Chain(u) && list.child == First(u)
    ensures u == list.kids[k := newitem] && k < |list.tree.kids| && t == list.tree.kids[k := newitem.tree]
    ensures Parts(list, u) && Trees(u) == t
    ensures Part(list, c) && list !in c.repr && list != c && AsideAll(c, u)
    ensures c.next == null && c.prev == null
  {
    hide Part, Parts, Reprs, Editable, Loose, Chain, Trees;
    ghost var s := list.kids;
    Ready(list);
    ReadyFor(list, newitem);
    u, t := s[k := newitem], list.tree.kids[k := newitem.tree];
    ReplacedTrees(s, k, newitem, list.tree.kids);
    ReplacePart(list, c, newitem, s, k, u, t);
    TakenApart(list, s + [newitem], u, c);
  }

  method ReplaceChild(list: Node, c: Node, newitem: Node, ghost k: nat)
    requires Editable(list) && Loose(newitem, list) && k < |list.kids| && c == list.kids[k]
    modifies list`child, list`kids, list`repr, list`owned, list`tree, newitem`next, newitem`prev, list.kids`next,
      list.kids`prev
    ensures Editable(list) && Loose(c, list)
    ensures list.kids == old(list.kids)[k := newitem] && k < |old(list.tree).kids|
    ensures list.tree == old(list.tree).(kids := old(list.tree).kids[k := newitem.tree])
  {
    hide Part, Parts, Reprs, Editable, Loose, Chain, Trees, Node.Labelled;
    Ready(list);
    ReadyFor(list, newitem);
    ghost var u, t := TakeInstead(list, c, newitem, k);
    AdoptRest(list, u, t, c);
  }
}
