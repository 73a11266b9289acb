/** Parsing a whole text into a new root. */
module JsonDocument {
  import opened CStrings
  import opened JsonText
  import opened JsonRoundTrip
  import opened JsonStrings
  import opened JsonNodes
  import opened JsonDelete
  import opened JsonBuild
  import opened JsonTree
  import opened JsonParser

  /** The value a whole text stands for and what is left of the text; nothing may be left of it when the caller insists
      on its end. */
  function ParseText(text: string, toTheEnd: bool): Parsed<Json> {
    var (v, rest) :- ParseValue(Skip(text));
    if !toTheEnd then Parsed(v, rest)
    else if Skip(rest) == [] then Parsed(v, [])
    else Malformed
  }

  /** Printing a value and parsing the text gives the value back, to the end of the text, however it is parsed. */
  lemma TextRoundTrip(j: Json, fmt: bool, toTheEnd: bool)
    requires Representable(j)
    ensures ParseText(Print(j, 0, fmt), toTheEnd) == Parsed(j, [])
  {
    hide Print, ParseValue, Representable;
    RoundTrip(j, fmt);
  }

  /** Two values with the same text are the same value. */
  lemma PrintInjective(j: Json, k: Json, fmt: bool, fmt': bool)
    requires Representable(j) && Representable(k) && Print(j, 0, fmt) == Print(k, 0, fmt')
    ensures j == k
  {
    hide Print, Representable;
    TextRoundTrip(j, fmt, true);
    TextRoundTrip(k, fmt', true);
  }

  lemma AloneInChain(c: Node)
    requires Standalone(c)
    ensures c.Framed() && c.Valid() && c.Private() && Chain([c]) && Apart([c]) && Owned([c]) == c.repr
  {
    assert forall k :: k in [c] ==> k == c;
  }

  /** Deletes a root whose parse has failed, with everything read so far. */
  method Abandon(c: Node) returns (freed: seq<Block>)
    requires Standalone(c)
    ensures FreesAll(freed, c.repr)
  {
    hide FreesAll, Standalone, Grown, Owned, Chain, Apart, Node.Valid, Node.Private, Node.Framed;
    AloneInChain(c);
    assert forall k :: k in [c] ==> k == c;
    freed := Delete(c, [c]);
  }

  lemma WholeText(v: Parsed<Json>, p: Parsed<Json>, toTheEnd: bool, text: string, r: Outcome, j: Json)
    requires Reads(v, r, text, j)
    requires p == match v
      case Parsed(w, rest) => if !toTheEnd then v else if Skip(rest) == [] then Parsed(w, []) else Malformed
      case Malformed => Malformed
      case Unmodelled => Unmodelled
    ensures !r.End? || !toTheEnd ==> Reads(p, r, text, j)
    ensures r.End? && toTheEnd ==> r.pos <= |text|
    ensures r.End? && toTheEnd ==>
      forall q :: r.pos <= q <= |text| && text[q..] == Skip(text[r.pos..]) ==>
        Reads(p, if q == |text| then End(q) else Failed, text, j)
  {
    if r.End? && toTheEnd {
      forall q | r.pos <= q <= |text| && text[q..] == Skip(text[r.pos..])
        ensures Reads(p, if q == |text| then End(q) else Failed, text, j)
      {
        assert q == |text| <==> text[q..] == [];
      }
    }
  }

  /** A new tree for the text, or null and every block of what had been made handed back. */
  method ParseWithOpts(text: string, toTheEnd: bool)
    returns (root: Node?, r: Outcome, freed: seq<Block>, ghost made: set<Node>)
    requires NulFree(text)
    ensures fresh(made) && (root != null <==> r.End?)
    ensures root != null ==> Standalone(root) && root.repr == made && freed == []
    ensures root != null ==> Proper(root.tree) && root.tree.name == None
    ensures root == null ==> FreesAll(freed, made)
    ensures match ParseText(text, toTheEnd)
      case Parsed(j, rest) => r.End? && root != null && ToJson(root.tree) == j && r.pos <= |text| &&
        text[r.pos..] == rest
      case Malformed => r == Failed
      case Unmodelled => r == OutOfModel
  {
    hide ParseValue, Skip, Leaf, Grown, FreesAll, ToJson, Proper;
    var c := NewItem();
    freed := [];
    var p := SkipSpace(text, 0);
    assert text[0..] == text;
    r := ParseInto(c, text, p);
    made := c.repr;
    GrownAlone(c);
    WholeText(ParseValue(text[p..]), ParseText(text, toTheEnd), toTheEnd, text, r, ToJson(c.tree));
    if r.End? && toTheEnd {
      var e := SkipSpace(text, r.pos);
      r := if e == |text| then End(e) else Failed;
    }
    root := c;
    if !r.End? {
      freed := Abandon(c);
      root := null;
    }
  }
}
