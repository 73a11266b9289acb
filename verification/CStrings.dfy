/** NUL-terminated strings in character arrays. */
module CStrings {

  /** No character of s is the terminator. */
  predicate NulFree(s: string) {
    forall i :: 0 <= i < |s| ==> s[i] != '\0'
  }

  /** The C string that starts at index `from` of a is s. */
  ghost predicate Holds(a: array<char>, from: nat, s: string)
    reads a
  {
    && from + |s| < a.Length
    && NulFree(s)
    && a[from..from + |s|] == s
    && a[from + |s|] == '\0'
  }

  /** strlen: how far it is to the terminator. */
  method Length(a: array<char>, from: nat, ghost s: string) returns (n: nat)
    requires Holds(a, from, s)
    ensures n == |s|
  {
    n := 0;
    while a[from + n] != '\0'
      invariant n <= |s|
      decreases |s| - n
    {
      assert n < |s|;
      n := n + 1;
    }
  }

  // ----- Writing at a position of a buffer -----

  method Put(out: array<char>, at: nat, s: string) returns (p: nat)
    requires at + |s| <= out.Length
    modifies out
    ensures p == at + |s| && out[..p] == old(out[..at]) + s
  {
    ghost var before := out[..at];
    p := at;
    ghost var k := 0;
    while p < at + |s|
      invariant k <= |s| && p == at + k && out[..p] == before + s[..k]
    {
      out[p] := s[p - at];
      p, k := p + 1, k + 1;
      assert s[..k] == s[..k - 1] + [s[k - 1]];
      assert out[..p] == out[..p - 1] + [s[k - 1]];
    }
    assert s[..|s|] == s;
  }

  /** The end of a C string. */
  method Terminate(out: array<char>, at: nat, ghost from: nat, ghost s: string)
    requires from + |s| == at < out.Length && NulFree(s) && out[from..at] == s
    modifies out
    ensures Holds(out, from, s) && out[..at] == old(out[..at])
  {
    out[at] := '\0';
    assert out[..at][from..] == out[from..at];
  }
}
