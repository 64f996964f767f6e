/** NUL-terminated strings in byte buffers: the string at a position and when it is
    found again. */
module CStrings {
  import opened Memory

  predicate NulFree(s: seq<Byte>) {
    forall i :: 0 <= i < |s| ==> s[i] != 0
  }

  // The string at position p, up to its NUL.
  function StringAt(data: seq<Byte>, p: nat): seq<Byte>
    decreases |data| - p
  {
    if p >= |data| || data[p] == 0 then [] else [data[p]] + StringAt(data, p + 1)
  }

  // A string stored with its NUL, or at the end of the buffer, is found.
  lemma {:induction false} StringFound(data: seq<Byte>, p: nat, s: seq<Byte>)
    requires NulFree(s) && p + |s| <= |data| && data[p..p + |s|] == s
    requires p + |s| == |data| || data[p + |s|] == 0
    ensures StringAt(data, p) == s
    decreases |s|
  {
    if s != [] {
      assert data[p] == s[0];
      assert data[p + 1..p + 1 + |s[1..]|] == s[1..];
      StringFound(data, p + 1, s[1..]);
    }
  }

  // It ends at the first NUL or with the buffer.
  lemma {:induction false} StringEnds(data: seq<Byte>, p: nat, q: nat)
    requires p <= q <= |data| && (forall k :: p <= k < q ==> data[k] != 0) && (q == |data| || data[q] == 0)
    ensures StringAt(data, p) == data[p..q]
    decreases q - p
  {
    if p < q {
      StringEnds(data, p + 1, q);
    }
  }

  // s stands at position p, up to the first NUL or the end of the buffer.
  ghost predicate Ends(data: seq<Byte>, p: nat, s: seq<Byte>) {
    NulFree(s) && p + |s| <= |data| && data[p..p + |s|] == s && (p + |s| == |data| || data[p + |s|] == 0)
  }

  // There is exactly one such string.
  lemma {:induction false} StringIs(data: seq<Byte>, p: nat, s: seq<Byte>)
    requires p <= |data|
    ensures StringAt(data, p) == s <==> Ends(data, p, s)
    decreases |data| - p
  {
    if Ends(data, p, s) {
      StringFound(data, p, s);
    } else if p < |data| && data[p] != 0 && s != [] {
      StringIs(data, p + 1, s[1..]);
      assert s == [s[0]] + s[1..];
      assert Ends(data, p + 1, s[1..]) && s[0] == data[p] ==> data[p..p + |s|] == s;
    }
  }

  // s and its NUL stand at position q.
  ghost predicate Holds(data: seq<Byte>, q: int, s: seq<Byte>) {
    0 <= q && q + |s| < |data| && data[q..q + |s|] == s && data[q + |s|] == 0
  }

  // Strings that are found hold no NUL.
  lemma {:induction false} StringNulFree(data: seq<Byte>, p: nat)
    ensures NulFree(StringAt(data, p))
    decreases |data| - p
  {
    if p < |data| && data[p] != 0 {
      StringNulFree(data, p + 1);
    }
  }
}
