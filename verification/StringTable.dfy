/** String tables of object files: symbol names up to eight bytes long are stored in the
    symbol itself, longer ones in the table, and every name but the empty one survives
    the round trip. */
module StringTables {
  import opened Memory
  import opened Wrappers
  import opened CStrings

  type Name = seq<Byte>

  const HEADER: nat := 4
  const SHORT: nat := 8
  const MAX_LENGTH: int := 0xFFFF_FFFF

  ghost predicate Distinct(names: seq<Name>) {
    forall i, j :: 0 <= i < j < |names| ==> names[i] != names[j]
  }

  // ------------------------------------------------------------ specification

  // The long names, each closed by a NUL.
  function Blob(names: seq<Name>): seq<Byte> {
    if names == [] then []
    else
      var k := |names| - 1;
      Blob(names[..k]) + if |names[k]| > SHORT then names[k] + [0] else []
  }

  function Length(names: seq<Name>): nat {
    HEADER + |Blob(names)|
  }

  // Positions of the long names.
  function Directory(names: seq<Name>): map<Name, nat> {
    if names == [] then map[]
    else
      var k := |names| - 1;
      if |names[k]| > SHORT then Directory(names[..k])[names[k] := Length(names[..k])] else Directory(names[..k])
  }

  datatype Table = Table(data: seq<Byte>, directory: map<Name, nat>)

  function TableOf(names: seq<Name>): Table {
    Table(Memory.Encode(Length(names), HEADER) + Blob(names), Directory(names))
  }

  // A name padded with NULs to eight bytes.
  function Padded(s: Name): seq<Byte>
    requires |s| <= SHORT
  {
    s + seq(SHORT - |s|, i => 0)
  }

  // None: the program stops.
  function Encoded(t: Table, s: Name): Option<seq<Byte>> {
    if |s| <= SHORT then Some(Padded(s))
    else if s in t.directory then Some([0, 0, 0, 0] + Memory.Encode(t.directory[s], 4))
    else None
  }

  function Decoded(t: Table, x: seq<Byte>): Option<Name>
    requires |x| == SHORT
  {
    if x[0] == 0 && x[1] == 0 && x[2] == 0 && x[3] == 0 then
      var p := Memory.Decode(x[4..]);
      if p >= |t.data| then None else Some(StringAt(t.data, p))
    else Some(StringAt(x, 0))
  }

  // ------------------------------------------------------------ round trips

  // Every long name of the set is in the directory, at a position where it is stored.
  lemma {:induction false} DirectoryHolds(names: seq<Name>, i: nat)
    requires i < |names| && |names[i]| > SHORT && Distinct(names)
    ensures names[i] in Directory(names) && Holds(Blob(names), Directory(names)[names[i]] - HEADER, names[i])
    decreases |names|
  {
    hide Blob, Holds;
    var k := |names| - 1;
    if i < k {
      DirectoryHolds(names[..k], i);
      BlobGrows(names, Directory(names[..k])[names[i]] - HEADER, names[i]);
    } else {
      BlobEnds(names);
    }
  }

  lemma BlobGrows(names: seq<Name>, q: int, s: Name)
    requires names != [] && Holds(Blob(names[..|names| - 1]), q, s)
    ensures Holds(Blob(names), q, s)
  {
    var k := |names| - 1;
    HoldsLeft(Blob(names[..k]), if |names[k]| > SHORT then names[k] + [0] else [], q, s);
    hide Holds;
  }

  lemma HoldsLeft(a: seq<Byte>, b: seq<Byte>, q: int, s: Name)
    requires Holds(a, q, s)
    ensures Holds(a + b, q, s)
  {
    assert (a + b)[q..q + |s|] == a[q..q + |s|];
  }

  lemma BlobEnds(names: seq<Name>)
    requires names != [] && |names[|names| - 1]| > SHORT
    ensures Holds(Blob(names), |Blob(names[..|names| - 1])|, names[|names| - 1])
  {
  }

  // A name of one to eight bytes is read from the symbol itself.
  lemma ShortRoundTrip(t: Table, s: Name)
    requires NulFree(s) && 1 <= |s| <= SHORT
    ensures Decoded(t, Padded(s)) == Some(s)
  {
    assert Padded(s)[0..|s|] == s;
    StringFound(Padded(s), 0, s);
  }

  // A longer one from the table.
  lemma LongRoundTrip(names: seq<Name>, i: nat)
    requires i < |names| && |names[i]| > SHORT && NulFree(names[i]) && Distinct(names) && Length(names) <= MAX_LENGTH
    ensures Encoded(TableOf(names), names[i]).Some? && |Encoded(TableOf(names), names[i]).value| == SHORT
    ensures Decoded(TableOf(names), Encoded(TableOf(names), names[i]).value) == Some(names[i])
  {
    hide Blob, Directory, Memory.Encode, Memory.Decode, StringAt, Padded;
    var t, s := TableOf(names), names[i];
    DirectoryHolds(names, i);
    var p := t.directory[s];
    WordDecodes(p);
    var x := [0, 0, 0, 0] + Memory.Encode(p, 4);
    assert x[4..] == Memory.Encode(p, 4);
    Behind(Memory.Encode(Length(names), HEADER), Blob(names), p - HEADER, s);
    StringFound(t.data, p, s);
  }

  lemma Behind(head: seq<Byte>, blob: seq<Byte>, q: int, s: Name)
    requires |head| == HEADER && Holds(blob, q, s)
    ensures Holds(head + blob, HEADER + q, s) && HEADER + q < |head + blob|
  {
  }

  lemma WordDecodes(v: nat)
    requires v <= MAX_LENGTH
    ensures Memory.Decode(Memory.Encode(v, 4)) == v
  {
    assert Pow256(4) == 0x1_0000_0000;
    DecodeEncode(v, 4);
  }

  // The empty name is all NULs, which reads as position 0 of the table: the bytes of the
  // table's own length.
  lemma EmptyRoundTrip(names: seq<Name>)
    requires Length(names) <= MAX_LENGTH
    ensures Decoded(TableOf(names), Padded([])).Some?
    ensures Decoded(TableOf(names), Padded([])) == Some([]) <==> Length(names) % 256 == 0
  {
    var x, data := Padded([]), TableOf(names).data;
    assert x[4..] == [0, 0, 0, 0];
    assert Memory.Decode([0]) == 0 && Memory.Decode([0, 0]) == 0 && Memory.Decode([0, 0, 0]) == 0;
    assert Memory.Decode(x[4..]) == 0;
    assert data[0] == Length(names) % 256;
  }

  // With no long name the table is four bytes long, and the empty name does not come back.
  lemma EmptyNameLost()
    ensures Length([[]]) == 4 && Encoded(TableOf([[]]), []) == Some(Padded([]))
    ensures Decoded(TableOf([[]]), Padded([])) != Some([])
  {
    var names: seq<Name> := [[]];
    assert names[..0] == [] && Blob([]) == [];
    EmptyRoundTrip(names);
  }

  // decode(encode(s)) == s for every name of the set, except the empty one unless the
  // table's length is a multiple of 256.
  lemma RoundTripIff(names: seq<Name>, s: Name)
    requires s in names && NulFree(s) && Distinct(names) && Length(names) <= MAX_LENGTH
    ensures Encoded(TableOf(names), s).Some? && |Encoded(TableOf(names), s).value| == SHORT
    ensures Decoded(TableOf(names), Encoded(TableOf(names), s).value) == Some(s)
       <==> (s != [] || Length(names) % 256 == 0)
  {
    if |s| > SHORT {
      var i :| 0 <= i < |names| && names[i] == s;
      LongRoundTrip(names, i);
    } else if s == [] {
      EmptyRoundTrip(names);
    } else {
      ShortRoundTrip(TableOf(names), s);
    }
  }

  // What a symbol's eight bytes mean.  Four NULs and a position in the table: the string
  // there; a position outside it stops the program.
  lemma LongDecodesIff(t: Table, p: nat, s: Name)
    requires p <= MAX_LENGTH
    ensures var d := Decoded(t, [0, 0, 0, 0] + Memory.Encode(p, 4));
      && (d.None? <==> p >= |t.data|)
      && (d == Some(s) <==> p < |t.data| && Ends(t.data, p, s))
  {
    hide Memory.Encode, Memory.Decode, StringAt, Ends;
    var x := [0, 0, 0, 0] + Memory.Encode(p, 4);
    assert x[4..] == Memory.Encode(p, 4);
    WordDecodes(p);
    if p < |t.data| {
      StringIs(t.data, p, s);
    }
  }

  // Anything else is the name itself.
  lemma ShortDecodesIff(t: Table, x: seq<Byte>, s: Name)
    requires |x| == SHORT && x[..4] != [0, 0, 0, 0]
    ensures Decoded(t, x) == Some(s) <==> Ends(x, 0, s)
  {
    hide StringAt, Ends;
    StringIs(x, 0, s);
  }

  // A name can be encoded exactly if it is short or belongs to the table.
  lemma EncodesIff(names: seq<Name>, s: Name)
    requires Distinct(names)
    ensures Encoded(TableOf(names), s).Some? <==> |s| <= SHORT || s in names
  {
    if |s| > SHORT {
      DirectoryOnly(names, s);
      if s in names {
        var i :| 0 <= i < |names| && names[i] == s;
        DirectoryHolds(names, i);
      }
    }
    hide Blob, Directory, Memory.Encode;
  }

  lemma {:induction false} DirectoryOnly(names: seq<Name>, s: Name)
    ensures s in Directory(names) ==> s in names
    decreases |names|
  {
    hide Blob, Length;
    if names != [] {
      DirectoryOnly(names[..|names| - 1], s);
    }
  }

  // ------------------------------------------------------------ building a table

  class StringTable {
    var directory: map<Name, nat>
    var data: array<Byte>

    ghost function View(): Table
      reads this, data
    {
      Table(data[..], directory)
    }

    constructor Empty(length: nat)
      ensures fresh(data) && data.Length == length && directory == map[]
    {
      directory, data := map[], new Byte[length];
    }

    // Writes a long name and its NUL at position p.
    method Store(p: nat, s: Name)
      requires p + |s| < data.Length
      modifies this`directory, data
      ensures data == old(data) && directory == old(directory)[s := p]
      ensures data[..] == old(data[..p]) + s + [0] + old(data[p + |s| + 1..])
    {
      directory := directory[s := p];
      var i := 0;
      while i < |s|
        invariant i <= |s| && data == old(data) && directory == old(directory)[s := p]
        invariant forall k :: 0 <= k < data.Length ==>
          data[k] == if p <= k < p + i then s[k - p] else old(data[k])
      {
        data[p + i] := s[i];
        i := i + 1;
      }
      data[p + i] := 0;
    }

    method EncodeName(s: Name) returns (x: Option<seq<Byte>>)
      ensures x == Encoded(View(), s)
    {
      if |s| <= SHORT {
        x := Some(Padded(s));
      } else if s in directory {
        x := Some([0, 0, 0, 0] + Memory.Encode(directory[s], 4));
      } else {
        x := None;
      }
    }

    method DecodeName(x: seq<Byte>) returns (s: Option<Name>)
      requires |x| == SHORT
      ensures s == Decoded(View(), x)
    {
      if x[0] == 0 && x[1] == 0 && x[2] == 0 && x[3] == 0 {
        var p := Memory.Decode(x[4..]);
        if p >= data.Length {
          return None;
        }
        var q := p;
        while q < data.Length && data[q] != 0
          invariant p <= q <= data.Length
          invariant forall k :: p <= k < q ==> data[k] != 0
        {
          q := q + 1;
        }
        StringEnds(data[..], p, q);
        assert data[..][p..q] == data[p..q];
        s := Some(data[p..q]);
      } else {
        var i := 0;
        while i < SHORT && x[i] != 0
          invariant 0 <= i <= SHORT
          invariant forall k :: 0 <= k < i ==> x[k] != 0
        {
          i := i + 1;
        }
        StringEnds(x, 0, i);
        s := Some(x[..i]);
      }
    }
  }

  // names: the elements of a set, in its order.
  method Build(names: seq<Name>) returns (t: StringTable?)
    ensures t == null <==> Length(names) > MAX_LENGTH
    ensures t != null ==> fresh(t) && fresh(t.data) && t.View() == TableOf(names)
  {
    hide Blob, Directory, Memory.Encode;
    var length := HEADER;
    NoNames(names);
    for i := 0 to |names|
      invariant length == Length(names[..i]) <= MAX_LENGTH
    {
      NextName(names, i);
      if |names[i]| > SHORT {
        length := length + |names[i]| + 1;
        if length > MAX_LENGTH {
          return null;
        }
      }
    }
    assert names[..|names|] == names;
    t := new StringTable.Empty(length);
    PutHeader(t.data, length);
    var p := HEADER;
    for i := 0 to |names|
      invariant fresh(t) && fresh(t.data) && t.data.Length == length && t.directory == Directory(names[..i])
      invariant p == Length(names[..i]) <= length == Length(names)
      invariant t.data[..p] == Memory.Encode(length, HEADER) + Blob(names[..i])
    {
      NextName(names, i);
      if |names[i]| > SHORT {
        t.Store(p, names[i]);
        p := p + |names[i]| + 1;
      }
    }
  }

  method PutHeader(data: array<Byte>, v: nat)
    requires data.Length >= HEADER
    modifies data
    ensures data[..HEADER] == Memory.Encode(v, HEADER)
  {
    var bytes := Memory.Encode(v, HEADER);
    forall i | 0 <= i < HEADER {
      data[i] := bytes[i];
    }
  }

  lemma NoNames(names: seq<Name>)
    ensures Blob(names[..0]) == [] && Directory(names[..0]) == map[]
  {
  }

  lemma NextName(names: seq<Name>, i: nat)
    requires i < |names|
    ensures Blob(names[..i + 1]) == Blob(names[..i]) + if |names[i]| > SHORT then names[i] + [0] else []
    ensures Directory(names[..i + 1])
         == if |names[i]| > SHORT then Directory(names[..i])[names[i] := Length(names[..i])] else Directory(names[..i])
    ensures Length(names[..i + 1]) <= Length(names)
  {
    assert names[..i + 1][..i] == names[..i];
    BlobPrefix(names, i + 1);
  }

  lemma {:induction false} BlobPrefix(names: seq<Name>, i: nat)
    requires i <= |names|
    ensures |Blob(names[..i])| <= |Blob(names)|
    decreases |names|
  {
    if i < |names| {
      BlobPrefix(names[..|names| - 1], i);
      assert names[..|names| - 1][..i] == names[..i];
    } else {
      assert names[..i] == names;
    }
  }
}
