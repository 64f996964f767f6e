/** Renaming of the external symbols of an object file: the names that occur are
    collected, a string table is built for them, and the symbols are written with their
    new names. */
module SymbolHiding {
  import opened Memory
  import opened StringTables
  import opened Wrappers
  import opened CStrings

  // An entry of the symbol table; auxiliary entries follow their primary one.
  datatype Symbol = Symbol(name: seq<Byte>, rest: seq<Byte>, storageClass: Byte, aux: Byte)

  const EXTERNAL: int := 2

  // "__kmp_external_"
  const PREFIX: Name := [95, 95, 107, 109, 112, 95, 101, 120, 116, 101, 114, 110, 97, 108, 95]

  // Entries that are not auxiliary, from entry i on.
  function Primaries(symbols: seq<Symbol>, i: nat): seq<nat>
    decreases |symbols| - i
  {
    if i >= |symbols| then [] else [i] + Primaries(symbols, i + 1 + symbols[i].aux)
  }

  ghost predicate WellFormed(symbols: seq<Symbol>) {
    && (forall i :: 0 <= i < |symbols| ==> |symbols[i].name| == SHORT)
    && (forall p :: p in Primaries(symbols, 0) ==> p < |symbols| && p + symbols[p].aux < |symbols|)
  }

  // Is entry j primary entry p or one of its auxiliary entries?
  predicate Owns(symbols: seq<Symbol>, p: nat, j: nat) {
    p < |symbols| && p <= j <= p + symbols[p].aux
  }

  // Every entry is a primary one or one of the auxiliary entries of exactly one.
  lemma {:induction false} EntryOwned(symbols: seq<Symbol>, i: nat, j: nat)
    requires i <= j < |symbols|
    ensures exists p :: p in Primaries(symbols, i) && Owns(symbols, p, j)
    ensures forall p, q | p in Primaries(symbols, i) && q in Primaries(symbols, i) :: (
              Owns(symbols, p, j) && Owns(symbols, q, j) ==> p == q)
    decreases |symbols| - i
  {
    var next := i + 1 + symbols[i].aux;
    assert i in Primaries(symbols, i);
    PrimariesFrom(symbols, next);
    if j >= next {
      EntryOwned(symbols, next, j);
    } else {
      assert Owns(symbols, i, j);
    }
  }

  lemma {:induction false} PrimariesFrom(symbols: seq<Symbol>, i: nat)
    ensures forall p :: p in Primaries(symbols, i) ==> i <= p < |symbols|
    decreases |symbols| - i
  {
    if i < |symbols| {
      PrimariesFrom(symbols, i + 1 + symbols[i].aux);
    }
  }

  // The name an entry gets; None: its old name is not in the old table.
  function NewName(e: Symbol, before: Table, hidden: set<Name>): Option<Name>
    requires |e.name| == SHORT
  {
    var s := Decoded(before, e.name);
    if s.Some? && e.storageClass == EXTERNAL && s.value in hidden then Some(PREFIX + s.value) else s
  }

  lemma NewNameNulFree(e: Symbol, before: Table, hidden: set<Name>)
    requires |e.name| == SHORT
    ensures NewName(e, before, hidden).Some? ==> NulFree(NewName(e, before, hidden).value)
  {
    var s := Decoded(before, e.name);
    if s.Some? {
      if e.name[0] == 0 && e.name[1] == 0 && e.name[2] == 0 && e.name[3] == 0 {
        StringNulFree(before.data, Memory.Decode(e.name[4..]));
      } else {
        StringNulFree(e.name, 0);
      }
    }
  }

  // ------------------------------------------------------------ collecting the names

  // The entries in ps all have new names, those in names, each once.
  ghost predicate Collected(symbols: seq<Symbol>, ps: seq<nat>, before: Table, hidden: set<Name>, names: seq<Name>)
    requires WellFormed(symbols)
  {
    && Distinct(names) && (forall s :: s in names ==> NulFree(s))
    && (forall p :: p in ps ==>
          p < |symbols| && NewName(symbols[p], before, hidden).Some? && NewName(symbols[p], before, hidden).value in names)
    && (forall s :: s in names ==> exists p :: p in ps && p < |symbols| && NewName(symbols[p], before, hidden) == Some(s))
  }

  // A primary entry's old name cannot be decoded.
  ghost predicate Undecodable(symbols: seq<Symbol>, before: Table, hidden: set<Name>)
    requires WellFormed(symbols)
  {
    exists p :: p in Primaries(symbols, 0) && p < |symbols| && NewName(symbols[p], before, hidden).None?
  }

  method CollectNames(symbols: seq<Symbol>, before: Table, hidden: set<Name>) returns (names: Option<seq<Name>>)
    requires WellFormed(symbols)
    ensures names.None? <==> Undecodable(symbols, before, hidden)
    ensures names.Some? ==> Collected(symbols, Primaries(symbols, 0), before, hidden, names.value)
  {
    hide *;
    var i: nat, strings: seq<Name> := 0, [];
    ghost var done: seq<nat> := [];
    NoneCollected(symbols, before, hidden);
    while i < |symbols|
      invariant Primaries(symbols, 0) == done + Primaries(symbols, i)
      invariant Collected(symbols, done, before, hidden, strings)
      decreases |symbols| - i
    {
      NextPrimary(symbols, done, i);
      NameLength(symbols, i);
      var s := NewName(symbols[i], before, hidden);
      if s.None? {
        NotDecoded(symbols, i, before, hidden);
        return None;
      }
      NewNameNulFree(symbols[i], before, hidden);
      CollectOne(symbols, done, i, before, hidden, strings);
      if s.value !in strings {
        strings := strings + [s.value];
      }
      done := done + [i];
      i := i + 1 + symbols[i].aux;
    }
    AllCollected(symbols, done, i, before, hidden, strings);
    names := Some(strings);
  }

  lemma NoneCollected(symbols: seq<Symbol>, before: Table, hidden: set<Name>)
    requires WellFormed(symbols)
    ensures Collected(symbols, [], before, hidden, []) && Primaries(symbols, 0) == [] + Primaries(symbols, 0)
  {
  }

  lemma NameLength(symbols: seq<Symbol>, i: nat)
    requires WellFormed(symbols) && i < |symbols|
    ensures |symbols[i].name| == SHORT
  {
  }

  lemma NotDecoded(symbols: seq<Symbol>, i: nat, before: Table, hidden: set<Name>)
    requires WellFormed(symbols) && i < |symbols| && i in Primaries(symbols, 0)
    requires NewName(symbols[i], before, hidden).None?
    ensures Undecodable(symbols, before, hidden)
  {
  }

  lemma AllCollected(symbols: seq<Symbol>, done: seq<nat>, i: nat, before: Table, hidden: set<Name>, names: seq<Name>)
    requires WellFormed(symbols) && i >= |symbols| && Primaries(symbols, 0) == done + Primaries(symbols, i)
    requires Collected(symbols, done, before, hidden, names)
    ensures Primaries(symbols, 0) == done && !Undecodable(symbols, before, hidden)
    ensures Collected(symbols, Primaries(symbols, 0), before, hidden, names)
  {
    assert done + [] == done;
  }

  lemma NextPrimary(symbols: seq<Symbol>, done: seq<nat>, i: nat)
    requires i < |symbols| && Primaries(symbols, 0) == done + Primaries(symbols, i)
    ensures Primaries(symbols, 0) == done + [i] + Primaries(symbols, i + 1 + symbols[i].aux)
    ensures i in Primaries(symbols, 0)
  {
    var rest := Primaries(symbols, i + 1 + symbols[i].aux);
    assert done + ([i] + rest) == done + [i] + rest;
    assert (done + [i] + rest)[|done|] == i;
  }

  lemma CollectOne(symbols: seq<Symbol>, done: seq<nat>, i: nat, before: Table, hidden: set<Name>, names: seq<Name>)
    requires WellFormed(symbols) && Collected(symbols, done, before, hidden, names) && i < |symbols|
    requires NewName(symbols[i], before, hidden).Some? && NulFree(NewName(symbols[i], before, hidden).value)
    ensures var s := NewName(symbols[i], before, hidden).value;
      Collected(symbols, done + [i], before, hidden, if s in names then names else names + [s])
  {
    hide NewName, NulFree, WellFormed;
    NameLength(symbols, i);
    var s := NewName(symbols[i], before, hidden).value;
    assert i in done + [i];
    assert forall p :: p in done ==> p in done + [i];
  }

  // ------------------------------------------------------------ renaming

  // A primary entry with its new name; everything else is unchanged.
  ghost predicate RenamedTo(e: Symbol, e': Symbol, before: Table, after: Table, hidden: set<Name>)
    requires |e.name| == SHORT
  {
    && e' == e.(name := e'.name) && |e'.name| == SHORT
    && NewName(e, before, hidden).Some?
    && Encoded(after, NewName(e, before, hidden).value) == Some(e'.name)
  }

  method RenameAll(symbols: seq<Symbol>, before: Table, after: StringTable, hidden: set<Name>, ghost names: seq<Name>)
    returns (renamed: seq<Symbol>)
    requires WellFormed(symbols) && Collected(symbols, Primaries(symbols, 0), before, hidden, names)
    requires after.View() == TableOf(names) && Length(names) <= MAX_LENGTH
    ensures |renamed| == |symbols|
    ensures forall p :: p in Primaries(symbols, 0) ==>
      p < |symbols| && RenamedTo(symbols[p], renamed[p], before, TableOf(names), hidden)
    ensures forall i :: 0 <= i < |symbols| && i !in Primaries(symbols, 0) ==> renamed[i] == symbols[i]
  {
    hide *;
    var i: nat := 0;
    renamed := [];
    ghost var done: seq<nat> := [];
    NoneRenamed(symbols, before, hidden, names);
    while i < |symbols|
      invariant Primaries(symbols, 0) == done + Primaries(symbols, i)
      invariant Renaming(symbols, renamed, done, i, before, hidden, names)
      decreases |symbols| - i
    {
      NextPrimary(symbols, done, i);
      var e := symbols[i];
      RenameStep(symbols, renamed, done, i, before, hidden, names);
      var s := NewName(e, before, hidden).value;
      var x := after.EncodeName(s);
      renamed := renamed + [e.(name := x.value)] + symbols[i + 1..i + 1 + e.aux];
      done := done + [i];
      i := i + 1 + e.aux;
    }
    AllRenamed(symbols, renamed, done, i, before, hidden, names);
  }

  // Entries below i are copied, those in done with their new names.
  ghost predicate Renaming(symbols: seq<Symbol>, renamed: seq<Symbol>, done: seq<nat>, i: nat, before: Table,
                           hidden: set<Name>, names: seq<Name>)
    requires WellFormed(symbols)
  {
    && |renamed| == i <= |symbols|
    && (forall p :: p in done ==> p < i && RenamedTo(symbols[p], renamed[p], before, TableOf(names), hidden))
    && (forall k :: 0 <= k < i && k !in done ==> renamed[k] == symbols[k])
  }

  lemma NoneRenamed(symbols: seq<Symbol>, before: Table, hidden: set<Name>, names: seq<Name>)
    requires WellFormed(symbols)
    ensures Renaming(symbols, [], [], 0, before, hidden, names) && Primaries(symbols, 0) == [] + Primaries(symbols, 0)
  {
  }

  lemma RenameStep(symbols: seq<Symbol>, renamed: seq<Symbol>, done: seq<nat>, i: nat, before: Table,
                   hidden: set<Name>, names: seq<Name>)
    requires WellFormed(symbols) && Renaming(symbols, renamed, done, i, before, hidden, names) && i < |symbols|
    requires Collected(symbols, Primaries(symbols, 0), before, hidden, names) && Length(names) <= MAX_LENGTH
    requires i in Primaries(symbols, 0)
    ensures i + symbols[i].aux < |symbols| && |symbols[i].name| == SHORT
    ensures NewName(symbols[i], before, hidden).Some?
    ensures Encoded(TableOf(names), NewName(symbols[i], before, hidden).value).Some?
    ensures var e := symbols[i];
      Renaming(symbols,
               renamed + [e.(name := Encoded(TableOf(names), NewName(e, before, hidden).value).value)]
               + symbols[i + 1..i + 1 + e.aux],
               done + [i], i + 1 + e.aux, before, hidden, names)
  {
    hide Primaries, NewName, Encoded, Decoded, TableOf, Length;
    var e := symbols[i];
    RoundTripIff(names, NewName(e, before, hidden).value);
    var e' := e.(name := Encoded(TableOf(names), NewName(e, before, hidden).value).value);
    Extended(symbols, renamed, done, i, e', before, hidden, names);
  }

  lemma Extended(symbols: seq<Symbol>, renamed: seq<Symbol>, done: seq<nat>, i: nat, e': Symbol, before: Table,
                 hidden: set<Name>, names: seq<Name>)
    requires WellFormed(symbols) && Renaming(symbols, renamed, done, i, before, hidden, names)
    requires i < |symbols| && i + symbols[i].aux < |symbols|
    requires RenamedTo(symbols[i], e', before, TableOf(names), hidden)
    ensures Renaming(symbols, renamed + [e'] + symbols[i + 1..i + 1 + symbols[i].aux], done + [i],
                     i + 1 + symbols[i].aux, before, hidden, names)
  {
    hide RenamedTo, Primaries;
    var r := renamed + [e'] + symbols[i + 1..i + 1 + symbols[i].aux];
    assert r[i] == e';
    forall p | p in done + [i]
      ensures p < i + 1 + symbols[i].aux && RenamedTo(symbols[p], r[p], before, TableOf(names), hidden) {
      if p != i {
        assert p in done;
        assert r[p] == renamed[p];
      }
    }
    forall k | 0 <= k < i + 1 + symbols[i].aux && k !in done + [i] ensures r[k] == symbols[k] {
      assert i in done + [i];
      if k < i {
        assert k !in done;
        assert r[k] == renamed[k];
      }
    }
  }

  lemma AllRenamed(symbols: seq<Symbol>, renamed: seq<Symbol>, done: seq<nat>, i: nat, before: Table,
                   hidden: set<Name>, names: seq<Name>)
    requires WellFormed(symbols) && Renaming(symbols, renamed, done, i, before, hidden, names) && i >= |symbols|
    requires Primaries(symbols, 0) == done + Primaries(symbols, i)
    ensures |renamed| == |symbols|
    ensures forall p :: p in Primaries(symbols, 0) ==>
      p < |symbols| && RenamedTo(symbols[p], renamed[p], before, TableOf(names), hidden)
    ensures forall k :: 0 <= k < |symbols| && k !in Primaries(symbols, 0) ==> renamed[k] == symbols[k]
  {
    hide RenamedTo, WellFormed;
    assert done + [] == done;
  }

  // Both passes over the symbol table; None: the program stops.
  method HideSymbols(symbols: seq<Symbol>, before: Table, hidden: set<Name>)
    returns (renamed: seq<Symbol>, after: StringTable?, ghost names: seq<Name>)
    requires WellFormed(symbols)
    ensures after == null <==> Undecodable(symbols, before, hidden) || Length(names) > MAX_LENGTH
    ensures after != null ==>
      after.View() == TableOf(names) && Collected(symbols, Primaries(symbols, 0), before, hidden, names)
    ensures after != null ==> |renamed| == |symbols|
    ensures after != null ==> forall p :: p in Primaries(symbols, 0) ==>
      p < |symbols| && RenamedTo(symbols[p], renamed[p], before, after.View(), hidden)
    ensures after != null ==> forall i :: 0 <= i < |symbols| && i !in Primaries(symbols, 0) ==> renamed[i] == symbols[i]
  {
    hide Primaries, Collected, NewName, Length, TableOf, RenamedTo, Undecodable, WellFormed;
    renamed, after, names := [], null, [];
    var strings := CollectNames(symbols, before, hidden);
    if strings.Some? {
      names := strings.value;
      after := Build(strings.value);
      if after != null {
        renamed := RenameAll(symbols, before, after, hidden, names);
      }
    }
  }

  // In the written table every primary symbol decodes to its old name, prefixed exactly
  // if it is external and hidden; an empty name does so only if the table's length is a
  // multiple of 256.
  lemma RenamedDecodes(symbols: seq<Symbol>, p: nat, e': Symbol, before: Table, hidden: set<Name>, names: seq<Name>)
    requires WellFormed(symbols) && p in Primaries(symbols, 0) && p < |symbols|
    requires Collected(symbols, Primaries(symbols, 0), before, hidden, names) && Length(names) <= MAX_LENGTH
    requires RenamedTo(symbols[p], e', before, TableOf(names), hidden)
    ensures Decoded(before, symbols[p].name).Some? && |e'.name| == SHORT
    ensures var s := Decoded(before, symbols[p].name).value;
            var s' := if symbols[p].storageClass == EXTERNAL && s in hidden then PREFIX + s else s;
      Decoded(TableOf(names), e'.name) == Some(s') <==> s' != [] || Length(names) % 256 == 0
  {
    RoundTripIff(names, NewName(symbols[p], before, hidden).value);
  }

  // ------------------------------------------------------------ reading a table back

  // A table read from a file: its own length leads.  If no NUL ends it the program adds one,
  // but the copy that follows puts the byte behind the buffer there.
  function Loaded(raw: seq<Byte>, behind: Byte): Option<seq<Byte>> {
    if |raw| < HEADER || Memory.Decode(raw[..HEADER]) != |raw| then None
    else if raw[|raw| - 1] != 0 then Some(Memory.Encode(|raw| + 1, HEADER) + raw[HEADER..] + [behind])
    else Some(Memory.Encode(|raw|, HEADER) + raw[HEADER..])
  }

  // A table that is read keeps its bytes behind the header and leads with its length; it
  // ends with a NUL exactly if the file's table did or one happens to stand behind the buffer.
  lemma LoadedEndsIff(raw: seq<Byte>, behind: Byte)
    requires Loaded(raw, behind).Some? && |raw| < MAX_LENGTH
    ensures var data := Loaded(raw, behind).value;
      && HEADER <= |raw| <= |data| <= |raw| + 1 && Memory.Decode(data[..HEADER]) == |data|
      && data[HEADER..|raw|] == raw[HEADER..] && (|data| > |raw| ==> data[|raw|] == behind)
      && (|data| == |raw| <==> raw[|raw| - 1] == 0)
      && (|raw| > HEADER ==> (data[|data| - 1] == 0 <==> raw[|raw| - 1] == 0 || behind == 0))
  {
    hide Memory.Encode, Memory.Decode;
    WordDecodes(|raw|);
    WordDecodes(|raw| + 1);
    var data := Loaded(raw, behind).value;
    assert data[..HEADER] == Memory.Encode(|data|, HEADER);
  }

  // So a name reads as in the file exactly if it ends within the file's table or a NUL
  // happens to stand behind the buffer.
  lemma LoadedNameIff(raw: seq<Byte>, behind: Byte, p: nat)
    requires Loaded(raw, behind).Some? && HEADER <= p < |raw| < MAX_LENGTH
    ensures var s := StringAt(raw, p);
      StringAt(Loaded(raw, behind).value, p) == s <==> p + |s| < |raw| || behind == 0
  {
    hide *;
    LoadedEndsIff(raw, behind);
    var data, s := Loaded(raw, behind).value, StringAt(raw, p);
    StringIs(raw, p, s);
    StringIs(data, p, s);
    NameCopied(raw, data, HEADER, p, s);
  }

  lemma NameCopied(raw: seq<Byte>, data: seq<Byte>, h: nat, p: nat, s: Name)
    requires h <= p < |raw| <= |data| <= |raw| + 1 && data[h..|raw|] == raw[h..] && Ends(raw, p, s)
    requires |data| == |raw| <==> raw[|raw| - 1] == 0
    ensures Ends(data, p, s) <==> p + |s| < |raw| || data[|data| - 1] == 0
    ensures p + |s| <= |raw| && (p + |s| == |raw| ==> |data| == |raw| + 1)
  {
    assert forall k :: h <= k < |raw| ==> data[k] == data[h..|raw|][k - h] == raw[h..][k - h] == raw[k];
    assert data[p..p + |s|] == raw[p..p + |s|];
    if p + |s| == |raw| {
      assert raw[|raw| - 1] == s[|s| - 1];
    }
  }

  // A table of one name that no NUL ends, with a letter behind the buffer.
  lemma NameRunsOn()
    ensures var data := Loaded([5, 0, 0, 0, 65], 66);
      data.Some? && 4 < |data.value| && StringAt([5, 0, 0, 0, 65], 4) == [65] && StringAt(data.value, 4) != [65]
  {
    var raw: seq<Byte> := [5, 0, 0, 0, 65];
    assert Memory.Decode([0]) == 0 && Memory.Decode([0, 0]) == 0 && Memory.Decode([0, 0, 0]) == 0;
    assert Memory.Decode([5, 0, 0, 0]) == 5;
    assert raw[..HEADER] == [5, 0, 0, 0];
    StringIs(raw, 4, [65]);
    LoadedEndsIff(raw, 66);
    LoadedNameIff(raw, 66, 4);
  }

  // A written table reads back as it was, so its symbols decode to the same names.
  lemma WrittenLoads(names: seq<Name>, behind: Byte)
    requires Length(names) <= MAX_LENGTH
    ensures Loaded(TableOf(names).data, behind) == Some(TableOf(names).data)
  {
    var head, blob := Memory.Encode(Length(names), HEADER), Blob(names);
    var raw := head + blob;
    hide Memory.Encode, Memory.Decode;
    WordDecodes(Length(names));
    assert raw[..HEADER] == head && raw[HEADER..] == blob;
    EndsWithNul(names);
    if blob == [] {
      HighByte(names);
      assert raw[|raw| - 1] == head[3];
    } else {
      assert raw[|raw| - 1] == blob[|blob| - 1];
    }
  }

  lemma {:induction false} EndsWithNul(names: seq<Name>)
    ensures Blob(names) != [] ==> Blob(names)[|Blob(names)| - 1] == 0
    decreases |names|
  {
    if names != [] {
      EndsWithNul(names[..|names| - 1]);
    }
  }

  lemma HighByte(names: seq<Name>)
    requires Blob(names) == []
    ensures |Memory.Encode(Length(names), HEADER)| == HEADER && Memory.Encode(Length(names), HEADER)[3] == 0
  {
    assert Memory.Encode(4, 4) == [4] + Memory.Encode(0, 3);
    assert Memory.Encode(0, 3) == [0] + Memory.Encode(0, 2);
    assert Memory.Encode(0, 2) == [0] + Memory.Encode(0, 1);
    assert Memory.Encode(0, 1) == [0] + Memory.Encode(0, 0);
  }
}
