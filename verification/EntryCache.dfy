/** Translation tables of registered libraries and the cache of host entries found in
    them: a cached entry is as good as a search as long as its library is registered
    and addresses are distinct. */
module EntryCache {
  import opened Wrappers

  // Host entry table of a library, known by the address of its first entry.
  datatype Table = Table(key: int, entries: seq<int>)

  datatype Location = Location(key: int, index: nat)

  // tables is ordered by key.
  datatype State = State(tables: seq<Table>, cache: map<int, Location>)

  ghost predicate Sorted(tables: seq<Table>) {
    forall i, j :: 0 <= i < j < |tables| ==> tables[i].key < tables[j].key
  }

  // The location is the first of a registered table with address a.
  ghost predicate Live(tables: seq<Table>, l: Location, a: int) {
    exists i :: 0 <= i < |tables| && tables[i].key == l.key && IndexOf(tables[i].entries, a) == l.index
  }

  ghost predicate Consistent(st: State) {
    Sorted(st.tables) && forall a :: a in st.cache ==> Live(st.tables, st.cache[a], a)
  }

  ghost predicate Distinct(tables: seq<Table>) {
    forall i, j, p, q ::
      (0 <= i < |tables| && 0 <= j < |tables| && 0 <= p < |tables[i].entries| && 0 <= q < |tables[j].entries|
       && tables[i].entries[p] == tables[j].entries[q]) ==> i == j && p == q
  }

  // ------------------------------------------------------------ specification

  // The first entry with address a, or -1.
  function IndexOf(entries: seq<int>, a: int): (i: int)
    ensures -1 <= i < |entries| && (i >= 0 ==> entries[i] == a)
    ensures i == -1 <==> a !in entries
    ensures forall k :: 0 <= k < i ==> entries[k] != a
  {
    if entries == [] then -1
    else if entries[0] == a then 0
    else
      var i := IndexOf(entries[1..], a);
      if i == -1 then -1 else i + 1
  }

  // Search of all tables in order.
  function Search(tables: seq<Table>, a: int): Option<Location> {
    if tables == [] then None
    else
      var i := IndexOf(tables[0].entries, a);
      if i >= 0 then Some(Location(tables[0].key, i)) else Search(tables[1..], a)
  }

  function Insert(tables: seq<Table>, t: Table): seq<Table> {
    if tables == [] || t.key < tables[0].key then [t] + tables
    else if t.key == tables[0].key then tables
    else [tables[0]] + Insert(tables[1..], t)
  }

  function Erase(tables: seq<Table>, key: int): seq<Table> {
    if tables == [] then []
    else if tables[0].key == key then tables[1..]
    else [tables[0]] + Erase(tables[1..], key)
  }

  function Without(cache: map<int, Location>, addresses: seq<int>): map<int, Location> {
    map a | a in cache && a !in addresses :: cache[a]
  }

  function Found(st: State, a: int): Option<Location> {
    if a in st.cache then Some(st.cache[a]) else Search(st.tables, a)
  }

  // A library as its descriptor gives it; supported: some plugin accepts an image of it.
  datatype Call = Register(table: Table, supported: bool) | Unregister(table: Table) | Find(address: int)

  function Step(st: State, c: Call): State {
    match c
    case Register(t, supported) => if supported then State(Insert(st.tables, t), st.cache) else st
    case Unregister(t) => State(Erase(st.tables, t.key), Without(st.cache, t.entries))
    case Find(a) =>
      var l := Found(st, a);
      if l.Some? then State(st.tables, st.cache[a := l.value]) else st
  }

  function Run(st: State, cs: seq<Call>): State {
    if cs == [] then st else Step(Run(st, cs[..|cs| - 1]), cs[|cs| - 1])
  }

  // A descriptor's entries do not change: calls with one key agree on the entries.
  ghost predicate Fixed(cs: seq<Call>, entries: map<int, seq<int>>) {
    forall i :: 0 <= i < |cs| && !cs[i].Find? ==>
      cs[i].table.key in entries && cs[i].table.entries == entries[cs[i].table.key]
  }

  ghost predicate FixedTables(tables: seq<Table>, entries: map<int, seq<int>>) {
    forall i :: 0 <= i < |tables| ==> tables[i].key in entries && tables[i].entries == entries[tables[i].key]
  }

  // ------------------------------------------------------------ the cache and the tables

  lemma {:induction false} SearchFinds(tables: seq<Table>, a: int)
    ensures Search(tables, a).Some? ==> Live(tables, Search(tables, a).value, a)
    ensures Search(tables, a).None? ==> forall i :: 0 <= i < |tables| ==> a !in tables[i].entries
    decreases |tables|
  {
    if tables != [] {
      SearchFinds(tables[1..], a);
      var l := Search(tables, a);
      if a in tables[0].entries {
        assert Live(tables, l.value, a);
      } else if l.Some? {
        var i :| 0 <= i < |tables[1..]| && tables[1..][i].key == l.value.key
              && IndexOf(tables[1..][i].entries, a) == l.value.index;
        assert tables[i + 1] == tables[1..][i];
      }
    }
  }

  lemma {:induction false} InsertKeeps(tables: seq<Table>, t: Table)
    requires Sorted(tables)
    ensures Sorted(Insert(tables, t)) && t.key in Keys(Insert(tables, t))
    ensures forall u :: u in Insert(tables, t) ==> u in tables || u == t
    ensures forall u :: u in tables ==> u in Insert(tables, t)
    decreases |tables|
  {
    if tables != [] && tables[0].key < t.key {
      InsertKeeps(tables[1..], t);
      var rest := Insert(tables[1..], t);
      assert Insert(tables, t) == [tables[0]] + rest;
      forall j | 0 <= j < |rest| ensures tables[0].key < rest[j].key {
        assert rest[j] in tables[1..] || rest[j] == t;
      }
      forall u | u in tables ensures u in Insert(tables, t) {
        if u != tables[0] { assert u in tables[1..]; }
      }
    }
  }

  ghost function Keys(tables: seq<Table>): set<int> {
    set t | t in tables :: t.key
  }

  lemma {:induction false} EraseLeaves(tables: seq<Table>, key: int, u: Table)
    requires Sorted(tables)
    ensures u in Erase(tables, key) <==> u in tables && u.key != key
    decreases |tables|
  {
    if tables != [] {
      EraseLeaves(tables[1..], key, u);
      assert u in tables <==> u == tables[0] || u in tables[1..];
    }
  }

  lemma {:induction false} EraseSorted(tables: seq<Table>, key: int)
    requires Sorted(tables)
    ensures Sorted(Erase(tables, key))
    decreases |tables|
  {
    if tables != [] && tables[0].key != key {
      EraseSorted(tables[1..], key);
      var rest := Erase(tables[1..], key);
      forall j | 0 <= j < |rest| ensures tables[0].key < rest[j].key {
        EraseLeaves(tables[1..], key, rest[j]);
        assert rest[j] in tables[1..];
      }
    }
  }

  lemma EraseKeeps(tables: seq<Table>, key: int)
    requires Sorted(tables)
    ensures Sorted(Erase(tables, key))
    ensures forall u :: u in Erase(tables, key) <==> u in tables && u.key != key
  {
    EraseSorted(tables, key);
    forall u ensures u in Erase(tables, key) <==> u in tables && u.key != key {
      EraseLeaves(tables, key, u);
    }
  }

  lemma LiveIn(tables: seq<Table>, l: Location, a: int)
    ensures Live(tables, l, a) <==>
      exists t :: t in tables && t.key == l.key && IndexOf(t.entries, a) == l.index
  {
  }

  lemma StepConsistent(st: State, c: Call, entries: map<int, seq<int>>)
    requires Consistent(st) && FixedTables(st.tables, entries) && Fixed([c], entries)
    ensures Consistent(Step(st, c)) && FixedTables(Step(st, c).tables, entries)
  {
    assert !c.Find? ==> [c][0].table.key in entries && [c][0].table.entries == entries[[c][0].table.key];
    match c
    case Register(t, supported) => RegisterConsistent(st, t, entries);
    case Unregister(t) => UnregisterConsistent(st, t, entries);
    case Find(a) => SearchFinds(st.tables, a);
  }

  lemma RegisterConsistent(st: State, t: Table, entries: map<int, seq<int>>)
    requires Consistent(st) && FixedTables(st.tables, entries) && t.key in entries && t.entries == entries[t.key]
    ensures Consistent(Step(st, Register(t, true))) && FixedTables(Step(st, Register(t, true)).tables, entries)
  {
    var tables := Insert(st.tables, t);
    InsertKeeps(st.tables, t);
    forall a | a in st.cache ensures Live(tables, st.cache[a], a) {
      LiveIn(st.tables, st.cache[a], a);
      LiveIn(tables, st.cache[a], a);
    }
    assert forall i :: 0 <= i < |tables| ==> tables[i] in st.tables || tables[i] == t;
  }

  lemma UnregisterConsistent(st: State, t: Table, entries: map<int, seq<int>>)
    requires Consistent(st) && FixedTables(st.tables, entries) && t.key in entries && t.entries == entries[t.key]
    ensures Consistent(Step(st, Unregister(t))) && FixedTables(Step(st, Unregister(t)).tables, entries)
  {
    var st' := Step(st, Unregister(t));
    EraseKeeps(st.tables, t.key);
    forall a | a in st'.cache ensures Live(st'.tables, st'.cache[a], a) {
      assert a in st.cache && st'.cache[a] == st.cache[a];
      LiveIn(st.tables, st.cache[a], a);
      LiveIn(st'.tables, st.cache[a], a);
    }
    assert forall i :: 0 <= i < |st'.tables| ==> st'.tables[i] in st.tables;
  }

  // In every run each cached address refers to a registered table whose entry at the
  // cached index has that address.
  lemma {:induction false} RunConsistent(cs: seq<Call>, entries: map<int, seq<int>>)
    requires Fixed(cs, entries)
    ensures Consistent(Run(State([], map[]), cs)) && FixedTables(Run(State([], map[]), cs).tables, entries)
    decreases |cs|
  {
    if cs != [] {
      var k := |cs| - 1;
      RunConsistent(cs[..k], entries);
      StepConsistent(Run(State([], map[]), cs[..k]), cs[k], entries);
    }
  }

  // The search ends in the table with the smallest key among those with the address.
  lemma {:induction false} SearchFirst(tables: seq<Table>, a: int)
    requires Sorted(tables)
    ensures var l := Search(tables, a);
      if l.None? then forall t :: t in tables ==> a !in t.entries
      else (exists t :: t in tables && t.key == l.value.key && IndexOf(t.entries, a) == l.value.index)
           && forall t :: t in tables && a in t.entries ==> l.value.key <= t.key
    decreases |tables|
  {
    if tables != [] {
      SearchFirst(tables[1..], a);
      assert forall t :: t in tables <==> t == tables[0] || t in tables[1..];
      forall t | t in tables[1..] ensures tables[0].key < t.key {
        var i :| 0 <= i < |tables[1..]| && tables[1..][i] == t;
        assert tables[i + 1] == t;
      }
    }
  }

  lemma OneKey(tables: seq<Table>, t: Table, u: Table)
    requires Sorted(tables) && t in tables && u in tables && t.key == u.key
    ensures t == u
  {
    var i :| 0 <= i < |tables| && tables[i] == t;
    var j :| 0 <= j < |tables| && tables[j] == u;
  }

  // The cache gives what a search of all tables would exactly if no library with a smaller
  // key than the cached one has the address as well.
  lemma CacheAgreesIff(st: State, a: int)
    requires Consistent(st)
    ensures Found(st, a) == Search(st.tables, a) <==>
            (a in st.cache ==> forall t :: t in st.tables && a in t.entries ==> st.cache[a].key <= t.key)
  {
    if a in st.cache {
      var l := st.cache[a];
      LiveIn(st.tables, l, a);
      var t :| t in st.tables && t.key == l.key && IndexOf(t.entries, a) == l.index;
      SearchFirst(st.tables, a);
      var m := Search(st.tables, a).value;
      var u :| u in st.tables && u.key == m.key && IndexOf(u.entries, a) == m.index;
      if m.key == l.key {
        OneKey(st.tables, t, u);
      }
    }
  }

  // In particular it does with distinct addresses.
  lemma CacheAgrees(st: State, a: int)
    requires Consistent(st) && Distinct(st.tables)
    ensures Found(st, a) == Search(st.tables, a)
  {
    if a in st.cache {
      var i :| 0 <= i < |st.tables| && st.tables[i].key == st.cache[a].key
            && IndexOf(st.tables[i].entries, a) == st.cache[a].index;
      forall t | t in st.tables && a in t.entries ensures st.cache[a].key <= t.key {
        var j :| 0 <= j < |st.tables| && st.tables[j] == t;
        var q :| 0 <= q < |t.entries| && t.entries[q] == a;
        assert st.tables[i].entries[st.cache[a].index] == st.tables[j].entries[q];
      }
    }
    CacheAgreesIff(st, a);
  }

  // An address is found exactly if a registered library has it, cached or not.
  lemma FoundIffRegistered(st: State, a: int)
    requires Consistent(st)
    ensures Found(st, a).Some? <==> exists i :: 0 <= i < |st.tables| && a in st.tables[i].entries
  {
    SearchFinds(st.tables, a);
    if a in st.cache {
      LiveIn(st.tables, st.cache[a], a);
    }
  }

  // No cached location outlives its library.
  lemma NothingOutlives(st: State, t: Table, entries: map<int, seq<int>>)
    requires Consistent(st) && FixedTables(st.tables, entries) && Fixed([Unregister(t)], entries)
    ensures forall a :: a in Step(st, Unregister(t)).cache ==> Step(st, Unregister(t)).cache[a].key != t.key
  {
    assert [Unregister(t)][0] == Unregister(t);
    var st' := Step(st, Unregister(t));
    StepConsistent(st, Unregister(t), entries);
    EraseKeeps(st.tables, t.key);
    forall a | a in st'.cache ensures st'.cache[a].key != t.key {
      LiveIn(st'.tables, st'.cache[a], a);
    }
  }

  // With two libraries that share an address the cache and the search can differ.
  lemma SharedAddress()
    ensures var st := Run(State([], map[]), [Register(Table(5, [7]), true), Find(7), Register(Table(3, [7]), true)]);
      Found(st, 7) == Some(Location(5, 0)) && Search(st.tables, 7) == Some(Location(3, 0))
  {
    var c1, c2, c3 := Register(Table(5, [7]), true), Find(7), Register(Table(3, [7]), true);
    var s0 := State([], map[]);
    var s1 := State([Table(5, [7])], map[]);
    var s2 := State([Table(5, [7])], map[7 := Location(5, 0)]);
    assert [c1, c2, c3][..2] == [c1, c2] && [c1, c2][..1] == [c1] && [c1][..0] == [];
    assert Run(s0, []) == s0;
    assert Run(s0, [c1]) == s1;
    assert Search(s1.tables, 7) == Some(Location(5, 0));
    assert Run(s0, [c1, c2]) == s2;
    assert Run(s0, [c1, c2, c3]) == Step(s2, c3);
    assert Insert(s2.tables, Table(3, [7])) == [Table(3, [7])] + s2.tables;
  }

  // ------------------------------------------------------------ what the calls say

  // Some plugin accepted the library when it was registered, and it was not unregistered
  // since.
  ghost predicate Loaded(cs: seq<Call>, t: Table) {
    exists i :: 0 <= i < |cs| && cs[i] == Register(t, true) && NotDropped(cs, i, t.key)
  }

  ghost predicate NotDropped(cs: seq<Call>, i: nat, key: int) {
    forall j :: i < j < |cs| && cs[j].Unregister? ==> cs[j].table.key != key
  }

  lemma LoadedNext(cs: seq<Call>, c: Call, t: Table)
    ensures Loaded(cs + [c], t) <==>
            c == Register(t, true) || (Loaded(cs, t) && !(c.Unregister? && c.table.key == t.key))
  {
    var n, all := |cs|, cs + [c];
    assert all[n] == c && NotDropped(all, n, t.key);
    assert forall i :: 0 <= i < n ==> all[i] == cs[i];
    forall i | 0 <= i < n
      ensures NotDropped(all, i, t.key) <==> NotDropped(cs, i, t.key) && !(c.Unregister? && c.table.key == t.key)
    {
    }
    if Loaded(cs, t) && !(c.Unregister? && c.table.key == t.key) {
      var i :| 0 <= i < n && cs[i] == Register(t, true) && NotDropped(cs, i, t.key);
      assert all[i] == Register(t, true) && NotDropped(all, i, t.key);
    }
  }

  lemma InsertAdds(tables: seq<Table>, t: Table, u: Table, entries: map<int, seq<int>>)
    requires Sorted(tables) && FixedTables(tables, entries) && t.key in entries && t.entries == entries[t.key]
    ensures u in Insert(tables, t) <==> u in tables || u == t
  {
    InsertKeeps(tables, t);
    var v :| v in Insert(tables, t) && v.key == t.key;
    assert v == t;
  }

  // After any run the registered tables are those of the loaded libraries.
  lemma {:induction false} RegisteredIff(cs: seq<Call>, entries: map<int, seq<int>>, t: Table)
    requires Fixed(cs, entries)
    ensures t in Run(State([], map[]), cs).tables <==> Loaded(cs, t)
    decreases |cs|
  {
    if cs != [] {
      var k := |cs| - 1;
      var st, c := Run(State([], map[]), cs[..k]), cs[k];
      RegisteredIff(cs[..k], entries, t);
      RunConsistent(cs[..k], entries);
      assert cs[..k] + [c] == cs;
      LoadedNext(cs[..k], c, t);
      match c
      case Register(u, supported) => if supported { InsertAdds(st.tables, u, t, entries); }
      case Unregister(u) => EraseKeeps(st.tables, u.key);
      case Find(a) =>
    }
  }

  // So the lookup of an address, through the cache or not, finds it exactly if a loaded
  // library has it, and what it finds is the address's first place in such a library.
  lemma FoundIffLoaded(cs: seq<Call>, entries: map<int, seq<int>>, a: int)
    requires Fixed(cs, entries)
    ensures var l := Found(Run(State([], map[]), cs), a);
            if l.None? then forall t :: Loaded(cs, t) ==> a !in t.entries
            else exists t :: Loaded(cs, t) && t.key == l.value.key && IndexOf(t.entries, a) == l.value.index
  {
    var st := Run(State([], map[]), cs);
    RunConsistent(cs, entries);
    forall t ensures t in st.tables <==> Loaded(cs, t) {
      RegisteredIff(cs, entries, t);
    }
    hide Loaded, Run;
    SearchFinds(st.tables, a);
    var l := Found(st, a);
    if l.Some? {
      LiveIn(st.tables, l.value, a);
      var t :| t in st.tables && t.key == l.value.key && IndexOf(t.entries, a) == l.value.index;
      assert Loaded(cs, t);
    }
  }

  // The address was looked up and found, and no library that has it unregistered since.
  ghost predicate Remembered(cs: seq<Call>, a: int) {
    exists i :: 0 <= i < |cs| && cs[i] == Find(a) && Found(Run(State([], map[]), cs[..i]), a).Some? && NotErased(cs, i, a)
  }

  ghost predicate NotErased(cs: seq<Call>, i: nat, a: int) {
    forall j :: i < j < |cs| && cs[j].Unregister? ==> a !in cs[j].table.entries
  }

  lemma RememberedNext(cs: seq<Call>, c: Call, a: int)
    ensures Remembered(cs + [c], a) <==>
            (c == Find(a) && Found(Run(State([], map[]), cs), a).Some?) ||
            (Remembered(cs, a) && !(c.Unregister? && a in c.table.entries))
  {
    hide Run, Found;
    var n, all := |cs|, cs + [c];
    assert all[n] == c && all[..n] == cs && NotErased(all, n, a);
    assert forall i :: 0 <= i < n ==> all[i] == cs[i] && all[..i] == cs[..i];
    forall i | 0 <= i < n
      ensures NotErased(all, i, a) <==> NotErased(cs, i, a) && !(c.Unregister? && a in c.table.entries)
    {
    }
    if Remembered(cs, a) && !(c.Unregister? && a in c.table.entries) {
      var i :| 0 <= i < n && cs[i] == Find(a) && Found(Run(State([], map[]), cs[..i]), a).Some? && NotErased(cs, i, a);
      assert all[i] == Find(a) && NotErased(all, i, a);
    }
  }

  // What the cache holds after any run.
  lemma {:induction false} CachedIff(cs: seq<Call>, a: int)
    ensures a in Run(State([], map[]), cs).cache <==> Remembered(cs, a)
    decreases |cs|
  {
    if cs != [] {
      var k := |cs| - 1;
      CachedIff(cs[..k], a);
      assert cs[..k] + [cs[k]] == cs;
      RememberedNext(cs[..k], cs[k], a);
      hide Remembered, Insert, Erase, Search;
    }
  }

  // ------------------------------------------------------------ the runtime's state

  lemma InsertNext(tables: seq<Table>, t: Table, i: nat)
    requires i < |tables| && tables[i].key < t.key
    ensures tables[..i] + Insert(tables[i..], t) == tables[..i + 1] + Insert(tables[i + 1..], t)
  {
    InsertUnfold(tables[i..], t);
    hide Insert;
    assert tables[i..][1..] == tables[i + 1..];
    MoveOne(tables, Insert(tables[i + 1..], t), i);
  }

  lemma InsertUnfold(tables: seq<Table>, t: Table)
    requires tables != [] && tables[0].key < t.key
    ensures Insert(tables, t) == [tables[0]] + Insert(tables[1..], t)
  {
  }

  lemma MoveOne(tables: seq<Table>, rest: seq<Table>, i: nat)
    requires i < |tables|
    ensures tables[..i] + ([tables[i]] + rest) == tables[..i + 1] + rest
  {
  }

  lemma InsertHere(tables: seq<Table>, t: Table, i: nat)
    requires i <= |tables| && (i < |tables| ==> tables[i].key >= t.key)
    requires Insert(tables, t) == tables[..i] + Insert(tables[i..], t)
    ensures Insert(tables, t)
         == if i == |tables| || tables[i].key != t.key then tables[..i] + [t] + tables[i..] else tables
  {
    InsertEnd(tables[i..], t);
    hide Insert;
    assert tables[..i] + tables[i..] == tables;
    assert tables[..i] + ([t] + tables[i..]) == tables[..i] + [t] + tables[i..];
  }

  lemma InsertEnd(tables: seq<Table>, t: Table)
    requires tables == [] || tables[0].key >= t.key
    ensures Insert(tables, t) == if tables == [] || tables[0].key != t.key then [t] + tables else tables
  {
  }

  lemma EraseNext(tables: seq<Table>, key: int, i: nat)
    requires i < |tables| && tables[i].key != key
    ensures tables[..i] + Erase(tables[i..], key) == tables[..i + 1] + Erase(tables[i + 1..], key)
  {
    assert tables[i..][0] == tables[i] && tables[i..][1..] == tables[i + 1..];
  }

  lemma EraseHere(tables: seq<Table>, key: int, i: nat)
    requires i <= |tables| && (i < |tables| ==> tables[i].key == key)
    requires Erase(tables, key) == tables[..i] + Erase(tables[i..], key)
    ensures Erase(tables, key) == if i < |tables| then tables[..i] + tables[i + 1..] else tables
  {
    assert i < |tables| ==> tables[i..][0] == tables[i] && tables[i..][1..] == tables[i + 1..];
  }

  class Registry {
    var tables: seq<Table>
    var cache: map<int, Location>

    ghost function Current(): State
      reads this
    {
      State(tables, cache)
    }

    method RegisterLib(t: Table, supported: bool)
      modifies this
      ensures Current() == Step(old(Current()), Register(t, supported))
    {
      if supported {
        var i := 0;
        while i < |tables| && tables[i].key < t.key
          invariant 0 <= i <= |tables| && tables == old(tables) && cache == old(cache)
          invariant Insert(tables, t) == tables[..i] + Insert(tables[i..], t)
        {
          InsertNext(tables, t, i);
          i := i + 1;
        }
        InsertHere(tables, t, i);
        if i == |tables| || tables[i].key != t.key {
          tables := tables[..i] + [t] + tables[i..];
        }
      }
    }

    method UnregisterLib(t: Table)
      modifies this
      ensures Current() == Step(old(Current()), Unregister(t))
    {
      DropCached(t.entries);
      var i := 0;
      while i < |tables| && tables[i].key != t.key
        invariant 0 <= i <= |tables| && tables == old(tables) && cache == Without(old(cache), t.entries)
        invariant Erase(tables, t.key) == tables[..i] + Erase(tables[i..], t.key)
      {
        EraseNext(tables, t.key, i);
        i := i + 1;
      }
      EraseHere(tables, t.key, i);
      if i < |tables| {
        tables := tables[..i] + tables[i + 1..];
      }
    }

    method DropCached(entries: seq<int>)
      modifies this`cache
      ensures cache == Without(old(cache), entries)
    {
      var k := 0;
      while k < |entries|
        invariant 0 <= k <= |entries|
        invariant cache == Without(old(cache), entries[..k])
      {
        cache := cache - {entries[k]};
        assert entries[..k + 1] == entries[..k] + [entries[k]];
        k := k + 1;
      }
      assert entries[..k] == entries;
    }

    method FindEntry(a: int) returns (l: Option<Location>)
      modifies this`cache
      ensures l == Found(old(Current()), a)
      ensures Current() == Step(old(Current()), Find(a))
    {
      if a in cache {
        l := Some(cache[a]);
        assert cache[a := cache[a]] == cache;
      } else {
        l := None;
        var i := 0;
        while l.None? && i < |tables|
          invariant 0 <= i <= |tables|
          invariant Search(tables, a) == if l.Some? then l else Search(tables[i..], a)
        {
          assert tables[i..][0] == tables[i] && tables[i..][1..] == tables[i + 1..];
          var cur := 0;
          while cur < |tables[i].entries| && tables[i].entries[cur] != a
            invariant 0 <= cur <= |tables[i].entries|
            invariant forall k :: 0 <= k < cur ==> tables[i].entries[k] != a
          {
            cur := cur + 1;
          }
          if cur < |tables[i].entries| {
            l := Some(Location(tables[i].key, cur));
          }
          i := i + 1;
        }
        if l.Some? {
          cache := cache[a := l.value];
        }
      }
    }
  }
}
