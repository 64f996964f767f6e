/** Matching of host with target variables: the table iterator, the order of names, and
    the merge that fills the association table with exactly the pairs of entries that
    have one name. */
module EntryMatching {
  import opened Memory
  import opened CStrings
  import opened VarTable
  import opened PointerIndex
  import opened Wrappers

  // ------------------------------------------------------------ the iterator

  class Iterator {
    const tables: seq<seq<Slot>>
    var node: nat
    var entry: nat

    ghost predicate Valid()
      reads this
    {
      node <= |tables| && (node < |tables| ==> entry < |tables[node]| && tables[node][entry].Slot?)
    }

    predicate AtEnd()
      reads this
    {
      node >= |tables|
    }

    // The entries the iterator has passed.
    ghost function Passed(): seq<Entry>
      requires Valid()
      reads this
    {
      if node == |tables| then Entries(tables) else Progress(tables, node, entry)
    }

    constructor (tables: seq<seq<Slot>>)
      ensures Valid() && this.tables == tables && Passed() == []
    {
      this.tables, node, entry := tables, 0, 0;
      new;
      assert tables[..0] == [];
      NewNode();
    }

    // Moves to the first named entry of this or a later table.
    method NewNode()
      requires node <= |tables|
      modifies this
      ensures Valid() && Passed() == Entries(tables[..old(node)])
    {
      hide Progress, Entries, Named;
      while node < |tables|
        invariant old(node) <= node <= |tables|
        invariant Entries(tables[..node]) == Entries(tables[..old(node)])
      {
        entry := 0;
        ProgressStart(tables, node);
        SkipHoles();
        if entry < |tables[node]| {
          return;
        }
        ProgressDone(tables, node);
        node := node + 1;
      }
      assert tables[..|tables|] == tables;
    }

    method SkipHoles()
      requires node < |tables| && entry <= |tables[node]|
      modifies this`entry
      ensures entry <= |tables[node]| && (entry < |tables[node]| ==> tables[node][entry].Slot?)
      ensures Progress(tables, node, entry) == Progress(tables, node, old(entry))
    {
      while entry < |tables[node]| && tables[node][entry].Hole?
        invariant entry <= |tables[node]|
        invariant Progress(tables, node, entry) == Progress(tables, node, old(entry))
      {
        ProgressStep(tables, node, entry);
        entry := entry + 1;
      }
    }

    function Get(): Entry
      requires Valid() && !AtEnd()
      reads this
    {
      tables[node][entry].entry
    }

    method Next()
      requires Valid() && !AtEnd()
      modifies this
      ensures Valid() && Passed() == old(Passed()) + [old(Get())]
    {
      hide Progress, Entries;
      ProgressStep(tables, node, entry);
      entry := entry + 1;
      SkipHoles();
      if entry == |tables[node]| {
        ProgressDone(tables, node);
        node := node + 1;
        NewNode();
      }
    }
  }

  // Walking from begin to end enumerates the entries of all tables, in order.
  method CollectHost(tables: seq<seq<Slot>>) returns (es: seq<Entry>)
    ensures es == Entries(tables)
  {
    var it := new Iterator(tables);
    es := [];
    while !it.AtEnd()
      invariant it.Valid() && it.tables == tables && es == it.Passed() && es <= Entries(tables)
      decreases |Entries(tables)| - |es|
    {
      es := es + [it.Get()];
      it.Next();
      PassedPrefix(it);
    }
  }

  lemma PassedPrefix(it: Iterator)
    requires it.Valid()
    ensures it.Passed() <= Entries(it.tables)
  {
    if it.node < |it.tables| {
      Room(it.tables, it.node, it.entry);
    }
  }

  // ------------------------------------------------------------ the order of names

  // As strcmp: negative, zero or positive.
  function Compare(a: Name, b: Name): int {
    if a == [] && b == [] then 0
    else if a == [] then -1
    else if b == [] then 1
    else if a[0] != b[0] then a[0] - b[0]
    else Compare(a[1..], b[1..])
  }

  lemma {:induction false} CompareEqual(a: Name, b: Name)
    ensures Compare(a, b) == 0 <==> a == b
    ensures Compare(a, b) < 0 <==> Compare(b, a) > 0
    decreases |a|
  {
    if a != [] && b != [] && a[0] == b[0] {
      CompareEqual(a[1..], b[1..]);
      assert a == [a[0]] + a[1..] && b == [b[0]] + b[1..];
    }
  }

  lemma {:induction false} CompareTransitive(a: Name, b: Name, c: Name)
    requires Compare(a, b) <= 0 && Compare(b, c) <= 0
    ensures Compare(a, c) <= 0
    ensures Compare(a, b) < 0 || Compare(b, c) < 0 ==> Compare(a, c) < 0
    decreases |a|
  {
    if a != [] && b != [] && c != [] && a[0] == b[0] == c[0] {
      CompareTransitive(a[1..], b[1..], c[1..]);
    }
  }

  // ------------------------------------------------------------ sorting

  ghost predicate Ascending<T>(s: seq<T>, key: T -> Name) {
    forall i, j :: 0 <= i < j < |s| ==> Compare(key(s[i]), key(s[j])) <= 0
  }

  ghost predicate DistinctKeys<T>(s: seq<T>, key: T -> Name) {
    forall i, j :: 0 <= i < j < |s| ==> key(s[i]) != key(s[j])
  }

  function InsertSorted<T>(s: seq<T>, x: T, key: T -> Name): seq<T> {
    if s == [] || Compare(key(x), key(s[0])) <= 0 then [x] + s else [s[0]] + InsertSorted(s[1..], x, key)
  }

  // The library sort, as insertion sort.
  function Sort<T>(s: seq<T>, key: T -> Name): seq<T> {
    if s == [] then [] else InsertSorted(Sort(s[1..], key), s[0], key)
  }

  lemma {:induction false} InsertSortedKeeps<T>(s: seq<T>, x: T, key: T -> Name)
    requires Ascending(s, key)
    ensures multiset(InsertSorted(s, x, key)) == multiset(s) + multiset{x}
    ensures Ascending(InsertSorted(s, x, key), key)
    decreases |s|
  {
    if s == [] {
    } else if Compare(key(x), key(s[0])) <= 0 {
      forall j | 0 <= j < |s| ensures Compare(key(x), key(s[j])) <= 0 {
        if j > 0 { CompareTransitive(key(x), key(s[0]), key(s[j])); }
      }
    } else {
      InsertSortedKeeps(s[1..], x, key);
      CompareEqual(key(x), key(s[0]));
      ConsAscending(s, InsertSorted(s[1..], x, key), x, key);
    }
  }

  lemma ConsAscending<T>(s: seq<T>, rest: seq<T>, x: T, key: T -> Name)
    requires s != [] && Ascending(s, key) && Ascending(rest, key) && multiset(rest) == multiset(s[1..]) + multiset{x}
    requires Compare(key(s[0]), key(x)) <= 0
    ensures Ascending([s[0]] + rest, key) && multiset([s[0]] + rest) == multiset(s) + multiset{x}
  {
    hide Compare;
    assert s == [s[0]] + s[1..];
    forall j | 0 <= j < |rest| ensures Compare(key(s[0]), key(rest[j])) <= 0 {
      assert rest[j] in multiset(rest);
      if rest[j] != x {
        assert rest[j] in s[1..];
        var i :| 0 <= i < |s[1..]| && s[1..][i] == rest[j];
        assert s[i + 1] == rest[j];
      }
    }
  }

  lemma {:induction false} SortIsSorted<T>(s: seq<T>, key: T -> Name)
    ensures multiset(Sort(s, key)) == multiset(s) && Ascending(Sort(s, key), key)
    decreases |s|
  {
    hide Compare, InsertSorted;
    if s != [] {
      SortIsSorted(s[1..], key);
      InsertSortedKeeps(Sort(s[1..], key), s[0], key);
      assert s == [s[0]] + s[1..];
    }
  }

  // ------------------------------------------------------------ the merge

  // A target entry as read from the buffer.
  datatype Target = Target(name: Name, addr: nat)

  function HostKey(e: Entry): Name { e.name }

  function TargetKey(t: Target): Name { t.name }

  datatype Match = Match(host: Entry, target: Target)

  // The association table and the device addresses stored with its new entries.
  datatype Index = Index(ranges: Tree, addresses: map<MemRange, nat>)

  function RangeOf(e: Entry): MemRange {
    MemRange(e.addr, e.size)
  }

  function Enter(ix: Index, m: Match): Index {
    var (t, r, isNew) := Insert(ix.ranges, RangeOf(m.host));
    Index(t, if isNew then ix.addresses[r := m.target.addr] else ix.addresses)
  }

  function EnterAll(ix: Index, ms: seq<Match>): Index {
    if ms == [] then ix else Enter(EnterAll(ix, ms[..|ms| - 1]), ms[|ms| - 1])
  }

  ghost predicate Before<T>(s: seq<T>, key: T -> Name) {
    forall i, j :: 0 <= i < j < |s| ==> Compare(key(s[i]), key(s[j])) < 0
  }

  // The matches found when the first i host and the first j target entries are passed.
  ghost predicate Joined(hs: seq<Entry>, ts: seq<Target>, i: nat, j: nat, ms: seq<Match>) {
    && i <= |hs| && j <= |ts|
    && (forall k, l :: 0 <= k < |hs| && 0 <= l < |ts| && hs[k].name == ts[l].name ==> (k < i <==> l < j))
    && (forall k, l :: 0 <= k < i && 0 <= l < j && hs[k].name == ts[l].name ==> Match(hs[k], ts[l]) in ms)
    && (forall m :: m in ms ==> m.host in hs[..i] && m.target in ts[..j] && m.host.name == m.target.name)
    && Before(ms, MatchKey)
  }

  function MatchKey(m: Match): Name { m.host.name }

  // The inner join: each pair of entries with one name, once, in the order of names.
  ghost predicate Joins(hs: seq<Entry>, ts: seq<Target>, ms: seq<Match>) {
    && Before(ms, MatchKey)
    && forall m :: m in ms <==> m.host in hs && m.target in ts && m.host.name == m.target.name
  }

  // Enters each pair of entries with one name, and no other.
  method Merge(hs: seq<Entry>, ts: seq<Target>, start: Index) returns (ix: Index)
    requires Before(hs, HostKey) && Before(ts, TargetKey)
    ensures exists ms :: Joins(hs, ts, ms) && ix == EnterAll(start, ms)
  {
    hide Compare, Enter, Before;
    NoneBefore<Match>(MatchKey);
    var hi, ti := 0, 0;
    ix := start;
    ghost var ms: seq<Match> := [];
    while hi < |hs| && ti < |ts|
      invariant Joined(hs, ts, hi, ti, ms) && ix == EnterAll(start, ms)
      decreases |hs| - hi + |ts| - ti
    {
      var res := Compare(hs[hi].name, ts[ti].name);
      CompareEqual(hs[hi].name, ts[ti].name);
      if res == 0 {
        TakeBoth(hs, ts, hi, ti, ms);
        ms := ms + [Match(hs[hi], ts[ti])];
        assert ms[..|ms| - 1] + [ms[|ms| - 1]] == ms;
        ix := Enter(ix, Match(hs[hi], ts[ti]));
        hi, ti := hi + 1, ti + 1;
      } else if res < 0 {
        PassHost(hs, ts, hi, ti, ms);
        hi := hi + 1;
      } else {
        PassTarget(hs, ts, hi, ti, ms);
        ti := ti + 1;
      }
    }
    AllJoined(hs, ts, hi, ti, ms);
  }

  lemma TakeBoth(hs: seq<Entry>, ts: seq<Target>, i: nat, j: nat, ms: seq<Match>)
    requires Before(hs, HostKey) && Before(ts, TargetKey) && Joined(hs, ts, i, j, ms)
    requires i < |hs| && j < |ts| && hs[i].name == ts[j].name
    ensures Joined(hs, ts, i + 1, j + 1, ms + [Match(hs[i], ts[j])])
  {
    var ms' := ms + [Match(hs[i], ts[j])];
    forall k, l | 0 <= k < |hs| && 0 <= l < |ts| && hs[k].name == ts[l].name
      ensures k < i + 1 <==> l < j + 1
      ensures k < i + 1 && l < j + 1 ==> Match(hs[k], ts[l]) in ms' {
      OneName(hs, HostKey, i, k);
      OneName(ts, TargetKey, j, l);
    }
    assert hs[..i + 1] == hs[..i] + [hs[i]] && ts[..j + 1] == ts[..j] + [ts[j]];
    forall a | 0 <= a < |ms| ensures Compare(ms[a].host.name, hs[i].name) < 0 {
      assert ms[a] in ms;
      assert ms[a].host in hs[..i];
      var k :| 0 <= k < i && hs[k] == ms[a].host;
      assert Compare(HostKey(hs[k]), HostKey(hs[i])) < 0;
    }
    hide Compare;
  }

  lemma NoneBefore<T>(key: T -> Name)
    ensures Before([], key)
  {
  }

  // In a strictly ascending table a name occurs once.
  lemma OneName<T>(s: seq<T>, key: T -> Name, i: nat, k: nat)
    requires Before(s, key) && i < |s| && k < |s|
    ensures key(s[i]) == key(s[k]) <==> i == k
  {
    CompareEqual(key(s[i]), key(s[k]));
    CompareEqual(key(s[k]), key(s[i]));
  }

  lemma Ahead<T>(s: seq<T>, key: T -> Name, i: nat, k: nat)
    requires Before(s, key) && i <= k < |s|
    ensures Compare(key(s[i]), key(s[k])) <= 0
  {
    CompareEqual(key(s[i]), key(s[k]));
  }

  lemma PassHost(hs: seq<Entry>, ts: seq<Target>, i: nat, j: nat, ms: seq<Match>)
    requires Before(hs, HostKey) && Before(ts, TargetKey) && Joined(hs, ts, i, j, ms)
    requires i < |hs| && j < |ts| && Compare(hs[i].name, ts[j].name) < 0
    ensures Joined(hs, ts, i + 1, j, ms)
  {
    CompareEqual(hs[i].name, ts[j].name);
    forall l | 0 <= l < |ts| ensures hs[i].name != ts[l].name {
      if hs[i].name == ts[l].name && l >= j {
        Ahead(ts, TargetKey, j, l);
      }
    }
    assert hs[..i + 1] == hs[..i] + [hs[i]];
  }

  lemma PassTarget(hs: seq<Entry>, ts: seq<Target>, i: nat, j: nat, ms: seq<Match>)
    requires Before(hs, HostKey) && Before(ts, TargetKey) && Joined(hs, ts, i, j, ms)
    requires i < |hs| && j < |ts| && Compare(hs[i].name, ts[j].name) > 0
    ensures Joined(hs, ts, i, j + 1, ms)
  {
    CompareEqual(ts[j].name, hs[i].name);
    forall k | 0 <= k < |hs| ensures hs[k].name != ts[j].name {
      if hs[k].name == ts[j].name && k >= i {
        Ahead(hs, HostKey, i, k);
      }
    }
    assert ts[..j + 1] == ts[..j] + [ts[j]];
  }

  lemma AllJoined(hs: seq<Entry>, ts: seq<Target>, i: nat, j: nat, ms: seq<Match>)
    requires Joined(hs, ts, i, j, ms) && (i == |hs| || j == |ts|)
    ensures Joins(hs, ts, ms)
  {
    forall m: Match | m.host in hs && m.target in ts && m.host.name == m.target.name ensures m in ms {
      var k :| 0 <= k < |hs| && hs[k] == m.host;
      var l :| 0 <= l < |ts| && ts[l] == m.target;
      assert Match(hs[k], ts[l]) in ms;
    }
  }

  lemma DistinctIsBefore<T>(s: seq<T>, key: T -> Name)
    requires Ascending(s, key) && DistinctKeys(s, key)
    ensures Before(s, key)
  {
    forall i, j | 0 <= i < j < |s| ensures Compare(key(s[i]), key(s[j])) < 0 {
      CompareEqual(key(s[i]), key(s[j]));
    }
  }

  lemma {:induction false} OccursOnce<T>(s: seq<T>, key: T -> Name, x: T)
    requires DistinctKeys(s, key)
    ensures multiset(s)[x] <= 1
    decreases |s|
  {
    if s != [] {
      OccursOnce(s[1..], key, x);
      assert s == [s[0]] + s[1..];
      assert s[0] !in s[1..];
    }
  }

  lemma OccursTwice<T>(s: seq<T>, i: nat, j: nat)
    requires i < j < |s| && s[i] == s[j]
    ensures multiset(s)[s[i]] >= 2
  {
    assert s == s[..j] + s[j..];
    assert s[i] in s[..j] && s[j..][0] == s[i];
  }

  // Sorting keeps the elements and so the distinctness of their names.
  lemma DistinctSorted<T>(s: seq<T>, r: seq<T>, key: T -> Name)
    requires DistinctKeys(s, key) && multiset(r) == multiset(s)
    ensures DistinctKeys(r, key) && forall x :: x in r <==> x in s
  {
    assert forall x :: x in r <==> x in multiset(r);
    assert forall x :: x in s <==> x in multiset(s);
    forall i, j | 0 <= i < j < |r| ensures key(r[i]) != key(r[j]) {
      if r[i] == r[j] {
        OccursOnce(s, key, r[i]);
        OccursTwice(r, i, j);
      } else {
        assert r[i] in r && r[j] in r;
        assert r[i] in s && r[j] in s;
        var k :| 0 <= k < |s| && s[k] == r[i];
        var l :| 0 <= l < |s| && s[l] == r[j];
        assert key(s[k]) != key(s[l]) by {
          if l < k {
            assert key(s[l]) != key(s[k]);
          }
        }
      }
    }
  }

  // ------------------------------------------------------- the tables of both sides

  // What the target's entries are in the buffer that comes back from it.
  function Targets(es: seq<Entry>): (ts: seq<Target>)
    ensures |ts| == |es|
  {
    seq(|es|, i requires 0 <= i < |es| => Target(es[i].name, es[i].addr))
  }

  // Sort and merge: with distinct names on each side the result is the inner join.
  method SortAndMerge(host: seq<Entry>, target: seq<Target>, start: Index) returns (ix: Index)
    requires DistinctKeys(host, HostKey) && DistinctKeys(target, TargetKey)
    ensures exists ms :: Joins(host, target, ms) && ix == EnterAll(start, ms)
  {
    var hs, ts := Sort(host, HostKey), Sort(target, TargetKey);
    SortIsSorted(host, HostKey);
    SortIsSorted(target, TargetKey);
    DistinctSorted(host, hs, HostKey);
    DistinctSorted(target, ts, TargetKey);
    DistinctIsBefore(hs, HostKey);
    DistinctIsBefore(ts, TargetKey);
    ix := Merge(hs, ts, start);
    ghost var ms :| Joins(hs, ts, ms) && ix == EnterAll(start, ms);
    assert Joins(host, target, ms);
  }

  // The buffer the target fills and the host patches: it reads back as the target's entries.
  method FetchTargets(tables: seq<seq<Slot>>, size: nat, nelems: nat, base: nat) returns (ts: seq<Target>)
    requires nelems == |Entries(tables)| && size == |Image(Entries(tables), 0)|
    requires base + size < WORD && forall e :: e in Entries(tables) ==> e.addr < WORD
    ensures ts == Targets(Entries(tables))
  {
    hide Entries, Image, StringAt, WordAt;
    ghost var es := Entries(tables);
    var buf := new Byte[size];
    TableCopy(tables, buf, nelems);
    assert buf[..size] == Image(es, 0);
    TablePatchNames(buf, base, nelems, es);
    var image := buf[..];
    ts := [];
    for i := 0 to nelems
      invariant |ts| == i && forall j :: 0 <= j < i ==> ts[j] == Target(es[j].name, es[j].addr)
    {
      ReadBack(es, base, image, i);
      var name := StringAt(image, WordAt(image, ENTRY_SIZE * i) - base);
      ts := ts + [Target(name, WordAt(image, ENTRY_SIZE * i + WORD_SIZE))];
    }
  }

  // From the registered tables of both sides to the association table: exactly the pairs
  // of a host and a target entry with one name are entered.
  method InitPtrData(tables: seq<seq<Slot>>, targetTables: seq<seq<Slot>>, base: nat, start: Index)
    returns (ix: Index)
    requires DistinctKeys(Entries(tables), HostKey) && DistinctKeys(Entries(targetTables), HostKey)
    requires base + |Image(Entries(targetTables), 0)| < WORD
    requires forall e :: e in Entries(targetTables) ==> e.addr < WORD
    ensures exists ms :: Joins(Entries(tables), Targets(Entries(targetTables)), ms) && ix == EnterAll(start, ms)
  {
    hide Enter, Entries, Image, Sort, Before;
    NoneBefore<Match>(MatchKey);
    var host := CollectHost(tables);
    if host == [] {
      NothingJoins(host, Targets(Entries(targetTables)), start);
      return start;
    }
    var size, nelems := TableSize(targetTables);
    assert size == |Image(Entries(targetTables), 0)|;
    if size == 0 {
      assert Entries(targetTables) == [] by { EmptyImage(Entries(targetTables)); }
      NothingJoins(host, Targets(Entries(targetTables)), start);
      return start;
    }
    var target := FetchTargets(targetTables, size, nelems, base);
    TargetsDistinct(Entries(targetTables));
    ix := SortAndMerge(host, target, start);
  }

  lemma NothingJoins(hs: seq<Entry>, ts: seq<Target>, start: Index)
    requires hs == [] || ts == []
    ensures Joins(hs, ts, []) && EnterAll(start, []) == start
  {
  }

  lemma EmptyImage(es: seq<Entry>)
    requires |Image(es, 0)| == 0
    ensures es == []
  {
    hide Heads, Strings;
    ImageLength(es, 0);
  }

  lemma TargetsDistinct(es: seq<Entry>)
    requires DistinctKeys(es, HostKey)
    ensures DistinctKeys(Targets(es), TargetKey)
  {
    var ts := Targets(es);
    forall i, j | 0 <= i < j < |ts| ensures TargetKey(ts[i]) != TargetKey(ts[j]) {
      assert HostKey(es[i]) != HostKey(es[j]);
    }
  }

  // Ranges that can be entered side by side.
  ghost predicate Unrelated(ix: Index, ms: seq<Match>) {
    && (forall i, j :: 0 <= i < j < |ms| ==> !Same(RangeOf(ms[i].host), RangeOf(ms[j].host)))
    && (forall i, r :: 0 <= i < |ms| && r in InOrder(ix.ranges) ==> !Same(r, RangeOf(ms[i].host)))
  }

  ghost function Ranges(ms: seq<Match>): set<MemRange> {
    set m | m in ms :: RangeOf(m.host)
  }

  // From ix to ix' the ranges of the matches were added, each with its partner's address.
  ghost predicate Entered(ix: Index, ix': Index, ms: seq<Match>) {
    && Ordered(InOrder(ix'.ranges))
    && (forall r :: r in InOrder(ix'.ranges) <==> r in InOrder(ix.ranges) || r in Ranges(ms))
    && (forall m :: m in ms ==> RangeOf(m.host) in ix'.addresses && ix'.addresses[RangeOf(m.host)] == m.target.addr)
  }

  // If the matched variables do not overlap, each gets its own entry with the address of
  // its partner.
  lemma {:induction false} AllEntered(ix: Index, ms: seq<Match>)
    requires Ordered(InOrder(ix.ranges)) && Unrelated(ix, ms)
    ensures Entered(ix, EnterAll(ix, ms), ms)
    decreases |ms|
  {
    if ms == [] {
      assert Ranges(ms) == {};
    } else {
      hide Enter, Entered, InOrder, Ordered;
      UnrelatedFront(ix, ms);
      AllEntered(ix, ms[..|ms| - 1]);
      EnteredStep(ix, EnterAll(ix, ms[..|ms| - 1]), ms);
    }
  }

  lemma UnrelatedFront(ix: Index, ms: seq<Match>)
    requires Unrelated(ix, ms) && ms != []
    ensures Unrelated(ix, ms[..|ms| - 1])
  {
    hide Same, InOrder;
  }

  lemma EnteredStep(ix: Index, was: Index, ms: seq<Match>)
    requires ms != [] && Unrelated(ix, ms) && Entered(ix, was, ms[..|ms| - 1])
    ensures Entered(ix, Enter(was, ms[|ms| - 1]), ms)
  {
    hide Enter, InOrder, Ordered, Same;
    var k := |ms| - 1;
    var front, r := ms[..k], RangeOf(ms[k].host);
    forall f | f in InOrder(was.ranges) ensures !Same(f, r) {
      if f !in InOrder(ix.ranges) {
        assert f in Ranges(front);
        var i :| 0 <= i < |front| && f == RangeOf(front[i].host);
        assert f == RangeOf(ms[i].host);
      }
    }
    EnterNew(was, ms[k]);
    LastMatch(ms);
    forall m | m in front ensures RangeOf(m.host) != r {
      var i :| 0 <= i < |front| && front[i] == m;
      assert ms[i] == m;
      SelfSame(r);
    }
  }

  lemma LastMatch(ms: seq<Match>)
    requires ms != []
    ensures Ranges(ms) == Ranges(ms[..|ms| - 1]) + {RangeOf(ms[|ms| - 1].host)}
    ensures forall m :: m in ms <==> m in ms[..|ms| - 1] || m == ms[|ms| - 1]
  {
    assert ms == ms[..|ms| - 1] + [ms[|ms| - 1]];
  }

  lemma SelfSame(r: MemRange)
    ensures Same(r, r)
  {
  }

  lemma EnterNew(ix: Index, m: Match)
    requires Ordered(InOrder(ix.ranges)) && forall f :: f in InOrder(ix.ranges) ==> !Same(f, RangeOf(m.host))
    ensures Ordered(InOrder(Enter(ix, m).ranges))
    ensures forall r :: r in InOrder(Enter(ix, m).ranges) <==> r in InOrder(ix.ranges) || r == RangeOf(m.host)
    ensures Enter(ix, m).addresses == ix.addresses[RangeOf(m.host) := m.target.addr]
  {
    var k := RangeOf(m.host);
    InsertIsScan(ix.ranges, k);
    forall f | f in InOrder(ix.ranges) ensures !Overlaps(f, k) && f.start != k.start {
      SameMeaning(f, k);
    }
    var s, t := InOrder(ix.ranges), InOrder(Enter(ix, m).ranges);
    assert multiset(t) == multiset(s) + multiset{k};
    assert forall r :: r in t <==> r in multiset(t);
    assert forall r :: r in s <==> r in multiset(s);
  }

  // A match whose variable overlaps, or begins with, an entry that is there changes nothing.
  lemma EnterOld(ix: Index, m: Match)
    requires Ordered(InOrder(ix.ranges)) && exists f :: f in InOrder(ix.ranges) && Same(f, RangeOf(m.host))
    ensures Enter(ix, m) == ix
  {
    var k := RangeOf(m.host);
    var f :| f in InOrder(ix.ranges) && Same(f, k);
    InsertIsScan(ix.ranges, k);
    SameMeaning(f, k);
  }

  // The entries of ix are there in ix', with their addresses.
  ghost predicate Holding(ix: Index, ix': Index) {
    && Ordered(InOrder(ix'.ranges))
    && forall r :: r in InOrder(ix.ranges) ==>
         r in InOrder(ix'.ranges) && (r in ix'.addresses <==> r in ix.addresses) &&
         (r in ix.addresses ==> ix'.addresses[r] == ix.addresses[r])
  }

  lemma EnterHolds(ix: Index, m: Match)
    requires Ordered(InOrder(ix.ranges))
    ensures Holding(ix, Enter(ix, m))
  {
    hide Enter, InOrder, Ordered, Same;
    if exists f :: f in InOrder(ix.ranges) && Same(f, RangeOf(m.host)) {
      EnterOld(ix, m);
    } else {
      EnterNew(ix, m);
      SelfSame(RangeOf(m.host));
    }
  }

  lemma {:induction false} EnterAllHolds(ix: Index, ms: seq<Match>, j: nat, k: nat)
    requires Ordered(InOrder(ix.ranges)) && j <= k <= |ms|
    ensures Ordered(InOrder(EnterAll(ix, ms[..j]).ranges))
    ensures Holding(EnterAll(ix, ms[..j]), EnterAll(ix, ms[..k]))
    decreases k
  {
    hide Enter, InOrder, Ordered;
    if k > 0 {
      EnterAllHolds(ix, ms, if j < k then j else k - 1, k - 1);
      assert ms[..k][..k - 1] == ms[..k - 1];
      EnterHolds(EnterAll(ix, ms[..k - 1]), ms[k - 1]);
    }
  }

  // Of matches whose variables overlap the first one counts: a match gets its entry, and
  // keeps it, exactly if no entry is in its way when its turn comes; otherwise it changes
  // nothing.
  lemma EntersIff(ix: Index, ms: seq<Match>, i: nat)
    requires Ordered(InOrder(ix.ranges)) && i < |ms|
    ensures var was, r, ix' := EnterAll(ix, ms[..i]), RangeOf(ms[i].host), EnterAll(ix, ms);
      if exists f :: f in InOrder(was.ranges) && Same(f, r) then EnterAll(ix, ms[..i + 1]) == was
      else r in InOrder(ix'.ranges) && r in ix'.addresses && ix'.addresses[r] == ms[i].target.addr
  {
    hide Enter, InOrder, Ordered, Same;
    var was, r := EnterAll(ix, ms[..i]), RangeOf(ms[i].host);
    EnterAllHolds(ix, ms, i, i);
    EnterAllHolds(ix, ms, i + 1, |ms|);
    assert ms[..i + 1][..i] == ms[..i] && ms[..|ms|] == ms;
    if exists f :: f in InOrder(was.ranges) && Same(f, r) {
      EnterOld(was, ms[i]);
    } else {
      EnterNew(was, ms[i]);
    }
  }

  // So if the matched variables do not overlap, looking up any address in one of them gives
  // the address of its partner.
  lemma MatchedFound(ix: Index, ms: seq<Match>, m: Match, a: int)
    requires Ordered(InOrder(ix.ranges)) && Unrelated(ix, ms) && m in ms
    requires a == m.host.addr || m.host.addr <= a < m.host.addr + m.host.size
    ensures var ix' := EnterAll(ix, ms);
      && Find(ix'.ranges, MemRange(a, 0)).Some?
      && Find(ix'.ranges, MemRange(a, 0)).value in ix'.addresses
      && ix'.addresses[Find(ix'.ranges, MemRange(a, 0)).value] == m.target.addr
  {
    AllEntered(ix, ms);
    hide EnterAll, Find, InOrder, Ordered, Unrelated;
    assert RangeOf(m.host) in Ranges(ms);
    AddressFound(EnterAll(ix, ms).ranges, a, RangeOf(m.host));
  }
}
