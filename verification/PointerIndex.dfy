/** The association table of host ranges: a search tree whose order takes overlapping
    ranges for equal, and which finds nevertheless what a scan of all entries would
    find. */
module PointerIndex {
  import opened Wrappers

  datatype MemRange = MemRange(start: int, length: nat)

  function End(r: MemRange): int {
    r.start + r.length
  }

  predicate Overlaps(a: MemRange, b: MemRange) {
    a.start < End(b) && End(a) > b.start
  }

  // The order of the set.
  predicate Less(a: MemRange, b: MemRange) {
    a.start < b.start && !Overlaps(a, b)
  }

  // Neither range is less.
  predicate Same(a: MemRange, b: MemRange) {
    !Less(a, b) && !Less(b, a)
  }

  // Same means overlapping or starting at one address; it is not transitive.
  lemma SameMeaning(a: MemRange, b: MemRange)
    ensures Same(a, b) <==> Overlaps(a, b) || a.start == b.start
    ensures var x, y, z := MemRange(0, 2), MemRange(1, 5), MemRange(4, 3);
      Same(x, y) && Same(y, z) && !Same(x, z)
  {
  }

  // What the set keeps: each entry is less than all later ones.
  ghost predicate Ordered(s: seq<MemRange>) {
    forall i, j :: 0 <= i < j < |s| ==> Less(s[i], s[j])
  }

  // ------------------------------------------------------------ search trees

  datatype Tree = Leaf | Node(left: Tree, entry: MemRange, right: Tree)

  function InOrder(t: Tree): seq<MemRange> {
    match t
    case Leaf => []
    case Node(l, e, r) => InOrder(l) + [e] + InOrder(r)
  }

  // Descent to the first entry that is not less than the probe.
  function LowerBound(t: Tree, p: MemRange, best: Option<MemRange>): Option<MemRange> {
    match t
    case Leaf => best
    case Node(l, e, r) => if Less(e, p) then LowerBound(r, p, best) else LowerBound(l, p, Some(e))
  }

  function Find(t: Tree, p: MemRange): Option<MemRange> {
    var b := LowerBound(t, p, None);
    if b.Some? && !Less(p, b.value) then b else None
  }

  // Descent to the last entry the new one is not less than.
  function Predecessor(t: Tree, k: MemRange, best: Option<MemRange>): Option<MemRange> {
    match t
    case Leaf => best
    case Node(l, e, r) => if Less(k, e) then Predecessor(l, k, best) else Predecessor(r, k, Some(e))
  }

  function Place(t: Tree, k: MemRange): Tree {
    match t
    case Leaf => Node(Leaf, k, Leaf)
    case Node(l, e, r) => if Less(k, e) then Node(Place(l, k), e, r) else Node(l, e, Place(r, k))
  }

  // The set with k, the entry that stands for k, and whether it is new.
  function Insert(t: Tree, k: MemRange): (Tree, MemRange, bool) {
    var j := Predecessor(t, k, None);
    if j.None? || Less(j.value, k) then (Place(t, k), k, true) else (t, j.value, false)
  }

  function Join(l: Tree, r: Tree): Tree {
    match l
    case Leaf => r
    case Node(ll, e, lr) => Node(ll, e, Join(lr, r))
  }

  // Without the entries the probe is the same as.
  function Erase(t: Tree, p: MemRange): Tree {
    match t
    case Leaf => Leaf
    case Node(l, e, r) =>
      if Less(e, p) then Node(l, e, Erase(r, p))
      else if Less(p, e) then Node(Erase(l, p), e, r)
      else Join(Erase(l, p), Erase(r, p))
  }

  // ------------------------------------------------------------ linear scans

  function FirstNotLess(s: seq<MemRange>, p: MemRange): Option<MemRange> {
    if s == [] then None else if !Less(s[0], p) then Some(s[0]) else FirstNotLess(s[1..], p)
  }

  // The first entry the probe is the same as.
  function Scan(s: seq<MemRange>, p: MemRange): Option<MemRange> {
    if s == [] then None else if Same(s[0], p) then Some(s[0]) else Scan(s[1..], p)
  }

  // The last one.
  function ScanBack(s: seq<MemRange>, p: MemRange): Option<MemRange> {
    if s == [] then None
    else if Same(s[|s| - 1], p) then Some(s[|s| - 1])
    else ScanBack(s[..|s| - 1], p)
  }

  function Outside(s: seq<MemRange>, p: MemRange): seq<MemRange> {
    if s == [] then [] else (if Same(s[0], p) then [] else [s[0]]) + Outside(s[1..], p)
  }

  // On an ordered set every probe splits the entries: those less than it come first,
  // those it is less than come last.
  lemma ProbeSplits(s: seq<MemRange>, p: MemRange, i: nat, j: nat)
    requires Ordered(s) && i <= j < |s|
    ensures Less(s[j], p) ==> Less(s[i], p)
    ensures Less(p, s[i]) ==> Less(p, s[j])
  {
    if i < j {
      assert Less(s[i], s[j]);
    }
  }

  lemma {:induction false} FirstNotLessConcat(a: seq<MemRange>, b: seq<MemRange>, p: MemRange)
    ensures FirstNotLess(a + b, p) == if FirstNotLess(a, p).Some? then FirstNotLess(a, p) else FirstNotLess(b, p)
    decreases |a|
  {
    if a == [] {
      assert a + b == b;
    } else {
      FirstNotLessConcat(a[1..], b, p);
      assert (a + b)[1..] == a[1..] + b;
    }
  }

  lemma {:induction false} AllLess(s: seq<MemRange>, p: MemRange)
    requires forall i :: 0 <= i < |s| ==> Less(s[i], p)
    ensures FirstNotLess(s, p) == None
    decreases |s|
  {
    if s != [] {
      AllLess(s[1..], p);
    }
  }

  lemma OrderedParts(a: seq<MemRange>, e: MemRange, b: seq<MemRange>)
    requires Ordered(a + [e] + b)
    ensures Ordered(a) && Ordered(b)
    ensures forall i :: 0 <= i < |a| ==> Less(a[i], e)
    ensures forall i :: 0 <= i < |b| ==> Less(e, b[i])
  {
    var s := a + [e] + b;
    assert s[|a|] == e;
    assert forall i :: 0 <= i < |a| ==> s[i] == a[i];
    assert forall i :: 0 <= i < |b| ==> s[|a| + 1 + i] == b[i];
  }

  lemma {:induction false} LowerBoundIsFirst(t: Tree, p: MemRange, best: Option<MemRange>)
    requires Ordered(InOrder(t))
    ensures LowerBound(t, p, best)
         == if FirstNotLess(InOrder(t), p).Some? then FirstNotLess(InOrder(t), p) else best
    decreases t
  {
    if t.Node? {
      var a, e, b := InOrder(t.left), t.entry, InOrder(t.right);
      OrderedParts(a, e, b);
      LowerBoundIsFirst(t.left, p, Some(e));
      LowerBoundIsFirst(t.right, p, best);
      FirstNotLessConcat(a + [e], b, p);
      FirstNotLessConcat(a, [e], p);
      if Less(e, p) {
        AllLess(a, p);
      }
    }
  }

  lemma {:induction false} ScanIsFirst(s: seq<MemRange>, p: MemRange)
    requires Ordered(s)
    ensures Scan(s, p) == var b := FirstNotLess(s, p); if b.Some? && !Less(p, b.value) then b else None
    decreases |s|
  {
    if s != [] {
      ScanIsFirst(s[1..], p);
      if Less(p, s[0]) {
        NoneSame(s, p);
      }
    }
  }

  lemma {:induction false} NoneSame(s: seq<MemRange>, p: MemRange)
    requires Ordered(s) && s != [] && Less(p, s[0])
    ensures Scan(s, p) == None
    decreases |s|
  {
    if |s| > 1 {
      ProbeSplits(s, p, 0, 1);
      NoneSame(s[1..], p);
    }
  }

  // The tree search finds what a scan of all entries finds, whatever the tree's shape.
  lemma FindIsScan(t: Tree, p: MemRange)
    requires Ordered(InOrder(t))
    ensures Find(t, p) == Scan(InOrder(t), p)
  {
    LowerBoundIsFirst(t, p, None);
    ScanIsFirst(InOrder(t), p);
  }

  lemma {:induction false} ScanFinds(s: seq<MemRange>, p: MemRange)
    ensures Scan(s, p).Some? <==> exists e :: e in s && (Overlaps(e, p) || e.start == p.start)
    ensures Scan(s, p).Some? ==> Scan(s, p).value in s && Same(Scan(s, p).value, p)
    decreases |s|
  {
    if s != [] {
      ScanFinds(s[1..], p);
      SameMeaning(s[0], p);
      forall e | e in s && (Overlaps(e, p) || e.start == p.start) ensures Scan(s, p).Some? {
        if e != s[0] { assert e in s[1..]; }
      }
    }
  }

  // A zero-length probe finds the one entry that contains the address or starts there.
  lemma AddressFound(t: Tree, a: int, e: MemRange)
    requires Ordered(InOrder(t)) && e in InOrder(t)
    ensures e.start == a || e.start <= a < End(e) <==> Find(t, MemRange(a, 0)) == Some(e)
  {
    var s, p := InOrder(t), MemRange(a, 0);
    FindIsScan(t, p);
    ScanFinds(s, p);
    SameMeaning(e, p);
    if Same(e, p) {
      var f := Scan(s, p).value;
      var i :| 0 <= i < |s| && s[i] == e;
      var j :| 0 <= j < |s| && s[j] == f;
      SameMeaning(f, p);
      assert i < j ==> Less(e, f);
      assert j < i ==> Less(f, e);
    }
  }

  // ------------------------------------------------------------ insertion

  lemma {:induction false} PredecessorIsLast(t: Tree, k: MemRange, best: Option<MemRange>)
    requires Ordered(InOrder(t))
    ensures Predecessor(t, k, best)
         == if LastNotGreater(InOrder(t), k).Some? then LastNotGreater(InOrder(t), k) else best
    decreases t
  {
    if t.Node? {
      var a, e, b := InOrder(t.left), t.entry, InOrder(t.right);
      OrderedParts(a, e, b);
      PredecessorIsLast(t.left, k, best);
      PredecessorIsLast(t.right, k, Some(e));
      LastConcat(a + [e], b, k);
      LastConcat(a, [e], k);
      if Less(k, e) {
        AllGreater(b, k);
      }
    }
  }

  function LastNotGreater(s: seq<MemRange>, k: MemRange): Option<MemRange> {
    if s == [] then None
    else if !Less(k, s[|s| - 1]) then Some(s[|s| - 1])
    else LastNotGreater(s[..|s| - 1], k)
  }

  lemma {:induction false} LastConcat(a: seq<MemRange>, b: seq<MemRange>, k: MemRange)
    ensures LastNotGreater(a + b, k) == if LastNotGreater(b, k).Some? then LastNotGreater(b, k) else LastNotGreater(a, k)
    decreases |b|
  {
    if b == [] {
      assert a + b == a;
    } else {
      LastConcat(a, b[..|b| - 1], k);
      assert (a + b)[..|a + b| - 1] == a + b[..|b| - 1];
    }
  }

  lemma {:induction false} AllGreater(s: seq<MemRange>, k: MemRange)
    requires forall i :: 0 <= i < |s| ==> Less(k, s[i])
    ensures LastNotGreater(s, k) == None
    decreases |s|
  {
    if s != [] {
      AllGreater(s[..|s| - 1], k);
    }
  }

  lemma {:induction false} ScanBackIsLast(s: seq<MemRange>, k: MemRange)
    requires Ordered(s)
    ensures ScanBack(s, k) == var j := LastNotGreater(s, k); if j.Some? && !Less(j.value, k) then j else None
    decreases |s|
  {
    if s != [] {
      ScanBackIsLast(s[..|s| - 1], k);
      if Less(s[|s| - 1], k) {
        NoneSameBack(s, k);
      }
    }
  }

  lemma {:induction false} NoneSameBack(s: seq<MemRange>, k: MemRange)
    requires Ordered(s) && s != [] && Less(s[|s| - 1], k)
    ensures ScanBack(s, k) == None
    decreases |s|
  {
    if |s| > 1 {
      ProbeSplits(s, k, |s| - 2, |s| - 1);
      NoneSameBack(s[..|s| - 1], k);
    }
  }

  function PlaceIn(s: seq<MemRange>, k: MemRange): seq<MemRange> {
    if s == [] || Less(k, s[0]) then [k] + s else [s[0]] + PlaceIn(s[1..], k)
  }

  lemma PlaceUnfold(s: seq<MemRange>, k: MemRange)
    ensures s == [] ==> PlaceIn(s, k) == [k]
    ensures s != [] ==> PlaceIn(s, k) == if Less(k, s[0]) then [k] + s else [s[0]] + PlaceIn(s[1..], k)
  {
  }

  lemma Associate(a: seq<MemRange>, b: seq<MemRange>, c: seq<MemRange>)
    ensures a + b + c == a + (b + c)
  {
  }

  lemma Tail(a: seq<MemRange>, b: seq<MemRange>)
    requires a != []
    ensures (a + b)[0] == a[0] && (a + b)[1..] == a[1..] + b
  {
  }

  lemma {:induction false} PlaceLeft(a: seq<MemRange>, rest: seq<MemRange>, k: MemRange)
    requires rest != [] && Less(k, rest[0])
    ensures PlaceIn(a + rest, k) == PlaceIn(a, k) + rest
    decreases |a|
  {
    hide PlaceIn, Less;
    PlaceUnfold(a, k);
    PlaceUnfold(a + rest, k);
    if a == [] {
      assert a + rest == rest;
    } else {
      Tail(a, rest);
      PlaceLeft(a[1..], rest, k);
      Associate([k], a, rest);
      Associate([a[0]], PlaceIn(a[1..], k), rest);
    }
  }

  lemma {:induction false} PlaceRight(a: seq<MemRange>, rest: seq<MemRange>, k: MemRange)
    requires forall i :: 0 <= i < |a| ==> !Less(k, a[i])
    ensures PlaceIn(a + rest, k) == a + PlaceIn(rest, k)
    decreases |a|
  {
    hide PlaceIn, Less;
    if a == [] {
      assert a + rest == rest;
    } else {
      PlaceUnfold(a + rest, k);
      Tail(a, rest);
      PlaceRight(a[1..], rest, k);
      Associate([a[0]], a[1..], PlaceIn(rest, k));
      assert [a[0]] + a[1..] == a;
    }
  }

  lemma {:induction false} PlaceIsPlaceIn(t: Tree, k: MemRange)
    requires Ordered(InOrder(t))
    ensures InOrder(Place(t, k)) == PlaceIn(InOrder(t), k)
    decreases t
  {
    if t.Leaf? {
      assert InOrder(Node(Leaf, k, Leaf)) == [k];
    } else {
      hide PlaceIn, Less, Ordered;
      var a, e, b := InOrder(t.left), t.entry, InOrder(t.right);
      OrderedParts(a, e, b);
      PlaceIsPlaceIn(t.left, k);
      PlaceIsPlaceIn(t.right, k);
      if Less(k, e) {
        Associate(a, [e], b);
        PlaceLeft(a, [e] + b, k);
        Associate(PlaceIn(a, k), [e], b);
      } else {
        NotLess(a, e, k);
        PlaceRight(a + [e], b, k);
      }
    }
  }

  lemma NotLess(a: seq<MemRange>, e: MemRange, k: MemRange)
    requires !Less(k, e) && forall i :: 0 <= i < |a| ==> Less(a[i], e)
    ensures forall i :: 0 <= i < |a + [e]| ==> !Less(k, (a + [e])[i])
  {
  }

  lemma {:induction false} PlaceInOrdered(s: seq<MemRange>, k: MemRange)
    requires Ordered(s) && forall e :: e in s ==> !Same(e, k)
    ensures Ordered(PlaceIn(s, k)) && multiset(PlaceIn(s, k)) == multiset(s) + multiset{k}
    decreases |s|
  {
    if s == [] {
    } else if Less(k, s[0]) {
      forall i | 0 <= i < |s| ensures Less(k, s[i]) {
        ProbeSplits(s, k, 0, i);
      }
    } else {
      PlaceInOrdered(s[1..], k);
      assert s[0] in s;
      ConsOrdered(s, PlaceIn(s[1..], k), k);
    }
  }

  lemma ConsOrdered(s: seq<MemRange>, rest: seq<MemRange>, k: MemRange)
    requires s != [] && Ordered(s) && Ordered(rest) && multiset(rest) == multiset(s[1..]) + multiset{k}
    requires Less(s[0], k)
    ensures Ordered([s[0]] + rest) && multiset([s[0]] + rest) == multiset(s) + multiset{k}
  {
    hide Less, Ordered;
    ConsMultiset(s, rest, k);
    forall j | 0 <= j < |rest| ensures Less(s[0], rest[j]) {
      FromTail(s, rest, k, j);
    }
    OrderedCons(s[0], rest);
  }

  lemma ConsMultiset(s: seq<MemRange>, rest: seq<MemRange>, k: MemRange)
    requires s != [] && multiset(rest) == multiset(s[1..]) + multiset{k}
    ensures multiset([s[0]] + rest) == multiset(s) + multiset{k}
  {
    assert s == [s[0]] + s[1..];
    assert multiset([s[0]] + rest) == multiset{s[0]} + multiset(rest);
    assert multiset(s) == multiset{s[0]} + multiset(s[1..]);
  }

  lemma FromTail(s: seq<MemRange>, rest: seq<MemRange>, k: MemRange, j: nat)
    requires s != [] && Ordered(s) && multiset(rest) == multiset(s[1..]) + multiset{k} && j < |rest|
    requires Less(s[0], k)
    ensures Less(s[0], rest[j])
  {
    hide Less;
    assert rest[j] in multiset(rest);
    if rest[j] != k {
      assert rest[j] in s[1..];
      var i :| 0 <= i < |s[1..]| && s[1..][i] == rest[j];
      assert s[i + 1] == rest[j];
    }
  }

  lemma OrderedCons(e: MemRange, rest: seq<MemRange>)
    requires Ordered(rest) && forall j :: 0 <= j < |rest| ==> Less(e, rest[j])
    ensures Ordered([e] + rest)
  {
    hide Less;
  }

  lemma {:induction false} ScanBackFinds(s: seq<MemRange>, k: MemRange)
    ensures ScanBack(s, k).None? <==> forall e :: e in s ==> !Same(e, k)
    decreases |s|
  {
    if s != [] {
      ScanBackFinds(s[..|s| - 1], k);
      assert forall e :: e in s <==> e in s[..|s| - 1] || e == s[|s| - 1];
    }
  }

  // Insertion keeps the set ordered and adds the range, unless an entry overlaps it or
  // starts where it starts: then the last such entry stands for it.
  lemma InsertIsScan(t: Tree, k: MemRange)
    requires Ordered(InOrder(t))
    ensures Ordered(InOrder(Insert(t, k).0))
    ensures Insert(t, k).2 <==> forall f :: f in InOrder(t) ==> !Overlaps(f, k) && f.start != k.start
    ensures Insert(t, k).2 ==>
      Insert(t, k).1 == k && multiset(InOrder(Insert(t, k).0)) == multiset(InOrder(t)) + multiset{k}
    ensures !Insert(t, k).2 ==> Insert(t, k).0 == t && Some(Insert(t, k).1) == ScanBack(InOrder(t), k)
  {
    var s := InOrder(t);
    PredecessorIsLast(t, k, None);
    ScanBackIsLast(s, k);
    ScanBackFinds(s, k);
    PlaceIsPlaceIn(t, k);
    forall f ensures Same(f, k) <==> Overlaps(f, k) || f.start == k.start {
      SameMeaning(f, k);
    }
    hide Predecessor, LastNotGreater, ScanBack, InOrder, Place, Ordered, Less, Overlaps, PlaceIn;
    if forall e :: e in s ==> !Same(e, k) {
      PlaceInOrdered(s, k);
    }
  }

  // ------------------------------------------------------------ removal

  lemma {:induction false} OutsideConcat(a: seq<MemRange>, b: seq<MemRange>, p: MemRange)
    ensures Outside(a + b, p) == Outside(a, p) + Outside(b, p)
    decreases |a|
  {
    if a == [] {
      assert a + b == b;
    } else {
      OutsideConcat(a[1..], b, p);
      assert (a + b)[1..] == a[1..] + b;
    }
  }

  lemma {:induction false} AllOutside(s: seq<MemRange>, p: MemRange)
    requires forall i :: 0 <= i < |s| ==> !Same(s[i], p)
    ensures Outside(s, p) == s
    decreases |s|
  {
    if s != [] {
      AllOutside(s[1..], p);
    }
  }

  lemma {:induction false} JoinInOrder(l: Tree, r: Tree)
    ensures InOrder(Join(l, r)) == InOrder(l) + InOrder(r)
    decreases l
  {
    if l.Node? {
      JoinInOrder(l.right, r);
    }
  }

  // Removal drops exactly the entries the probe is the same as.
  lemma {:induction false} EraseIsOutside(t: Tree, p: MemRange)
    requires Ordered(InOrder(t))
    ensures InOrder(Erase(t, p)) == Outside(InOrder(t), p)
    decreases t
  {
    if t.Node? {
      var a, e, b := InOrder(t.left), t.entry, InOrder(t.right);
      OrderedParts(a, e, b);
      EraseIsOutside(t.left, p);
      EraseIsOutside(t.right, p);
      OutsideConcat(a + [e], b, p);
      OutsideConcat(a, [e], p);
      assert Outside([e], p) == if Same(e, p) then [] else [e];
      if Less(e, p) {
        AllOutside(a, p);
      } else if Less(p, e) {
        AllOutside(b, p);
      } else {
        JoinInOrder(Erase(t.left, p), Erase(t.right, p));
      }
    }
  }

  lemma {:induction false} OutsideOrdered(s: seq<MemRange>, p: MemRange)
    requires Ordered(s)
    ensures Ordered(Outside(s, p))
    ensures forall e :: e in Outside(s, p) <==> e in s && !Same(e, p)
    decreases |s|
  {
    if s != [] {
      OutsideOrdered(s[1..], p);
      var rest := Outside(s[1..], p);
      assert forall e :: e in s <==> e == s[0] || e in s[1..];
      forall j | 0 <= j < |rest| ensures Less(s[0], rest[j]) {
        assert rest[j] in s[1..];
      }
    }
  }

  // ------------------------------------------------------------ runs

  datatype Call = Add(range: MemRange) | Remove(address: int)

  function Step(t: Tree, c: Call): Tree {
    match c
    case Add(r) => Insert(t, r).0
    case Remove(a) => Erase(t, MemRange(a, 0))
  }

  function Run(cs: seq<Call>): Tree {
    if cs == [] then Leaf else Step(Run(cs[..|cs| - 1]), cs[|cs| - 1])
  }

  // In every run of insertions and removals the set stays ordered; so entries are
  // disjoint and all searches agree with scans.
  lemma {:induction false} RunOrdered(cs: seq<Call>)
    ensures Ordered(InOrder(Run(cs)))
    ensures forall i, j :: 0 <= i < j < |InOrder(Run(cs))| ==> End(InOrder(Run(cs))[i]) <= InOrder(Run(cs))[j].start
    decreases |cs|
  {
    if cs != [] {
      var t, c := Run(cs[..|cs| - 1]), cs[|cs| - 1];
      RunOrdered(cs[..|cs| - 1]);
      match c
      case Add(r) => InsertIsScan(t, r);
      case Remove(a) =>
        EraseIsOutside(t, MemRange(a, 0));
        OutsideOrdered(InOrder(t), MemRange(a, 0));
    }
    Apart(InOrder(Run(cs)));
  }

  lemma Apart(s: seq<MemRange>)
    requires Ordered(s)
    ensures forall i, j :: 0 <= i < j < |s| ==> End(s[i]) <= s[j].start
  {
    forall i, j | 0 <= i < j < |s| ensures End(s[i]) <= s[j].start {
      assert Less(s[i], s[j]);
    }
  }

  // ------------------------------------------------------------ the engine's table

  class Engine {
    var ptrSet: Tree

    ghost predicate Valid()
      reads this
    {
      Ordered(InOrder(ptrSet))
    }

    // The entry that contains the address or starts at it, if any.
    method FindPtrData(ptr: int) returns (r: Option<MemRange>)
      requires Valid()
      ensures r == Scan(InOrder(ptrSet), MemRange(ptr, 0))
      ensures r.Some? ==> r.value in InOrder(ptrSet) && (r.value.start == ptr || r.value.start <= ptr < End(r.value))
      ensures r.None? ==> forall e :: e in InOrder(ptrSet) ==> e.start != ptr && !(e.start <= ptr < End(e))
    {
      var probe := MemRange(ptr, 0);
      var node, best := ptrSet, None;
      while node.Node?
        invariant LowerBound(ptrSet, probe, None) == LowerBound(node, probe, best)
        decreases node
      {
        if Less(node.entry, probe) {
          node := node.right;
        } else {
          best := Some(node.entry);
          node := node.left;
        }
      }
      r := if best.Some? && !Less(probe, best.value) then best else None;
      FindIsScan(ptrSet, probe);
      ScanFinds(InOrder(ptrSet), probe);
      if r.Some? { SameMeaning(r.value, probe); }
    }

    method InsertPtrData(ptr: int, len: nat) returns (r: MemRange, isNew: bool)
      requires Valid()
      modifies this
      ensures Valid() && ptrSet == Step(old(ptrSet), Add(MemRange(ptr, len)))
      ensures isNew <==> forall f :: f in old(InOrder(ptrSet)) ==> !Overlaps(f, MemRange(ptr, len)) && f.start != ptr
      ensures isNew ==>
        r == MemRange(ptr, len) && multiset(InOrder(ptrSet)) == old(multiset(InOrder(ptrSet))) + multiset{r}
      ensures !isNew ==> ptrSet == old(ptrSet) && Some(r) == ScanBack(InOrder(ptrSet), MemRange(ptr, len))
    {
      var k := MemRange(ptr, len);
      InsertIsScan(ptrSet, k);
      var node, best := ptrSet, None;
      while node.Node?
        invariant ptrSet == old(ptrSet)
        invariant Predecessor(ptrSet, k, None) == Predecessor(node, k, best)
        decreases node
      {
        if Less(k, node.entry) {
          node := node.left;
        } else {
          best := Some(node.entry);
          node := node.right;
        }
      }
      if best.None? || Less(best.value, k) {
        r, isNew := k, true;
        ptrSet := Place(ptrSet, k);
      } else {
        r, isNew := best.value, false;
      }
    }

    method RemovePtrData(ptr: int)
      requires Valid()
      modifies this
      ensures Valid() && ptrSet == Step(old(ptrSet), Remove(ptr))
      ensures InOrder(ptrSet) == Outside(old(InOrder(ptrSet)), MemRange(ptr, 0))
      ensures forall e :: e in InOrder(ptrSet) <==>
        e in old(InOrder(ptrSet)) && e.start != ptr && !(e.start <= ptr < End(e))
    {
      var probe := MemRange(ptr, 0);
      EraseIsOutside(ptrSet, probe);
      OutsideOrdered(InOrder(ptrSet), probe);
      ptrSet := Erase(ptrSet, probe);
    }
  }
}
