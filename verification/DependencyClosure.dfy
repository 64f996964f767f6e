/** Which external object files the internal ones need, directly or through others: a
    worklist over the relation "an undefined symbol of one file is defined in the
    other". */
module DependencyClosure {
  type Symbol = string

  // ------------------------------------------------------------ ordered sets of symbols

  // Lexicographic order.
  predicate Precedes(a: Symbol, b: Symbol) {
    if b == [] then false
    else if a == [] then true
    else a[0] < b[0] || (a[0] == b[0] && Precedes(a[1..], b[1..]))
  }

  lemma {:induction false} PrecedesTotal(a: Symbol, b: Symbol)
    ensures Precedes(a, b) || Precedes(b, a) || a == b
    ensures !(Precedes(a, b) && Precedes(b, a)) && !Precedes(a, a)
    decreases |a|
  {
    if a != [] {
      PrecedesTotal(a[1..], a[1..]);
      if b != [] && a[0] == b[0] {
        PrecedesTotal(a[1..], b[1..]);
        assert a == [a[0]] + a[1..] && b == [b[0]] + b[1..];
      }
    }
  }

  lemma {:induction false} PrecedesTransitive(a: Symbol, b: Symbol, c: Symbol)
    requires Precedes(a, b) && Precedes(b, c)
    ensures Precedes(a, c)
    decreases |a|
  {
    if a != [] && a[0] == b[0] == c[0] {
      PrecedesTransitive(a[1..], b[1..], c[1..]);
    }
  }

  // A set as its elements in ascending order.
  ghost predicate Ascending(s: seq<Symbol>) {
    forall i, j :: 0 <= i < j < |s| ==> Precedes(s[i], s[j])
  }

  ghost predicate Disjoint(a: seq<Symbol>, b: seq<Symbol>) {
    forall x :: x in a ==> x !in b
  }

  // The merge of two ordered sets finds a common element exactly if there is one.
  method IsDisjoint(a: seq<Symbol>, b: seq<Symbol>) returns (disjoint: bool)
    requires Ascending(a) && Ascending(b)
    ensures disjoint <==> Disjoint(a, b)
  {
    hide Precedes, Ascending;
    var i, j := 0, 0;
    while i < |a| && j < |b|
      invariant i <= |a| && j <= |b|
      invariant forall k, l :: 0 <= k < |a| && 0 <= l < |b| && a[k] == b[l] ==> k >= i && l >= j
      decreases |a| - i + |b| - j
    {
      PrecedesTotal(a[i], b[j]);
      if Precedes(a[i], b[j]) {
        SkipLess(a, b, i, j);
        i := i + 1;
      } else if Precedes(b[j], a[i]) {
        SkipLess(b, a, j, i);
        j := j + 1;
      } else {
        assert a[i] in a && a[i] in b;
        return false;
      }
    }
    return true;
  }

  // An element less than the rest of the other set is not in it.
  lemma SkipLess(a: seq<Symbol>, b: seq<Symbol>, i: nat, j: nat)
    requires Ascending(b) && i < |a| && j < |b| && Precedes(a[i], b[j])
    ensures forall l :: j <= l < |b| ==> a[i] != b[l]
  {
    forall l | j <= l < |b| ensures a[i] != b[l] {
      PrecedesTotal(a[i], b[l]);
      if l > j {
        PrecedesTransitive(a[i], b[j], b[l]);
      }
    }
  }

  // ------------------------------------------------------------ the closure

  // The object files' symbols; the first external files are the external ones.
  datatype Files = Files(external: nat, defined: seq<seq<Symbol>>, undefined: seq<seq<Symbol>>)

  ghost predicate Valid(f: Files) {
    && f.external <= |f.defined| == |f.undefined|
    && (forall i :: 0 <= i < |f.defined| ==> Ascending(f.defined[i]))
    && (forall i :: 0 <= i < |f.undefined| ==> Ascending(f.undefined[i]))
  }

  ghost predicate DependsOn(f: Files, x: int, y: int) {
    0 <= x < |f.undefined| && 0 <= y < |f.defined| && !Disjoint(f.defined[y], f.undefined[x])
  }

  ghost predicate Internal(f: Files, x: int) {
    f.external <= x < |f.defined|
  }

  // A chain of dependencies that starts at an internal file.
  ghost predicate Chain(f: Files, p: seq<int>) {
    && p != [] && Internal(f, p[0])
    && forall i :: 0 <= i < |p| - 1 ==> DependsOn(f, p[i], p[i + 1])
  }

  ghost predicate Reachable(f: Files, y: int) {
    exists p :: Chain(f, p) && p[|p| - 1] == y
  }

  ghost predicate Required(f: Files, y: int) {
    0 <= y < f.external && Reachable(f, y)
  }

  lemma ReachableStep(f: Files, x: int, y: int)
    requires Valid(f) && (Internal(f, x) || Reachable(f, x)) && DependsOn(f, x, y)
    ensures Reachable(f, y)
  {
    var p: seq<int> := [x];
    if Internal(f, x) {
      assert Chain(f, p);
    } else {
      p :| Chain(f, p) && p[|p| - 1] == x;
    }
    var q := p + [y];
    assert Chain(f, q) by {
      forall i | 0 <= i < |q| - 1 ensures DependsOn(f, q[i], q[i + 1]) {
        if i < |p| - 1 { assert q[i] == p[i] && q[i + 1] == p[i + 1]; }
      }
    }
    assert q[|q| - 1] == y;
  }

  // A set that with the internal files contains every external file they depend on.
  ghost predicate Closed(f: Files, s: set<int>) {
    forall x, y :: (Internal(f, x) || x in s) && 0 <= y < f.external && DependsOn(f, x, y) ==> y in s
  }

  // The required files are the least closed set.
  lemma {:induction false} ChainStays(f: Files, s: set<int>, p: seq<int>)
    requires Valid(f) && Closed(f, s) && Chain(f, p)
    ensures Internal(f, p[|p| - 1]) || p[|p| - 1] in s
    decreases |p|
  {
    if |p| > 1 {
      var k := |p| - 1;
      ChainStays(f, s, p[..k]);
      assert DependsOn(f, p[k - 1], p[k]);
    }
  }

  lemma RequiredIsLeast(f: Files, s: set<int>)
    requires Valid(f) && Closed(f, s)
    ensures forall y :: Required(f, y) ==> y in s
  {
    forall y | Required(f, y) ensures y in s {
      var p :| Chain(f, p) && p[|p| - 1] == y;
      ChainStays(f, s, p);
    }
  }

  // ------------------------------------------------------------ the worklist

  lemma SameSet(a: set<int>, b: set<int>)
    requires forall x :: x in a <==> x in b
    ensures a == b
  {
    forall x ensures x in a <==> x in b {
    }
  }

  lemma SomeMember(a: set<int>)
    ensures a == {} || exists x :: x in a
  {
    if !(exists x :: x in a) {
      SameSet(a, {});
    }
  }

  // The numbers below n.
  ghost function Below(n: nat): (s: set<int>)
    ensures forall y :: y in s <==> 0 <= y < n
  {
    if n == 0 then {} else Below(n - 1) + {n - 1}
  }

  ghost function Externals(f: Files): set<int> {
    Below(f.external)
  }

  // Every file that is not waiting has all it depends on in required.
  ghost predicate Progress(f: Files, required: set<int>, waiting: set<int>) {
    && required <= Externals(f)
    && (forall y :: y in required ==> Required(f, y))
    && (forall x :: x in waiting ==> Internal(f, x) || x in required)
    && (forall x, y ::
          (Internal(f, x) || x in required) && x !in waiting && 0 <= y < f.external && DependsOn(f, x, y) ==> y in required)
  }

  // The double-buffered worklist ends, and with exactly the external files that internal
  // ones reach; no smaller set is closed.
  method FindRequiredExternal(f: Files) returns (required: set<int>)
    requires Valid(f)
    ensures forall y :: y in required <==> Required(f, y)
    ensures Closed(f, required) && forall s :: Closed(f, s) ==> required <= s
  {
    hide *;
    required := {};
    var cur, changed := 0, true;
    var internals := InternalFiles(f);
    var lists: seq<set<int>> := [internals, {}];
    Start(f, internals);
    while changed
      invariant 0 <= cur <= 1 && |lists| == 2 && lists[1 - cur] == {}
      invariant Progress(f, required, lists[cur]) && (!changed ==> lists[cur] == {})
      decreases |Externals(f) - required|, if changed then 1 else 0
    {
      WithinExternals(f, required, lists[cur]);
      var required', next, changed' := ProcessList(f, required, lists[cur], lists[1 - cur]);
      WithinExternals(f, required', next);
      Fewer(Externals(f), required, required');
      required, changed := required', changed';
      lists := lists[1 - cur := next][cur := {}];
      cur := 1 - cur;
    }
    Finished(f, required);
  }

  // The loop over the waiting files, which fills the other list.
  method ProcessList(f: Files, required: set<int>, list: set<int>, other: set<int>)
    returns (required': set<int>, next: set<int>, changed: bool)
    requires Valid(f) && Progress(f, required, list) && other == {}
    ensures required <= required' && next == required' - required && (changed <==> required' != required)
    ensures Progress(f, required', next)
  {
    hide *;
    required', next, changed := required, other, false;
    ListStarts(f, required, list);
    var it := list;
    while it != {}
      invariant Listing(f, required, required', it, next, changed)
      decreases |it|
    {
      SomeMember(it);
      var x :| x in it;
      InRange(f, required, required', it, next, x, changed);
      var r, n, c := Scan(f, x, required', next, changed);
      Processed(f, required, required', it, next, x, changed, r, n, c);
      it, required', next, changed := it - {x}, r, n, c;
    }
    ListEnds(f, required, required', next, changed);
  }

  method InternalFiles(f: Files) returns (s: set<int>)
    requires Valid(f)
    ensures forall x :: x in s <==> Internal(f, x)
  {
    s := {};
    var i := |f.defined| - 1;
    while i >= f.external
      invariant f.external - 1 <= i < |f.defined|
      invariant forall x :: x in s <==> i < x < |f.defined|
    {
      s := s + {i};
      i := i - 1;
    }
  }

  // The loop over the external files for one waiting file x.
  method Scan(f: Files, x: int, required: set<int>, next: set<int>, changed: bool)
    returns (required': set<int>, next': set<int>, changed': bool)
    requires Valid(f) && 0 <= x < |f.undefined|
    ensures forall y :: y in required' <==> y in required || (0 <= y < f.external && DependsOn(f, x, y))
    ensures next' == next + (required' - required)
    ensures changed' <==> changed || required' != required
  {
    required', next', changed' := required, next, changed;
    for i := 0 to f.external
      invariant forall y :: y in required' <==> y in required || (0 <= y < i && DependsOn(f, x, y))
      invariant next' == next + (required' - required)
      invariant changed' <==> changed || required' != required
    {
      if i !in required' {
        var disjoint := IsDisjoint(f.defined[i], f.undefined[x]);
        if !disjoint {
          required', next', changed' := required' + {i}, next' + {i}, true;
        }
      }
    }
  }

  lemma Start(f: Files, internals: set<int>)
    requires forall x :: x in internals <==> Internal(f, x)
    ensures Progress(f, {}, internals)
  {
  }

  // Some files of a list are processed; the new required files go to the other list.
  ghost predicate Listing(f: Files, required: set<int>, required': set<int>, it: set<int>, next: set<int>, changed: bool) {
    && required <= required' && next == required' - required && (changed <==> required' != required)
    && Progress(f, required', it + next)
  }

  lemma ListStarts(f: Files, required: set<int>, list: set<int>)
    requires Progress(f, required, list)
    ensures Listing(f, required, required, list, {}, false)
  {
    assert list + {} == list;
  }

  lemma ListEnds(f: Files, required: set<int>, required': set<int>, next: set<int>, changed: bool)
    requires Listing(f, required, required', {}, next, changed)
    ensures required <= required' && next == required' - required && (changed <==> required' != required)
    ensures Progress(f, required', next)
  {
    assert {} + next == next;
  }

  lemma InRange(f: Files, required: set<int>, required': set<int>, it: set<int>, next: set<int>, x: int, changed: bool)
    requires Valid(f) && Listing(f, required, required', it, next, changed) && x in it
    ensures 0 <= x < |f.undefined|
  {
    assert x in it + next;
  }

  lemma WithinExternals(f: Files, required: set<int>, waiting: set<int>)
    requires Progress(f, required, waiting)
    ensures required <= Externals(f)
  {
  }

  lemma Processed(f: Files, required: set<int>, required': set<int>, it: set<int>, next: set<int>, x: int, changed: bool,
                  r: set<int>, n: set<int>, c: bool)
    requires Valid(f) && x in it && Listing(f, required, required', it, next, changed)
    requires forall y :: y in r <==> y in required' || (0 <= y < f.external && DependsOn(f, x, y))
    requires n == next + (r - required') && (c <==> changed || r != required')
    ensures Listing(f, required, r, it - {x}, n, c)
  {
    hide DependsOn, Internal, Required, Reachable, Disjoint;
    SameSet(n, r - required);
    ProcessedProgress(f, required', it, next, x, r, n);
  }

  lemma ProcessedProgress(f: Files, required: set<int>, it: set<int>, next: set<int>, x: int, r: set<int>, n: set<int>)
    requires Valid(f) && x in it && Progress(f, required, it + next)
    requires forall y :: y in r <==> y in required || (0 <= y < f.external && DependsOn(f, x, y))
    requires n == next + (r - required)
    ensures Progress(f, r, it - {x} + n) && required <= r
  {
    hide DependsOn;
    forall y | y in r ensures Required(f, y) {
      if y !in required {
        ReachableStep(f, x, y);
      }
    }
  }

  lemma Fewer(all: set<int>, before: set<int>, after: set<int>)
    requires before <= after <= all
    ensures after != before ==> |all - after| < |all - before|
  {
    if after != before {
      SomeMember(after - before);
      SameSet(before + (after - before), after);
      var x :| x in after - before;
      Smaller(all - after, all - before, x);
    }
  }

  lemma Smaller(a: set<int>, b: set<int>, x: int)
    requires a <= b && x in b && x !in a
    ensures |a| < |b|
  {
    Subset(a, b - {x});
  }

  lemma {:induction false} Subset(a: set<int>, b: set<int>)
    requires a <= b
    ensures |a| <= |b|
    decreases |a|
  {
    if a != {} {
      SomeMember(a);
      var x :| x in a;
      Subset(a - {x}, b - {x});
    }
  }

  lemma Finished(f: Files, required: set<int>)
    requires Valid(f) && Progress(f, required, {})
    ensures forall y :: y in required <==> Required(f, y)
    ensures Closed(f, required) && forall s :: Closed(f, s) ==> required <= s
  {
    hide DependsOn, Internal, Reachable;
    assert Closed(f, required);
    RequiredIsLeast(f, required);
    forall s | Closed(f, s) ensures required <= s {
      RequiredIsLeast(f, s);
    }
  }
}
