/** What target() leaves behind when a private copy is refused. */
module RefusedCopies {
  // The copy's entry was made before its allocation was refused, and it is not among the
  // copies that are released.

  import opened Memory
  import opened DeviceMap
  import opened DataEnvironment
  import opened MapInverse
  import opened MapInvariant
  import opened TransferRuns
  import opened TransferOnce
  import opened TargetRegion

  // Does the device refuse the private copy of argument i when the loop comes to it?
  predicate RefusedAt(p: Plugin, s: Env, args: seq<Arg>, bases: seq<int>, i: nat)
    requires i < |args| == |bases| && ArgsValid(args) && args[i].ty.memberOf < |args|
  {
    var b := BuildFirst(p, s, args, bases, i);
    b.ok && MakesPrivate(args, i) && DataAlloc(p, b.env, args[i].size).1 == 0
  }

  // Every private argument is unmapped at its turn.
  ghost predicate PrivatesAbsent(p: Plugin, s: Env, args: seq<Arg>, bases: seq<int>, k: nat)
    requires k <= |args| == |bases| && ArgsValid(args)
  {
    k == 0 ||
    (PrivatesAbsent(p, s, args, bases, k - 1) &&
     var b := BuildFirst(p, s, args, bases, k - 1);
     b.ok && MakesPrivate(args, k - 1) ==> !Found(b.env.entries, args[k - 1].begin, args[k - 1].size))
  }

  // The entry of a copy that was refused.
  function Leaked(args: seq<Arg>, bases: seq<int>, i: nat): Entry
    requires i < |args| == |bases|
  {
    Entry(bases[i], args[i].begin, args[i].begin + args[i].size, 0, 1)
  }

  // No argument that target_data_end looks up meets the entry.
  ghost predicate Unnoticed(e: Entry, args: seq<Arg>) {
    forall j :: 0 <= j < |args| && !Skipped(args[j]) ==> !Flagged(e, Begin(args, j), Size(args, j))
  }

  // -------------------------------------------------- an entry that no operation meets

  ghost predicate Misses(e: Entry, ops: seq<MapOp>) {
    forall op :: op in ops ==> op.UnmapIt? && !Flagged(e, op.hp, op.n)
  }

  lemma HeadLookup(e: Entry, es: Entries, hp: int, n: nat)
    requires !Flagged(e, hp, n)
    ensures Lookup([e] + es, hp, n) == 1 + Lookup(es, hp, n)
  {
    var i := Lookup(es, hp, n);
    LookupIs([e] + es, hp, n, 1 + i);
  }

  lemma HeadStays(e: Entry, es: Entries, hp: int, n: nat, plain: bool, force: bool)
    requires !Flagged(e, hp, n)
    ensures UnmapSection([e] + es, hp, n, plain, force) == [e] + UnmapSection(es, hp, n, plain, force)
  {
    hide Lookup, Flagged;
    var i := Lookup(es, hp, n);
    HeadLookup(e, es, hp, n);
    if i < |es| {
      assert Remove([e] + es, 1 + i) == [e] + Remove(es, i);
      assert Recount([e] + es, 1 + i, es[i].count - 1) == [e] + Recount(es, i, es[i].count - 1);
    }
  }

  lemma {:induction false} HeadSurvives(e: Entry, es: Entries, ops: seq<MapOp>)
    requires Misses(e, ops)
    ensures MapInvariant.Run([e] + es, ops) == [e] + MapInvariant.Run(es, ops)
    decreases |ops|
  {
    hide UnmapSection, Flagged;
    if ops != [] {
      var ops', op := ops[..|ops| - 1], ops[|ops| - 1];
      assert op in ops && forall o :: o in ops' ==> o in ops;
      HeadSurvives(e, es, ops');
      HeadStays(e, MapInvariant.Run(es, ops'), op.hp, op.n, op.plain, op.force);
    }
  }

  lemma {:induction false} EndMisses(e: Entry, args: seq<Arg>, k: nat)
    requires k <= |args| && Unnoticed(e, args)
    ensures Misses(e, EndFirstOps(args, k))
  {
    hide Flagged, Begin, Size;
    if k > 0 {
      EndMisses(e, args, k - 1);
    }
  }

  // Copies made before the refused one are released without meeting its entry.
  lemma FreeMisses(e: Entry, es: Entries, base: Entries, args: seq<Arg>, privates: seq<nat>)
    requires Stacked(es, base, args, privates) && e.begin < e.end && !Found(es, e.begin, e.end - e.begin)
    requires WellFormed(es) && forall i :: i in privates ==> i < |args|
    ensures Misses(e, FreeOps(args, privates))
  {
    var ops := FreeOps(args, privates);
    hide WellFormed, FreeOps;
    forall op | op in ops ensures op.UnmapIt? && !Flagged(e, op.hp, op.n) {
      var j :| 0 <= j < |ops| && ops[j] == op;
      assert privates[j] in privates;
      var f := es[|privates| - 1 - j];
      AbsentUnmet(e, es, |privates| - 1 - j);
      assert op == FreeOp(args, privates[j]) && f.begin == op.hp && f.end == op.hp + op.n;
    }
  }

  lemma AbsentUnmet(e: Entry, es: Entries, i: nat)
    requires WellFormed(es) && i < |es| && e.begin < e.end && !Found(es, e.begin, e.end - e.begin)
    ensures var f := es[i]; f.begin < f.end && !Flagged(e, f.begin, f.end - f.begin)
  {
    assert es[i] in es;
    assert !Flagged(es[i], e.begin, e.end - e.begin);
  }

  // ----------------------------------------------------------------------- the leak

  // A refusal ends the loop, so none came before the state it was made in.
  lemma {:induction false} GrantedBeforeRefusal(p: Plugin, s: Env, args: seq<Arg>, bases: seq<int>, k: nat)
    requires k <= |args| == |bases| && ArgsValid(args) && PrivatesAbsent(p, s, args, bases, k)
    requires BuildFirst(p, s, args, bases, k).ok
    ensures PrivatesGranted(p, s, args, bases, k)
  {
    hide BuildStep, DataAlloc, Found, MakesPrivate, PrivateCopy;
    if k > 0 {
      var b := BuildFirst(p, s, args, bases, k - 1);
      NextBuild(p, s, args, bases, k);
      GrantedBeforeRefusal(p, s, args, bases, k - 1);
      if MakesPrivate(args, k - 1) && DataAlloc(p, b.env, args[k - 1].size).1 == 0 {
        BuildStepEntries(p, b, args, bases, k - 1);
        RefusedCopy(p, b, args, bases, k - 1);
      }
    }
  }

  lemma RefusedCopy(p: Plugin, b: Build, args: seq<Arg>, bases: seq<int>, i: nat)
    requires i < |args| == |bases| && DataAlloc(p, b.env, args[i].size).1 == 0
    requires !Found(b.env.entries, args[i].begin, args[i].size)
    ensures var b' := PrivateCopy(p, b, args, bases, i);
            !b'.ok && b'.privates == b.privates &&
            (args[i].size > 0 ==> b'.env.entries == [Leaked(args, bases, i)] + b.env.entries)
  {
  }

  lemma AbsentAt(p: Plugin, s: Env, args: seq<Arg>, bases: seq<int>, k: nat, i: nat)
    requires i < k <= |args| == |bases| && ArgsValid(args) && PrivatesAbsent(p, s, args, bases, k)
    ensures PrivatesAbsent(p, s, args, bases, i) && args[i].ty.memberOf < |args|
    ensures var b := BuildFirst(p, s, args, bases, i);
            b.ok && MakesPrivate(args, i) ==> !Found(b.env.entries, args[i].begin, args[i].size)
    decreases k
  {
    hide BuildFirst, Found;
    assert args[i] in args;
    if i < k - 1 {
      AbsentAt(p, s, args, bases, k - 1, i);
    }
  }

  // What the loop leaves when argument i's copy is refused.
  lemma BuildRefused(p: Plugin, s: Env, args: seq<Arg>, bases: seq<int>, i: nat)
    requires i < |args| == |bases| && ArgsValid(args) && args[i].ty.memberOf < |args|
    requires PrivatesAbsent(p, s, args, bases, |args|) && PrivatesNonEmpty(args)
    requires RefusedAt(p, s, args, bases, i) && WellFormed(s.entries)
    ensures var b, b' := BuildFirst(p, s, args, bases, i), BuildFirst(p, s, args, bases, |args|);
            && !b'.ok && b'.privates == b.privates
            && b'.env.entries == [Leaked(args, bases, i)] + b.env.entries
            && WellFormed(b.env.entries) && Stacked(b.env.entries, s.entries, args, b.privates)
            && !Found(b.env.entries, args[i].begin, args[i].size) && args[i].size > 0
  {
    hide *;
    var b := BuildFirst(p, s, args, bases, i);
    assert b.ok && MakesPrivate(args, i) && DataAlloc(p, b.env, args[i].size).1 == 0 by {
      RefusedParts(p, s, args, bases, i);
    }
    AbsentAt(p, s, args, bases, |args|, i);
    PrivateNonEmpty(args, i);
    GrantedBeforeRefusal(p, s, args, bases, i);
    BuildStacked(p, s, args, bases, i);
    CopiesParts(b, s.entries, args);
    NextBuild(p, s, args, bases, i + 1);
    BuildStepEntries(p, b, args, bases, i);
    RefusedCopy(p, b, args, bases, i);
    BuildStopped(p, s, args, bases, i + 1, |args|);
  }

  lemma RefusedParts(p: Plugin, s: Env, args: seq<Arg>, bases: seq<int>, i: nat)
    requires i < |args| == |bases| && ArgsValid(args) && args[i].ty.memberOf < |args|
    requires RefusedAt(p, s, args, bases, i)
    ensures var b := BuildFirst(p, s, args, bases, i);
            b.ok && MakesPrivate(args, i) && DataAlloc(p, b.env, args[i].size).1 == 0
  {
  }

  lemma CopiesParts(b: Build, base: Entries, args: seq<Arg>)
    requires CopiesOnTop(b, base, args)
    ensures WellFormed(b.env.entries) && Stacked(b.env.entries, base, args, b.privates)
  {
  }

  // When the device refuses a private copy whose range no mapped argument meets, target()
  // fails and leaves exactly the refused entry, with target address 0, on top of the list.
  lemma RefusedPrivateLeaks(p: Plugin, k: Kernel, s: Env, args: seq<Arg>, i: nat)
    requires ArgsValid(args) && WellFormed(s.entries) && DataBegin(p, s, args).1
    requires ArgsRoundTrip(p, s, args, |args|) && PrivatesNonEmpty(args)
    requires PrivatesAbsent(p, DataBegin(p, s, args).0, args, Bases(p, s, args), |args|)
    requires i < |args| && args[i].ty.memberOf < |args|
    requires RefusedAt(p, DataBegin(p, s, args).0, args, Bases(p, s, args), i)
    requires Unnoticed(Leaked(args, Bases(p, s, args), i), args)
    ensures !Target(p, k, s, args).1
    ensures Target(p, k, s, args).0.entries == [Leaked(args, Bases(p, s, args), i)] + s.entries
  {
    hide *;
    var s1, bases := DataBegin(p, s, args).0, Bases(p, s, args);
    var b, b' := BuildFirst(p, s1, args, bases, i), BuildFirst(p, s1, args, bases, |args|);
    var e := Leaked(args, bases, i);
    assert e.begin == args[i].begin && e.end == args[i].begin + args[i].size by { LeakedRange(args, bases, i); }
    BeginAllWellFormed(p, s, args);
    BuildRefused(p, s1, args, bases, i);
    TargetEntries(p, k, s, args);
    RefusedFails(p, k, s, args);
    PrivatesInRange(p, s1, args, bases, i);
    LaunchEntries(k, b');
    FreeIsRun(Launch(k, b').0, args, b'.privates);
    FreeMisses(e, b.env.entries, s1.entries, args, b.privates);
    HeadSurvives(e, b.env.entries, FreeOps(args, b.privates));
    FreeIsRun(b.env, args, b.privates);
    FreeAll(b.env, s1.entries, args, b.privates);
    EndAllIsRun(FreePrivates(Launch(k, b').0, args, b'.privates).0, args);
    EndMisses(e, args, |args|);
    HeadSurvives(e, s1.entries, EndFirstOps(args, |args|));
    EndAllIsRun(s1, args);
    RegionUndone(p, s, args);
  }

  lemma LeakedRange(args: seq<Arg>, bases: seq<int>, i: nat)
    requires i < |args| == |bases|
    ensures Leaked(args, bases, i).begin == args[i].begin && Leaked(args, bases, i).end == args[i].begin + args[i].size
  {
  }

  lemma BeginAllWellFormed(p: Plugin, s: Env, args: seq<Arg>)
    requires ArgsValid(args) && WellFormed(s.entries)
    ensures WellFormed(DataBegin(p, s, args).0.entries)
  {
    hide BeginFirst, WellFormed;
    BeginWellFormed(p, s, args, |args|);
  }

  lemma EndAllIsRun(t: Env, args: seq<Arg>)
    requires ArgsValid(args)
    ensures DataEnd(t, args).0.entries == MapInvariant.Run(t.entries, EndFirstOps(args, |args|))
  {
    hide EndFirst, MapInvariant.Run;
    EndIsRun(t, args, |args|);
  }

  lemma RegionUndone(p: Plugin, s: Env, args: seq<Arg>)
    requires ArgsValid(args) && WellFormed(s.entries) && ArgsRoundTrip(p, s, args, |args|)
    ensures DataEnd(DataBegin(p, s, args).0, args).0.entries == s.entries
  {
    hide BeginFirst, EndFirst, ArgsRoundTrip;
    ConsequenceOfWellFormed(s.entries);
    EndUndoesBegin(p, s, args, |args|, DataBegin(p, s, args).0);
  }

  lemma RefusedFails(p: Plugin, k: Kernel, s: Env, args: seq<Arg>)
    requires ArgsValid(args) && DataBegin(p, s, args).1
    requires !BuildFirst(p, DataBegin(p, s, args).0, args, Bases(p, s, args), |args|).ok
    ensures !Target(p, k, s, args).1
  {
    hide DataBegin, DataEnd, BuildFirst, FreePrivates, Bases;
  }

  // ------------------------------------------------------------- the exact condition

  // No refused copy would be met by a mapped argument.
  ghost predicate PrivatesClear(p: Plugin, s: Env, args: seq<Arg>)
    requires ArgsValid(args)
  {
    forall i :: 0 <= i < |args| && args[i].ty.isPrivate ==> Unnoticed(Leaked(args, Bases(p, s, args), i), args)
  }

  ghost predicate NoneRefused(p: Plugin, s: Env, args: seq<Arg>, bases: seq<int>)
    requires |args| == |bases| && ArgsValid(args)
  {
    forall i :: 0 <= i < |args| && args[i].ty.memberOf < |args| ==> !RefusedAt(p, s, args, bases, i)
  }

  lemma {:induction false} NoneRefusedGranted(p: Plugin, s: Env, args: seq<Arg>, bases: seq<int>, k: nat)
    requires k <= |args| == |bases| && ArgsValid(args)
    requires PrivatesAbsent(p, s, args, bases, k) && NoneRefused(p, s, args, bases)
    ensures PrivatesGranted(p, s, args, bases, k)
  {
    hide BuildFirst, DataAlloc, Found;
    if k > 0 {
      assert args[k - 1] in args;
      NoneRefusedGranted(p, s, args, bases, k - 1);
      assert !RefusedAt(p, s, args, bases, k - 1);
    }
  }

  lemma RefusedIsPrivate(p: Plugin, s: Env, args: seq<Arg>, bases: seq<int>, i: nat)
    requires i < |args| == |bases| && ArgsValid(args) && args[i].ty.memberOf < |args|
    requires RefusedAt(p, s, args, bases, i)
    ensures args[i].ty.isPrivate
  {
    hide BuildFirst, DataAlloc;
  }

  lemma SomeRefused(p: Plugin, s: Env, args: seq<Arg>, bases: seq<int>) returns (i: nat)
    requires |args| == |bases| && ArgsValid(args) && !NoneRefused(p, s, args, bases)
    ensures i < |args| && args[i].ty.memberOf < |args| && RefusedAt(p, s, args, bases, i)
  {
    hide RefusedAt;
    i :| 0 <= i < |args| && args[i].ty.memberOf < |args| && RefusedAt(p, s, args, bases, i);
  }

  // target() gives the entry list back exactly when its begin fails or no private copy is
  // refused.
  lemma TargetRestoresIff(p: Plugin, k: Kernel, s: Env, args: seq<Arg>)
    requires ArgsValid(args) && WellFormed(s.entries)
    requires ArgsRoundTrip(p, s, args, |args|) && PrivatesNonEmpty(args) && PrivatesClear(p, s, args)
    requires DataBegin(p, s, args).1 ==>
               PrivatesAbsent(p, DataBegin(p, s, args).0, args, Bases(p, s, args), |args|)
    ensures Target(p, k, s, args).0.entries == s.entries <==>
            !DataBegin(p, s, args).1 || NoneRefused(p, DataBegin(p, s, args).0, args, Bases(p, s, args))
  {
    hide *;
    var s1, bases := DataBegin(p, s, args).0, Bases(p, s, args);
    if !DataBegin(p, s, args).1 {
      TargetRestoresMap(p, k, s, args);
    } else if NoneRefused(p, s1, args, bases) {
      NoneRefusedGranted(p, s1, args, bases, |args|);
      TargetRestoresMap(p, k, s, args);
    } else {
      var i := SomeRefused(p, s1, args, bases);
      RefusedIsPrivate(p, s1, args, bases, i);
      assert Unnoticed(Leaked(args, bases, i), args) by { ClearAt(p, s, args, i); }
      RefusedPrivateLeaks(p, k, s, args, i);
      assert |Target(p, k, s, args).0.entries| == 1 + |s.entries|;
    }
  }

  lemma ClearAt(p: Plugin, s: Env, args: seq<Arg>, i: nat)
    requires ArgsValid(args) && PrivatesClear(p, s, args) && i < |args| && args[i].ty.isPrivate
    ensures Unnoticed(Leaked(args, Bases(p, s, args), i), args)
  {
    hide Unnoticed, Bases;
  }

  // ------------------------------------------------------- a private array on its own

  predicate LonePrivate(a: Arg) {
    a.ty.memberOf == -1 && a.ty.isPrivate && a.ty.targetParam && !a.ty.literal
  }

  lemma LoneRegion(p: Plugin, s: Env, a: Arg, t: Env)
    requires LonePrivate(a)
    ensures ArgsValid([a]) && DataBegin(p, s, [a]) == (s, true) && Bases(p, s, [a]) == [a.base]
    ensures DataEnd(t, [a]) == (t, true)
  {
    assert BeginStep(p, s, [a], 0) == Outcome(s, true, a.base);
    assert BeginFirst(p, s, [a], 0) == (s, true);
    assert StateAt(p, s, [a], 0) == s;
    assert EndStep(t, [a], 0) == (t, true);
    assert EndFirst(t, [a], 0) == (t, true);
  }

  lemma LoneBuild(p: Plugin, s: Env, a: Arg)
    requires LonePrivate(a) && ArgsValid([a])
    ensures BuildFirst(p, s, [a], [a.base], 1) == PrivateCopy(p, Build(s, [], [], true), [a], [a.base], 0)
  {
    hide PrivateCopy;
    assert BuildFirst(p, s, [a], [a.base], 0) == Build(s, [], [], true);
    assert !OfPrivateParent([a], 0);
  }

  // What the list is after target() on a private array alone.  If its range is mapped
  // already, the copy is the user's own entry, and the forced release deletes it.
  function LoneResult(p: Plugin, s: Env, a: Arg): Entries {
    var i := Lookup(s.entries, a.begin, a.size);
    if i < |s.entries| then
      if Translate(s.entries[i], a.begin) == 0 then Recount(s.entries, i, s.entries[i].count + 1)
      else Remove(s.entries, i)
    else if a.size > 0 && DataAlloc(p, s, a.size).1 == 0 then
      [Entry(a.base, a.begin, a.begin + a.size, 0, 1)] + s.entries
    else s.entries
  }

  // The copy gets an address unless it was refused, is empty, or its entry has none there.
  lemma LoneAddress(p: Plugin, s: Env, a: Arg)
    ensures var i := Lookup(s.entries, a.begin, a.size);
            var b := PrivateCopy(p, Build(s, [], [], true), [a], [a.base], 0);
            b.privates ==
            if (if i < |s.entries| then Translate(s.entries[i], a.begin) == 0
                else a.size == 0 || NewTgt(p, s, a.size) == 0) then [] else [0]
    ensures Lookup(s.entries, a.begin, a.size) <= |s.entries|
  {
    hide DataAlloc, DataSubmit, Lookup, Flagged;
    var i := Lookup(s.entries, a.begin, a.size);
    if i < |s.entries| {
      FlaggedUsable(s.entries[i], a.begin, a.size);
    }
    assert [] + [0] == [0];
  }

  // Mapping a range and releasing it by force.
  lemma LoneLists(es: Entries, hp: int, base: int, n: nat, tgt: int)
    ensures var i, es' := Lookup(es, hp, n), MapSection(es, hp, base, n, tgt, true, true);
            if i < |es| then es' == Recount(es, i, es[i].count + 1) && UnmapSection(es', hp, n, false, true) == Remove(es, i)
            else if n > 0 then es' == [Entry(base, hp, hp + n, tgt, 1)] + es && UnmapSection(es', hp, n, false, true) == es
            else es' == es
  {
    hide Lookup, Flagged;
    var i := Lookup(es, hp, n);
    if i < |es| {
      FlaggedUsable(es[i], hp, n);
      LookupRecount(es, i, es[i].count + 1, hp, n);
      assert Remove(Recount(es, i, es[i].count + 1), i) == Remove(es, i);
    } else if n > 0 {
      OwnFirst(Entry(base, hp, hp + n, tgt, 1), es, hp, n);
      assert Remove([Entry(base, hp, hp + n, tgt, 1)] + es, 0) == es;
    }
  }

  // The private copy and its release.
  lemma LoneCopy(p: Plugin, s: Env, a: Arg, t: Env)
    requires t.entries == PrivateCopy(p, Build(s, [], [], true), [a], [a.base], 0).env.entries
    ensures var b := PrivateCopy(p, Build(s, [], [], true), [a], [a.base], 0);
            (b.privates == [] ==> b.env.entries == LoneResult(p, s, a)) &&
            (b.privates != [] ==> b.privates == [0] && Dealloc(t, a.begin, a.size, true).0.entries == LoneResult(p, s, a))
  {
    hide PrivateCopy, DataAlloc, Dealloc, Lookup, Flagged, MapSection, UnmapSection;
    var b := Build(s, [], [], true);
    PrivateCopyEntries(p, b, [a], [a.base], 0);
    LoneAddress(p, s, a);
    LoneLists(s.entries, a.begin, a.base, a.size, NewTgt(p, s, a.size));
    DeallocEntries(t, a.begin, a.size);
  }

  // An implicit extension may use whatever it meets.
  lemma FlaggedUsable(e: Entry, hp: int, n: nat)
    requires Flagged(e, hp, n)
    ensures Usable(e, hp, n, true)
  {
  }

  lemma OwnFirst(e: Entry, es: Entries, hp: int, n: nat)
    requires e.begin == hp && e.end == hp + n && n > 0
    ensures Lookup([e] + es, hp, n) == 0
  {
    assert Flagged(e, hp, n);
  }

  lemma FreeOnly(s: Env, a: Arg)
    ensures FreePrivates(s, [a], [0]).0 == Dealloc(s, a.begin, a.size, true).0
  {
    hide Dealloc;
    FreeNone(Dealloc(s, a.begin, a.size, true).0, [a]);
    assert [0][1..] == [];
  }

  // Exactly what target() does to the list for a private array alone, mapped or not,
  // granted or refused, whatever the kernel and the transfers do.
  lemma LonePrivateExact(p: Plugin, k: Kernel, s: Env, a: Arg)
    requires LonePrivate(a)
    ensures ArgsValid([a]) && Target(p, k, s, [a]).0.entries == LoneResult(p, s, a)
  {
    hide *;
    var b := PrivateCopy(p, Build(s, [], [], true), [a], [a.base], 0);
    var t := Launch(k, b).0;
    LoneRegion(p, s, a, s);
    LoneBuild(p, s, a);
    TargetEntries(p, k, s, [a]);
    LaunchEntries(k, b);
    LoneCopy(p, s, a, t);
    if b.privates == [] {
      FreeNone(t, [a]);
      LoneRegion(p, s, a, t);
    } else {
      FreeOnly(t, a);
      LoneRegion(p, s, a, Dealloc(t, a.begin, a.size, true).0);
    }
  }

  // So it gives the list back exactly if its range is unmapped and not refused.
  lemma LonePrivateRestoresIff(p: Plugin, k: Kernel, s: Env, a: Arg)
    requires LonePrivate(a)
    ensures ArgsValid([a])
    ensures Target(p, k, s, [a]).0.entries == s.entries <==>
            !Found(s.entries, a.begin, a.size) && (a.size > 0 ==> DataAlloc(p, s, a.size).1 != 0)
  {
    LonePrivateExact(p, k, s, a);
    hide Target, DataAlloc, ArgsValid, Flagged;
    var i := Lookup(s.entries, a.begin, a.size);
    if i < |s.entries| {
      assert Recount(s.entries, i, s.entries[i].count + 1)[i] != s.entries[i];
    }
  }
}
