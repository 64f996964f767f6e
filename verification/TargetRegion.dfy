/** target(): map the arguments, run the kernel, release private copies and unmap. */
module TargetRegion {
  // Whatever happens on the way, the map comes back unchanged, unless the device
  // refuses a private copy.

  import opened Memory
  import opened DeviceMap
  import opened DataEnvironment
  import opened MapInverse
  import opened TransferRuns
  import opened TransferOnce

  // What the kernel receives: an address with the offset back to the base the program
  // indexes from, or (isValue) a by-value argument.
  datatype Param = Param(ptr: int, offset: int, size: nat, isValue: bool)

  // run_region: the device memory afterwards and success.
  datatype Kernel = Kernel(run: (Mem, seq<Param>) -> (Mem, bool))

  // The values target_data_begin leaves in args_base.
  function Bases(p: Plugin, s: Env, args: seq<Arg>): (b: seq<int>)
    requires ArgsValid(args)
    ensures |b| == |args|
  {
    seq(|args|, i requires 0 <= i < |args| =>
      assert args[i] in args;
      BeginStep(p, StateAt(p, s, args, i), args, i).base)
  }

  // Target arguments collected so far; ok is false once a step failed.
  datatype Build = Build(env: Env, params: seq<Param>, privates: seq<nat>, ok: bool)

  predicate OfPrivateParent(args: seq<Arg>, i: nat)
    requires i < |args| && args[i].ty.memberOf < |args|
  {
    Member(args[i]) && args[args[i].ty.memberOf].ty.isPrivate
  }

  // Does argument i get a private copy on the device?
  predicate MakesPrivate(args: seq<Arg>, i: nat)
    requires i < |args| && args[i].ty.memberOf < |args|
  {
    !OfPrivateParent(args, i) && args[i].ty.targetParam && !args[i].ty.literal && args[i].ty.isPrivate
  }

  function PrivateCopy(p: Plugin, b: Build, args: seq<Arg>, bases: seq<int>, i: nat): Build
    requires i < |args| == |bases|
  {
    var a := args[i];
    var (s1, tp, _) := GetOrAlloc(p, b.env, a.begin, bases[i], a.size, true, true);
    if tp == 0 then Build(s1, b.params, b.privates, false) else
    var (s2, ok) := if a.ty.to then DataSubmit(s1, tp, a.begin, a.size) else (s1, true);
    Build(s2, if ok then b.params + [Param(tp, bases[i] - a.begin, a.size, false)] else b.params,
          b.privates + [i], ok)
  }

  function BuildStep(p: Plugin, b: Build, args: seq<Arg>, bases: seq<int>, i: nat): Build
    requires i < |args| == |bases| && args[i].ty.memberOf < |args|
  {
    var a := args[i];
    if OfPrivateParent(args, i) then
      var parent := args[a.ty.memberOf];
      var slot := GetTgtPtr(b.env, parent.begin, parent.size, false).1 + (bases[i] - bases[a.ty.memberOf]);
      var tp := GetTgtPtr(b.env, a.begin, a.size, false).1;
      var (s', ok) := SubmitPointer(b.env, slot, tp);
      Build(s', b.params, b.privates, ok)
    else if !a.ty.targetParam then b
    else if a.ty.literal then
      b.(params := b.params + [Param(bases[i], 0, a.size, true)])
    else if a.ty.isPrivate then
      PrivateCopy(p, b, args, bases, i)
    else if a.ty.ptrAndObj then
      b.(params := b.params + [Param(GetTgtPtr(b.env, bases[i], PTR_BYTES, false).1, 0, a.size, false)])
    else
      b.(params := b.params + [Param(GetTgtPtr(b.env, a.begin, a.size, false).1, bases[i] - a.begin, a.size, false)])
  }

  // The loop stops at the first failure.
  function BuildFirst(p: Plugin, s: Env, args: seq<Arg>, bases: seq<int>, k: nat): Build
    requires k <= |args| == |bases| && ArgsValid(args)
  {
    if k == 0 then Build(s, [], [], true) else
    var b := BuildFirst(p, s, args, bases, k - 1);
    if b.ok then BuildStep(p, b, args, bases, k - 1) else b
  }

  function FreePrivates(s: Env, args: seq<Arg>, privates: seq<nat>): (Env, bool)
    requires forall i :: i in privates ==> i < |args|
    decreases |privates|
  {
    if privates == [] then (s, true) else
    assert privates[0] in privates && forall i :: i in privates[1..] ==> i in privates;
    var a := args[privates[0]];
    var (s', ok) := Dealloc(s, a.begin, a.size, true);
    var (s'', ok') := FreePrivates(s', args, privates[1..]);
    (s'', ok && ok')
  }

  function Launch(k: Kernel, b: Build): (Env, bool) {
    if b.ok then var (dev, ok) := k.run(b.env.dev, b.params); (b.env.(dev := dev), ok)
    else (b.env, false)
  }

  lemma {:induction false} PrivatesInRange(p: Plugin, s: Env, args: seq<Arg>, bases: seq<int>, k: nat)
    requires k <= |args| == |bases| && ArgsValid(args)
    ensures forall i :: i in BuildFirst(p, s, args, bases, k).privates ==> i < k
  {
    if k > 0 {
      PrivatesInRange(p, s, args, bases, k - 1);
      assert args[k - 1] in args;
    }
  }

  function Target(p: Plugin, k: Kernel, s: Env, args: seq<Arg>): (Env, bool)
    requires ArgsValid(args)
  {
    var (s1, ok1) := DataBegin(p, s, args);
    if !ok1 then (DataEnd(s1, args).0, false) else
    var b := BuildFirst(p, s1, args, Bases(p, s, args), |args|);
    var (s2, ok2) := Launch(k, b);
    PrivatesInRange(p, s1, args, Bases(p, s, args), |args|);
    var (s3, ok3) := FreePrivates(s2, args, b.privates);
    var (s4, ok4) := DataEnd(s3, args);
    (s4, ok2 && ok3 && ok4)
  }

  // A failed step ends the loop: the result no longer changes.
  lemma {:induction false} BuildStopped(p: Plugin, s: Env, args: seq<Arg>, bases: seq<int>, i: nat, k: nat)
    requires i <= k <= |args| == |bases| && ArgsValid(args)
    requires i < k ==> !BuildFirst(p, s, args, bases, i).ok
    ensures BuildFirst(p, s, args, bases, k) == BuildFirst(p, s, args, bases, i)
  {
    hide BuildStep;
    if i < k {
      BuildStopped(p, s, args, bases, i, k - 1);
    }
  }

  // --------------------------------------------------------------- the private copies

  // es is base with one new entry in front per private argument, the last made first.
  ghost predicate Stacked(es: Entries, base: Entries, args: seq<Arg>, privates: seq<nat>) {
    && |es| == |privates| + |base| && es[|privates|..] == base
    && forall j | 0 <= j < |privates| ::
         privates[j] < |args| &&
         es[|privates| - 1 - j].begin == args[privates[j]].begin &&
         es[|privates| - 1 - j].end == args[privates[j]].begin + args[privates[j]].size
  }

  // Every private argument, at its turn, is unmapped and gets its copy.
  ghost predicate PrivatesGranted(p: Plugin, s: Env, args: seq<Arg>, bases: seq<int>, k: nat)
    requires k <= |args| == |bases| && ArgsValid(args)
  {
    k == 0 ||
    (PrivatesGranted(p, s, args, bases, k - 1) &&
     var b := BuildFirst(p, s, args, bases, k - 1);
     b.ok && MakesPrivate(args, k - 1) ==>
       !Found(b.env.entries, args[k - 1].begin, args[k - 1].size) && DataAlloc(p, b.env, args[k - 1].size).1 != 0)
  }

  lemma PrivateCopyStacked(p: Plugin, b: Build, base: Entries, args: seq<Arg>, bases: seq<int>, i: nat)
    requires i < |args| == |bases| && WellFormed(b.env.entries) && Stacked(b.env.entries, base, args, b.privates)
    requires args[i].size > 0
    requires !Found(b.env.entries, args[i].begin, args[i].size) && DataAlloc(p, b.env, args[i].size).1 != 0
    ensures var b' := PrivateCopy(p, b, args, bases, i);
            WellFormed(b'.env.entries) && Stacked(b'.env.entries, base, args, b'.privates)
  {
    hide WellFormed, PrivateCopy, DataAlloc, Found, Overlap;
    var a := args[i];
    var e := Entry(bases[i], a.begin, a.begin + a.size, DataAlloc(p, b.env, a.size).1, 1);
    PrivateCopyPushes(p, b, args, bases, i);
    PushWellFormed(b.env.entries, e);
    StackGrows(b.env.entries, base, args, b.privates, i, e);
  }

  lemma PrivateCopyPushes(p: Plugin, b: Build, args: seq<Arg>, bases: seq<int>, i: nat)
    requires i < |args| == |bases| && args[i].size > 0
    requires !Found(b.env.entries, args[i].begin, args[i].size) && DataAlloc(p, b.env, args[i].size).1 != 0
    ensures var b' := PrivateCopy(p, b, args, bases, i);
            var e := Entry(bases[i], args[i].begin, args[i].begin + args[i].size,
                           DataAlloc(p, b.env, args[i].size).1, 1);
            b'.env.entries == [e] + b.env.entries && b'.privates == b.privates + [i]
  {
    hide DataAlloc, WellFormed;
  }

  lemma StackGrows(es: Entries, base: Entries, args: seq<Arg>, privates: seq<nat>, i: nat, e: Entry)
    requires Stacked(es, base, args, privates) && i < |args|
    requires e.begin == args[i].begin && e.end == args[i].begin + args[i].size
    ensures Stacked([e] + es, base, args, privates + [i])
  {
    assert ([e] + es)[|privates| + 1..] == es[|privates|..];
  }

  predicate PrivatesNonEmpty(args: seq<Arg>) {
    forall i | 0 <= i < |args| && args[i].ty.isPrivate :: args[i].size > 0
  }

  ghost predicate CopiesOnTop(b: Build, base: Entries, args: seq<Arg>) {
    WellFormed(b.env.entries) && Stacked(b.env.entries, base, args, b.privates)
  }

  lemma {:induction false} BuildStacked(p: Plugin, s: Env, args: seq<Arg>, bases: seq<int>, k: nat)
    requires k <= |args| == |bases| && ArgsValid(args) && WellFormed(s.entries)
    requires PrivatesGranted(p, s, args, bases, k) && PrivatesNonEmpty(args)
    ensures CopiesOnTop(BuildFirst(p, s, args, bases, k), s.entries, args)
  {
    hide *;
    if k == 0 {
      StackedZero(p, s, args, bases);
    } else {
      GrantedBefore(p, s, args, bases, k);
      BuildStacked(p, s, args, bases, k - 1);
      NextBuild(p, s, args, bases, k);
      var b := BuildFirst(p, s, args, bases, k - 1);
      if b.ok {
        StackedNext(p, b, s.entries, args, bases, k - 1);
      }
    }
  }

  lemma StackedZero(p: Plugin, s: Env, args: seq<Arg>, bases: seq<int>)
    requires |args| == |bases| && ArgsValid(args) && WellFormed(s.entries)
    ensures CopiesOnTop(BuildFirst(p, s, args, bases, 0), s.entries, args)
  {
    hide WellFormed;
  }

  lemma GrantedBefore(p: Plugin, s: Env, args: seq<Arg>, bases: seq<int>, k: nat)
    requires 0 < k <= |args| == |bases| && ArgsValid(args) && PrivatesGranted(p, s, args, bases, k)
    ensures PrivatesGranted(p, s, args, bases, k - 1)
    ensures args[k - 1].ty.memberOf < |args|
    ensures var b := BuildFirst(p, s, args, bases, k - 1);
            b.ok && MakesPrivate(args, k - 1) ==>
              !Found(b.env.entries, args[k - 1].begin, args[k - 1].size) &&
              DataAlloc(p, b.env, args[k - 1].size).1 != 0
  {
    hide BuildFirst, DataAlloc, Found;
    assert args[k - 1] in args;
  }

  lemma BuildStepEntries(p: Plugin, b: Build, args: seq<Arg>, bases: seq<int>, i: nat)
    requires i < |args| == |bases| && args[i].ty.memberOf < |args|
    ensures if MakesPrivate(args, i) then BuildStep(p, b, args, bases, i) == PrivateCopy(p, b, args, bases, i)
            else BuildStep(p, b, args, bases, i).env.entries == b.env.entries &&
                 BuildStep(p, b, args, bases, i).privates == b.privates
  {
    hide PrivateCopy, GetTgtPtr;
  }

  lemma NextBuild(p: Plugin, s: Env, args: seq<Arg>, bases: seq<int>, k: nat)
    requires 0 < k <= |args| == |bases| && ArgsValid(args)
    ensures args[k - 1].ty.memberOf < |args|
    ensures var b := BuildFirst(p, s, args, bases, k - 1);
            BuildFirst(p, s, args, bases, k) == if b.ok then BuildStep(p, b, args, bases, k - 1) else b
  {
    hide BuildStep;
    assert args[k - 1] in args;
  }

  lemma StackedNext(p: Plugin, b: Build, base: Entries, args: seq<Arg>, bases: seq<int>, i: nat)
    requires i < |args| == |bases| && args[i].ty.memberOf < |args| && PrivatesNonEmpty(args)
    requires CopiesOnTop(b, base, args)
    requires MakesPrivate(args, i) ==>
               !Found(b.env.entries, args[i].begin, args[i].size) && DataAlloc(p, b.env, args[i].size).1 != 0
    ensures CopiesOnTop(BuildStep(p, b, args, bases, i), base, args)
  {
    BuildStepEntries(p, b, args, bases, i);
    PrivateNonEmpty(args, i);
    hide Stacked, WellFormed, BuildStep, MakesPrivate, Found, DataAlloc;
    if MakesPrivate(args, i) {
      PrivateCopyStacked(p, b, base, args, bases, i);
    }
  }

  lemma PrivateNonEmpty(args: seq<Arg>, i: nat)
    requires i < |args| && PrivatesNonEmpty(args) && args[i].ty.memberOf < |args|
    ensures MakesPrivate(args, i) ==> args[i].size > 0
  {
  }

  lemma FirstCopyFound(es: Entries, base: Entries, args: seq<Arg>, privates: seq<nat>)
    requires privates != [] && WellFormed(es) && Stacked(es, base, args, privates)
    ensures var a := args[privates[0]];
            Lookup(es, a.begin, a.size) == |privates| - 1
  {
    var i := |privates| - 1;
    var a := args[privates[0]];
    assert es[i].begin == a.begin && es[i].end == a.begin + a.size;
    assert es[i] in es && Contained(es[i], a.begin, a.size);
    forall j | 0 <= j < i ensures !Flagged(es[j], a.begin, a.size) {
      assert !Overlap(es[j], es[i]);
    }
    LookupIs(es, a.begin, a.size, i);
  }

  lemma StackedWithout(es: Entries, base: Entries, args: seq<Arg>, privates: seq<nat>)
    requires privates != [] && Stacked(es, base, args, privates)
    ensures Stacked(Remove(es, |privates| - 1), base, args, privates[1..])
  {
    var es' := Remove(es, |privates| - 1);
    var rest := privates[1..];
    forall j | 0 <= j < |rest|
      ensures rest[j] < |args| && es'[|rest| - 1 - j].begin == args[rest[j]].begin &&
              es'[|rest| - 1 - j].end == args[rest[j]].begin + args[rest[j]].size
    {
      assert rest[j] == privates[j + 1];
    }
    assert es'[|rest|..] == base;
  }

  lemma FreeOne(s: Env, base: Entries, args: seq<Arg>, privates: seq<nat>)
    requires privates != [] && WellFormed(s.entries) && Stacked(s.entries, base, args, privates)
    requires privates[0] < |args|
    ensures var s' := Dealloc(s, args[privates[0]].begin, args[privates[0]].size, true).0;
            WellFormed(s'.entries) && Stacked(s'.entries, base, args, privates[1..])
  {
    FirstCopyFound(s.entries, base, args, privates);
    assert |privates| - 1 < |s.entries|;
    hide WellFormed, Stacked, Lookup, Remove, DataDelete;
    RemoveWellFormed(s.entries, |privates| - 1);
    StackedWithout(s.entries, base, args, privates);
  }

  lemma {:induction false} FreeAll(s: Env, base: Entries, args: seq<Arg>, privates: seq<nat>)
    requires WellFormed(s.entries) && Stacked(s.entries, base, args, privates)
    requires forall i :: i in privates ==> i < |args|
    ensures FreePrivates(s, args, privates).0.entries == base
    decreases |privates|
  {
    hide WellFormed, Dealloc;
    if privates == [] {
      assert s.entries[0..] == s.entries;
    } else {
      FreeOne(s, base, args, privates);
      FreeAll(Dealloc(s, args[privates[0]].begin, args[privates[0]].size, true).0, base, args, privates[1..]);
    }
  }

  lemma LaunchEntries(k: Kernel, b: Build)
    ensures Launch(k, b).0.entries == b.env.entries
  {
  }

  lemma GetOrAllocWellFormed(p: Plugin, s: Env, hp: int, base: int, n: nat, implicit: bool, update: bool)
    requires WellFormed(s.entries)
    ensures WellFormed(GetOrAlloc(p, s, hp, base, n, implicit, update).0.entries)
  {
    GetOrAllocEntries(p, s, hp, base, n, implicit, update);
    hide *;
    MapSectionExtends(s.entries, hp, base, n, NewTgt(p, s, n), implicit, update);
  }

  lemma BeginStepWellFormed(p: Plugin, s: Env, args: seq<Arg>, i: nat)
    requires i < |args| && args[i].ty.memberOf < |args| && WellFormed(s.entries)
    ensures WellFormed(BeginStep(p, s, args, i).env.entries)
  {
    hide WellFormed, GetOrAlloc, SendArgument;
    var a := args[i];
    if !Skipped(a) {
      GetOrAllocWellFormed(p, s, a.base, a.base, PTR_BYTES, a.ty.implicit, !Member(a));
      GetOrAllocWellFormed(p, MapSlot(p, s, args, i).0, Begin(args, i), PointeeBase(s.host, a), Size(args, i),
                           a.ty.implicit, !PlainMember(a));
    }
  }

  lemma {:induction false} BeginWellFormed(p: Plugin, s: Env, args: seq<Arg>, k: nat)
    requires k <= |args| && ArgsValid(args) && WellFormed(s.entries)
    ensures WellFormed(BeginFirst(p, s, args, k).0.entries)
  {
    hide WellFormed, BeginStep;
    if k > 0 {
      assert args[k - 1] in args;
      BeginWellFormed(p, s, args, k - 1);
      BeginStepWellFormed(p, BeginFirst(p, s, args, k - 1).0, args, k - 1);
    }
  }

  // Whether the region succeeds, or any transfer, allocation, private copy or the
  // kernel itself fails, the entry list afterwards is the one before.
  lemma TargetRestoresMap(p: Plugin, k: Kernel, s: Env, args: seq<Arg>)
    requires ArgsValid(args) && WellFormed(s.entries)
    requires ArgsRoundTrip(p, s, args, |args|) && PrivatesNonEmpty(args)
    requires var (s1, ok1) := DataBegin(p, s, args);
             ok1 ==> PrivatesGranted(p, s1, args, Bases(p, s, args), |args|)
    ensures Target(p, k, s, args).0.entries == s.entries
  {
    hide WellFormed, BuildFirst, FreePrivates, EndFirst, Launch, ArgsRoundTrip, Bases, BeginFirst;
    ConsequenceOfWellFormed(s.entries);
    BeginWellFormed(p, s, args, |args|);
    var (s1, ok1) := DataBegin(p, s, args);
    if !ok1 {
      EndUndoesBegin(p, s, args, |args|, s1);
    } else {
      var bases := Bases(p, s, args);
      var b := BuildFirst(p, s1, args, bases, |args|);
      var s2 := Launch(k, b).0;
      BuildStacked(p, s1, args, bases, |args|);
      assert Stacked(b.env.entries, s1.entries, args, b.privates);
      LaunchEntries(k, b);
      PrivatesInRange(p, s1, args, bases, |args|);
      FreeAll(s2, s1.entries, args, b.privates);
      EndUndoesBegin(p, s, args, |args|, FreePrivates(s2, args, b.privates).0);
    }
  }

  lemma FreeNone(s: Env, args: seq<Arg>)
    ensures FreePrivates(s, args, []) == (s, true)
  {
  }
}
