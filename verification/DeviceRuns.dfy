/** The device blocks over whole runs. */
module DeviceRuns {
  // In every reachable state translation is injective and lands in allocated memory.

  import opened Memory
  import opened DeviceMap
  import opened DataEnvironment
  import opened MapInverse
  import opened MapInvariant
  import opened DeviceBlocks
  import opened TargetRegion
  import ShadowPointers

  // What a caller owes in state s: associated memory is the user's own, allocated and
  // used by no entry; neither computation nor a kernel allocates.
  ghost predicate Owed(s: Env, c: Call) {
    match c
    case BeginCall(args) => ArgsValid(args)
    case EndCall(args) => ArgsValid(args)
    case UpdateCall(args) => true
    case TargetCall(args, kernel) => ArgsValid(args) && KeepsAllocation(kernel)
    case AssociateCall(hp, tgt, n) =>
      && n > 0 && tgt != 0 && Allocated(s.dev, tgt, n)
      && (FindBegin(s.entries, hp) == |s.entries| ==> !Found(s.entries, hp, n))
      && (forall b :: b in s.blocks ==> Apart(b, s.blocks[b], tgt, n))
      && (forall f :: f in s.entries && f.tgt != 0 ==> Apart(f.tgt, Length(f), tgt, n))
    case DisassociateCall(hp) => true
    case ComputeCall(host, dev) => dev.Keys == s.dev.Keys
  }

  ghost predicate KeepsAllocation(k: Kernel) {
    forall dev: Mem, ps: seq<Param> {:trigger k.run(dev, ps)} :: k.run(dev, ps).0.Keys == dev.Keys
  }

  ghost predicate AllOwed(p: Plugin, s: Env, cs: seq<Call>)
    decreases |cs|
  {
    cs == [] || (AllOwed(p, s, cs[..|cs| - 1]) && AllCallsValid(cs[..|cs| - 1])
                 && Owed(PerformAll(p, s, cs[..|cs| - 1]), cs[|cs| - 1]))
  }

  ghost predicate AllCallsValid(cs: seq<Call>) {
    forall c :: c in cs ==> CallValid(c)
  }

  lemma SubsetOk(s: Env, es: Entries, i: nat)
    requires DeviceOk(s) && i < |s.entries| && es == Remove(s.entries, i)
    ensures DeviceOk(s.(entries := es))
  {
    RemoveWellFormed(s.entries, i);
    forall e | e in es ensures Backed(e, s.dev, s.blocks) {
      assert e in s.entries;
    }
    forall j, k | 0 <= j < k < |es| && es[j].tgt != 0 && es[k].tgt != 0
      ensures Apart(es[j].tgt, Length(es[j]), es[k].tgt, Length(es[k])) {
      var j', k' := if j < i then j else j + 1, if k < i then k else k + 1;
      assert es[j] == s.entries[j'] && es[k] == s.entries[k'];
    }
  }

  lemma {:induction false} RestoreDeviceBlocks(s: Env, sh: seq<Shadow>)
    ensures RestoreDevice(s, sh).blocks == s.blocks
    decreases |sh|
  {
    if sh != [] {
      RestoreDeviceBlocks(SubmitPointer(s, sh[0].tgtAddr, sh[0].tgtVal).0, sh[1..]);
    }
  }

  lemma SubmitKeys(s: Env, tgt: int, hst: int, n: nat)
    ensures var t := DataSubmit(s, tgt, hst, n).0;
      t.dev.Keys == s.dev.Keys && t.entries == s.entries && t.blocks == s.blocks
  {
  }

  lemma AfterFromKeys(s: Env, a: Arg)
    ensures var t := AfterFrom(s, a);
      t.dev == s.dev && t.entries == s.entries && t.blocks == s.blocks
  {
    hide GetTgtPtr, InRange, RestoreHost;
  }

  lemma UpdateStepSame(s: Env, a: Arg)
    ensures var t := UpdateStep(s, a);
      t.dev.Keys == s.dev.Keys && t.entries == s.entries && t.blocks == s.blocks
  {
    hide GetTgtPtr, InRange, RestoreDevice, RestoreHost, DataSubmit, AfterFrom;
    var sh := InRange(s.shadows, a.begin, a.begin + a.size);
    var tp := GetTgtPtr(s, a.begin, a.size, false).1;
    AfterFromKeys(s, a);
    SubmitKeys(AfterFrom(s, a), tp, a.begin, a.size);
    var s1 := DataSubmit(AfterFrom(s, a), tp, a.begin, a.size).0;
    ShadowPointers.RestoreDeviceKeys(s1, sh);
    RestoreDeviceEntries(s1, sh);
    RestoreDeviceBlocks(s1, sh);
  }

  lemma UpdateStepOk(s: Env, a: Arg)
    requires DeviceOk(s)
    ensures DeviceOk(UpdateStep(s, a))
  {
    hide DeviceOk, UpdateStep;
    UpdateStepSame(s, a);
    SameKeysOk(s, UpdateStep(s, a));
  }

  lemma {:induction false} UpdateOk(s: Env, args: seq<Arg>)
    requires DeviceOk(s)
    ensures DeviceOk(DataUpdate(s, args))
    decreases |args|
  {
    hide DeviceOk, UpdateStep;
    if args != [] {
      UpdateStepOk(s, args[0]);
      UpdateOk(UpdateStep(s, args[0]), args[1..]);
    }
  }

  lemma PrivateCopyOk(p: Plugin, b: Build, args: seq<Arg>, bases: seq<int>, i: nat)
    requires Honest(p) && DeviceOk(b.env) && i < |args| == |bases|
    ensures DeviceOk(PrivateCopy(p, b, args, bases, i).env)
  {
    hide DeviceOk, Honest, GetOrAlloc, DataSubmit;
    var a := args[i];
    GetOrAllocOk(p, b.env, a.begin, bases[i], a.size, true, true);
    var (s1, tp, _) := GetOrAlloc(p, b.env, a.begin, bases[i], a.size, true, true);
    SubmitKeys(s1, tp, a.begin, a.size);
    SameKeysOk(s1, DataSubmit(s1, tp, a.begin, a.size).0);
  }

  lemma BuildStepOk(p: Plugin, b: Build, args: seq<Arg>, bases: seq<int>, i: nat)
    requires Honest(p) && DeviceOk(b.env) && i < |args| == |bases| && args[i].ty.memberOf < |args|
    ensures DeviceOk(BuildStep(p, b, args, bases, i).env)
  {
    hide DeviceOk, Honest, GetTgtPtr, PrivateCopy, SubmitPointer;
    PrivateCopyOk(p, b, args, bases, i);
    if OfPrivateParent(args, i) {
      SameKeysOk(b.env, BuildStep(p, b, args, bases, i).env);
    }
  }

  lemma {:induction false} BuildOk(p: Plugin, s: Env, args: seq<Arg>, bases: seq<int>, k: nat)
    requires Honest(p) && DeviceOk(s) && k <= |args| == |bases| && ArgsValid(args)
    ensures DeviceOk(BuildFirst(p, s, args, bases, k).env)
  {
    hide DeviceOk, Honest, BuildStep;
    if k > 0 {
      BuildOk(p, s, args, bases, k - 1);
      assert args[k - 1] in args;
      BuildStepOk(p, BuildFirst(p, s, args, bases, k - 1), args, bases, k - 1);
    }
  }

  lemma {:induction false} FreeOk(s: Env, args: seq<Arg>, privates: seq<nat>)
    requires DeviceOk(s) && forall i :: i in privates ==> i < |args|
    ensures DeviceOk(FreePrivates(s, args, privates).0)
    decreases |privates|
  {
    hide DeviceOk, Dealloc;
    if privates != [] {
      assert privates[0] in privates && forall i :: i in privates[1..] ==> i in privates;
      var a := args[privates[0]];
      DeallocOk(s, a.begin, a.size, true);
      FreeOk(Dealloc(s, a.begin, a.size, true).0, args, privates[1..]);
    }
  }

  lemma LaunchOk(k: Kernel, b: Build)
    requires DeviceOk(b.env) && KeepsAllocation(k)
    ensures DeviceOk(Launch(k, b).0)
  {
    hide DeviceOk;
    SameKeysOk(b.env, Launch(k, b).0);
  }

  // target() keeps the blocks sound on every path: refused copies, failed transfers and
  // failing kernels included.
  lemma TargetOk(p: Plugin, k: Kernel, s: Env, args: seq<Arg>)
    requires Honest(p) && DeviceOk(s) && ArgsValid(args) && KeepsAllocation(k)
    ensures DeviceOk(Target(p, k, s, args).0)
  {
    hide DeviceOk, Honest, BeginFirst, EndFirst, Bases, BuildFirst, Launch, FreePrivates, Target, KeepsAllocation;
    var s1 := DataBegin(p, s, args).0;
    var bases := Bases(p, s, args);
    var b := BuildFirst(p, s1, args, bases, |args|);
    TargetEntries(p, k, s, args);
    BeginOk(p, s, args, |args|);
    EndOk(s1, args, |args|);
    BuildOk(p, s1, args, bases, |args|);
    LaunchOk(k, b);
    FreeOk(Launch(k, b).0, args, b.privates);
    EndOk(FreePrivates(Launch(k, b).0, args, b.privates).0, args, |args|);
  }

  lemma PerformOk(p: Plugin, s: Env, c: Call)
    requires Honest(p) && DeviceOk(s) && CallValid(c) && Owed(s, c)
    ensures DeviceOk(Perform(p, s, c))
  {
    hide DeviceOk, Target, KeepsAllocation, Honest;
    match c
    case BeginCall(args) => BeginOk(p, s, args, |args|);
    case EndCall(args) => EndOk(s, args, |args|);
    case UpdateCall(args) => UpdateOk(s, args);
    case TargetCall(args, kernel) => TargetOk(p, kernel, s, args);
    case AssociateCall(hp, tgt, n) => AssociateOk(s, hp, tgt, n);
    case DisassociateCall(hp) =>
      var i := FindBegin(s.entries, hp);
      if i < |s.entries| && ConsideredInf(s.entries[i].count) {
        SubsetOk(s, Remove(s.entries, i), i);
      }
    case ComputeCall(host, dev) => SameKeysOk(s, Perform(p, s, c));
  }

  // The blocks stay sound in every run.
  lemma {:induction false} RunOk(p: Plugin, s: Env, cs: seq<Call>)
    requires Honest(p) && DeviceOk(s) && AllCallsValid(cs) && AllOwed(p, s, cs)
    ensures DeviceOk(PerformAll(p, s, cs))
    decreases |cs|
  {
    hide DeviceOk, Perform, Owed;
    if cs != [] {
      RunOk(p, s, cs[..|cs| - 1]);
      PerformOk(p, PerformAll(p, s, cs[..|cs| - 1]), cs[|cs| - 1]);
    }
  }

  // In every reachable state distinct mapped host bytes have distinct device addresses,
  // and these are allocated.
  lemma TranslationReachable(p: Plugin, s: Env, cs: seq<Call>, e: Entry, f: Entry, x: int, y: int)
    requires Honest(p) && DeviceOk(s) && AllCallsValid(cs) && AllOwed(p, s, cs)
    requires e in PerformAll(p, s, cs).entries && f in PerformAll(p, s, cs).entries && e.tgt != 0 && f.tgt != 0
    requires Holds(e, x) && Holds(f, y)
    ensures Translate(e, x) == Translate(f, y) ==> x == y
    ensures Translate(e, x) in PerformAll(p, s, cs).dev
  {
    hide DeviceOk, PerformAll, Translate, Holds, Honest, AllOwed;
    RunOk(p, s, cs);
    TranslationAllocated(PerformAll(p, s, cs), e, x);
    if Translate(e, x) == Translate(f, y) {
      TranslationInjective(PerformAll(p, s, cs), e, f, x, y);
    }
  }
}
