/** When target_data_begin, target_data_end and target() report success. */
module ReturnCodes {
  // A transfer succeeds if the plugin makes it in full and its ranges are allocated.

  import opened Memory
  import opened DeviceMap
  import opened DataEnvironment
  import opened MapInverse
  import opened TransferRuns
  import opened TransferOnce
  import opened TargetRegion
  import opened DeviceContents

  predicate InMemory(t: Transfer, host: Mem, dev: Mem) {
    match t
    case Submit(tgt, hst, n) => Allocated(dev, tgt, n) && Allocated(host, hst, n)
    case SubmitPtr(slot, _) => Allocated(dev, slot, PTR_BYTES)
    case Retrieve(hst, tgt, n) => Allocated(dev, tgt, n) && Allocated(host, hst, n)
  }

  // All transfers from number n of the log on have succeeded.
  ghost predicate AllMade(log: seq<Transfer>, n: nat, answers: nat -> Answer, host: Mem, dev: Mem) {
    forall k :: n <= k < |log| ==> answers(k).Whole? && InMemory(log[k], host, dev)
  }

  // The ranges that are allocated are all that matters of the memories.
  lemma MadeSame(log: seq<Transfer>, n: nat, answers: nat -> Answer, host: Mem, dev: Mem, host': Mem, dev': Mem)
    requires host.Keys == host'.Keys && dev.Keys == dev'.Keys
    ensures AllMade(log, n, answers, host, dev) <==> AllMade(log, n, answers, host', dev')
  {
    forall t: Transfer ensures InMemory(t, host, dev) <==> InMemory(t, host', dev') {
      SameKeys(t, host, dev, host', dev');
    }
  }

  lemma SameKeys(t: Transfer, host: Mem, dev: Mem, host': Mem, dev': Mem)
    requires host.Keys == host'.Keys && dev.Keys == dev'.Keys
    ensures InMemory(t, host, dev) <==> InMemory(t, host', dev')
  {
    assert forall x :: x in host <==> x in host';
    assert forall x :: x in dev <==> x in dev';
  }

  lemma NoneMade(log: seq<Transfer>, answers: nat -> Answer, host: Mem, dev: Mem)
    ensures AllMade(log, |log|, answers, host, dev)
  {
  }

  lemma OneMore(log: seq<Transfer>, t: Transfer, n: nat, answers: nat -> Answer, host: Mem, dev: Mem)
    requires n <= |log|
    ensures AllMade(log + [t], n, answers, host, dev) <==>
            AllMade(log, n, answers, host, dev) && answers(|log|).Whole? && InMemory(t, host, dev)
  {
    assert (log + [t])[|log|] == t;
    assert forall k :: n <= k < |log| ==> (log + [t])[k] == log[k];
  }

  // ------------------------------------------------------------- target_data_begin

  lemma SendMade(s: Env, args: seq<Arg>, i: nat, slot: int, base: int, tp: int, isNew: bool)
    requires i < |args| && args[i].ty.memberOf < |args|
    ensures var (t, ok) := SendArgument(s, args, i, slot, base, tp, isNew);
            && t.answers == s.answers && s.log <= t.log
            && (ok <==> AllMade(t.log, |s.log|, s.answers, s.host, s.dev))
  {
    hide *;
    var hp, n := Begin(args, i), Size(args, i);
    var (s1, ok1) := if CopyIn(s.entries, args, i, isNew) then DataSubmit(s, tp, hp, n) else (s, true);
    SendParts(s, args, i, slot, base, tp, isNew);
    NoneMade(s.log, s.answers, s.host, s.dev);
    SubmitMade(s, tp, hp, n);
    if slot != 0 {
      PointerMade(s1, slot, tp - (hp - base), |s.log|);
      MadeSame(s1.log, |s.log|, s.answers, s.host, s.dev, s1.host, s1.dev);
      var t := SubmitPointer(s1, slot, tp - (hp - base)).0;
      MadeSame(t.log, |s.log|, s.answers, s.host, s.dev, s1.host, s1.dev);
    }
  }

  lemma SubmitMade(s: Env, tgt: int, hst: int, n: nat)
    ensures var (t, ok) := DataSubmit(s, tgt, hst, n);
            && t.answers == s.answers && s.log <= t.log && t.host == s.host && t.dev.Keys == s.dev.Keys
            && (ok <==> AllMade(t.log, |s.log|, s.answers, s.host, s.dev))
  {
    NoneMade(s.log, s.answers, s.host, s.dev);
    OneMore(s.log, Submit(tgt, hst, n), |s.log|, s.answers, s.host, s.dev);
    hide AllMade, Read, Write, Allocated;
  }

  lemma PointerMade(s: Env, slot: int, val: int, n: nat)
    requires n <= |s.log|
    ensures var (t, ok) := SubmitPointer(s, slot, val);
            && t.answers == s.answers && s.log <= t.log && t.host == s.host && t.dev.Keys == s.dev.Keys
            && (AllMade(t.log, n, s.answers, s.host, s.dev) <==> AllMade(s.log, n, s.answers, s.host, s.dev) && ok)
  {
    OneMore(s.log, SubmitPtr(slot, val), n, s.answers, s.host, s.dev);
    hide AllMade, PtrBytes, Write, Allocated;
  }

  lemma MapPointeeAnswers(p: Plugin, s: Env, args: seq<Arg>, i: nat)
    requires i < |args| && args[i].ty.memberOf < |args|
    ensures MapPointee(p, s, args, i).0.answers == s.answers && MapPointee(p, s, args, i).0.host == s.host
  {
    var a := args[i];
    GetOrAllocAnswers(p, s, a.base, a.base, PTR_BYTES, a.ty.implicit, !Member(a));
    GetOrAllocAnswers(p, MapSlot(p, s, args, i).0, Begin(args, i), PointeeBase(s.host, a), Size(args, i),
                      a.ty.implicit, !PlainMember(a));
    hide GetOrAlloc, Begin, Size;
  }

  lemma GetOrAllocAnswers(p: Plugin, s: Env, hp: int, base: int, n: nat, implicit: bool, update: bool)
    ensures var t := GetOrAlloc(p, s, hp, base, n, implicit, update).0; t.answers == s.answers && t.host == s.host
  {
    hide Lookup, Usable;
  }

  // One argument is mapped successfully exactly if all of its transfers are made; a refused
  // allocation shows only in them.
  lemma BeginStepOkIff(p: Plugin, s: Env, args: seq<Arg>, i: nat)
    requires i < |args| && args[i].ty.memberOf < |args|
    ensures var o := BeginStep(p, s, args, i);
            && s.log <= o.env.log && o.env.answers == s.answers
            && (o.ok <==> AllMade(o.env.log, |s.log|, s.answers, o.env.host, o.env.dev))
  {
    hide *;
    StepIs(p, s, args, i);
    if Skipped(args[i]) {
      NoneMade(s.log, s.answers, s.host, s.dev);
    } else {
      var (s2, tp, isNew) := MapPointee(p, s, args, i);
      var slot, base := MapSlot(p, s, args, i).1, PointeeBase(s.host, args[i]);
      var t := SendArgument(s2, args, i, slot, base, tp, isNew).0;
      MapPointeeAnswers(p, s, args, i);
      MapPointeeLog(p, s, args, i);
      SendMade(s2, args, i, slot, base, tp, isNew);
      MadeSame(t.log, |s.log|, s.answers, s2.host, s2.dev, t.host, t.dev);
    }
  }

  // Was every transfer made that stands in the log between s and t?
  ghost predicate Made(s: Env, t: Env) {
    AllMade(t.log, |s.log|, t.answers, t.host, t.dev)
  }

  // target_data_begin returns success exactly if, for every argument, every transfer in its
  // part of the log was made.
  lemma BeginOkIff(p: Plugin, s: Env, args: seq<Arg>)
    requires ArgsValid(args)
    ensures DataBegin(p, s, args).1 <==>
            forall i :: 0 <= i < |args| ==> Made(StateAt(p, s, args, i), StateAt(p, s, args, i + 1))
  {
    BeginFirstOkIff(p, s, args, |args|);
    hide BeginFirst, Made, StateAt;
  }

  lemma {:induction false} BeginFirstOkIff(p: Plugin, s: Env, args: seq<Arg>, k: nat)
    requires k <= |args| && ArgsValid(args)
    ensures BeginFirst(p, s, args, k).1 <==>
            forall i :: 0 <= i < k ==> Made(StateAt(p, s, args, i), StateAt(p, s, args, i + 1))
  {
    hide BeginStep, Made, StateAt;
    if k > 0 {
      BeginFirstOkIff(p, s, args, k - 1);
      AtNext(p, s, args, k - 1);
      BeginOkNext(p, s, args, k);
      BeginStepOkIff(p, StateAt(p, s, args, k - 1), args, k - 1);
      MadeMeans(StateAt(p, s, args, k - 1), StateAt(p, s, args, k));
    }
  }

  lemma BeginOkNext(p: Plugin, s: Env, args: seq<Arg>, k: nat)
    requires 0 < k <= |args| && ArgsValid(args)
    ensures args[k - 1].ty.memberOf < |args|
    ensures BeginFirst(p, s, args, k).1 <==>
            BeginFirst(p, s, args, k - 1).1 && BeginStep(p, StateAt(p, s, args, k - 1), args, k - 1).ok
  {
    hide BeginStep;
    assert args[k - 1] in args;
  }

  lemma MadeMeans(s: Env, t: Env)
    ensures Made(s, t) <==> AllMade(t.log, |s.log|, t.answers, t.host, t.dev)
  {
  }

  // --------------------------------------------------------------- target_data_end

  // DELETE of a section that is not mapped.
  predicate DeletesNothing(s: Env, args: seq<Arg>, i: nat)
    requires i < |args| && args[i].ty.memberOf < |args|
  {
    !Skipped(args[i]) && args[i].ty.delete && !PlainMember(args[i]) && !Found(s.entries, Begin(args, i), Size(args, i))
  }

  lemma CopyOutMade(s: Env, args: seq<Arg>, i: nat, tp: int, del: bool)
    requires i < |args| && args[i].ty.memberOf < |args|
    ensures var (t, ok) := CopyOut(s, args, i, tp, del);
            && t.answers == s.answers && s.log <= t.log
            && (ok <==> AllMade(t.log, |s.log|, s.answers, s.host, s.dev))
  {
    hide *;
    NoneMade(s.log, s.answers, s.host, s.dev);
    RetrieveMade(s, Begin(args, i), tp, Size(args, i));
    CopyOutCases(s, args, i, tp, del);
  }

  lemma RetrieveMade(s: Env, hst: int, tgt: int, n: nat)
    ensures var (t, ok) := DataRetrieve(s, hst, tgt, n);
            && t.answers == s.answers && s.log <= t.log
            && (ok <==> AllMade(t.log, |s.log|, s.answers, s.host, s.dev))
  {
    NoneMade(s.log, s.answers, s.host, s.dev);
    OneMore(s.log, Retrieve(hst, tgt, n), |s.log|, s.answers, s.host, s.dev);
    hide AllMade, Read, Write, Allocated;
  }

  lemma CopyOutCases(s: Env, args: seq<Arg>, i: nat, tp: int, del: bool)
    requires i < |args| && args[i].ty.memberOf < |args|
    ensures var (t, ok) := CopyOut(s, args, i, tp, del);
            var (s2, ok2) := if args[i].ty.from && (del || args[i].ty.always || CopyMember(s.entries, args, i))
                             then DataRetrieve(s, Begin(args, i), tp, Size(args, i)) else (s, true);
            t == s2.(host := t.host, shadows := t.shadows) && ok == ok2
  {
    hide DataRetrieve, RestoreHost, InRange, OutOfRange, CopyMember, Begin, Size;
  }

  lemma DeallocOk(s: Env, hp: int, n: nat, force: bool)
    ensures var (t, ok) := Dealloc(s, hp, n, force);
            t.log == s.log && t.answers == s.answers && (ok <==> Found(s.entries, hp, n))
  {
  }

  lemma GetTgtPtrSame(s: Env, hp: int, n: nat, update: bool)
    ensures var (t, tp, isLast) := GetTgtPtr(s, hp, n, update);
            && t.log == s.log && t.answers == s.answers && t.host == s.host && t.dev == s.dev
            && (isLast ==> Found(s.entries, hp, n))
            && (Found(t.entries, hp, n) <==> Found(s.entries, hp, n))
  {
    var i := Lookup(s.entries, hp, n);
    if i < |s.entries| {
      LookupRecount(s.entries, i, s.entries[i].count - 1, hp, n);
    }
    hide Flagged;
  }

  // One argument is unmapped successfully exactly if its transfer is made and it is not
  // asked to delete what is not mapped.
  lemma EndStepOkIff(s: Env, args: seq<Arg>, i: nat)
    requires i < |args| && args[i].ty.memberOf < |args|
    ensures var (t, ok) := EndStep(s, args, i);
            && s.log <= t.log && t.answers == s.answers
            && (ok <==> AllMade(t.log, |s.log|, s.answers, s.host, s.dev) && !DeletesNothing(s, args, i))
  {
    NoneMade(s.log, s.answers, s.host, s.dev);
    var a, hp, n := args[i], Begin(args, i), Size(args, i);
    if !Skipped(a) {
      var (s1, tp, isLast) := GetTgtPtr(s, hp, n, !PlainMember(a));
      var del := (isLast || a.ty.delete) && !PlainMember(a);
      var (s2, ok2) := if a.ty.from || del then CopyOut(s1, args, i, tp, del) else (s1, true);
      GetTgtPtrSame(s, hp, n, !PlainMember(a));
      CopyOutMade(s1, args, i, tp, del);
      DeallocOk(s2, hp, n, a.ty.delete);
      hide AllMade, GetTgtPtr, CopyOut, Dealloc, Found, Begin, Size;
    }
  }

  // The transfers between s and t, of memory as it was in s.
  ghost predicate MadeFrom(s: Env, t: Env) {
    AllMade(t.log, |s.log|, s.answers, s.host, s.dev)
  }

  lemma MadeFromMeans(s: Env, t: Env)
    ensures MadeFrom(s, t) <==> AllMade(t.log, |s.log|, s.answers, s.host, s.dev)
  {
  }

  // Argument i is unmapped successfully when its turn comes.
  ghost predicate UnmapsWell(t: Env, args: seq<Arg>, i: nat)
    requires i < |args| && ArgsValid(args)
  {
    assert args[i] in args;
    var u := EndDown(t, args, |args|, i + 1);
    MadeFrom(u, EndStep(u, args, i).0) && !DeletesNothing(u, args, i)
  }

  // target_data_end returns success exactly if all arguments are unmapped well.
  lemma {:induction false} EndOkIff(t: Env, args: seq<Arg>)
    requires ArgsValid(args)
    ensures DataEnd(t, args).1 <==> forall i :: 0 <= i < |args| ==> UnmapsWell(t, args, i)
  {
    hide *;
    EndDownStart(t, args);
    EndRestOkIff(t, args, |args|);
  }

  lemma EndDownStart(t: Env, args: seq<Arg>)
    requires ArgsValid(args)
    ensures EndDown(t, args, |args|, |args|) == t && DataEnd(t, args) == EndFirst(t, args, |args|)
  {
  }

  lemma {:induction false} EndRestOkIff(t: Env, args: seq<Arg>, k: nat)
    requires k <= |args| && ArgsValid(args)
    ensures EndFirst(EndDown(t, args, |args|, k), args, k).1 <==> forall i :: 0 <= i < k ==> UnmapsWell(t, args, i)
    decreases k
  {
    hide EndDown, UnmapsWell, EndStep;
    if k > 0 {
      var u := EndDown(t, args, |args|, k);
      EndRestOkIff(t, args, k - 1);
      EndTurn(t, args, k - 1);
      EndOkNext(u, args, k);
      EndStepOkIff(u, args, k - 1);
      MadeFromMeans(u, EndStep(u, args, k - 1).0);
      hide EndFirst, MadeFrom, DeletesNothing;
    }
  }

  lemma EndOkNext(u: Env, args: seq<Arg>, k: nat)
    requires 0 < k <= |args| && ArgsValid(args)
    ensures args[k - 1].ty.memberOf < |args|
    ensures var v := EndStep(u, args, k - 1); EndFirst(u, args, k).1 <==> v.1 && EndFirst(v.0, args, k - 1).1
  {
    hide EndStep;
    assert args[k - 1] in args;
  }

  lemma EndTurn(t: Env, args: seq<Arg>, i: nat)
    requires i < |args| && ArgsValid(args)
    ensures args[i].ty.memberOf < |args|
    ensures var u := EndDown(t, args, |args|, i + 1);
            && EndDown(t, args, |args|, i) == EndStep(u, args, i).0
            && (UnmapsWell(t, args, i) <==> MadeFrom(u, EndStep(u, args, i).0) && !DeletesNothing(u, args, i))
  {
    hide EndStep;
    assert args[i] in args;
    EndDownLast(t, args, |args|, i);
  }

  // ---------------------------------------------------- collecting the kernel's arguments

  // Is argument i refused a private copy?
  predicate RefusesCopy(p: Plugin, b: Build, args: seq<Arg>, bases: seq<int>, i: nat)
    requires i < |args| == |bases| && args[i].ty.memberOf < |args|
  {
    MakesPrivate(args, i) && GetOrAlloc(p, b.env, args[i].begin, bases[i], args[i].size, true, true).1 == 0
  }

  lemma PrivateOk(p: Plugin, b: Build, args: seq<Arg>, bases: seq<int>, i: nat)
    requires i < |args| == |bases|
    ensures var b', (s1, tp, isNew) := PrivateCopy(p, b, args, bases, i),
                    GetOrAlloc(p, b.env, args[i].begin, bases[i], args[i].size, true, true);
            && b.env.log <= b'.env.log && b'.env.answers == b.env.answers
            && (b'.ok <==> tp != 0 && AllMade(b'.env.log, |b.env.log|, b.env.answers, b'.env.host, b'.env.dev))
  {
    hide *;
    var a := args[i];
    var (s1, tp, isNew) := GetOrAlloc(p, b.env, a.begin, bases[i], a.size, true, true);
    var s2 := DataSubmit(s1, tp, a.begin, a.size).0;
    PrivateCases(p, b, args, bases, i);
    GetOrAllocLog(p, b.env, a.begin, bases[i], a.size, true, true);
    GetOrAllocAnswers(p, b.env, a.begin, bases[i], a.size, true, true);
    SubmitMade(s1, tp, a.begin, a.size);
    NoneMade(s1.log, s1.answers, s1.host, s1.dev);
    MadeSame(s2.log, |s1.log|, s1.answers, s1.host, s1.dev, s2.host, s2.dev);
  }

  lemma PrivateCases(p: Plugin, b: Build, args: seq<Arg>, bases: seq<int>, i: nat)
    requires i < |args| == |bases|
    ensures var a, b' := args[i], PrivateCopy(p, b, args, bases, i);
            var (s1, tp, isNew) := GetOrAlloc(p, b.env, a.begin, bases[i], a.size, true, true);
            (b'.env, b'.ok) == if tp == 0 then (s1, false)
                               else if a.ty.to then DataSubmit(s1, tp, a.begin, a.size) else (s1, true)
  {
    hide GetOrAlloc, DataSubmit;
  }

  lemma BuildStepOk(p: Plugin, b: Build, args: seq<Arg>, bases: seq<int>, i: nat)
    requires i < |args| == |bases| && args[i].ty.memberOf < |args| && b.ok
    ensures var b' := BuildStep(p, b, args, bases, i);
            && b.env.log <= b'.env.log
            && (b'.ok <==> Made(b.env, b'.env) && !RefusesCopy(p, b, args, bases, i))
  {
    hide AllMade, Made, GetTgtPtr, SubmitPointer, PrivateCopy, GetOrAlloc;
    var a, b' := args[i], BuildStep(p, b, args, bases, i);
    MadeMeans(b.env, b'.env);
    PrivateOk(p, b, args, bases, i);
    NoneMade(b.env.log, b.env.answers, b.env.host, b.env.dev);
    if OfPrivateParent(args, i) {
      var parent := args[a.ty.memberOf];
      var slot := GetTgtPtr(b.env, parent.begin, parent.size, false).1 + (bases[i] - bases[a.ty.memberOf]);
      var t := SubmitPointer(b.env, slot, GetTgtPtr(b.env, a.begin, a.size, false).1).0;
      PointerMade(b.env, slot, GetTgtPtr(b.env, a.begin, a.size, false).1, |b.env.log|);
      MadeSame(t.log, |b.env.log|, b.env.answers, b.env.host, b.env.dev, t.host, t.dev);
    }
  }

  ghost predicate Collects(p: Plugin, s: Env, args: seq<Arg>, bases: seq<int>, i: nat)
    requires i < |args| == |bases| && ArgsValid(args)
  {
    assert args[i] in args;
    var b := BuildFirst(p, s, args, bases, i);
    Made(b.env, BuildStep(p, b, args, bases, i).env) && !RefusesCopy(p, b, args, bases, i)
  }

  // The kernel's arguments are collected successfully exactly if no private copy is refused
  // and every transfer is made.
  lemma {:induction false} BuildOkIff(p: Plugin, s: Env, args: seq<Arg>, bases: seq<int>, k: nat)
    requires k <= |args| == |bases| && ArgsValid(args)
    ensures BuildFirst(p, s, args, bases, k).ok <==> forall i :: 0 <= i < k ==> Collects(p, s, args, bases, i)
  {
    hide BuildStep, Made, RefusesCopy;
    if k > 0 {
      BuildOkIff(p, s, args, bases, k - 1);
      NextBuild(p, s, args, bases, k);
      var b := BuildFirst(p, s, args, bases, k - 1);
      if b.ok {
        BuildStepOk(p, b, args, bases, k - 1);
        assert Collects(p, s, args, bases, k - 1) <==> BuildStep(p, b, args, bases, k - 1).ok;
      }
    }
  }

  // ------------------------------------------------------------- private copies

  lemma {:induction false} FreeSplit(s: Env, args: seq<Arg>, privates: seq<nat>, j: nat)
    requires j <= |privates| && forall i :: i in privates ==> i < |args|
    ensures forall i :: i in privates[..j] ==> i < |args|
    ensures forall i :: i in privates[j..] ==> i < |args|
    ensures var (t, ok) := FreePrivates(s, args, privates[..j]);
            var (u, ok') := FreePrivates(t, args, privates[j..]);
            FreePrivates(s, args, privates) == (u, ok && ok')
    decreases |privates|
  {
    hide Dealloc;
    assert forall i :: i in privates[..j] || i in privates[j..] ==> i in privates;
    if j == 0 {
      assert privates[..0] == [] && privates[0..] == privates;
    } else {
      assert privates[0] in privates && forall i :: i in privates[1..] ==> i in privates;
      var a := args[privates[0]];
      FreeSplit(Dealloc(s, a.begin, a.size, true).0, args, privates[1..], j - 1);
      assert privates[..j][0] == privates[0] && privates[..j][1..] == privates[1..][..j - 1];
      assert privates[1..][j - 1..] == privates[j..];
    }
  }

  // Is private copy number j mapped when its turn comes?
  ghost predicate FreesWell(s: Env, args: seq<Arg>, privates: seq<nat>, j: nat)
    requires j < |privates| && forall i :: i in privates ==> i < |args|
  {
    assert forall i :: i in privates[..j] ==> i in privates;
    assert privates[j] in privates;
    Found(FreePrivates(s, args, privates[..j]).0.entries, args[privates[j]].begin, args[privates[j]].size)
  }

  // The private copies are released successfully exactly if each of them is still mapped.
  lemma {:induction false} FreeOkIff(s: Env, args: seq<Arg>, privates: seq<nat>)
    requires forall i :: i in privates ==> i < |args|
    ensures FreePrivates(s, args, privates).1 <==>
            forall j :: 0 <= j < |privates| ==> FreesWell(s, args, privates, j)
    decreases |privates|
  {
    hide Dealloc, FreesWell;
    if privates != [] {
      var k := |privates| - 1;
      assert forall i :: i in privates[..k] ==> i in privates;
      assert privates[k] in privates && privates[k..] == [privates[k]];
      FreeSplit(s, args, privates, k);
      FreeOkIff(s, args, privates[..k]);
      var t := FreePrivates(s, args, privates[..k]).0;
      FreeLast(t, args, privates[k]);
      forall j | 0 <= j < k ensures FreesWell(s, args, privates[..k], j) <==> FreesWell(s, args, privates, j) {
        FreesSame(s, args, privates, k, j);
      }
      FreesMeans(s, args, privates, k);
    }
  }

  lemma FreeLast(t: Env, args: seq<Arg>, i: nat)
    requires i < |args|
    ensures FreePrivates(t, args, [i]).1 <==> Found(t.entries, args[i].begin, args[i].size)
  {
    DeallocOk(t, args[i].begin, args[i].size, true);
    hide Dealloc, Found;
    assert [i][1..] == [];
  }

  lemma FreesMeans(s: Env, args: seq<Arg>, privates: seq<nat>, j: nat)
    requires j < |privates| && forall i :: i in privates ==> i < |args|
    ensures privates[j] < |args| && forall i :: i in privates[..j] ==> i < |args|
    ensures FreesWell(s, args, privates, j) <==>
            Found(FreePrivates(s, args, privates[..j]).0.entries, args[privates[j]].begin, args[privates[j]].size)
  {
    hide Found, FreePrivates;
    assert privates[j] in privates && forall i :: i in privates[..j] ==> i in privates;
  }

  lemma FreesSame(s: Env, args: seq<Arg>, privates: seq<nat>, k: nat, j: nat)
    requires j < k <= |privates| && forall i :: i in privates ==> i < |args|
    ensures forall i :: i in privates[..k] ==> i < |args|
    ensures FreesWell(s, args, privates[..k], j) <==> FreesWell(s, args, privates, j)
  {
    assert forall i :: i in privates[..k] ==> i in privates;
    FreesMeans(s, args, privates[..k], j);
    FreesMeans(s, args, privates, j);
    assert privates[..k][..j] == privates[..j];
  }
}
