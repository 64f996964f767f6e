/** What __tgt_target_data_update does for a whole list of arguments. */
module UpdateLists {
  // Every FROM section is fetched and every TO section is sent, in the order of the list.

  import opened Memory
  import opened DeviceMap
  import opened DataEnvironment
  import opened MapInverse
  import opened ShadowPointers

  // ------------------------------------------------------------------ the log

  // The transfers that restore the device pointers of some slots.
  function PointerTransfers(sh: seq<Shadow>): (r: seq<Transfer>)
    ensures |r| == |sh| && forall j :: 0 <= j < |sh| ==> r[j] == SubmitPtr(sh[j].tgtAddr, sh[j].tgtVal)
  {
    seq(|sh|, j requires 0 <= j < |sh| => SubmitPtr(sh[j].tgtAddr, sh[j].tgtVal))
  }

  function Address(s: Env, a: Arg): int {
    GetTgtPtr(s, a.begin, a.size, false).1
  }

  // What argument a of an update transfers; an update changes neither entries nor records,
  // so it is known before the call.
  function Transfers(s: Env, a: Arg): (r: seq<Transfer>)
    ensures !Skipped(a) && a.ty.from ==> r != [] && r[0] == Retrieve(a.begin, Address(s, a), a.size)
    ensures !Skipped(a) && a.ty.to ==> Submit(Address(s, a), a.begin, a.size) in r
    ensures Skipped(a) || (!a.ty.from && !a.ty.to) ==> r == []
  {
    if Skipped(a) then [] else
    var fetch := if a.ty.from then [Retrieve(a.begin, Address(s, a), a.size)] else [];
    var send := if a.ty.to then [Submit(Address(s, a), a.begin, a.size)] +
                                PointerTransfers(InRange(s.shadows, a.begin, a.begin + a.size)) else [];
    if a.ty.from then fetch + send else send
  }

  lemma {:induction false} RestoreDeviceLog(s: Env, sh: seq<Shadow>)
    ensures RestoreDevice(s, sh).log == s.log + PointerTransfers(sh)
    ensures RestoreDevice(s, sh).shadows == s.shadows && RestoreDevice(s, sh).host == s.host
    ensures RestoreDevice(s, sh).answers == s.answers
    decreases |sh|
  {
    hide *;
    if sh == [] {
      RestoreNone(s, sh);
    } else {
      var s1 := SubmitPointer(s, sh[0].tgtAddr, sh[0].tgtVal).0;
      RestoreDeviceHead(s, sh);
      PointerLog(s, sh[0].tgtAddr, sh[0].tgtVal);
      RestoreDeviceLog(s1, sh[1..]);
      assert PointerTransfers(sh) == [SubmitPtr(sh[0].tgtAddr, sh[0].tgtVal)] + PointerTransfers(sh[1..]);
    }
  }

  lemma RestoreNone(s: Env, sh: seq<Shadow>)
    requires sh == []
    ensures RestoreDevice(s, sh) == s && PointerTransfers(sh) == []
  {
  }

  lemma PointerLog(s: Env, slot: int, val: int)
    ensures var t := SubmitPointer(s, slot, val).0;
            && t.log == s.log + [SubmitPtr(slot, val)] && t.shadows == s.shadows && t.host == s.host
            && t.answers == s.answers
  {
    hide PtrBytes, Write, Allocated;
  }

  lemma AfterFromLog(s: Env, a: Arg)
    ensures var t := AfterFrom(s, a);
            && t.log == s.log + (if a.ty.from then [Retrieve(a.begin, Address(s, a), a.size)] else [])
            && t.entries == s.entries && t.shadows == s.shadows && t.dev == s.dev && t.answers == s.answers
            && t.host.Keys == s.host.Keys
  {
    hide GetTgtPtr, InRange, RestoreHost;
  }

  lemma SubmitLog(s: Env, tgt: int, hst: int, n: nat)
    ensures var t := DataSubmit(s, tgt, hst, n).0;
            t.log == s.log + [Submit(tgt, hst, n)] && t.entries == s.entries && t.shadows == s.shadows &&
            t.host == s.host && t.answers == s.answers && t.dev.Keys == s.dev.Keys
  {
    hide Allocated, Read, Write;
  }

  lemma UpdateStepKeeps(s: Env, a: Arg)
    ensures var t := UpdateStep(s, a);
            && t.log == s.log + Transfers(s, a)
            && t.entries == s.entries && t.shadows == s.shadows && t.answers == s.answers
            && t.host == (if Skipped(a) then s.host else AfterFrom(s, a).host)
            && t.host.Keys == s.host.Keys && t.dev.Keys == s.dev.Keys
  {
    hide *;
    UpdateStepCases(s, a);
    TransfersCases(s, a);
    if !Skipped(a) {
      var s1, sh := AfterFrom(s, a), InRange(s.shadows, a.begin, a.begin + a.size);
      var s2 := DataSubmit(s1, Address(s, a), a.begin, a.size).0;
      AfterFromLog(s, a);
      SubmitLog(s1, Address(s, a), a.begin, a.size);
      RestoreDeviceLog(s2, sh);
      RestoreDeviceKeys(s2, sh);
      RestoreDeviceEntries(s2, sh);
    }
  }

  lemma UpdateStepCases(s: Env, a: Arg)
    ensures UpdateStep(s, a) ==
            if Skipped(a) then s
            else if !a.ty.to then AfterFrom(s, a)
            else RestoreDevice(DataSubmit(AfterFrom(s, a), Address(s, a), a.begin, a.size).0,
                               InRange(s.shadows, a.begin, a.begin + a.size))
  {
    hide GetTgtPtr, AfterFrom, RestoreDevice, DataSubmit, InRange;
  }

  lemma TransfersCases(s: Env, a: Arg)
    ensures Transfers(s, a) ==
            if Skipped(a) then [] else
              (if a.ty.from then [Retrieve(a.begin, Address(s, a), a.size)] else []) +
              (if a.ty.to then [Submit(Address(s, a), a.begin, a.size)] +
                               PointerTransfers(InRange(s.shadows, a.begin, a.begin + a.size)) else [])
  {
    hide GetTgtPtr, InRange, PointerTransfers;
  }

  // The transfers of argument i stand in the log where its turn comes.
  function LogBefore(s: Env, args: seq<Arg>, i: nat): (n: nat)
    requires i <= |args|
  {
    if i == 0 then |s.log| else LogBefore(s, args, i - 1) + |Transfers(s, args[i - 1])|
  }

  lemma SameTransfers(s: Env, t: Env, a: Arg)
    requires t.entries == s.entries && t.shadows == s.shadows
    ensures Transfers(t, a) == Transfers(s, a) && Address(t, a) == Address(s, a)
  {
  }

  // An update of a list is an update of its front and then of the rest.
  lemma {:induction false} UpdateSplit(s: Env, args: seq<Arg>, i: nat)
    requires i <= |args|
    ensures DataUpdate(s, args) == DataUpdate(DataUpdate(s, args[..i]), args[i..])
    decreases |args|
  {
    hide UpdateStep;
    if i == 0 {
      assert args[..0] == [] && args[0..] == args;
    } else {
      UpdateSplit(UpdateStep(s, args[0]), args[1..], i - 1);
      assert args[..i][0] == args[0] && args[..i][1..] == args[1..][..i - 1] && args[1..][i - 1..] == args[i..];
    }
  }

  lemma UpdateNone(s: Env, args: seq<Arg>)
    requires args == []
    ensures DataUpdate(s, args) == s
  {
  }

  lemma UpdateFirst(s: Env, args: seq<Arg>)
    requires args != []
    ensures DataUpdate(s, args) == DataUpdate(UpdateStep(s, args[0]), args[1..])
  {
    hide UpdateStep;
  }

  // The state when argument i's turn comes.
  lemma {:induction false} TurnOf(s: Env, args: seq<Arg>, i: nat)
    requires i <= |args|
    ensures var t := DataUpdate(s, args[..i]);
            && |t.log| == LogBefore(s, args, i) && s.log <= t.log
            && t.entries == s.entries && t.shadows == s.shadows && t.answers == s.answers
            && t.host.Keys == s.host.Keys && t.dev.Keys == s.dev.Keys
    ensures i < |args| ==> DataUpdate(s, args[..i + 1]) == UpdateStep(DataUpdate(s, args[..i]), args[i])
    decreases i
  {
    hide *;
    if i == 0 {
      UpdateNone(s, args[..0]);
      LogStart(s, args);
    } else {
      TurnOf(s, args, i - 1);
      UpdateStepKeeps(DataUpdate(s, args[..i - 1]), args[i - 1]);
      SameTransfers(s, DataUpdate(s, args[..i - 1]), args[i - 1]);
      LogNext(s, args, i);
    }
    if i < |args| {
      UpdateSplit(s, args[..i + 1], i);
      assert args[..i + 1][..i] == args[..i] && args[..i + 1][i..] == [args[i]];
      UpdateFirst(DataUpdate(s, args[..i]), [args[i]]);
      UpdateNone(UpdateStep(DataUpdate(s, args[..i]), args[i]), [args[i]][1..]);
    }
  }

  lemma LogStart(s: Env, args: seq<Arg>)
    ensures LogBefore(s, args, 0) == |s.log|
  {
  }

  lemma LogNext(s: Env, args: seq<Arg>, i: nat)
    requires 0 < i <= |args|
    ensures LogBefore(s, args, i) == LogBefore(s, args, i - 1) + |Transfers(s, args[i - 1])|
  {
    hide Transfers;
  }

  // Logs only grow.
  lemma {:induction false} UpdateLogGrows(s: Env, args: seq<Arg>)
    ensures s.log <= DataUpdate(s, args).log
    decreases |args|
  {
    hide *;
    if args == [] {
      UpdateNone(s, args);
    } else {
      UpdateStepKeeps(s, args[0]);
      UpdateFirst(s, args);
      UpdateLogGrows(UpdateStep(s, args[0]), args[1..]);
    }
  }

  // The log of an update: for every argument, in list order and nothing between, the
  // retrieve of a FROM section, then the submit of a TO section and of its pointers.
  lemma UpdateLog(s: Env, args: seq<Arg>, i: nat)
    requires i < |args|
    ensures var log, k, ts := DataUpdate(s, args).log, LogBefore(s, args, i), Transfers(s, args[i]);
            && k + |ts| <= |log| && log[k..k + |ts|] == ts
            && LogBefore(s, args, i + 1) == k + |ts|
    ensures |DataUpdate(s, args).log| == LogBefore(s, args, |args|)
  {
    hide *;
    var t, u := DataUpdate(s, args[..i]), DataUpdate(s, args[..i + 1]);
    TurnOf(s, args, i);
    TurnOf(s, args, |args|);
    assert args[..|args|] == args;
    UpdateStepKeeps(t, args[i]);
    SameTransfers(s, t, args[i]);
    LogNext(s, args, i + 1);
    UpdateSplit(s, args, i + 1);
    UpdateLogGrows(u, args[i + 1..]);
  }

  // ---------------------------------------------------------------- the bytes fetched

  // No FROM section of the list holds x.
  ghost predicate NotFetched(args: seq<Arg>, x: int) {
    forall j :: 0 <= j < |args| && args[j].ty.from && !Skipped(args[j]) ==>
      !(args[j].begin <= x < args[j].begin + args[j].size)
  }

  // One argument brings its bytes ...
  lemma StepFetches(s: Env, a: Arg, x: int)
    requires a.ty.from && !Skipped(a) && a.begin <= x < a.begin + a.size && forall q :: q in s.shadows ==> !InSlot(x, q)
    requires Reachable(s, a.begin, Address(s, a), a.size) && Sound(s)
    ensures SameByte(UpdateStep(s, a).host, x, s.dev, Address(s, a) + (x - a.begin))
  {
    hide *;
    UpdateStepKeeps(s, a);
    AfterFromIs(s, a);
    assert Address(s, a) == GetTgtPtr(s, a.begin, a.size, false).1 by { AddressIs(s, a); }
    UpdateDataIs(s, a);
    ReachedByte(s, a.begin, Address(s, a), a.size, x);
    CopiedBackElsewhere(s.host, s.shadows, a.begin, UpdateData(s, a), x);
    SameByteIntro(UpdateStep(s, a).host, x, s.dev, Address(s, a) + (x - a.begin));
  }

  lemma AddressIs(s: Env, a: Arg)
    ensures Address(s, a) == GetTgtPtr(s, a.begin, a.size, false).1
  {
  }

  lemma UpdateDataIs(s: Env, a: Arg)
    ensures |UpdateData(s, a)| == a.size
    ensures Reachable(s, a.begin, Address(s, a), a.size) ==>
              UpdateData(s, a) == Arrived(s, a.begin, Address(s, a), a.size)
  {
    hide GetTgtPtr, Arrived, Reachable;
  }

  // ... and leaves the others alone.
  lemma StepLeaves(s: Env, a: Arg, x: int)
    requires x in s.host && (forall q :: q in s.shadows ==> !InSlot(x, q))
    requires a.ty.from && !Skipped(a) ==> !(a.begin <= x < a.begin + a.size)
    ensures x in UpdateStep(s, a).host && UpdateStep(s, a).host[x] == s.host[x]
  {
    hide *;
    UpdateStepKeeps(s, a);
    if !Skipped(a) {
      if a.ty.from {
        AfterFromIs(s, a);
        UpdateDataIs(s, a);
        CopiedBackElsewhere(s.host, s.shadows, a.begin, UpdateData(s, a), x);
      } else {
        AfterFromSame(s, a);
      }
    }
  }

  lemma AfterFromSame(s: Env, a: Arg)
    requires !a.ty.from
    ensures AfterFrom(s, a) == s
  {
  }

  lemma {:induction false} UpdateLeavesByte(s: Env, args: seq<Arg>, x: int)
    requires x in s.host && (forall q :: q in s.shadows ==> !InSlot(x, q)) && NotFetched(args, x)
    ensures x in DataUpdate(s, args).host && DataUpdate(s, args).host[x] == s.host[x]
    decreases |args|
  {
    hide *;
    if args == [] {
      UpdateNone(s, args);
    } else {
      NotFetchedParts(args, x);
      StepLeaves(s, args[0], x);
      UpdateStepKeeps(s, args[0]);
      UpdateFirst(s, args);
      UpdateLeavesByte(UpdateStep(s, args[0]), args[1..], x);
    }
  }

  lemma NotFetchedParts(args: seq<Arg>, x: int)
    requires args != [] && NotFetched(args, x)
    ensures NotFetched(args[1..], x)
    ensures args[0].ty.from && !Skipped(args[0]) ==> !(args[0].begin <= x < args[0].begin + args[0].size)
  {
  }

  // After an update of any list, a byte of a FROM section that lies in no pointer slot and
  // in no later FROM section is the device byte it was mapped to when the argument's turn
  // came, if its transfer succeeded.
  lemma UpdateFetchesByte(s: Env, args: seq<Arg>, i: nat, x: int)
    requires i < |args| && args[i].ty.from && !Skipped(args[i])
    requires args[i].begin <= x < args[i].begin + args[i].size
    requires (forall q :: q in s.shadows ==> !InSlot(x, q)) && NotFetched(args[i + 1..], x)
    requires var t := DataUpdate(s, args[..i]); Reachable(t, args[i].begin, Address(s, args[i]), args[i].size) && Sound(t)
    ensures SameByte(DataUpdate(s, args).host, x,
                     DataUpdate(s, args[..i]).dev, Address(s, args[i]) + (x - args[i].begin))
  {
    hide *;
    var t, u := DataUpdate(s, args[..i]), DataUpdate(s, args[..i + 1]);
    TurnOf(s, args, i);
    TurnOf(s, args, i + 1);
    SameTransfers(s, t, args[i]);
    StepFetches(t, args[i], x);
    UpdateSplit(s, args, i + 1);
    SameByteParts(u.host, x, t.dev, Address(s, args[i]) + (x - args[i].begin));
    UpdateLeavesByte(u, args[i + 1..], x);
    SameByteIntro(DataUpdate(s, args).host, x, t.dev, Address(s, args[i]) + (x - args[i].begin));
  }

  lemma SameByteParts(m: Mem, x: int, m': Mem, y: int)
    requires SameByte(m, x, m', y)
    ensures x in m && y in m' && m[x] == m'[y]
  {
  }

  // ------------------------------------------------------------------ the bytes sent

  // No TO section of the list is mapped over device byte y.
  ghost predicate NotSent(s: Env, args: seq<Arg>, y: int) {
    forall j :: 0 <= j < |args| && args[j].ty.to && !Skipped(args[j]) ==>
      !(Address(s, args[j]) <= y < Address(s, args[j]) + args[j].size)
  }

  // Byte y is in no recorded device slot.
  ghost predicate OffSlots(sh: seq<Shadow>, y: int) {
    forall q :: q in sh ==> !InTgtSlot(y, q)
  }

  lemma OffRange(sh: seq<Shadow>, lb: int, ub: int, y: int)
    requires OffSlots(sh, y)
    ensures forall q :: q in InRange(sh, lb, ub) ==> !InTgtSlot(y, q)
  {
    hide InTgtSlot, InRange;
    forall q | q in InRange(sh, lb, ub) ensures !InTgtSlot(y, q) {
      InRangeExact(sh, lb, ub, q);
    }
  }

  lemma StepSends(s: Env, a: Arg, y: int)
    requires a.ty.to && !Skipped(a) && Address(s, a) <= y < Address(s, a) + a.size && OffSlots(s.shadows, y)
    requires Reachable(s, a.begin, Address(s, a), a.size) && Sound(AfterFrom(s, a))
    ensures SameByte(UpdateStep(s, a).dev, y, UpdateStep(s, a).host, a.begin + (y - Address(s, a)))
  {
    hide *;
    AddressIs(s, a);
    OffRange(s.shadows, a.begin, a.begin + a.size, y);
    UpdateToSendsRest(s, a, y);
    UpdateStepKeeps(s, a);
    SameByteIntro(UpdateStep(s, a).dev, y, UpdateStep(s, a).host, a.begin + (y - Address(s, a)));
  }

  lemma StepLeavesDevice(s: Env, a: Arg, y: int)
    requires y in s.dev && OffSlots(s.shadows, y)
    requires a.ty.to && !Skipped(a) ==> !(Address(s, a) <= y < Address(s, a) + a.size)
    ensures y in UpdateStep(s, a).dev && UpdateStep(s, a).dev[y] == s.dev[y]
  {
    hide *;
    UpdateStepCases(s, a);
    if !Skipped(a) {
      AfterFromLog(s, a);
      if a.ty.to {
        OffRange(s.shadows, a.begin, a.begin + a.size, y);
        SubmitElsewhere(AfterFrom(s, a), Address(s, a), a.begin, a.size, y);
        RestoreDeviceElsewhere(DataSubmit(AfterFrom(s, a), Address(s, a), a.begin, a.size).0,
                               InRange(s.shadows, a.begin, a.begin + a.size), y);
      }
    }
  }

  lemma SubmitElsewhere(s: Env, tgt: int, hst: int, n: nat, y: int)
    requires y in s.dev && !(tgt <= y < tgt + n)
    ensures var dev := DataSubmit(s, tgt, hst, n).0.dev; y in dev && dev[y] == s.dev[y]
  {
  }

  lemma {:induction false} UpdateLeavesDevice(s: Env, args: seq<Arg>, y: int)
    requires y in s.dev && OffSlots(s.shadows, y) && NotSent(s, args, y)
    ensures y in DataUpdate(s, args).dev && DataUpdate(s, args).dev[y] == s.dev[y]
    decreases |args|
  {
    hide *;
    if args == [] {
      UpdateNone(s, args);
    } else {
      var t := UpdateStep(s, args[0]);
      UpdateStepKeeps(s, args[0]);
      NotSentParts(s, t, args, y);
      StepLeavesDevice(s, args[0], y);
      UpdateFirst(s, args);
      UpdateLeavesDevice(t, args[1..], y);
    }
  }

  lemma NotSentParts(s: Env, t: Env, args: seq<Arg>, y: int)
    requires args != [] && NotSent(s, args, y) && t.entries == s.entries && t.shadows == s.shadows
    ensures NotSent(t, args[1..], y)
    ensures args[0].ty.to && !Skipped(args[0]) ==>
              !(Address(s, args[0]) <= y < Address(s, args[0]) + args[0].size)
  {
    hide Transfers;
    forall j | 0 <= j < |args[1..]| && args[1..][j].ty.to && !Skipped(args[1..][j])
      ensures !(Address(t, args[1..][j]) <= y < Address(t, args[1..][j]) + args[1..][j].size)
    {
      SameTransfers(s, t, args[j + 1]);
      assert args[1..][j] == args[j + 1];
    }
  }

  // After an update of any list, a device byte of a TO section that lies in no device slot
  // and in no later TO section is the host byte it is mapped from as the argument's turn
  // ends, if its transfer succeeded.
  lemma UpdateSendsByte(s: Env, args: seq<Arg>, i: nat, y: int)
    requires i < |args| && args[i].ty.to && !Skipped(args[i])
    requires Address(s, args[i]) <= y < Address(s, args[i]) + args[i].size
    requires OffSlots(s.shadows, y) && NotSent(s, args[i + 1..], y)
    requires var t := DataUpdate(s, args[..i]);
             Reachable(t, args[i].begin, Address(s, args[i]), args[i].size) && Sound(AfterFrom(t, args[i]))
    ensures SameByte(DataUpdate(s, args).dev, y,
                     DataUpdate(s, args[..i + 1]).host, args[i].begin + (y - Address(s, args[i])))
  {
    hide *;
    var t, u, x := DataUpdate(s, args[..i]), DataUpdate(s, args[..i + 1]), args[i].begin + (y - Address(s, args[i]));
    TurnOf(s, args, i);
    TurnOf(s, args, i + 1);
    SameTransfers(s, t, args[i]);
    StepSends(t, args[i], y);
    SameByteParts(u.dev, y, u.host, x);
    UpdateSplit(s, args, i + 1);
    NotSentSame(s, u, args[i + 1..], y);
    UpdateLeavesDevice(u, args[i + 1..], y);
    SameByteIntro(DataUpdate(s, args).dev, y, u.host, x);
  }

  lemma NotSentSame(s: Env, t: Env, args: seq<Arg>, y: int)
    requires NotSent(s, args, y) && t.entries == s.entries && t.shadows == s.shadows
    ensures NotSent(t, args, y)
  {
    hide Transfers;
    forall j | 0 <= j < |args| && args[j].ty.to && !Skipped(args[j])
      ensures !(Address(t, args[j]) <= y < Address(t, args[j]) + args[j].size)
    {
      SameTransfers(s, t, args[j]);
    }
  }
}
