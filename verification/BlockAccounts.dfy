/** No device memory leaks. */
module BlockAccounts {
  // Every live block belongs to an entry, and memory that is in no block is the user's
  // and stays.  So a run that gives the map back gives the allocation back.

  import opened Memory
  import opened DeviceMap
  import opened DataEnvironment
  import opened MapInverse
  import opened MapInvariant
  import opened TransferRuns
  import opened TargetRegion
  import opened DeviceBlocks
  import opened DeviceRuns

  ghost predicate NoLeak(s: Env) {
    forall b :: b in s.blocks ==> Claimed(s.entries, b)
  }

  ghost predicate Claimed(es: Entries, b: int) {
    exists e :: e in es && e.tgt == b
  }

  // Byte x is allocated on the device, but not by the runtime.
  ghost predicate Users(s: Env, x: int) {
    x in s.dev && forall b :: b in s.blocks ==> !InBlock(x, b, s.blocks[b])
  }

  // What happened between s and t neither leaks nor touches the user's allocation.
  ghost predicate Kept(s: Env, t: Env) {
    && (forall x :: Users(t, x) <==> Users(s, x))
    && (NoLeak(s) ==> NoLeak(t))
  }

  lemma KeptTrans(s: Env, t: Env, u: Env)
    requires Kept(s, t) && Kept(t, u)
    ensures Kept(s, u)
  {
    hide Users, NoLeak;
  }

  lemma KeptRefl(s: Env)
    ensures Kept(s, s)
  {
  }

  lemma SameKept(s: Env, t: Env)
    requires t.entries == s.entries && t.blocks == s.blocks && t.dev.Keys == s.dev.Keys
    ensures Kept(s, t)
  {
    assert forall x :: x in t.dev <==> x in s.dev;
  }

  // ----------------------------------------------------------------- the operations

  lemma {:induction false} ClaimedRecount(es: Entries, i: nat, c: int, b: int)
    requires i < |es| && Claimed(es, b)
    ensures Claimed(Recount(es, i, c), b)
  {
    var e :| e in es && e.tgt == b;
    var j :| 0 <= j < |es| && es[j] == e;
    assert Recount(es, i, c)[j] in Recount(es, i, c);
  }

  lemma RecountKept(s: Env, i: nat, c: int)
    requires i < |s.entries|
    ensures Kept(s, s.(entries := Recount(s.entries, i, c)))
  {
    var t := s.(entries := Recount(s.entries, i, c));
    hide Claimed;
    if NoLeak(s) {
      forall b | b in t.blocks ensures Claimed(t.entries, b) {
        ClaimedRecount(s.entries, i, c, b);
      }
    }
    assert forall x :: Users(t, x) <==> Users(s, x);
  }

  lemma AllocKept(p: Plugin, s: Env, n: nat, e: Entry)
    requires Honest(p) && BlocksOk(s.dev, s.blocks) && n > 0 && e.tgt == DataAlloc(p, s, n).1
    ensures Kept(s, DataAlloc(p, s, n).0.(entries := [e] + s.entries))
  {
    var s1 := DataAlloc(p, s, n).0;
    AllocUsers(p, s, n);
    hide BlocksOk, Honest;
    assert forall x :: Users(s1.(entries := [e] + s.entries), x) <==> Users(s1, x);
    forall b | b in s1.blocks && (b in s.blocks ==> Claimed(s.entries, b)) ensures Claimed([e] + s.entries, b) {
      if b in s.blocks {
        var f :| f in s.entries && f.tgt == b;
        assert f in [e] + s.entries;
      } else {
        assert ([e] + s.entries)[0] == e;
      }
    }
  }

  lemma AllocUsers(p: Plugin, s: Env, n: nat)
    requires Honest(p) && BlocksOk(s.dev, s.blocks) && n > 0
    ensures forall x :: Users(DataAlloc(p, s, n).0, x) <==> Users(s, x)
  {
    var t, r := DataAlloc(p, s, n).0, p.alloc(s.clock, s.dev, n);
    if r.Block? {
      var a := r.addr;
      assert a !in s.blocks by {
        assert a in s.blocks ==> a in s.dev;
        assert a <= a < a + n;
      }
      forall x ensures Users(t, x) <==> Users(s, x) {
        assert x in t.dev <==> x in s.dev || InBlock(x, a, n);
        assert InBlock(x, a, n) ==> x !in s.dev;
        assert a in t.blocks && t.blocks[a] == n;
        assert forall b :: b in s.blocks ==> b in t.blocks && t.blocks[b] == s.blocks[b];
      }
    }
  }

  lemma GetOrAllocKept(p: Plugin, s: Env, hp: int, base: int, n: nat, implicit: bool, update: bool)
    requires Honest(p) && DeviceOk(s)
    ensures Kept(s, GetOrAlloc(p, s, hp, base, n, implicit, update).0)
  {
    OkBlocks(s);
    hide DataAlloc, Lookup, Kept, Honest, Usable, DeviceOk, BlocksOk;
    var i := Lookup(s.entries, hp, n);
    var s0 := s.(clock := s.clock + 1);
    SameKept(s, s0);
    if i < |s.entries| {
      RecountKept(s0, i, s.entries[i].count + 1);
      KeptTrans(s, s0, s0.(entries := Recount(s.entries, i, s.entries[i].count + 1)));
    } else if n > 0 {
      AllocKept(p, s, n, Entry(base, hp, hp + n, DataAlloc(p, s, n).1, 1));
    }
  }

  lemma GetTgtPtrKept(s: Env, hp: int, n: nat, update: bool)
    ensures Kept(s, GetTgtPtr(s, hp, n, update).0)
  {
    hide Kept, Lookup;
    var i := Lookup(s.entries, hp, n);
    KeptRefl(s);
    if i < |s.entries| {
      RecountKept(s, i, s.entries[i].count - 1);
    }
  }

  lemma RemoveKept(s: Env, i: nat)
    requires BlocksOk(s.dev, s.blocks) && i < |s.entries|
    ensures Kept(s, DataDelete(s, s.entries[i].tgt).(entries := Remove(s.entries, i)))
  {
    var a := s.entries[i].tgt;
    var t := DataDelete(s, a).(entries := Remove(s.entries, i));
    DeleteUsers(s, a);
    hide BlocksOk;
    assert forall x :: Users(t, x) <==> Users(DataDelete(s, a), x);
    if NoLeak(s) {
      forall b | b in t.blocks ensures Claimed(t.entries, b) {
        var e :| e in s.entries && e.tgt == b;
        var j :| 0 <= j < |s.entries| && s.entries[j] == e;
        assert t.entries[if j < i then j else j - 1] == e;
      }
    }
  }

  lemma DeleteUsers(s: Env, a: int)
    requires BlocksOk(s.dev, s.blocks)
    ensures forall x :: Users(DataDelete(s, a), x) <==> Users(s, x)
  {
    var t := DataDelete(s, a);
    if a in s.blocks {
      forall x ensures Users(t, x) <==> Users(s, x) {
        assert x in t.dev <==> x in s.dev && !InBlock(x, a, s.blocks[a]);
        assert forall b :: b in t.blocks <==> b in s.blocks && b != a;
      }
    }
  }

  lemma DeallocIs(s: Env, hp: int, n: nat, force: bool)
    ensures var i := Lookup(s.entries, hp, n);
            var t := Dealloc(s, hp, n, force).0;
            if i == |s.entries| then t == s
            else t == DataDelete(s, s.entries[i].tgt).(entries := Remove(s.entries, i)) ||
                 t == s.(entries := Recount(s.entries, i, s.entries[i].count - 1))
    ensures Lookup(s.entries, hp, n) <= |s.entries|
  {
    hide Lookup, DataDelete;
  }

  lemma DeallocKept(s: Env, hp: int, n: nat, force: bool)
    requires DeviceOk(s)
    ensures Kept(s, Dealloc(s, hp, n, force).0)
  {
    assert BlocksOk(s.dev, s.blocks) by { OkBlocks(s); }
    hide *;
    DeallocIs(s, hp, n, force);
    var i := Lookup(s.entries, hp, n);
    KeptRefl(s);
    if i < |s.entries| {
      RemoveKept(s, i);
      RecountKept(s, i, s.entries[i].count - 1);
    }
  }

  lemma OkBlocks(s: Env)
    requires DeviceOk(s)
    ensures BlocksOk(s.dev, s.blocks)
  {
  }

  // ------------------------------------------------------------------- the interface

  lemma BeginStepKept(p: Plugin, s: Env, args: seq<Arg>, i: nat)
    requires Honest(p) && DeviceOk(s) && i < |args| && args[i].ty.memberOf < |args|
    ensures Kept(s, BeginStep(p, s, args, i).env)
  {
    hide DeviceOk, GetOrAlloc, SendArgument, Kept, Honest;
    var a := args[i];
    KeptRefl(s);
    if !Skipped(a) {
      GetOrAllocOk(p, s, a.base, a.base, PTR_BYTES, a.ty.implicit, !Member(a));
      GetOrAllocKept(p, s, a.base, a.base, PTR_BYTES, a.ty.implicit, !Member(a));
      var s1, base := MapSlot(p, s, args, i).0, PointeeBase(s.host, a);
      GetOrAllocKept(p, s1, Begin(args, i), base, Size(args, i), a.ty.implicit, !PlainMember(a));
      var (s2, tp, isNew) := MapPointee(p, s, args, i);
      KeptTrans(s, s1, s2);
      var s3 := SendArgument(s2, args, i, MapSlot(p, s, args, i).1, base, tp, isNew).0;
      SameKept(s2, s3);
      KeptTrans(s, s2, s3);
    }
  }

  lemma {:induction false} BeginKept(p: Plugin, s: Env, args: seq<Arg>, k: nat)
    requires Honest(p) && DeviceOk(s) && k <= |args| && ArgsValid(args)
    ensures Kept(s, BeginFirst(p, s, args, k).0)
  {
    hide DeviceOk, BeginStep, Kept, Honest;
    if k == 0 {
      KeptRefl(s);
    } else {
      var t := BeginFirst(p, s, args, k - 1).0;
      assert args[k - 1] in args;
      BeginKept(p, s, args, k - 1);
      BeginOk(p, s, args, k - 1);
      BeginStepKept(p, t, args, k - 1);
      KeptTrans(s, t, BeginStep(p, t, args, k - 1).env);
    }
  }

  lemma EndStepKept(s: Env, args: seq<Arg>, i: nat)
    requires DeviceOk(s) && i < |args| && args[i].ty.memberOf < |args|
    ensures Kept(s, EndStep(s, args, i).0)
  {
    hide DeviceOk, Kept, GetTgtPtr, CopyOut, Dealloc;
    var a := args[i];
    KeptRefl(s);
    if !Skipped(a) {
      var hp, n := Begin(args, i), Size(args, i);
      var (s1, tp, isLast) := GetTgtPtr(s, hp, n, !PlainMember(a));
      var del := (isLast || a.ty.delete) && !PlainMember(a);
      GetTgtPtrOk(s, hp, n, !PlainMember(a));
      GetTgtPtrKept(s, hp, n, !PlainMember(a));
      var s2 := if a.ty.from || del then CopyOut(s1, args, i, tp, del).0 else s1;
      SameKept(s1, s2);
      SameKeysOk(s1, s2);
      KeptTrans(s, s1, s2);
      DeallocKept(s2, hp, n, a.ty.delete);
      KeptTrans(s, s2, Dealloc(s2, hp, n, a.ty.delete).0);
    }
  }

  lemma {:induction false} EndKept(s: Env, args: seq<Arg>, k: nat)
    requires DeviceOk(s) && k <= |args| && ArgsValid(args)
    ensures Kept(s, EndFirst(s, args, k).0)
    decreases k
  {
    hide DeviceOk, EndStep, Kept;
    if k == 0 {
      KeptRefl(s);
    } else {
      var t := EndStep(s, args, k - 1).0;
      assert args[k - 1] in args;
      EndStepOk(s, args, k - 1);
      EndStepKept(s, args, k - 1);
      EndKept(t, args, k - 1);
      KeptTrans(s, t, EndFirst(t, args, k - 1).0);
    }
  }

  lemma {:induction false} UpdateKept(s: Env, args: seq<Arg>)
    ensures Kept(s, DataUpdate(s, args))
    decreases |args|
  {
    hide UpdateStep, Kept;
    if args == [] {
      KeptRefl(s);
    } else {
      UpdateStepSame(s, args[0]);
      SameKept(s, UpdateStep(s, args[0]));
      UpdateKept(UpdateStep(s, args[0]), args[1..]);
      KeptTrans(s, UpdateStep(s, args[0]), DataUpdate(s, args));
    }
  }

  lemma BuildStepKept(p: Plugin, b: Build, args: seq<Arg>, bases: seq<int>, i: nat)
    requires Honest(p) && DeviceOk(b.env) && i < |args| == |bases| && args[i].ty.memberOf < |args|
    ensures Kept(b.env, BuildStep(p, b, args, bases, i).env)
  {
    hide DeviceOk, Honest, GetTgtPtr, GetOrAlloc, SubmitPointer, DataSubmit, Kept;
    var a := args[i];
    KeptRefl(b.env);
    if OfPrivateParent(args, i) {
      SameKept(b.env, BuildStep(p, b, args, bases, i).env);
    }
    var (s1, tp, _) := GetOrAlloc(p, b.env, a.begin, bases[i], a.size, true, true);
    GetOrAllocKept(p, b.env, a.begin, bases[i], a.size, true, true);
    SameKept(s1, DataSubmit(s1, tp, a.begin, a.size).0);
    KeptTrans(b.env, s1, DataSubmit(s1, tp, a.begin, a.size).0);
  }

  lemma {:induction false} BuildKept(p: Plugin, s: Env, args: seq<Arg>, bases: seq<int>, k: nat)
    requires Honest(p) && DeviceOk(s) && k <= |args| == |bases| && ArgsValid(args)
    ensures Kept(s, BuildFirst(p, s, args, bases, k).env)
  {
    hide DeviceOk, Honest, BuildStep, Kept;
    if k == 0 {
      KeptRefl(s);
    } else {
      var b := BuildFirst(p, s, args, bases, k - 1);
      assert args[k - 1] in args;
      BuildKept(p, s, args, bases, k - 1);
      BuildOk(p, s, args, bases, k - 1);
      BuildStepKept(p, b, args, bases, k - 1);
      KeptTrans(s, b.env, BuildStep(p, b, args, bases, k - 1).env);
    }
  }

  lemma {:induction false} FreeKept(s: Env, args: seq<Arg>, privates: seq<nat>)
    requires DeviceOk(s) && forall i :: i in privates ==> i < |args|
    ensures Kept(s, FreePrivates(s, args, privates).0)
    decreases |privates|
  {
    hide DeviceOk, Dealloc, Kept;
    if privates == [] {
      KeptRefl(s);
    } else {
      assert privates[0] in privates && forall i :: i in privates[1..] ==> i in privates;
      var a := args[privates[0]];
      var t := Dealloc(s, a.begin, a.size, true).0;
      DeallocOk(s, a.begin, a.size, true);
      DeallocKept(s, a.begin, a.size, true);
      FreeKept(t, args, privates[1..]);
      KeptTrans(s, t, FreePrivates(t, args, privates[1..]).0);
    }
  }

  lemma LaunchKept(k: Kernel, b: Build)
    requires KeepsAllocation(k)
    ensures Kept(b.env, Launch(k, b).0)
  {
    SameKept(b.env, Launch(k, b).0);
  }

  // target() leaks nothing on any path, not even when a private copy is refused.
  lemma TargetKept(p: Plugin, k: Kernel, s: Env, args: seq<Arg>)
    requires Honest(p) && DeviceOk(s) && ArgsValid(args) && KeepsAllocation(k)
    ensures Kept(s, Target(p, k, s, args).0)
  {
    hide *;
    var (s1, ok) := DataBegin(p, s, args);
    var bases := Bases(p, s, args);
    var b := BuildFirst(p, s1, args, bases, |args|);
    TargetEntries(p, k, s, args);
    RegionKept(p, s, s1, args);
    if ok {
      var s2 := Launch(k, b).0;
      var s3 := FreePrivates(s2, args, b.privates).0;
      BuildKept(p, s1, args, bases, |args|);
      BuildOk(p, s1, args, bases, |args|);
      LaunchKept(k, b);
      LaunchOk(k, b);
      FreeKept(s2, args, b.privates);
      FreeOk(s2, args, b.privates);
      RegionKept(p, s, s3, args);
      KeptTrans(s, s1, b.env);
      KeptTrans(s, b.env, s2);
      KeptTrans(s, s2, s3);
      KeptTrans(s, s3, DataEnd(s3, args).0);
    } else {
      KeptTrans(s, s1, DataEnd(s1, args).0);
    }
  }

  lemma RegionKept(p: Plugin, s: Env, t: Env, args: seq<Arg>)
    requires Honest(p) && DeviceOk(s) && ArgsValid(args)
    ensures Kept(s, DataBegin(p, s, args).0) && DeviceOk(DataBegin(p, s, args).0)
    ensures DeviceOk(t) ==> Kept(t, DataEnd(t, args).0) && DeviceOk(DataEnd(t, args).0)
  {
    hide BeginFirst, EndFirst, Kept, DeviceOk, Honest;
    BeginKept(p, s, args, |args|);
    BeginOk(p, s, args, |args|);
    if DeviceOk(t) {
      EndKept(t, args, |args|);
      EndOk(t, args, |args|);
    }
  }

  // ----------------------------------------------------------------------- whole runs

  // A range is disassociated only if its memory was the user's.
  ghost predicate OwnMemory(s: Env, c: Call) {
    c.DisassociateCall? ==>
      var i := FindBegin(s.entries, c.hp);
      i < |s.entries| && ConsideredInf(s.entries[i].count) ==> s.entries[i].tgt !in s.blocks
  }

  ghost predicate AllOwnMemory(p: Plugin, s: Env, cs: seq<Call>)
    requires AllCallsValid(cs)
    decreases |cs|
  {
    cs == [] || (AllCallsValid(cs[..|cs| - 1]) && AllOwnMemory(p, s, cs[..|cs| - 1])
                 && OwnMemory(PerformAll(p, s, cs[..|cs| - 1]), cs[|cs| - 1]))
  }

  lemma AssociateKept(s: Env, hp: int, tgt: int, n: nat)
    ensures Kept(s, s.(entries := Associate(s.entries, hp, tgt, n).0))
  {
    var t := s.(entries := Associate(s.entries, hp, tgt, n).0);
    assert forall x :: Users(t, x) <==> Users(s, x);
    if NoLeak(s) {
      forall b | b in t.blocks ensures Claimed(t.entries, b) {
        var e :| e in s.entries && e.tgt == b;
        assert e in t.entries;
      }
    }
  }

  lemma DisassociateKept(s: Env, hp: int)
    requires OwnMemory(s, DisassociateCall(hp))
    ensures Kept(s, s.(entries := Disassociate(s.entries, hp).0))
  {
    var t := s.(entries := Disassociate(s.entries, hp).0);
    assert forall x :: Users(t, x) <==> Users(s, x);
    if NoLeak(s) {
      var i := FindBegin(s.entries, hp);
      forall b | b in t.blocks ensures Claimed(t.entries, b) {
        var e :| e in s.entries && e.tgt == b;
        var j :| 0 <= j < |s.entries| && s.entries[j] == e;
        if t.entries != s.entries {
          assert t.entries[if j < i then j else j - 1] == e;
        }
      }
    }
  }

  lemma PerformKept(p: Plugin, s: Env, c: Call)
    requires Honest(p) && DeviceOk(s) && CallValid(c) && Owed(s, c) && OwnMemory(s, c)
    ensures Kept(s, Perform(p, s, c))
  {
    hide DeviceOk, Target, KeepsAllocation, Honest, Kept, BeginFirst, EndFirst, DataUpdate, OwnMemory;
    match c
    case BeginCall(args) => RegionKept(p, s, s, args);
    case EndCall(args) => RegionKept(p, s, s, args);
    case UpdateCall(args) => UpdateKept(s, args);
    case TargetCall(args, kernel) => TargetKept(p, kernel, s, args);
    case AssociateCall(hp, tgt, n) => AssociateKept(s, hp, tgt, n);
    case DisassociateCall(hp) => DisassociateKept(s, hp);
    case ComputeCall(host, dev) => SameKept(s, Perform(p, s, c));
  }

  // No run leaks a block or touches the user's allocation.
  lemma {:induction false} NothingLeaks(p: Plugin, s: Env, cs: seq<Call>)
    requires Honest(p) && DeviceOk(s) && NoLeak(s)
    requires AllCallsValid(cs) && AllOwed(p, s, cs) && AllOwnMemory(p, s, cs)
    ensures Kept(s, PerformAll(p, s, cs)) && NoLeak(PerformAll(p, s, cs))
    decreases |cs|
  {
    hide DeviceOk, Perform, Owed, OwnMemory, Users, NoLeak, Honest;
    if cs == [] {
      KeptRefl(s);
    } else {
      var cs' := cs[..|cs| - 1];
      var t := PerformAll(p, s, cs');
      NothingLeaks(p, s, cs');
      RunOk(p, s, cs');
      PerformKept(p, t, cs[|cs| - 1]);
      KeptTrans(s, t, Perform(p, t, cs[|cs| - 1]));
    }
  }

  // ------------------------------------------------------- the allocation comes back

  lemma BlockOfEntry(s: Env, t: Env, b: int)
    requires DeviceOk(s) && DeviceOk(t) && t.entries == s.entries && NoLeak(s) && b in s.blocks
    requires forall x :: Users(t, x) <==> Users(s, x)
    ensures b in t.blocks && t.blocks[b] == s.blocks[b]
  {
    var e :| e in s.entries && e.tgt == b;
    assert Backed(e, s.dev, s.blocks) && Backed(e, t.dev, t.blocks) && Length(e) > 0;
    assert b > 0 && s.blocks[b] == Length(e);
    assert !Users(s, b) by {
      assert InBlock(b, b, s.blocks[b]);
    }
    if !(b in t.blocks && t.blocks[b] == Length(e)) {
      UserByte(t, b, Length(e));
      assert false;
    }
  }

  lemma UserByte(t: Env, b: int, n: int)
    requires n > 0 && Allocated(t.dev, b, n) && forall c :: c in t.blocks ==> Apart(c, t.blocks[c], b, n)
    ensures Users(t, b)
  {
    forall c | c in t.blocks ensures !InBlock(b, c, t.blocks[c]) {
      assert Apart(c, t.blocks[c], b, n);
    }
  }

  lemma SameBlocks(m: map<int, nat>, m': map<int, nat>)
    requires forall b :: b in m ==> b in m' && m'[b] == m[b]
    requires forall b :: b in m' ==> b in m && m[b] == m'[b]
    ensures m' == m
  {
    assert m'.Keys == m.Keys by {
      forall b ensures b in m' <==> b in m {
      }
    }
    forall b | b in m ensures m'[b] == m[b] {
    }
  }

  lemma SameDomain(s: Env, t: Env)
    requires BlocksOk(s.dev, s.blocks) && BlocksOk(t.dev, t.blocks) && t.blocks == s.blocks
    requires forall x :: Users(t, x) <==> Users(s, x)
    ensures t.dev.Keys == s.dev.Keys
  {
    forall x ensures x in t.dev <==> x in s.dev {
      if exists b :: b in s.blocks && InBlock(x, b, s.blocks[b]) {
        var b :| b in s.blocks && InBlock(x, b, s.blocks[b]);
        assert Allocated(s.dev, b, s.blocks[b]) && Allocated(t.dev, b, s.blocks[b]);
      } else {
        assert Users(s, x) <==> x in s.dev;
        assert Users(t, x) <==> x in t.dev;
      }
    }
  }

  // Two sound states without leaks, with one map and the same user memory, have the same
  // blocks and the same allocated bytes.
  lemma MapDeterminesBlocks(s: Env, t: Env)
    requires DeviceOk(s) && DeviceOk(t) && NoLeak(s) && Kept(s, t) && t.entries == s.entries
    ensures t.blocks == s.blocks && t.dev.Keys == s.dev.Keys
  {
    assert NoLeak(t) && BlocksOk(s.dev, s.blocks) && BlocksOk(t.dev, t.blocks);
    assert forall x :: Users(t, x) <==> Users(s, x);
    hide DeviceOk, NoLeak, Users, Kept, BlocksOk;
    forall b | b in s.blocks ensures b in t.blocks && t.blocks[b] == s.blocks[b] {
      BlockOfEntry(s, t, b);
    }
    forall b | b in t.blocks ensures b in s.blocks && s.blocks[b] == t.blocks[b] {
      BlockOfEntry(t, s, b);
    }
    SameBlocks(s.blocks, t.blocks);
    SameDomain(s, t);
  }

  // Whatever the calls, a run that gives the map back gives the device allocation back:
  // every block it made is freed, every byte it freed was its own.
  lemma MapBackMemoryBack(p: Plugin, s: Env, cs: seq<Call>)
    requires Honest(p) && DeviceOk(s) && NoLeak(s)
    requires AllCallsValid(cs) && AllOwed(p, s, cs) && AllOwnMemory(p, s, cs)
    requires PerformAll(p, s, cs).entries == s.entries
    ensures PerformAll(p, s, cs).blocks == s.blocks && PerformAll(p, s, cs).dev.Keys == s.dev.Keys
  {
    hide Honest, DeviceOk, NoLeak, Kept, AllOwed, AllOwnMemory, PerformAll;
    NothingLeaks(p, s, cs);
    RunOk(p, s, cs);
    MapDeterminesBlocks(s, PerformAll(p, s, cs));
  }

  // In particular target() frees what it allocated whenever it restores the map.
  lemma TargetFreesMemory(p: Plugin, k: Kernel, s: Env, args: seq<Arg>)
    requires Honest(p) && DeviceOk(s) && NoLeak(s) && ArgsValid(args) && KeepsAllocation(k)
    requires ArgsRoundTrip(p, s, args, |args|) && PrivatesNonEmpty(args)
    requires var (s1, ok1) := DataBegin(p, s, args);
             ok1 ==> PrivatesGranted(p, s1, args, Bases(p, s, args), |args|)
    ensures var s' := Target(p, k, s, args).0;
            s'.entries == s.entries && s'.blocks == s.blocks && s'.dev.Keys == s.dev.Keys
  {
    assert WellFormed(s.entries);
    hide *;
    TargetRestoresMap(p, k, s, args);
    TargetKept(p, k, s, args);
    TargetOk(p, k, s, args);
    MapDeterminesBlocks(s, Target(p, k, s, args).0);
  }
}
