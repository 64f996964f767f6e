/** Concrete inputs on which the runtime falls short, each in a state it can be in. */
module Counterexamples {
  // A failed begin that changes the host, a stale byte sent to the device, a refused private
  // copy that stays, one that another argument cleans up by accident, a private copy whose
  // release deletes an entry of the user's, two arguments that end does not undo, and a
  // kernel that is given a wrong base.

  import opened Memory
  import opened DeviceMap
  import opened DataEnvironment
  import opened MapInverse
  import opened DeviceBlocks
  import opened TransferOnce
  import opened TargetRegion
  import opened RefusedCopies
  import opened RegionMemory
  import opened TargetAddresses

  const PLAIN: MapType := MapType(false, false, false, false, false, false, false, false, false, false, -1)

  // A device with a single block to give, at addr, filled with copies of one byte.
  function OneBlock(addr: int, size: nat, fill: Byte): Plugin {
    Plugin((t: nat, dev: Mem, n: nat) =>
             if n == size && (forall x | addr <= x < addr + size :: x !in dev)
             then Block(addr, seq(size, i => fill)) else Refused,
           t => false)
  }

  lemma OneBlockHonest(addr: int, size: nat, fill: Byte)
    requires addr > 0
    ensures Honest(OneBlock(addr, size, fill))
  {
  }

  // --------------------------------------------------------------- a failed begin

  function UnsentArgs(): seq<Arg> {
    [Arg(1000, 1000, 1, PLAIN.(to := true, from := true, targetParam := true))]
  }

  // Host byte 1000 is 5, nothing is mapped, and the first transfer will fail.
  function UnsentState(): Env {
    Env([], [], map[1000 := 5], map[], map[], 0, [], t => if t == 0 then Part(0) else Whole)
  }

  // After its begin: the block is there, with the 9 the plugin left in it.
  function UnsentBegun(): Env {
    UnsentState().(entries := [Entry(1000, 1000, 1001, 600, 1)], dev := map[600 := 9], blocks := map[600 := 1],
                   clock := 1, log := [Submit(600, 1000, 1)])
  }

  lemma UnsentFresh()
    ensures Fresh(UnsentState(), UnsentArgs()) && ArgsValid(UnsentArgs())
  {
  }

  lemma UnsentAlloc()
    ensures DataAlloc(OneBlock(600, 1, 9), UnsentState(), 1) ==
            (UnsentState().(dev := map[600 := 9], blocks := map[600 := 1], clock := 1), 600)
  {
    var s1 := DataAlloc(OneBlock(600, 1, 9), UnsentState(), 1).0;
    assert Range(600, 1) == {600};
    SameMemory(s1.dev, map[600 := 9]);
  }

  lemma UnsentSubmit(s: Env)
    requires s == UnsentState().(entries := [Entry(1000, 1000, 1001, 600, 1)], dev := map[600 := 9],
                                 blocks := map[600 := 1], clock := 1)
    ensures DataSubmit(s, 600, 1000, 1) == (UnsentBegun(), false)
  {
    SameMemory(Write(s.dev, 600, Read(s.host, 1000, 0)), s.dev);
    var r := DataSubmit(s, 600, 1000, 1);
    assert r.0 == s.(log := [Submit(600, 1000, 1)]) && !r.1;
  }

  lemma UnsentBegin()
    requires ArgsValid(UnsentArgs())
    ensures DataBegin(OneBlock(600, 1, 9), UnsentState(), UnsentArgs()) == (UnsentBegun(), false)
  {
    var p, s, args := OneBlock(600, 1, 9), UnsentState(), UnsentArgs();
    hide DataAlloc, DataSubmit, BeginStep, OneBlock, UnsentBegun;
    UnsentAlloc();
    BeginPlain(p, s, args, 0);
    UnsentSubmit(s.(entries := [Entry(1000, 1000, 1001, 600, 1)] + s.entries, dev := map[600 := 9],
                    blocks := map[600 := 1], clock := 1));
    assert BeginFirst(p, s, args, 0) == (s, true);
    assert BeginFirst(p, s, args, 1) == (UnsentBegun(), false);
  }

  lemma UnsentRetrieve()
    ensures DataRetrieve(UnsentBegun(), 1000, 600, 1).0.host == map[1000 := 9]
  {
    var t := UnsentBegun();
    assert Read(t.dev, 600, 1) == [9];
    SameMemory(Write(t.host, 1000, [9]), map[1000 := 9]);
  }

  lemma UnsentEnd()
    requires ArgsValid(UnsentArgs())
    ensures DataEnd(UnsentBegun(), UnsentArgs()).0.host == map[1000 := 9]
  {
    var t, args := UnsentBegun(), UnsentArgs();
    hide EndStep, DataRetrieve, DataDelete;
    UnsentRetrieve();
    EndPlain(t, args, 0, [], 600);
    var t1 := EndStep(t, args, 0).0;
    DeleteHost(DataRetrieve(t, 1000, 600, 1).0, 600);
    assert EndFirst(t1, args, 0).0 == t1;
  }

  lemma DeleteHost(s: Env, a: int)
    ensures DataDelete(s, a).host == s.host
  {
  }

  // A TOFROM byte whose submit fails: target() fails, and has overwritten the host's 5
  // with the 9 that happened to be in the block.
  lemma FailedBeginHarms(k: Kernel)
    ensures Honest(OneBlock(600, 1, 9)) && Fresh(UnsentState(), UnsentArgs()) && ArgsValid(UnsentArgs())
    ensures var (s', ok) := Target(OneBlock(600, 1, 9), k, UnsentState(), UnsentArgs());
            UnsentState().host == map[1000 := 5] && !ok && s'.host == map[1000 := 9]
  {
    UnsentFresh();
    UnsentBegin();
    UnsentEnd();
    OneBlockHonest(600, 1, 9);
    hide DataBegin, DataEnd, UnsentArgs, OneBlock, UnsentBegun, Fresh;
  }

  // ----------------------------------------------------------------- a stale byte

  // A struct of 16 bytes whose second word points to byte 2000.
  function StaleArgs(): seq<Arg> {
    [Arg(1000, 1000, 16, PLAIN), Arg(1008, 2000, 1, PLAIN.(to := true, ptrAndObj := true, memberOf := 0))]
  }

  function StaleHost(): Mem {
    Write(NewBlock(1000, seq(16, i => 0)) + map[2000 := 5], 1008, PtrBytes(2000))
  }

  // Byte 2000, 5 on the host, is mapped, and the device has changed it to 7.
  function StaleState(): Env {
    Env([Entry(2000, 2000, 2001, 600, 1)], [], StaleHost(), map[600 := 7], map[600 := 1], 0, [], t => Whole)
  }

  lemma StaleStateOk()
    ensures DeviceOk(StaleState()) && StaleState().dev == map[600 := 7]
  {
    hide StaleHost;
    var s := StaleState();
    assert BlocksOk(s.dev, s.blocks) && Backed(s.entries[0], s.dev, s.blocks);
  }

  lemma StaleHostHolds()
    ensures 2000 in StaleHost() && StaleHost()[2000] == 5
    ensures LoadPtr(StaleHost(), 1008) == 2000
  {
    hide LoadPtr, PtrBytes, Read;
    var m := NewBlock(1000, seq(16, i => 0)) + map[2000 := 5];
    forall x | 1008 <= x < 1016 ensures x in m {
      assert x in Range(1000, 16);
    }
    LoadStoredPtr(m, 1008, 2000);
  }

  // Mapping the struct ...
  lemma StaleFirst(t: Env)
    requires ArgsValid(StaleArgs())
    requires t == BeginFirst(OneBlock(500, 16, 0), StaleState(), StaleArgs(), 1).0
    ensures BeginFirst(OneBlock(500, 16, 0), StaleState(), StaleArgs(), 1).1
    ensures t == StaleState().(entries := [Entry(1000, 1000, 1016, 500, 1)] + StaleState().entries, clock := 1,
                               dev := t.dev, blocks := map[600 := 1, 500 := 16])
    ensures 600 in t.dev && Allocated(t.dev, 500, 16)
  {
    var p, s, args := OneBlock(500, 16, 0), StaleState(), StaleArgs();
    hide StaleHost;
    assert BeginFirst(p, s, args, 0) == (s, true);
    LookupIs(s.entries, 1000, 16, 1);
    var (s1, tp) := DataAlloc(p, s, 16);
    assert Begin(args, 0) == 1000 && Size(args, 0) == 16;
    assert BeginStep(p, s, args, 0).env == s1.(entries := [Entry(1000, 1000, 1016, tp, 1)] + s.entries);
    forall x | 500 <= x < 516 ensures x in t.dev {
      assert x in Range(500, 16);
    }
  }

  // ... makes its member's pointee, mapped long before, be sent again.
  lemma StaleSecond(p: Plugin, t: Env)
    requires t.entries == [Entry(1000, 1000, 1016, 500, 1), Entry(2000, 2000, 2001, 600, 1)]
    requires t.host == StaleHost() && 600 in t.dev && Allocated(t.dev, 500, 16) && t.answers == StaleState().answers
    ensures var o := BeginStep(p, t, StaleArgs(), 1);
            o.ok && o.env.entries == [Entry(1000, 1000, 1016, 500, 1), Entry(2000, 2000, 2001, 600, 2)] &&
            600 in o.env.dev && o.env.dev[600] == 5
  {
    var args := StaleArgs();
    StaleHostHolds();
    LookupIs(t.entries, 1008, 8, 0);
    LookupIs(t.entries, 2000, 1, 1);
    hide StaleHost, LoadPtr, PtrBytes, Lookup;
    assert Begin(args, 1) == 2000 && Size(args, 1) == 1;
    assert MapSlot(p, t, args, 1) == (t.(clock := t.clock + 1), 508);
    var (s2, tp, isNew) := MapPointee(p, t, args, 1);
    assert s2 == t.(entries := [t.entries[0], t.entries[1].(count := 2)], clock := t.clock + 2) && tp == 600;
    assert RefCount(s2.entries, 1000) == 1;
    assert CopyIn(s2.entries, args, 1, isNew);
    StaleSends(s2, args);
  }

  lemma StaleSends(s: Env, args: seq<Arg>)
    requires args == StaleArgs() && CopyIn(s.entries, args, 1, false)
    requires s.host == StaleHost() && 600 in s.dev && Allocated(s.dev, 500, 16) && s.answers == StaleState().answers
    ensures var (r, ok) := SendArgument(s, args, 1, 508, 2000, 600, false);
            ok && r.entries == s.entries && 600 in r.dev && r.dev[600] == 5
  {
    StaleHostHolds();
    hide StaleHost, CopyIn, InsertShadow, PtrBytes;
    var s1 := DataSubmit(s, 600, 2000, 1).0;
    assert Read(s.host, 2000, 1) == [5];
    assert s1.dev[600] == 5 && s1.dev.Keys == s.dev.Keys;
    assert Allocated(s1.dev, 508, PTR_BYTES);
  }

  // target_data_begin succeeds and leaves the host's stale 5 where the device had 7.
  lemma StaleResend()
    ensures DeviceOk(StaleState()) && Honest(OneBlock(500, 16, 0)) && ArgsValid(StaleArgs())
    ensures StaleState().dev == map[600 := 7]
    ensures var (t, ok) := DataBegin(OneBlock(500, 16, 0), StaleState(), StaleArgs());
            ok && t.entries == [Entry(1000, 1000, 1016, 500, 1), Entry(2000, 2000, 2001, 600, 2)] &&
            600 in t.dev && t.dev[600] == 5
  {
    var p := OneBlock(500, 16, 0);
    hide BeginFirst, StaleHost, OneBlock, StaleArgs, DeviceOk, Honest, StaleState;
    StaleStateOk();
    OneBlockHonest(500, 16, 0);
    StaleArgsValid();
    StaleBegin();
    assert |StaleArgs()| == 2 by { StaleCount(); }
  }

  lemma StaleCount()
    ensures |StaleArgs()| == 2
  {
  }

  lemma StaleArgsValid()
    ensures ArgsValid(StaleArgs())
  {
  }

  lemma StaleBegin()
    requires ArgsValid(StaleArgs())
    ensures var (t, ok) := BeginFirst(OneBlock(500, 16, 0), StaleState(), StaleArgs(), 2);
            ok && t.entries == [Entry(1000, 1000, 1016, 500, 1), Entry(2000, 2000, 2001, 600, 2)] &&
            600 in t.dev && t.dev[600] == 5
  {
    var p := OneBlock(500, 16, 0);
    hide BeginStep, StaleHost, OneBlock;
    var t := BeginFirst(p, StaleState(), StaleArgs(), 1).0;
    StaleFirst(t);
    StaleSecond(p, t);
  }

  // ------------------------------------------------------------- a leak cleaned up

  // An empty section inside the range of a private array.
  function HiddenArgs(): seq<Arg> {
    [Arg(1004, 1004, 0, PLAIN.(targetParam := true)),
     Arg(1000, 1000, 16, PLAIN.(targetParam := true, isPrivate := true))]
  }

  // The private copy is refused, but target_data_end finds its entry under the empty
  // section and removes it: the list is restored, so RefusedPrivateLeaks needs its last
  // hypothesis.
  lemma HiddenLeak(p: Plugin, k: Kernel, s: Env)
    requires s.entries == [] && DataAlloc(p, s.(clock := s.clock + 1), 16).1 == 0
    ensures ArgsValid(HiddenArgs()) && ArgsRoundTrip(p, s, HiddenArgs(), 2)
    ensures DataBegin(p, s, HiddenArgs()).1
    ensures RefusedAt(p, DataBegin(p, s, HiddenArgs()).0, HiddenArgs(), Bases(p, s, HiddenArgs()), 1)
    ensures Target(p, k, s, HiddenArgs()).0.entries == s.entries
  {
    var args, s1 := HiddenArgs(), s.(clock := s.clock + 1);
    HiddenBegin(p, s);
    var bases := Bases(p, s, args);
    var b := BuildFirst(p, s1, args, bases, 1);
    var b' := BuildFirst(p, s1, args, bases, 2);
    assert b.ok && b.env == s1 && b.privates == [] by {
      assert BuildFirst(p, s1, args, bases, 0) == Build(s1, [], [], true);
    }
    assert MakesPrivate(args, 1);
    RefusedCopy(p, b, args, bases, 1);
    assert b' == PrivateCopy(p, b, args, bases, 1);
    FreeNone(Launch(k, b').0, args);
    HiddenEnd(Launch(k, b').0, Leaked(args, bases, 1));
  }

  lemma HiddenBegin(p: Plugin, s: Env)
    requires s.entries == []
    ensures ArgsValid(HiddenArgs()) && DataBegin(p, s, HiddenArgs()) == (s.(clock := s.clock + 1), true)
    ensures ArgsRoundTrip(p, s, HiddenArgs(), 2)
  {
    var args := HiddenArgs();
    var s1 := s.(clock := s.clock + 1);
    assert BeginFirst(p, s, args, 0) == (s, true);
    assert Lookup(s.entries, 1004, 0) == 0;
    assert BeginStep(p, s, args, 0).env == s1 && BeginStep(p, s, args, 0).ok;
    assert BeginFirst(p, s, args, 1) == (s1, true);
    assert BeginStep(p, s1, args, 1).env == s1;
    assert ArgsRoundTrip(p, s, args, 0) && ArgsRoundTrip(p, s, args, 1);
  }

  lemma HiddenEnd(t: Env, e: Entry)
    requires ArgsValid(HiddenArgs()) && t.entries == [e] && e.begin == 1000 && e.end == 1016 && e.count == 1
    ensures DataEnd(t, HiddenArgs()).0.entries == []
  {
    var args := HiddenArgs();
    assert EndStep(t, args, 1) == (t, true);
    assert Flagged(e, 1004, 0);
    EndStepEntries(t, args, 0);
    assert EndFirst(t, args, 1).0 == EndFirst(EndStep(t, args, 0).0, args, 0).0;
  }

  // -------------------------------------------------------- private copies gone wrong

  function PrivateArg(): Arg {
    Arg(1000, 1000, 16, PLAIN.(targetParam := true, isPrivate := true))
  }

  // Nothing is mapped and the device has no block to give.
  lemma CopyRefused(k: Kernel, host: Mem, answers: nat -> Answer)
    ensures var s := Env([], [], host, map[], map[], 0, [], answers);
            && DeviceOk(s) && Honest(OneBlock(500, 8, 0)) && ArgsValid([PrivateArg()])
            && Target(OneBlock(500, 8, 0), k, s, [PrivateArg()]).0.entries == [Entry(1000, 1000, 1016, 0, 1)]
  {
    var s := Env([], [], host, map[], map[], 0, [], answers);
    LonePrivateExact(OneBlock(500, 8, 0), k, s, PrivateArg());
    OneBlockHonest(500, 8, 0);
    hide Target, ArgsValid;
    assert DataAlloc(OneBlock(500, 8, 0), s, 16).1 == 0;
  }

  // The array is mapped by an enclosing region, with its block at 500.
  function MappedState(host: Mem, answers: nat -> Answer): Env {
    Env([Entry(1000, 1000, 1016, 500, 1)], [], host, NewBlock(500, seq(16, i => 0)), map[500 := 16], 0, [], answers)
  }

  // target() with the array private deletes the entry of the enclosing region.
  lemma MappedEntryDeleted(p: Plugin, k: Kernel, host: Mem, answers: nat -> Answer)
    ensures DeviceOk(MappedState(host, answers)) && ArgsValid([PrivateArg()])
    ensures Target(p, k, MappedState(host, answers), [PrivateArg()]).0.entries == []
  {
    var s := MappedState(host, answers);
    assert BlocksOk(s.dev, s.blocks) && Backed(s.entries[0], s.dev, s.blocks);
    LonePrivateExact(p, k, s, PrivateArg());
    hide Target, ArgsValid;
    LookupIs(s.entries, 1000, 16, 0);
    assert Remove(s.entries, 0) == [];
  }

  // ------------------------------------------------------------ what end does not undo

  // DELETE over a mapped byte: the enclosing region's entry is gone.
  lemma DeleteReleases(p: Plugin, s: Env)
    requires s.entries == [Entry(1000, 1000, 1016, 500, 1)]
    ensures var args := [Arg(1000, 1004, 1, PLAIN.(delete := true))];
            ArgsValid(args) && DataEnd(DataBegin(p, s, args).0, args).0.entries == []
  {
    var args := [Arg(1000, 1004, 1, PLAIN.(delete := true))];
    var t := BeginStep(p, s, args, 0).env;
    hide BeginStep, EndStep, MapSlot;
    OneArgument(p, s, args, DataBegin(p, s, args).0);
    LookupIs(s.entries, 1004, 1, 0);
    LookupIs(Recount(s.entries, 0, 2), 1004, 1, 0);
    BeginStepEntries(p, s, args, 0);
    NoSlot(p, s, args);
    EndStepEntries(t, args, 0);
    assert t.entries == Recount(s.entries, 0, 2);
    assert Remove(t.entries, 0) == [];
  }

  lemma NoSlot(p: Plugin, s: Env, args: seq<Arg>)
    requires |args| == 1 && args[0].ty.memberOf == -1 && !args[0].ty.ptrAndObj
    ensures AfterSlot(p, s, args, 0) == s
  {
  }

  // Lists of one argument are its steps.
  lemma OneArgument(p: Plugin, s: Env, args: seq<Arg>, t: Env)
    requires |args| == 1 && args[0].ty.memberOf == -1
    ensures ArgsValid(args) && DataBegin(p, s, args).0 == BeginStep(p, s, args, 0).env
    ensures DataEnd(t, args).0 == EndStep(t, args, 0).0
  {
    hide BeginStep, EndStep;
    assert BeginFirst(p, s, args, 0) == (s, true);
    assert EndFirst(EndStep(t, args, 0).0, args, 0) == (EndStep(t, args, 0).0, true);
  }

  // A pointer and what it points to, mapped and unmapped: the pointer's slot stays mapped.
  lemma SlotStays(p: Plugin, s: Env)
    requires s.entries == []
    ensures var args := [Arg(1000, 2000, 1, PLAIN.(ptrAndObj := true))];
            ArgsValid(args) &&
            DataEnd(DataBegin(p, s, args).0, args).0.entries ==
            [Entry(1000, 1000, 1008, NewTgt(p, s, PTR_BYTES), 1)]
  {
    var args := [Arg(1000, 2000, 1, PLAIN.(ptrAndObj := true))];
    var t, s1 := BeginStep(p, s, args, 0).env, AfterSlot(p, s, args, 0);
    hide BeginStep, EndStep, NewTgt;
    OneArgument(p, s, args, DataBegin(p, s, args).0);
    assert UsesSlot(args, 0) && Begin(args, 0) == 2000 && Size(args, 0) == 1;
    SlotEntry(p, s, args);
    LookupIs(s1.entries, 2000, 1, 1);
    assert RoundTrips(s1.entries, args, 0);
    PointerArgumentResidue(p, s, args, 0, t);
    assert Lookup(s.entries, 1000, PTR_BYTES) == 0;
  }

  lemma SlotEntry(p: Plugin, s: Env, args: seq<Arg>)
    requires args == [Arg(1000, 2000, 1, PLAIN.(ptrAndObj := true))] && s.entries == []
    ensures AfterSlot(p, s, args, 0).entries == [Entry(1000, 1000, 1008, NewTgt(p, s, PTR_BYTES), 1)]
  {
    assert UsesSlot(args, 0);
    hide DataAlloc;
    GetOrAllocEntries(p, s, 1000, 1000, PTR_BYTES, false, true);
  }

  // --------------------------------------------------------- RETURN_PARAM for a kernel

  function ReturnArgs(): seq<Arg> {
    [Arg(1000, 1000, 16, PLAIN.(targetParam := true, returnParam := true))]
  }

  lemma ReturnCollects(p: Plugin, s: Env)
    ensures ArgsValid(ReturnArgs()) && Passed(ReturnArgs(), 0) && Collected(p, s, ReturnArgs()).ok
  {
    var args := ReturnArgs();
    assert forall a :: a in args ==> a == args[0];
    hide DataBegin, GetTgtPtr, Bases;
    var t, bases := DataBegin(p, s, args).0, Bases(p, s, args);
    assert BuildFirst(p, t, args, bases, 0).ok;
    assert BuildStep(p, BuildFirst(p, t, args, bases, 0), args, bases, 0).ok;
  }

  lemma ReturnEntries(p: Plugin, s: Env)
    requires s.entries == [Entry(1000, 1000, 1016, 500, 1)]
    ensures ArgsValid(ReturnArgs()) && DataBegin(p, s, ReturnArgs()).0.entries == [Entry(1000, 1000, 1016, 500, 2)]
  {
    var args := ReturnArgs();
    OneArgument(p, s, args, s);
    hide BeginStep, DataBegin;
    NoSlot(p, s, args);
    BeginStepEntries(p, s, args, 0);
    LookupIs(s.entries, 1000, 16, 0);
    hide AfterSlot, NewTgt;
    assert Begin(args, 0) == 1000 && Size(args, 0) == 16;
  }

  // Sixteen bytes mapped at device address 500: an argument that is TARGET_PARAM and
  // RETURN_PARAM gives the program that address, and the kernel 0 as its base.
  lemma ReturnParamMisleads(p: Plugin, s: Env)
    requires s.entries == [Entry(1000, 1000, 1016, 500, 1)]
    ensures ArgsValid(ReturnArgs()) && Passed(ReturnArgs(), 0) && Collected(p, s, ReturnArgs()).ok
    ensures Bases(p, s, ReturnArgs()) == [500]
    ensures var q := ParamAt(p, DataBegin(p, s, ReturnArgs()).0, ReturnArgs(), Bases(p, s, ReturnArgs()), 0);
            q.ptr + q.offset == 0
  {
    var args, e := ReturnArgs(), Entry(1000, 1000, 1016, 500, 2);
    ReturnCollects(p, s);
    ReturnEntries(p, s);
    assert Begin(args, 0) == 1000 && Size(args, 0) == 16 && Contained(e, 1000, 16);
    hide DataBegin, Collected, Bases, ParamAt, BuildFirst;
    assert WellFormed(s.entries) && WellFormed([e]) && e in [e];
    ReturnedBase(p, s, args, 0, e, 1000);
    CollectedIs(p, s, args);
    SectionParam(p, DataBegin(p, s, args).0, args, Bases(p, s, args), 0, e, 1000);
  }
}
