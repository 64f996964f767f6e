/** What the device memory holds once target_data_begin, or target(), has set it up. */
module DeviceContents {
  // A byte that was sent stays until another transfer of the log writes over it.

  import opened Memory
  import opened DeviceMap
  import opened DataEnvironment
  import opened MapInverse
  import opened TransferRuns
  import opened TransferOnce
  import opened TargetRegion
  import opened TargetAddresses
  import ShadowPointers

  // ------------------------------------------------------------ bytes that stay

  // Does the transfer write device byte y?
  predicate Writes(t: Transfer, y: int) {
    match t
    case Submit(tgt, _, n) => tgt <= y < tgt + n
    case SubmitPtr(slot, _) => slot <= y < slot + PTR_BYTES
    case Retrieve(_, _, _) => false
  }

  ghost predicate Untouched(ts: seq<Transfer>, y: int) {
    forall t :: t in ts ==> !Writes(t, y)
  }

  ghost predicate WordUntouched(ts: seq<Transfer>, slot: int) {
    forall y :: slot <= y < slot + PTR_BYTES ==> Untouched(ts, y)
  }

  // From s to s' device byte y is lost to a transfer only.
  ghost predicate Keeps(s: Env, s': Env, y: int) {
    && s.log <= s'.log && s'.host == s.host
    && (y in s.dev ==> y in s'.dev && (Untouched(s'.log[|s.log|..], y) ==> s'.dev[y] == s.dev[y]))
  }

  lemma KeepsRefl(s: Env, y: int)
    ensures Keeps(s, s, y)
  {
  }

  lemma KeepsTrans(s: Env, t: Env, u: Env, y: int)
    requires Keeps(s, t, y) && Keeps(t, u, y)
    ensures Keeps(s, u, y)
  {
    assert u.log[|s.log|..] == t.log[|s.log|..] + u.log[|t.log|..];
  }

  lemma SubmitKeeps(s: Env, tgt: int, hst: int, n: nat, y: int)
    ensures Keeps(s, DataSubmit(s, tgt, hst, n).0, y)
  {
    var t := DataSubmit(s, tgt, hst, n).0;
    assert t.log[|s.log|..] == [Submit(tgt, hst, n)];
    assert Untouched(t.log[|s.log|..], y) ==> !Writes(Submit(tgt, hst, n), y);
  }

  lemma PointerKeeps(s: Env, slot: int, val: int, y: int)
    ensures Keeps(s, SubmitPointer(s, slot, val).0, y)
  {
    var t := SubmitPointer(s, slot, val).0;
    assert t.log[|s.log|..] == [SubmitPtr(slot, val)];
    assert Untouched(t.log[|s.log|..], y) ==> !Writes(SubmitPtr(slot, val), y);
    hide PtrBytes;
  }

  // A new block holds no byte that was there before.
  lemma AllocKeeps(p: Plugin, s: Env, hp: int, base: int, n: nat, implicit: bool, update: bool, y: int)
    requires Honest(p)
    ensures Keeps(s, GetOrAlloc(p, s, hp, base, n, implicit, update).0, y)
  {
    hide Lookup, Flagged, Usable;
  }

  // The transfers of one argument: the section's, then the pointer's.
  lemma SendParts(s: Env, args: seq<Arg>, i: nat, slot: int, base: int, tp: int, isNew: bool)
    requires i < |args| && args[i].ty.memberOf < |args|
    ensures var hp, (t, ok) := Begin(args, i), SendArgument(s, args, i, slot, base, tp, isNew);
            var (s1, ok1) := if CopyIn(s.entries, args, i, isNew) then DataSubmit(s, tp, hp, Size(args, i)) else (s, true);
            if slot == 0 then (t, ok) == (s1, ok1)
            else var v, (s2, ok2) := tp - (hp - base), SubmitPointer(s1, slot, tp - (hp - base));
                 && t == s2.(shadows := InsertShadow(s2.shadows, Shadow(args[i].base, base, slot, v)))
                 && (ok <==> ok1 && ok2)
  {
    hide CopyIn, DataSubmit, SubmitPointer, InsertShadow, Begin, Size;
  }

  lemma SendKeeps(s: Env, args: seq<Arg>, i: nat, slot: int, base: int, tp: int, isNew: bool, y: int)
    requires i < |args| && args[i].ty.memberOf < |args|
    ensures Keeps(s, SendArgument(s, args, i, slot, base, tp, isNew).0, y)
  {
    hide *;
    SendParts(s, args, i, slot, base, tp, isNew);
    var s1 := if CopyIn(s.entries, args, i, isNew) then DataSubmit(s, tp, Begin(args, i), Size(args, i)).0 else s;
    KeepsRefl(s, y);
    SubmitKeeps(s, tp, Begin(args, i), Size(args, i), y);
    if slot != 0 {
      var s2 := SubmitPointer(s1, slot, tp - (Begin(args, i) - base)).0;
      PointerKeeps(s1, slot, tp - (Begin(args, i) - base), y);
      KeepsTrans(s, s1, s2, y);
      KeepsWith(s, s2, InsertShadow(s2.shadows, Shadow(args[i].base, base, slot, tp - (Begin(args, i) - base))), y);
    }
  }

  lemma KeepsWith(s: Env, t: Env, sh: seq<Shadow>, y: int)
    requires Keeps(s, t, y)
    ensures Keeps(s, t.(shadows := sh), y)
  {
  }

  lemma MapPointeeKeeps(p: Plugin, s: Env, args: seq<Arg>, i: nat, y: int)
    requires i < |args| && args[i].ty.memberOf < |args| && Honest(p)
    ensures Keeps(s, MapPointee(p, s, args, i).0, y)
  {
    var a := args[i];
    hide Keeps, GetOrAlloc, Honest, Begin, Size;
    AllocKeeps(p, s, a.base, a.base, PTR_BYTES, a.ty.implicit, !Member(a), y);
    KeepsRefl(s, y);
    var s1 := MapSlot(p, s, args, i).0;
    AllocKeeps(p, s1, Begin(args, i), PointeeBase(s.host, a), Size(args, i), a.ty.implicit, !PlainMember(a), y);
    KeepsTrans(s, s1, MapPointee(p, s, args, i).0, y);
  }

  // One iteration of target_data_begin, taken apart.
  lemma StepIs(p: Plugin, s: Env, args: seq<Arg>, i: nat)
    requires i < |args| && args[i].ty.memberOf < |args|
    ensures var o := BeginStep(p, s, args, i);
            var (s2, tp, isNew) := MapPointee(p, s, args, i);
            (o.env, o.ok) == if Skipped(args[i]) then (s, true)
                             else SendArgument(s2, args, i, MapSlot(p, s, args, i).1, PointeeBase(s.host, args[i]), tp, isNew)
  {
    hide MapPointee, SendArgument, MapSlot;
  }

  lemma StepKeeps(p: Plugin, s: Env, args: seq<Arg>, i: nat, y: int)
    requires i < |args| && args[i].ty.memberOf < |args| && Honest(p)
    ensures Keeps(s, BeginStep(p, s, args, i).env, y)
  {
    hide *;
    StepIs(p, s, args, i);
    KeepsRefl(s, y);
    var (s2, tp, isNew) := MapPointee(p, s, args, i);
    var slot, base := MapSlot(p, s, args, i).1, PointeeBase(s.host, args[i]);
    MapPointeeKeeps(p, s, args, i, y);
    SendKeeps(s2, args, i, slot, base, tp, isNew, y);
    KeepsTrans(s, s2, SendArgument(s2, args, i, slot, base, tp, isNew).0, y);
  }

  lemma {:induction false} BeginKeeps(p: Plugin, s: Env, args: seq<Arg>, j: nat, k: nat, y: int)
    requires j <= k <= |args| && ArgsValid(args) && Honest(p)
    ensures Keeps(StateAt(p, s, args, j), StateAt(p, s, args, k), y)
    decreases k
  {
    hide *;
    if j == k {
      KeepsRefl(StateAt(p, s, args, j), y);
    } else {
      var u := StateAt(p, s, args, k - 1);
      BeginKeeps(p, s, args, j, k - 1, y);
      AtNext(p, s, args, k - 1);
      StepKeeps(p, u, args, k - 1, y);
      KeepsTrans(StateAt(p, s, args, j), u, StateAt(p, s, args, k), y);
    }
  }

  // A begin that succeeds has succeeded at every argument.
  lemma {:induction false} BeginSucceeded(p: Plugin, s: Env, args: seq<Arg>, i: nat, k: nat)
    requires i < k <= |args| && ArgsValid(args) && BeginFirst(p, s, args, k).1
    ensures args[i].ty.memberOf < |args| && BeginStep(p, StateAt(p, s, args, i), args, i).ok
    decreases k
  {
    hide BeginStep;
    assert args[k - 1] in args;
    if i < k - 1 {
      BeginSucceeded(p, s, args, i, k - 1);
    }
  }

  lemma SucceededAt(p: Plugin, s: Env, args: seq<Arg>, i: nat)
    requires i < |args| && ArgsValid(args) && DataBegin(p, s, args).1
    ensures args[i].ty.memberOf < |args| && BeginStep(p, StateAt(p, s, args, i), args, i).ok
  {
    hide BeginFirst, BeginStep;
    BeginSucceeded(p, s, args, i, |args|);
  }

  // --------------------------------------------------------------- sections sent

  // A transfer that succeeds delivers every byte.
  lemma SubmitArrives(s: Env, tgt: int, hst: int, n: nat, y: int)
    requires DataSubmit(s, tgt, hst, n).1 && tgt <= y < tgt + n
    ensures ShadowPointers.SameByte(DataSubmit(s, tgt, hst, n).0.dev, y, s.host, hst + (y - tgt))
  {
  }

  lemma PointerArrives(s: Env, slot: int, val: int)
    requires SubmitPointer(s, slot, val).1
    ensures var dev := SubmitPointer(s, slot, val).0.dev;
            Allocated(dev, slot, PTR_BYTES) && Read(dev, slot, PTR_BYTES) == PtrBytes(val)
  {
    hide PtrBytes;
    assert PtrBytes(val)[..PTR_BYTES] == PtrBytes(val);
    ReadWrite(s.dev, slot, PtrBytes(val));
  }

  // The section has just been sent in the state returned.
  lemma SentAtTurn(p: Plugin, s: Env, args: seq<Arg>, i: nat, x: int) returns (mid: Env)
    requires i < |args| && args[i].ty.memberOf < |args|
    requires Sends(p, s, args, i) != [] && BeginStep(p, s, args, i).ok
    requires Begin(args, i) <= x < Begin(args, i) + Size(args, i)
    ensures var y := MapPointee(p, s, args, i).1 + (x - Begin(args, i));
            && |mid.log| == |s.log| + 1 && ShadowPointers.SameByte(mid.dev, y, s.host, x)
            && Keeps(mid, BeginStep(p, s, args, i).env, y)
  {
    hide *;
    var (s2, tp, isNew) := MapPointee(p, s, args, i);
    var hp, n, slot, base := Begin(args, i), Size(args, i), MapSlot(p, s, args, i).1, PointeeBase(s.host, args[i]);
    var y := tp + (x - hp);
    SendsMeans(p, s, args, i);
    StepIs(p, s, args, i);
    MapPointeeLog(p, s, args, i);
    ShadowPointers.MapKeeps(p, s, args, i);
    mid := DataSubmit(s2, tp, hp, n).0;
    SentParts(s2, args, i, slot, base, tp, isNew, y);
    SubmitArrives(s2, tp, hp, n, y);
  }

  lemma SendsMeans(p: Plugin, s: Env, args: seq<Arg>, i: nat)
    requires i < |args| && args[i].ty.memberOf < |args|
    ensures var (s2, tp, isNew) := MapPointee(p, s, args, i);
            Sends(p, s, args, i) ==
            if !Skipped(args[i]) && CopyIn(s2.entries, args, i, isNew)
            then [Submit(tp, Begin(args, i), Size(args, i))] else []
  {
    hide MapPointee, CopyIn, Begin, Size;
  }

  lemma SubmitLog(s: Env, tgt: int, hst: int, n: nat)
    ensures |DataSubmit(s, tgt, hst, n).0.log| == |s.log| + 1
  {
    hide Write, Read, Allocated;
  }

  lemma SentParts(s: Env, args: seq<Arg>, i: nat, slot: int, base: int, tp: int, isNew: bool, y: int)
    requires i < |args| && args[i].ty.memberOf < |args| && CopyIn(s.entries, args, i, isNew)
    ensures var mid := DataSubmit(s, tp, Begin(args, i), Size(args, i)).0;
            |mid.log| == |s.log| + 1 && Keeps(mid, SendArgument(s, args, i, slot, base, tp, isNew).0, y)
    ensures SendArgument(s, args, i, slot, base, tp, isNew).1 ==>
              DataSubmit(s, tp, Begin(args, i), Size(args, i)).1
  {
    hide *;
    var mid := DataSubmit(s, tp, Begin(args, i), Size(args, i)).0;
    SendParts(s, args, i, slot, base, tp, isNew);
    SubmitLog(s, tp, Begin(args, i), Size(args, i));
    KeepsRefl(mid, y);
    PointerKeeps(mid, slot, tp - (Begin(args, i) - base), y);
    var s2 := SubmitPointer(mid, slot, tp - (Begin(args, i) - base)).0;
    KeepsWith(mid, s2, InsertShadow(s2.shadows, Shadow(args[i].base, base, slot, tp - (Begin(args, i) - base))), y);
  }

  // After a successful target_data_begin of any list: a byte of a section that was sent is,
  // where the map translates it, the host's, unless a later transfer wrote there.
  lemma SectionLoaded(p: Plugin, s: Env, args: seq<Arg>, i: nat, e: Entry, x: int)
    requires ArgsValid(args) && WellFormed(s.entries) && Honest(p) && DataBegin(p, s, args).1
    requires i < |args| && args[i].ty.memberOf < |args| && Sends(p, StateAt(p, s, args, i), args, i) != []
    requires Begin(args, i) <= x < Begin(args, i) + Size(args, i)
    requires e in DataBegin(p, s, args).0.entries && Contained(e, Begin(args, i), Size(args, i))
    requires |StateAt(p, s, args, i).log| < |DataBegin(p, s, args).0.log| ==>
               Untouched(DataBegin(p, s, args).0.log[|StateAt(p, s, args, i).log| + 1..], Translate(e, x))
    ensures |StateAt(p, s, args, i).log| < |DataBegin(p, s, args).0.log|
    ensures ShadowPointers.SameByte(DataBegin(p, s, args).0.dev, Translate(e, x), s.host, x)
  {
    hide *;
    var si, sj, t := StateAt(p, s, args, i), StateAt(p, s, args, i + 1), StateAt(p, s, args, |args|);
    RegionEnds(p, s, args, t);
    AtNext(p, s, args, i);
    SendsMeans(p, si, args, i);
    SectionAt(p, s, args, i, e, x);
    BeginExtendsAll(p, s, args, i, i);
    SucceededAt(p, s, args, i);
    var mid := SentAtTurn(p, si, args, i, x);
    BeginKeeps(p, s, args, i + 1, |args|, Translate(e, x));
    KeepsTrans(mid, sj, t, Translate(e, x));
    StaysThere(mid, t, Translate(e, x), s.host, x);
  }

  lemma StaysThere(mid: Env, t: Env, y: int, host: Mem, x: int)
    requires Keeps(mid, t, y) && ShadowPointers.SameByte(mid.dev, y, host, x)
    ensures |mid.log| <= |t.log|
    ensures Untouched(t.log[|mid.log|..], y) ==> ShadowPointers.SameByte(t.dev, y, host, x)
  {
  }

  // The address an entry of the final list gives is the one argument i's turn found.
  lemma SectionAt(p: Plugin, s: Env, args: seq<Arg>, i: nat, e: Entry, x: int)
    requires ArgsValid(args) && WellFormed(s.entries) && i < |args| && args[i].ty.memberOf < |args|
    requires !Skipped(args[i]) && Size(args, i) > 0
    requires e in DataBegin(p, s, args).0.entries && Contained(e, Begin(args, i), Size(args, i))
    ensures MapPointee(p, StateAt(p, s, args, i), args, i).1 + (x - Begin(args, i)) == Translate(e, x)
  {
    hide *;
    var si, sj, t := StateAt(p, s, args, i), StateAt(p, s, args, i + 1), StateAt(p, s, args, |args|);
    RegionEnds(p, s, args, t);
    AtNext(p, s, args, i);
    BeginExtendsAll(p, s, args, i, i + 1);
    BeginExtendsAll(p, s, args, i + 1, |args|);
    MetAtTurn(p, si, args, i);
    var f := OldEntry(t.entries, sj.entries, e, Begin(args, i), Size(args, i));
    SameContained(e, f, Begin(args, i), Size(args, i), x);
    PointeeTgt(p, si, args, i, f);
  }

  // Does argument i stand for a struct whose members follow?
  predicate Combined(args: seq<Arg>, i: nat)
    requires i < |args|
  {
    args[i].ty.memberOf < 0 && i + 1 < |args| && args[i + 1].ty.memberOf == i
  }

  // The section of a struct is widened to an aligned begin, and no further.
  lemma Widened(args: seq<Arg>, i: nat)
    requires i < |args|
    ensures Begin(args, i) <= args[i].begin && Begin(args, i) + Size(args, i) == args[i].begin + args[i].size
    ensures if Combined(args, i) then Begin(args, i) % ALIGNMENT == 0 && args[i].begin - Begin(args, i) < ALIGNMENT
            else Begin(args, i) == args[i].begin
  {
  }

  // So on a device that aligns its blocks every byte of a struct that enters is aligned as
  // it is on the host.
  lemma StructAligned(p: Plugin, s: Env, args: seq<Arg>, i: nat, e: Entry, x: int)
    requires ArgsValid(args) && WellFormed(s.entries) && i < |args| && args[i].ty.memberOf < |args|
    requires Combined(args, i) && !Skipped(args[i]) && Size(args, i) > 0
    requires var si := StateAt(p, s, args, i);
             !Found(MapSlot(p, si, args, i).0.entries, Begin(args, i), Size(args, i)) &&
             NewTgt(p, MapSlot(p, si, args, i).0, Size(args, i)) % ALIGNMENT == 0
    requires e in DataBegin(p, s, args).0.entries && Contained(e, Begin(args, i), Size(args, i))
    ensures Translate(e, x) % ALIGNMENT == x % ALIGNMENT
  {
    hide *;
    SectionAt(p, s, args, i, e, x);
    NewPointee(p, StateAt(p, s, args, i), args, i);
    Widened(args, i);
    SameRemainder(MapPointee(p, StateAt(p, s, args, i), args, i).1, x, Begin(args, i));
  }

  lemma SameRemainder(tp: int, x: int, hp: int)
    requires tp % ALIGNMENT == 0 && hp % ALIGNMENT == 0
    ensures (tp + (x - hp)) % ALIGNMENT == x % ALIGNMENT
  {
  }

  lemma NewPointee(p: Plugin, s: Env, args: seq<Arg>, i: nat)
    requires i < |args| && args[i].ty.memberOf < |args| && Size(args, i) > 0
    requires !Found(MapSlot(p, s, args, i).0.entries, Begin(args, i), Size(args, i))
    ensures MapPointee(p, s, args, i).1 == NewTgt(p, MapSlot(p, s, args, i).0, Size(args, i))
  {
    hide MapSlot, Begin, Size, DataAlloc, Flagged;
  }

  // ALWAYS sends a TO section whatever its count ...
  lemma AlwaysSubmitted(p: Plugin, s: Env, args: seq<Arg>, i: nat, e: Entry)
    requires ArgsValid(args) && WellFormed(s.entries) && i < |args| && args[i].ty.memberOf < |args|
    requires !Skipped(args[i]) && args[i].ty.to && args[i].ty.always && Size(args, i) > 0
    requires e in DataBegin(p, s, args).0.entries && Contained(e, Begin(args, i), Size(args, i))
    ensures Sends(p, StateAt(p, s, args, i), args, i) ==
            [Submit(Translate(e, Begin(args, i)), Begin(args, i), Size(args, i))]
  {
    hide *;
    SectionAt(p, s, args, i, e, Begin(args, i));
    SendsMeans(p, StateAt(p, s, args, i), args, i);
    AlwaysCopied(MapPointee(p, StateAt(p, s, args, i), args, i).0.entries, args, i, MapPointee(p, StateAt(p, s, args, i), args, i).2);
  }

  lemma AlwaysCopied(es: Entries, args: seq<Arg>, i: nat, isNew: bool)
    requires i < |args| && args[i].ty.memberOf < |args| && args[i].ty.to && args[i].ty.always
    ensures CopyIn(es, args, i, isNew)
  {
  }

  // ... and fetches a FROM section.
  lemma AlwaysFetched(es: Entries, args: seq<Arg>, i: nat, e: Entry)
    requires WellFormed(es) && i < |args| && args[i].ty.memberOf < |args|
    requires !Skipped(args[i]) && args[i].ty.from && args[i].ty.always
    requires e in es && Contained(e, Begin(args, i), Size(args, i))
    ensures Fetches(es, args, i) == [Retrieve(Begin(args, i), Translate(e, Begin(args, i)), Size(args, i))]
  {
    ContainedFound(es, e, Begin(args, i), Size(args, i));
    hide WellFormed, Lookup, Translate, Begin, Size;
  }

  // ------------------------------------------------------------- pointers attached

  // Once mapped, a section is met.
  lemma MetOnceMapped(p: Plugin, s: Env, hp: int, base: int, n: nat, implicit: bool, update: bool)
    requires n > 0
    ensures Found(GetOrAlloc(p, s, hp, base, n, implicit, update).0.entries, hp, n)
  {
    GetOrAllocEntries(p, s, hp, base, n, implicit, update);
    var es, j := s.entries, Lookup(s.entries, hp, n);
    hide GetOrAlloc, NewTgt, Flagged, Usable;
    if j < |es| {
      LookupRecount(es, j, es[j].count + 1, hp, n);
    } else {
      OwnHead(Entry(base, hp, hp + n, NewTgt(p, s, n), 1), es, hp, n);
    }
  }

  // The device address of argument i's pointer slot.
  lemma SlotAt(p: Plugin, s: Env, args: seq<Arg>, i: nat, f: Entry)
    requires ArgsValid(args) && WellFormed(s.entries) && i < |args| && args[i].ty.memberOf < |args|
    requires !Skipped(args[i]) && UsesSlot(args, i)
    requires f in DataBegin(p, s, args).0.entries && Contained(f, args[i].base, PTR_BYTES)
    ensures MapSlot(p, StateAt(p, s, args, i), args, i).1 == Translate(f, args[i].base)
  {
    hide *;
    var a, si, t := args[i], StateAt(p, s, args, i), StateAt(p, s, args, |args|);
    var s1 := MapSlot(p, si, args, i).0;
    RegionEnds(p, s, args, t);
    BeginExtendsAll(p, s, args, i, i + 1);
    BeginExtendsAll(p, s, args, i + 1, |args|);
    SlotIs(p, si, args, i);
    GetOrAllocExtends(p, si, a.base, a.base, PTR_BYTES, a.ty.implicit, !Member(a));
    MetOnceMapped(p, si, a.base, a.base, PTR_BYTES, a.ty.implicit, !Member(a));
    SlotExtends(p, si, args, i);
    AtNext(p, s, args, i);
    ExtendsTrans(s1.entries, StateAt(p, s, args, i + 1).entries, t.entries);
    var g := OldEntry(t.entries, s1.entries, f, a.base, PTR_BYTES);
    SameContained(f, g, a.base, PTR_BYTES, a.base);
    GetOrAllocTgt(p, si, a.base, a.base, PTR_BYTES, a.ty.implicit, !Member(a), g);
  }

  lemma SlotIs(p: Plugin, s: Env, args: seq<Arg>, i: nat)
    requires i < |args| && args[i].ty.memberOf < |args| && UsesSlot(args, i)
    ensures var a := args[i];
            var (s1, tp, isNew) := GetOrAlloc(p, s, a.base, a.base, PTR_BYTES, a.ty.implicit, !Member(a));
            MapSlot(p, s, args, i) == (s1, tp)
    ensures PTR_BYTES > 0 && args[i].ty.ptrAndObj
  {
    hide GetOrAlloc;
  }

  lemma SlotExtends(p: Plugin, s: Env, args: seq<Arg>, i: nat)
    requires i < |args| && args[i].ty.memberOf < |args| && !Skipped(args[i])
    requires WellFormed(MapSlot(p, s, args, i).0.entries)
    ensures Extends(BeginStep(p, s, args, i).env.entries, MapSlot(p, s, args, i).0.entries)
  {
    hide WellFormed, Extends, GetOrAlloc, SendArgument, MapSlot, Begin, Size;
    var a, s1 := args[i], MapSlot(p, s, args, i).0;
    GetOrAllocExtends(p, s1, Begin(args, i), PointeeBase(s.host, a), Size(args, i), a.ty.implicit, !PlainMember(a));
  }

  lemma {:induction false} InsertHas(sh: seq<Shadow>, x: Shadow)
    ensures x in InsertShadow(sh, x)
  {
    if sh != [] && x.key > sh[0].key {
      InsertHas(sh[1..], x);
    }
  }

  // Argument i's turn leaves the device base of the pointee in the device slot, and records
  // it.
  lemma AttachedAtTurn(p: Plugin, s: Env, args: seq<Arg>, i: nat)
    requires i < |args| && args[i].ty.memberOf < |args| && !Skipped(args[i]) && UsesSlot(args, i)
    requires BeginStep(p, s, args, i).ok && MapSlot(p, s, args, i).1 != 0
    ensures var s', slot, host := BeginStep(p, s, args, i).env, MapSlot(p, s, args, i).1, LoadPtr(s.host, args[i].base);
            var v := MapPointee(p, s, args, i).1 - (Begin(args, i) - host);
            && Allocated(s'.dev, slot, PTR_BYTES) && Read(s'.dev, slot, PTR_BYTES) == PtrBytes(v)
            && Shadow(args[i].base, host, slot, v) in s'.shadows
  {
    hide *;
    StepIs(p, s, args, i);
    SlotIs(p, s, args, i);
    var (s2, tp, isNew) := MapPointee(p, s, args, i);
    assert PointeeBase(s.host, args[i]) == LoadPtr(s.host, args[i].base) by { PointerBase(s.host, args[i]); }
    SendAttaches(s2, args, i, MapSlot(p, s, args, i).1, LoadPtr(s.host, args[i].base), tp, isNew);
  }

  lemma PointerBase(host: Mem, a: Arg)
    requires a.ty.ptrAndObj
    ensures PointeeBase(host, a) == LoadPtr(host, a.base)
  {
  }

  lemma SendAttaches(s: Env, args: seq<Arg>, i: nat, slot: int, base: int, tp: int, isNew: bool)
    requires i < |args| && args[i].ty.memberOf < |args| && slot != 0
    requires SendArgument(s, args, i, slot, base, tp, isNew).1
    ensures var s', v := SendArgument(s, args, i, slot, base, tp, isNew).0, tp - (Begin(args, i) - base);
            && Allocated(s'.dev, slot, PTR_BYTES) && Read(s'.dev, slot, PTR_BYTES) == PtrBytes(v)
            && Shadow(args[i].base, base, slot, v) in s'.shadows
  {
    hide *;
    var v := tp - (Begin(args, i) - base);
    SendParts(s, args, i, slot, base, tp, isNew);
    var s3 := if CopyIn(s.entries, args, i, isNew) then DataSubmit(s, tp, Begin(args, i), Size(args, i)).0 else s;
    PointerArrives(s3, slot, v);
    InsertHas(SubmitPointer(s3, slot, v).0.shadows, Shadow(args[i].base, base, slot, v));
  }

  // After a successful target_data_begin of any list: the device slot of a pointer mapped
  // with its pointee holds the device base from which every byte of the pointee, at its
  // displacement from the host pointer, is found where the map translates it.
  lemma PointerAttached(p: Plugin, s: Env, args: seq<Arg>, i: nat, e: Entry, f: Entry, x: int)
    requires ArgsValid(args) && WellFormed(s.entries) && Honest(p) && DataBegin(p, s, args).1
    requires i < |args| && args[i].ty.memberOf < |args| && !Skipped(args[i]) && UsesSlot(args, i)
    requires Begin(args, i) <= x < Begin(args, i) + Size(args, i)
    requires e in DataBegin(p, s, args).0.entries && Contained(e, Begin(args, i), Size(args, i))
    requires f in DataBegin(p, s, args).0.entries && Contained(f, args[i].base, PTR_BYTES)
    requires Translate(f, args[i].base) != 0
    ensures var slot, host := Translate(f, args[i].base), LoadPtr(s.host, args[i].base);
            var v := Translate(e, x) - (x - host);
            && Shadow(args[i].base, host, slot, v) in StateAt(p, s, args, i + 1).shadows
            && |StateAt(p, s, args, i + 1).log| <= |DataBegin(p, s, args).0.log|
            && (WordUntouched(DataBegin(p, s, args).0.log[|StateAt(p, s, args, i + 1).log|..], slot) ==>
                Read(DataBegin(p, s, args).0.dev, slot, PTR_BYTES) == PtrBytes(v))
  {
    hide *;
    var si, sj, t := StateAt(p, s, args, i), StateAt(p, s, args, i + 1), StateAt(p, s, args, |args|);
    var slot := Translate(f, args[i].base);
    RegionEnds(p, s, args, t);
    AtNext(p, s, args, i);
    SectionAt(p, s, args, i, e, x);
    SlotAt(p, s, args, i, f);
    BeginExtendsAll(p, s, args, i, i);
    SucceededAt(p, s, args, i);
    AttachedAtTurn(p, si, args, i);
    BeginKeeps(p, s, args, i + 1, |args|, slot);
    forall y | slot <= y < slot + PTR_BYTES ensures Keeps(sj, t, y) {
      BeginKeeps(p, s, args, i + 1, |args|, y);
    }
    WordStays(sj, t, slot);
  }

  // Only the pointer of a member of a private struct is left alone: neither is its slot
  // mapped, nor anything sent to it or recorded; target() sets it in the struct's copy.
  lemma PrivateSlotLeft(p: Plugin, s: Env, args: seq<Arg>, i: nat)
    requires i < |args| && args[i].ty.memberOf < |args| && !Skipped(args[i]) && OfPrivateParent(args, i)
    ensures var s', a := BeginStep(p, s, args, i).env, args[i];
            && s'.entries == MapSection(s.entries, Begin(args, i), PointeeBase(s.host, a), Size(args, i),
                                        NewTgt(p, s, Size(args, i)), a.ty.implicit, !PlainMember(a))
            && s'.shadows == s.shadows && s'.log == s.log + Sends(p, s, args, i)
  {
    BeginStepEntries(p, s, args, i);
    BeginStepLog(p, s, args, i);
    StepIs(p, s, args, i);
    ShadowPointers.MapKeeps(p, s, args, i);
    hide BeginStep, MapPointee, MapSection, Begin, Size, PointeeBase, NewTgt, DataSubmit, SubmitPointer, InsertShadow, CopyIn;
    var (s2, tp, isNew) := MapPointee(p, s, args, i);
    SendParts(s2, args, i, MapSlot(p, s, args, i).1, PointeeBase(s.host, args[i]), tp, isNew);
    assert MapSlot(p, s, args, i) == (s, 0);
  }

  lemma WordStays(s: Env, t: Env, slot: int)
    requires Allocated(s.dev, slot, PTR_BYTES) && forall y :: slot <= y < slot + PTR_BYTES ==> Keeps(s, t, y)
    ensures |s.log| <= |t.log|
    ensures WordUntouched(t.log[|s.log|..], slot) ==> Read(t.dev, slot, PTR_BYTES) == Read(s.dev, slot, PTR_BYTES)
  {
    assert Keeps(s, t, slot);
    hide Untouched;
    if WordUntouched(t.log[|s.log|..], slot) {
      forall y | slot <= y < slot + PTR_BYTES ensures y in s.dev && y in t.dev && t.dev[y] == s.dev[y] {
        assert Keeps(s, t, y);
      }
    }
  }

  // ------------------------------------------------------------------------- target()

  lemma PrivateKeeps(p: Plugin, b: Build, args: seq<Arg>, bases: seq<int>, i: nat, y: int)
    requires i < |args| == |bases| && Honest(p)
    ensures Keeps(b.env, PrivateCopy(p, b, args, bases, i).env, y)
  {
    hide Keeps, GetOrAlloc, DataSubmit, Honest;
    var a := args[i];
    var (s1, tp, isNew) := GetOrAlloc(p, b.env, a.begin, bases[i], a.size, true, true);
    AllocKeeps(p, b.env, a.begin, bases[i], a.size, true, true, y);
    SubmitKeeps(s1, tp, a.begin, a.size, y);
    KeepsTrans(b.env, s1, DataSubmit(s1, tp, a.begin, a.size).0, y);
  }

  lemma BuildStepKeeps(p: Plugin, b: Build, args: seq<Arg>, bases: seq<int>, i: nat, y: int)
    requires i < |args| == |bases| && args[i].ty.memberOf < |args| && Honest(p)
    ensures Keeps(b.env, BuildStep(p, b, args, bases, i).env, y)
  {
    hide Keeps, GetTgtPtr, SubmitPointer, PrivateCopy, Honest;
    var a := args[i];
    KeepsRefl(b.env, y);
    PrivateKeeps(p, b, args, bases, i, y);
    if OfPrivateParent(args, i) {
      var parent := args[a.ty.memberOf];
      PointerKeeps(b.env, GetTgtPtr(b.env, parent.begin, parent.size, false).1 + (bases[i] - bases[a.ty.memberOf]),
                   GetTgtPtr(b.env, a.begin, a.size, false).1, y);
    }
  }

  lemma {:induction false} BuildKeeps(p: Plugin, s: Env, args: seq<Arg>, bases: seq<int>, j: nat, k: nat, y: int)
    requires j <= k <= |args| == |bases| && ArgsValid(args) && Honest(p)
    ensures Keeps(BuildFirst(p, s, args, bases, j).env, BuildFirst(p, s, args, bases, k).env, y)
    decreases k
  {
    hide *;
    if j == k {
      KeepsRefl(BuildFirst(p, s, args, bases, j).env, y);
    } else {
      var b := BuildFirst(p, s, args, bases, k - 1);
      BuildKeeps(p, s, args, bases, j, k - 1, y);
      NextBuild(p, s, args, bases, k);
      if b.ok {
        BuildStepKeeps(p, b, args, bases, k - 1, y);
        KeepsTrans(BuildFirst(p, s, args, bases, j).env, b.env, BuildFirst(p, s, args, bases, k).env, y);
      }
    }
  }

  // No pointer sent lies over y, and no section.
  ghost predicate Unpatched(ts: seq<Transfer>, y: int) {
    forall t :: t in ts && t.SubmitPtr? ==> !Writes(t, y)
  }

  ghost predicate Unsent(ts: seq<Transfer>, y: int) {
    forall t :: t in ts && t.Submit? ==> !Writes(t, y)
  }

  // A private copy goes into a new block.
  lemma StepUnsent(p: Plugin, b: Build, args: seq<Arg>, bases: seq<int>, i: nat, y: int)
    requires i < |args| == |bases| && args[i].ty.memberOf < |args| && Honest(p) && y in b.env.dev
    requires MakesPrivate(args, i) ==>
               !Found(b.env.entries, args[i].begin, args[i].size) && DataAlloc(p, b.env, args[i].size).1 != 0
    ensures b.env.log <= BuildStep(p, b, args, bases, i).env.log
    ensures Unsent(BuildStep(p, b, args, bases, i).env.log[|b.env.log|..], y)
  {
    hide Unsent, GetTgtPtr, PrivateCopy, SubmitPointer;
    NoneUnsent(b.env.log, y);
    if OfPrivateParent(args, i) {
      var parent := args[args[i].ty.memberOf];
      var slot := GetTgtPtr(b.env, parent.begin, parent.size, false).1 + (bases[i] - bases[args[i].ty.memberOf]);
      PointerUnsent(b.env, slot, GetTgtPtr(b.env, args[i].begin, args[i].size, false).1, y);
    } else if MakesPrivate(args, i) {
      CopyUnsent(p, b, args, bases, i, y);
    }
  }

  lemma PointerUnsent(s: Env, slot: int, val: int, y: int)
    ensures var log := SubmitPointer(s, slot, val).0.log; s.log <= log && Unsent(log[|s.log|..], y)
  {
    hide Allocated, Write, PtrBytes;
    assert (s.log + [SubmitPtr(slot, val)])[|s.log|..] == [SubmitPtr(slot, val)];
  }

  lemma CopyUnsent(p: Plugin, b: Build, args: seq<Arg>, bases: seq<int>, i: nat, y: int)
    requires i < |args| == |bases| && Honest(p) && y in b.env.dev
    requires !Found(b.env.entries, args[i].begin, args[i].size) && DataAlloc(p, b.env, args[i].size).1 != 0
    ensures var log := PrivateCopy(p, b, args, bases, i).env.log;
            b.env.log <= log && Unsent(log[|b.env.log|..], y)
  {
    var a := args[i];
    var (s1, tp, isNew) := GetOrAlloc(p, b.env, a.begin, bases[i], a.size, true, true);
    GetOrAllocLog(p, b.env, a.begin, bases[i], a.size, true, true);
    NewCopyElsewhere(p, b.env, a.begin, bases[i], a.size, y);
    hide GetOrAlloc, DataAlloc, Found, Honest, Allocated, Write, Read;
    assert (b.env.log + [Submit(tp, a.begin, a.size)])[|b.env.log|..] == [Submit(tp, a.begin, a.size)];
  }

  lemma NewCopyElsewhere(p: Plugin, s: Env, hp: int, base: int, n: nat, y: int)
    requires Honest(p) && y in s.dev && !Found(s.entries, hp, n) && DataAlloc(p, s, n).1 != 0
    ensures var tp := GetOrAlloc(p, s, hp, base, n, true, true).1; !(tp <= y < tp + n)
  {
    hide Flagged;
  }

  lemma UnsentJoin(a: seq<Transfer>, b: seq<Transfer>, c: seq<Transfer>, y: int)
    requires a <= b <= c && Unsent(b[|a|..], y) && Unsent(c[|b|..], y)
    ensures Unsent(c[|a|..], y)
  {
    assert c[|a|..] == b[|a|..] + c[|b|..];
  }

  lemma {:induction false} BuildUnsent(p: Plugin, s: Env, args: seq<Arg>, bases: seq<int>, j: nat, k: nat, y: int)
    requires j <= k <= |args| == |bases| && ArgsValid(args) && Honest(p)
    requires PrivatesGranted(p, s, args, bases, k) && y in BuildFirst(p, s, args, bases, j).env.dev
    ensures var log, log' := BuildFirst(p, s, args, bases, j).env.log, BuildFirst(p, s, args, bases, k).env.log;
            log <= log' && Unsent(log'[|log|..], y)
    decreases k
  {
    hide *;
    var b0 := BuildFirst(p, s, args, bases, j);
    if j == k {
      NoneUnsent(b0.env.log, y);
    } else {
      var b := BuildFirst(p, s, args, bases, k - 1);
      GrantedBefore(p, s, args, bases, k);
      BuildUnsent(p, s, args, bases, j, k - 1, y);
      BuildKeeps(p, s, args, bases, j, k - 1, y);
      StillThere(b0.env, b.env, y);
      NextBuild(p, s, args, bases, k);
      if b.ok {
        StepUnsent(p, b, args, bases, k - 1, y);
        UnsentJoin(b0.env.log, b.env.log, BuildFirst(p, s, args, bases, k).env.log, y);
      }
    }
  }

  lemma NoneUnsent(log: seq<Transfer>, y: int)
    ensures Unsent(log[|log|..], y)
  {
  }

  lemma StillThere(s: Env, t: Env, y: int)
    requires Keeps(s, t, y) && y in s.dev
    ensures y in t.dev && s.log <= t.log && t.host == s.host
    ensures Unsent(t.log[|s.log|..], y) && Unpatched(t.log[|s.log|..], y) ==> t.dev[y] == s.dev[y]
  {
  }

  // While target() collects the arguments, a device byte that was there keeps its value
  // unless a pointer is sent over it: private copies go elsewhere.
  lemma ByteAtLaunch(p: Plugin, s: Env, args: seq<Arg>, bases: seq<int>, j: nat, y: int)
    requires j <= |args| == |bases| && ArgsValid(args) && Honest(p) && PrivatesGranted(p, s, args, bases, |args|)
    requires y in BuildFirst(p, s, args, bases, j).env.dev
    ensures var t, u := BuildFirst(p, s, args, bases, j).env, BuildFirst(p, s, args, bases, |args|).env;
            t.log <= u.log && y in u.dev && (Unpatched(u.log[|t.log|..], y) ==> u.dev[y] == t.dev[y])
  {
    hide *;
    BuildUnsent(p, s, args, bases, j, |args|, y);
    BuildKeeps(p, s, args, bases, j, |args|, y);
    StillThere(BuildFirst(p, s, args, bases, j).env, BuildFirst(p, s, args, bases, |args|).env, y);
  }

  lemma BuildZero(p: Plugin, s: Env, args: seq<Arg>, bases: seq<int>)
    requires |args| == |bases| && ArgsValid(args)
    ensures BuildFirst(p, s, args, bases, 0).env == s
  {
  }

  lemma PrivateArrives(p: Plugin, b: Build, args: seq<Arg>, bases: seq<int>, i: nat, x: int)
    requires i < |args| == |bases| && args[i].ty.memberOf < |args| && MakesPrivate(args, i) && args[i].ty.to
    requires BuildStep(p, b, args, bases, i).ok && args[i].begin <= x < args[i].begin + args[i].size
    ensures var b' := BuildStep(p, b, args, bases, i);
            && |b'.params| == |b.params| + 1
            && var q := b'.params[|b.params|];
               ShadowPointers.SameByte(b'.env.dev, q.ptr + q.offset + (x - bases[i]), b.env.host, x)
  {
    hide *;
    var a := args[i];
    var (s1, tp, isNew) := GetOrAlloc(p, b.env, a.begin, bases[i], a.size, true, true);
    ShadowPointers.GetOrAllocKeeps(p, b.env, a.begin, bases[i], a.size, true, true);
    PrivateSent(p, b, args, bases, i);
    SubmitArrives(s1, tp, a.begin, a.size, tp + (x - a.begin));
  }

  lemma PrivateSent(p: Plugin, b: Build, args: seq<Arg>, bases: seq<int>, i: nat)
    requires i < |args| == |bases| && args[i].ty.memberOf < |args| && MakesPrivate(args, i) && args[i].ty.to
    requires BuildStep(p, b, args, bases, i).ok
    ensures var a, b' := args[i], BuildStep(p, b, args, bases, i);
            var (s1, tp, isNew) := GetOrAlloc(p, b.env, a.begin, bases[i], a.size, true, true);
            && DataSubmit(s1, tp, a.begin, a.size) == (b'.env, true)
            && b'.params == b.params + [Param(tp, bases[i] - a.begin, a.size, false)]
  {
    hide GetOrAlloc, DataSubmit;
  }

  // A firstprivate array, at the launch: where the kernel finds byte x of it, at its
  // displacement from the base, is the host's byte, unless a pointer was put there.
  lemma FirstPrivateLoaded(p: Plugin, s: Env, args: seq<Arg>, bases: seq<int>, i: nat, x: int)
    requires i < |args| == |bases| && ArgsValid(args) && args[i].ty.memberOf < |args|
    requires MakesPrivate(args, i) && args[i].ty.to && args[i].begin <= x < args[i].begin + args[i].size
    requires Honest(p) && PrivatesGranted(p, s, args, bases, |args|) && BuildFirst(p, s, args, bases, |args|).ok
    ensures Passed(args, i)
    ensures var q, t, u := ParamAt(p, s, args, bases, i), BuildFirst(p, s, args, bases, i + 1).env,
                           BuildFirst(p, s, args, bases, |args|).env;
            var y := q.ptr + q.offset + (x - bases[i]);
            t.log <= u.log && (Unpatched(u.log[|t.log|..], y) ==> ShadowPointers.SameByte(u.dev, y, s.host, x))
  {
    hide *;
    PrivatePasses(args, i);
    ParamPlace(p, s, args, bases, i);
    ParamIs(p, s, args, bases, i);
    var b, t, u := BuildFirst(p, s, args, bases, i), BuildFirst(p, s, args, bases, i + 1), BuildFirst(p, s, args, bases, |args|);
    var q := ParamAt(p, s, args, bases, i);
    var y := q.ptr + q.offset + (x - bases[i]);
    PrivateArrives(p, b, args, bases, i, x);
    BuildKeeps(p, s, args, bases, 0, i, y);
    BuildZero(p, s, args, bases);
    SameHost(s, b.env, y);
    ByteParts(t.env.dev, y, s.host, x);
    ByteAtLaunch(p, s, args, bases, i + 1, y);
    if Unpatched(u.env.log[|t.env.log|..], y) {
      ShadowPointers.SameByteIntro(u.env.dev, y, s.host, x);
    }
  }

  lemma PrivatePasses(args: seq<Arg>, i: nat)
    requires i < |args| && args[i].ty.memberOf < |args| && MakesPrivate(args, i)
    ensures Passed(args, i)
  {
  }

  lemma SameHost(s: Env, t: Env, y: int)
    requires Keeps(s, t, y)
    ensures t.host == s.host
  {
  }

  lemma ByteParts(m: Mem, x: int, m': Mem, y: int)
    requires ShadowPointers.SameByte(m, x, m', y)
    ensures x in m && y in m' && m[x] == m'[y]
  {
  }

  // The pointer of a member of a private struct, at the launch: the device slot in the
  // struct's copy holds the device address of the member's section.  The slot is where the
  // map translates the host's exactly if the struct's section begins at its base.
  lemma PrivatePointerSet(p: Plugin, s: Env, args: seq<Arg>, bases: seq<int>, i: nat, e: Entry, f: Entry)
    requires i < |args| == |bases| && ArgsValid(args) && args[i].ty.memberOf < |args| && OfPrivateParent(args, i)
    requires WellFormed(s.entries) && Honest(p) && PrivatesGranted(p, s, args, bases, |args|)
    requires BuildFirst(p, s, args, bases, |args|).ok
    requires e in BuildFirst(p, s, args, bases, i).env.entries && Contained(e, args[i].begin, args[i].size)
    requires var parent := args[args[i].ty.memberOf];
             f in BuildFirst(p, s, args, bases, i).env.entries && Contained(f, parent.begin, parent.size)
    ensures var parent, t, u := args[i].ty.memberOf, BuildFirst(p, s, args, bases, i + 1).env,
                                BuildFirst(p, s, args, bases, |args|).env;
            var slot := Translate(f, args[parent].begin) + (bases[i] - bases[parent]);
            && (slot == Translate(f, bases[i]) <==> args[parent].begin == bases[parent])
            && t.log <= u.log
            && (WordUnpatched(u.log[|t.log|..], slot) ==>
                Read(u.dev, slot, PTR_BYTES) == PtrBytes(Translate(e, args[i].begin)))
  {
    hide *;
    var b, t, u := BuildFirst(p, s, args, bases, i), BuildFirst(p, s, args, bases, i + 1), BuildFirst(p, s, args, bases, |args|);
    ParamsGrow(p, s, args, bases, i, |args|);
    ParamsGrow(p, s, args, bases, i + 1, |args|);
    NextBuild(p, s, args, bases, i + 1);
    PointerPatched(p, b, args, bases, i);
    var parent := args[i].ty.memberOf;
    var slot := Translate(f, args[parent].begin) + (bases[i] - bases[parent]);
    BuildExtends(p, s, args, bases, i);
    Located(b.env, e, args[i].begin, args[i].size);
    Located(b.env, f, args[parent].begin, args[parent].size);
    SameContained(f, f, args[parent].begin, args[parent].size, bases[i]);
    BuildKeeps(p, s, args, bases, i + 1, |args|, slot);
    LogGrows(t.env, u.env, slot);
    forall y | slot <= y < slot + PTR_BYTES
      ensures y in t.env.dev && y in u.env.dev
      ensures Unpatched(u.env.log[|t.env.log|..], y) ==> u.env.dev[y] == t.env.dev[y]
    {
      AllocatedByte(t.env.dev, slot, y);
      ByteAtLaunch(p, s, args, bases, i + 1, y);
    }
    PatchedWord(t.env.dev, u.env.dev, u.env.log[|t.env.log|..], slot);
  }

  ghost predicate WordUnpatched(ts: seq<Transfer>, slot: int) {
    forall y :: slot <= y < slot + PTR_BYTES ==> Unpatched(ts, y)
  }

  lemma LogGrows(s: Env, t: Env, y: int)
    requires Keeps(s, t, y)
    ensures s.log <= t.log
  {
  }

  lemma AllocatedByte(m: Mem, slot: int, y: int)
    requires Allocated(m, slot, PTR_BYTES) && slot <= y < slot + PTR_BYTES
    ensures y in m
  {
  }

  lemma PatchedWord(m: Mem, m': Mem, ts: seq<Transfer>, slot: int)
    requires forall y :: slot <= y < slot + PTR_BYTES ==>
               y in m && y in m' && (Unpatched(ts, y) ==> m'[y] == m[y])
    ensures WordUnpatched(ts, slot) ==> Read(m', slot, PTR_BYTES) == Read(m, slot, PTR_BYTES)
  {
    hide Unpatched;
    if WordUnpatched(ts, slot) {
      forall y | slot <= y < slot + PTR_BYTES ensures y in m && y in m' && m'[y] == m[y] {
        assert Unpatched(ts, y);
      }
    }
  }

  lemma Located(s: Env, e: Entry, hp: int, n: nat)
    requires WellFormed(s.entries) && e in s.entries && Contained(e, hp, n)
    ensures GetTgtPtr(s, hp, n, false).1 == Translate(e, hp)
  {
    ContainedFound(s.entries, e, hp, n);
    hide *;
    TgtOfLookup(s, hp, n);
  }

  lemma PointerPatched(p: Plugin, b: Build, args: seq<Arg>, bases: seq<int>, i: nat)
    requires i < |args| == |bases| && args[i].ty.memberOf < |args| && OfPrivateParent(args, i)
    requires BuildStep(p, b, args, bases, i).ok
    ensures 0 <= args[i].ty.memberOf
    ensures var parent, dev := args[args[i].ty.memberOf], BuildStep(p, b, args, bases, i).env.dev;
            var slot := GetTgtPtr(b.env, parent.begin, parent.size, false).1 + (bases[i] - bases[args[i].ty.memberOf]);
            && Allocated(dev, slot, PTR_BYTES)
            && Read(dev, slot, PTR_BYTES) == PtrBytes(GetTgtPtr(b.env, args[i].begin, args[i].size, false).1)
  {
    hide GetTgtPtr, SubmitPointer, PtrBytes;
    var parent := args[args[i].ty.memberOf];
    PointerArrives(b.env, GetTgtPtr(b.env, parent.begin, parent.size, false).1 + (bases[i] - bases[args[i].ty.memberOf]),
                   GetTgtPtr(b.env, args[i].begin, args[i].size, false).1);
  }

  // A section that was sent, at the launch: where the kernel finds byte x of it, at its
  // displacement from the base the program knows, is the host's byte.
  lemma KernelSees(p: Plugin, s: Env, args: seq<Arg>, i: nat, e: Entry, x: int)
    requires ArgsValid(args) && WellFormed(s.entries) && Honest(p) && DataBegin(p, s, args).1
    requires i < |args| && args[i].ty.memberOf < |args| && Passed(args, i) && !args[i].ty.ptrAndObj
    requires Sends(p, StateAt(p, s, args, i), args, i) != [] && !args[i].ty.returnParam
    requires PrivatesGranted(p, DataBegin(p, s, args).0, args, Bases(p, s, args), |args|) && Collected(p, s, args).ok
    requires args[i].begin <= x < args[i].begin + args[i].size
    requires e in DataBegin(p, s, args).0.entries && Contained(e, Begin(args, i), Size(args, i))
    requires var t, n := DataBegin(p, s, args).0, |StateAt(p, s, args, i).log|;
             (n < |t.log| ==> Untouched(t.log[n + 1..], Translate(e, x))) &&
             (t.log <= Collected(p, s, args).env.log ==>
                Unpatched(Collected(p, s, args).env.log[|t.log|..], Translate(e, x)))
    ensures !args[i].ty.literal && !args[i].ty.isPrivate
    ensures var q := ParamAt(p, DataBegin(p, s, args).0, args, Bases(p, s, args), i);
            ShadowPointers.SameByte(Collected(p, s, args).env.dev, q.ptr + q.offset + (x - args[i].base), s.host, x)
  {
    hide *;
    var t := DataBegin(p, s, args).0;
    SendsMeans(p, StateAt(p, s, args, i), args, i);
    CollectedIs(p, s, args);
    Unpadded(args, i, e, x);
    SectionLoaded(p, s, args, i, e, x);
    ByteParts(t.dev, Translate(e, x), s.host, x);
    BuildZero(p, t, args, Bases(p, s, args));
    ByteAtLaunch(p, t, args, Bases(p, s, args), 0, Translate(e, x));
    KernelFinds(p, s, args, i, e, x);
    ShadowPointers.SameByteIntro(Collected(p, s, args).env.dev, Translate(e, x), s.host, x);
  }

  lemma Unpadded(args: seq<Arg>, i: nat, e: Entry, x: int)
    requires i < |args| && Contained(e, Begin(args, i), Size(args, i))
    requires args[i].begin <= x < args[i].begin + args[i].size
    ensures Contained(e, args[i].begin, args[i].size) && Begin(args, i) <= x < Begin(args, i) + Size(args, i)
    ensures Skipped(args[i]) <==> args[i].ty.literal || args[i].ty.isPrivate
  {
  }
}
