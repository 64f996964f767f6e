/** target_data_end undoes target_data_begin on the map. */
module MapInverse {
  // Per argument with the exact condition, then for argument lists and for nested runs
  // of regions.

  import opened Memory
  import opened DeviceMap
  import opened DataEnvironment

  // ------------------------------------------ effect of one section on the entries

  // The entry list after mapping a section; tgt is used if a new entry is made.
  function MapSection(es: Entries, hp: int, base: int, n: nat, tgt: int,
                      implicit: bool, update: bool): Entries
  {
    var i := Lookup(es, hp, n);
    if i < |es| then
      if Usable(es[i], hp, n, implicit) && update then Recount(es, i, es[i].count + 1) else es
    else if n > 0 then [Entry(base, hp, hp + n, tgt, 1)] + es
    else es
  }

  // The entry list after unmapping a section: a plain member never releases it, a
  // forced delete always does, otherwise the last reference does.
  function UnmapSection(es: Entries, hp: int, n: nat, plain: bool, force: bool): Entries {
    var i := Lookup(es, hp, n);
    if i == |es| || plain then es
    else if es[i].count > 1 && !force then Recount(es, i, es[i].count - 1)
    else Remove(es, i)
  }

  lemma LookupRecount(es: Entries, i: nat, c: int, hp: int, n: nat)
    requires i < |es|
    ensures Lookup(Recount(es, i, c), hp, n) == Lookup(es, hp, n)
  {
    var j := Lookup(es, hp, n);
    var r := Recount(es, i, c);
    assert forall k :: 0 <= k < |es| ==> (Flagged(r[k], hp, n) <==> Flagged(es[k], hp, n));
    LookupIs(r, hp, n, j);
  }

  // The address getOrAllocTgtPtr puts in a new entry.
  function NewTgt(p: Plugin, s: Env, n: nat): int {
    DataAlloc(p, s, n).1
  }

  lemma GetOrAllocEntries(p: Plugin, s: Env, hp: int, base: int, n: nat, implicit: bool, update: bool)
    ensures GetOrAlloc(p, s, hp, base, n, implicit, update).0.entries ==
            MapSection(s.entries, hp, base, n, NewTgt(p, s, n), implicit, update)
  {
  }

  // A section of which some byte is mapped, but which no entry contains.
  ghost predicate Straddles(es: Entries, hp: int, n: nat) {
    && (exists e, x :: e in es && Holds(e, x) && InSection(x, hp, n))
    && (forall e :: e in es ==> !Contained(e, hp, n))
  }

  // Mapping such a section is refused, and changes nothing, unless it is implicit; then it
  // gets the first entry it meets.
  lemma ExtensionIff(p: Plugin, s: Env, hp: int, base: int, n: nat, implicit: bool, update: bool)
    requires WellFormed(s.entries) && Straddles(s.entries, hp, n)
    ensures var i, (s', tp, isNew) := Lookup(s.entries, hp, n), GetOrAlloc(p, s, hp, base, n, implicit, update);
            && i < |s.entries|
            && (!implicit ==> s' == s.(clock := s.clock + 1) && tp == 0 && isNew == p.stale(s.clock))
            && (implicit ==> tp == Translate(s.entries[i], hp) && !isNew)
  {
    LookupFindsOverlap(s.entries, hp, n);
    var i := Lookup(s.entries, hp, n);
    assert s.entries[i] in s.entries;
    hide WellFormed, Lookup, Translate, DataAlloc;
  }

  lemma EndStepEntries(s: Env, args: seq<Arg>, i: nat)
    requires i < |args| && args[i].ty.memberOf < |args|
    requires !Skipped(args[i])
    ensures EndStep(s, args, i).0.entries ==
            UnmapSection(s.entries, Begin(args, i), Size(args, i), PlainMember(args[i]), args[i].ty.delete)
  {
    hide Begin, Size, CopyOut;
    var hp, n := Begin(args, i), Size(args, i);
    var j := Lookup(s.entries, hp, n);
    if j < |s.entries| {
      var e := s.entries[j];
      LookupRecount(s.entries, j, e.count - 1, hp, n);
      assert Remove(Recount(s.entries, j, e.count - 1), j) == Remove(s.entries, j);
    }
  }

  // The state in which the section of argument i (the pointee, if any) is mapped.
  function AfterSlot(p: Plugin, s: Env, args: seq<Arg>, i: nat): Env
    requires i < |args| && args[i].ty.memberOf < |args|
  {
    MapSlot(p, s, args, i).0
  }

  lemma BeginStepEntries(p: Plugin, s: Env, args: seq<Arg>, i: nat)
    requires i < |args| && args[i].ty.memberOf < |args|
    requires !Skipped(args[i])
    ensures var a := args[i];
            var s1 := AfterSlot(p, s, args, i);
            BeginStep(p, s, args, i).env.entries ==
            MapSection(s1.entries, Begin(args, i), PointeeBase(s.host, a), Size(args, i),
                       NewTgt(p, s1, Size(args, i)), a.ty.implicit, !PlainMember(a))
  {
    var a := args[i];
    GetOrAllocEntries(p, AfterSlot(p, s, args, i), Begin(args, i), PointeeBase(s.host, a), Size(args, i),
                      a.ty.implicit, !PlainMember(a));
  }

  // ------------------------------------------------------------ the exact condition

  ghost predicate Counted(es: Entries) {
    forall e :: e in es ==> e.count >= 1
  }

  // When mapping and unmapping one section cancel: a plain member must find an entry
  // or be empty; any other section must find none, or one it may use, and not delete it.
  predicate SectionRoundTrips(es: Entries, hp: int, n: nat, plain: bool, implicit: bool, force: bool) {
    var i := Lookup(es, hp, n);
    if plain then i < |es| || n == 0
    else i == |es| || (Usable(es[i], hp, n, implicit) && !force)
  }

  lemma RecountBack(es: Entries, i: nat, c: int)
    requires i < |es|
    ensures Recount(Recount(es, i, c), i, es[i].count) == es
  {
  }

  lemma UnmapFound(es: Entries, i: nat, hp: int, n: nat, force: bool)
    requires i < |es| && Lookup(es, hp, n) == i
    ensures UnmapSection(es, hp, n, false, force) ==
            if es[i].count > 1 && !force then Recount(es, i, es[i].count - 1) else Remove(es, i)
  {
  }

  lemma RecountUndone(es: Entries, i: nat, hp: int, n: nat, force: bool)
    requires i < |es| && es[i].count >= 1 && Lookup(es, hp, n) == i
    ensures UnmapSection(Recount(es, i, es[i].count + 1), hp, n, false, force) == es <==> !force
  {
    hide Lookup, Flagged, UnmapSection;
    var r := Recount(es, i, es[i].count + 1);
    LookupRecount(es, i, es[i].count + 1, hp, n);
    UnmapFound(r, i, hp, n, force);
    RecountBack(es, i, es[i].count + 1);
    if force {
      assert |Remove(r, i)| == |es| - 1;
    }
  }

  lemma UnmapChanges(es: Entries, hp: int, n: nat, force: bool)
    requires Found(es, hp, n)
    ensures UnmapSection(es, hp, n, false, force) != es
  {
    var i := Lookup(es, hp, n);
    assert Recount(es, i, es[i].count - 1)[i] != es[i];
  }

  lemma NewInverse(es: Entries, hp: int, base: int, n: nat, tgt: int, plain: bool, implicit: bool, force: bool)
    requires !Found(es, hp, n)
    ensures UnmapSection(MapSection(es, hp, base, n, tgt, implicit, !plain), hp, n, plain, force) == es <==>
            !plain || n == 0
  {
    if n > 0 {
      var es' := MapSection(es, hp, base, n, tgt, implicit, !plain);
      assert Flagged(es'[0], hp, n);
      assert Remove(es', 0) == es;
    }
  }

  lemma SectionInverseIff(es: Entries, hp: int, base: int, n: nat, tgt: int,
                          plain: bool, implicit: bool, force: bool)
    requires Counted(es)
    ensures UnmapSection(MapSection(es, hp, base, n, tgt, implicit, !plain), hp, n, plain, force) == es <==>
            SectionRoundTrips(es, hp, n, plain, implicit, force)
  {
    if !Found(es, hp, n) {
      NewInverse(es, hp, base, n, tgt, plain, implicit, force);
    } else if !plain {
      assert es[Lookup(es, hp, n)] in es;
      RecountUndone(es, Lookup(es, hp, n), hp, n, force);
      UnmapChanges(es, hp, n, force);
    }
  }

  // Condition under which argument i leaves no trace in the entries.
  predicate RoundTrips(es: Entries, args: seq<Arg>, i: nat)
    requires i < |args|
  {
    var a := args[i];
    Skipped(a) ||
    SectionRoundTrips(es, Begin(args, i), Size(args, i), PlainMember(a), a.ty.implicit, a.ty.delete)
  }

  // For an argument that maps no pointer slot, begin followed by end restores the
  // entries if and only if RoundTrips held before the call.
  lemma ArgumentInverseIff(p: Plugin, s: Env, args: seq<Arg>, i: nat, t: Env)
    requires i < |args| && args[i].ty.memberOf < |args|
    requires Counted(s.entries) && !UsesSlot(args, i)
    requires t.entries == BeginStep(p, s, args, i).env.entries
    ensures EndStep(t, args, i).0.entries == s.entries <==> RoundTrips(s.entries, args, i)
  {
    var a := args[i];
    if !Skipped(a) {
      var hp, n := Begin(args, i), Size(args, i);
      BeginStepEntries(p, s, args, i);
      EndStepEntries(t, args, i);
      SectionInverseIff(s.entries, hp, PointeeBase(s.host, a), n, NewTgt(p, s, n),
                        PlainMember(a), a.ty.implicit, a.ty.delete);
    }
  }

  // For one that does, what remains is exactly the effect of mapping the slot, since
  // target_data_end only looks at the pointee.
  lemma PointerArgumentResidue(p: Plugin, s: Env, args: seq<Arg>, i: nat, t: Env)
    requires i < |args| && args[i].ty.memberOf < |args|
    requires Counted(s.entries) && UsesSlot(args, i) && !Skipped(args[i])
    requires t.entries == BeginStep(p, s, args, i).env.entries
    ensures RoundTrips(AfterSlot(p, s, args, i).entries, args, i) <==>
            EndStep(t, args, i).0.entries ==
            MapSection(s.entries, args[i].base, args[i].base, PTR_BYTES, NewTgt(p, s, PTR_BYTES),
                       args[i].ty.implicit, !Member(args[i]))
  {
    var a := args[i];
    var s1 := AfterSlot(p, s, args, i);
    var hp, n := Begin(args, i), Size(args, i);
    GetOrAllocEntries(p, s, a.base, a.base, PTR_BYTES, a.ty.implicit, !Member(a));
    BeginStepEntries(p, s, args, i);
    EndStepEntries(t, args, i);
    SectionInverseIff(s1.entries, hp, PointeeBase(s.host, a), n, NewTgt(p, s1, n),
                      PlainMember(a), a.ty.implicit, a.ty.delete);
  }

  // The slot leaves the entries alone iff it is found and is either part of a parent
  // or not usable.
  predicate SlotKept(es: Entries, args: seq<Arg>, i: nat)
    requires i < |args| && args[i].ty.memberOf < |args|
  {
    var a := args[i];
    UsesSlot(args, i) && !Skipped(a) ==>
      var j := Lookup(es, a.base, PTR_BYTES);
      j < |es| && (Member(a) || !Usable(es[j], a.base, PTR_BYTES, a.ty.implicit))
  }

  lemma SlotKeptIff(p: Plugin, s: Env, args: seq<Arg>, i: nat)
    requires i < |args| && args[i].ty.memberOf < |args| && !Skipped(args[i])
    ensures SlotKept(s.entries, args, i) <==> AfterSlot(p, s, args, i).entries == s.entries
  {
    var a := args[i];
    if UsesSlot(args, i) {
      var j := Lookup(s.entries, a.base, PTR_BYTES);
      if j < |s.entries| {
        assert Recount(s.entries, j, s.entries[j].count + 1)[j] != s.entries[j];
      }
    }
  }

  // ------------------------------------------------------------ whole argument lists

  // Every argument, at its turn, is one whose effect can be undone.
  ghost predicate ArgsRoundTrip(p: Plugin, s: Env, args: seq<Arg>, k: nat)
    requires k <= |args| && ArgsValid(args)
  {
    k == 0 ||
    (ArgsRoundTrip(p, s, args, k - 1) &&
     var es := BeginFirst(p, s, args, k - 1).0.entries;
     SlotKept(es, args, k - 1) && RoundTrips(es, args, k - 1))
  }

  lemma MapSectionCounted(es: Entries, hp: int, base: int, n: nat, tgt: int, implicit: bool, update: bool)
    requires Counted(es)
    ensures Counted(MapSection(es, hp, base, n, tgt, implicit, update))
  {
  }

  lemma BeginStepCounted(p: Plugin, s: Env, args: seq<Arg>, i: nat)
    requires i < |args| && args[i].ty.memberOf < |args| && Counted(s.entries)
    ensures Counted(BeginStep(p, s, args, i).env.entries)
  {
    var a := args[i];
    if !Skipped(a) {
      var s1 := AfterSlot(p, s, args, i);
      GetOrAllocEntries(p, s, a.base, a.base, PTR_BYTES, a.ty.implicit, !Member(a));
      MapSectionCounted(s.entries, a.base, a.base, PTR_BYTES, NewTgt(p, s, PTR_BYTES),
                        a.ty.implicit, !Member(a));
      BeginStepEntries(p, s, args, i);
      MapSectionCounted(s1.entries, Begin(args, i), PointeeBase(s.host, a), Size(args, i),
                        NewTgt(p, s1, Size(args, i)), a.ty.implicit, !PlainMember(a));
    }
  }

  lemma {:induction false} BeginFirstCounted(p: Plugin, s: Env, args: seq<Arg>, k: nat)
    requires k <= |args| && ArgsValid(args) && Counted(s.entries)
    ensures Counted(BeginFirst(p, s, args, k).0.entries)
  {
    hide BeginStep;
    if k > 0 {
      BeginFirstCounted(p, s, args, k - 1);
      BeginStepCounted(p, BeginFirst(p, s, args, k - 1).0, args, k - 1);
    }
  }

  lemma ArgumentUndone(p: Plugin, s: Env, args: seq<Arg>, i: nat, t: Env)
    requires i < |args| && args[i].ty.memberOf < |args| && Counted(s.entries)
    requires SlotKept(s.entries, args, i) && RoundTrips(s.entries, args, i)
    requires t.entries == BeginStep(p, s, args, i).env.entries
    ensures EndStep(t, args, i).0.entries == s.entries
  {
    if Skipped(args[i]) {
    } else if UsesSlot(args, i) {
      SlotKeptIff(p, s, args, i);
      GetOrAllocEntries(p, s, args[i].base, args[i].base, PTR_BYTES, args[i].ty.implicit, !Member(args[i]));
      PointerArgumentResidue(p, s, args, i, t);
    } else {
      ArgumentInverseIff(p, s, args, i, t);
    }
  }

  // target_data_end after target_data_begin restores the entry list exactly, order
  // and counts included, whatever happened to the memories in between (t).
  lemma {:induction false} EndUndoesBegin(p: Plugin, s: Env, args: seq<Arg>, k: nat, t: Env)
    requires k <= |args| && ArgsValid(args) && Counted(s.entries)
    requires ArgsRoundTrip(p, s, args, k)
    requires t.entries == BeginFirst(p, s, args, k).0.entries
    ensures EndFirst(t, args, k).0.entries == s.entries
    decreases k
  {
    hide BeginStep, EndStep;
    if k > 0 {
      var s' := BeginFirst(p, s, args, k - 1).0;
      assert args[k - 1] in args;
      BeginFirstCounted(p, s, args, k - 1);
      ArgumentUndone(p, s', args, k - 1, t);
      EndUndoesBegin(p, s, args, k - 1, EndStep(t, args, k - 1).0);
    }
  }

  // --------------------------------------------------------------------- whole runs

  // A well-bracketed run: regions nest, and in between the host and the device
  // compute and target updates are made.
  datatype Run =
    | Done
    | Region(args: seq<Arg>, inner: Run, rest: Run)
    | Update(uargs: seq<Arg>, rest: Run)
    | Compute(host: Mem, dev: Mem, rest: Run)

  ghost predicate RunValid(r: Run) {
    match r
    case Done => true
    case Region(args, inner, rest) => ArgsValid(args) && RunValid(inner) && RunValid(rest)
    case Update(uargs, rest) => RunValid(rest)
    case Compute(_, _, rest) => RunValid(rest)
  }

  function Exec(p: Plugin, s: Env, r: Run): Env
    requires RunValid(r)
    decreases r
  {
    match r
    case Done => s
    case Region(args, inner, rest) =>
      var s1 := Exec(p, DataBegin(p, s, args).0, inner);
      Exec(p, DataEnd(s1, args).0, rest)
    case Update(uargs, rest) => Exec(p, DataUpdate(s, uargs), rest)
    case Compute(host, dev, rest) => Exec(p, s.(host := host, dev := dev), rest)
  }

  ghost predicate RunRoundTrips(p: Plugin, s: Env, r: Run)
    requires RunValid(r)
    decreases r
  {
    match r
    case Done => true
    case Region(args, inner, rest) =>
      var s0 := DataBegin(p, s, args).0;
      var s1 := Exec(p, s0, inner);
      ArgsRoundTrip(p, s, args, |args|) && RunRoundTrips(p, s0, inner) &&
      RunRoundTrips(p, DataEnd(s1, args).0, rest)
    case Update(uargs, rest) => RunRoundTrips(p, DataUpdate(s, uargs), rest)
    case Compute(host, dev, rest) => RunRoundTrips(p, s.(host := host, dev := dev), rest)
  }

  lemma {:induction false} RestoreDeviceEntries(s: Env, sh: seq<Shadow>)
    ensures RestoreDevice(s, sh).entries == s.entries
    decreases |sh|
  {
    if sh != [] {
      RestoreDeviceEntries(SubmitPointer(s, sh[0].tgtAddr, sh[0].tgtVal).0, sh[1..]);
    }
  }

  lemma UpdateStepEntries(s: Env, a: Arg)
    ensures UpdateStep(s, a).entries == s.entries
  {
    if !Skipped(a) && a.ty.to {
      hide RestoreDevice, RestoreHost, InRange;
      var tp, sh := GetTgtPtr(s, a.begin, a.size, false).1, InRange(s.shadows, a.begin, a.begin + a.size);
      RestoreDeviceEntries(DataSubmit(AfterFrom(s, a), tp, a.begin, a.size).0, sh);
    }
  }

  lemma {:induction false} UpdateEntries(s: Env, args: seq<Arg>)
    ensures DataUpdate(s, args).entries == s.entries
    decreases |args|
  {
    if args != [] {
      UpdateStepEntries(s, args[0]);
      UpdateEntries(UpdateStep(s, args[0]), args[1..]);
    }
  }

  // Every well-bracketed run gives the map back exactly as it found it.
  lemma {:induction false} RunRestoresMap(p: Plugin, s: Env, r: Run)
    requires RunValid(r) && Counted(s.entries) && RunRoundTrips(p, s, r)
    ensures Exec(p, s, r).entries == s.entries
    decreases r
  {
    match r
    case Done =>
    case Region(args, inner, rest) =>
      var s0 := DataBegin(p, s, args).0;
      var s1 := Exec(p, s0, inner);
      BeginFirstCounted(p, s, args, |args|);
      RunRestoresMap(p, s0, inner);
      EndUndoesBegin(p, s, args, |args|, s1);
      RunRestoresMap(p, DataEnd(s1, args).0, rest);
    case Update(uargs, rest) =>
      UpdateEntries(s, uargs);
      RunRestoresMap(p, DataUpdate(s, uargs), rest);
    case Compute(host, dev, rest) =>
      RunRestoresMap(p, s.(host := host, dev := dev), rest);
  }
}
