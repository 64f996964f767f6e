/** The addresses target_data_begin and target() give out. */
module TargetAddresses {
  // A base handed to the program or to a kernel, plus a displacement from the host base, is
  // the translation of the host byte there.

  import opened Memory
  import opened DeviceMap
  import opened DataEnvironment
  import opened MapInverse
  import opened TransferRuns
  import opened TransferOnce
  import opened TargetRegion
  import ShadowPointers

  // ------------------------------------------------------- lookups in a growing list

  // In a well-formed list the lookup of a section contained in an entry finds it.
  lemma ContainedFound(es: Entries, e: Entry, hp: int, n: nat)
    requires WellFormed(es) && e in es && Contained(e, hp, n)
    ensures var j := Lookup(es, hp, n); j < |es| && es[j] == e
  {
    var i :| 0 <= i < |es| && es[i] == e;
    var j := Lookup(es, hp, n);
    if j != i {
      FlaggedIffMeets(es[j], hp, n);
      var x :| InSection(x, hp, n) && Holds(es[j], x);
      OwnerUnique(es, es[j], e, x);
    }
  }

  // An entry of a longer list that contains a section which an older list already met is an
  // old one, recounted.
  lemma OldEntry(es': Entries, es: Entries, e: Entry, hp: int, n: nat) returns (f: Entry)
    requires WellFormed(es) && WellFormed(es') && Extends(es', es)
    requires e in es' && Contained(e, hp, n) && Found(es, hp, n)
    ensures f in es && f.begin == e.begin && f.end == e.end && f.tgt == e.tgt
  {
    var j := Lookup(es, hp, n);
    f := es[j];
    var f' := es'[|es'| - |es| + j];
    assert Grew(f', f);
    assert f in es;
    FlaggedIffMeets(f, hp, n);
    var x :| InSection(x, hp, n) && Holds(f, x);
    assert Holds(f', x) && f' in es';
    OwnerUnique(es', f', e, x);
  }

  // An entry lives on, recounted.
  lemma NewEntry(es': Entries, es: Entries, e: Entry) returns (f: Entry)
    requires Extends(es', es) && e in es
    ensures f in es' && f.begin == e.begin && f.end == e.end && f.tgt == e.tgt
  {
    var j :| 0 <= j < |es| && es[j] == e;
    f := es'[|es'| - |es| + j];
    assert Grew(f, e);
  }

  // ------------------------------------------------------------- target_data_begin

  lemma GetOrAllocExtends(p: Plugin, s: Env, hp: int, base: int, n: nat, implicit: bool, update: bool)
    requires WellFormed(s.entries)
    ensures var es' := GetOrAlloc(p, s, hp, base, n, implicit, update).0.entries;
            WellFormed(es') && Extends(es', s.entries)
  {
    GetOrAllocEntries(p, s, hp, base, n, implicit, update);
    hide *;
    MapSectionExtends(s.entries, hp, base, n, NewTgt(p, s, n), implicit, update);
  }

  lemma GetOrAllocCases(p: Plugin, s: Env, hp: int, base: int, n: nat, implicit: bool, update: bool)
    requires n > 0
    ensures var i, r := Lookup(s.entries, hp, n), GetOrAlloc(p, s, hp, base, n, implicit, update);
            if i < |s.entries| then Usable(s.entries[i], hp, n, implicit) ==> r.1 == Translate(s.entries[i], hp)
            else r.1 == NewTgt(p, s, n) && r.0.entries == [Entry(base, hp, hp + n, r.1, 1)] + s.entries
    ensures Lookup(s.entries, hp, n) <= |s.entries|
  {
    hide DataAlloc, Lookup, Usable, Flagged;
  }

  // The address of a section that an entry of the new list contains.
  lemma GetOrAllocTgt(p: Plugin, s: Env, hp: int, base: int, n: nat, implicit: bool, update: bool, e: Entry)
    requires WellFormed(s.entries) && n > 0
    requires e in GetOrAlloc(p, s, hp, base, n, implicit, update).0.entries && Contained(e, hp, n)
    ensures GetOrAlloc(p, s, hp, base, n, implicit, update).1 == Translate(e, hp)
  {
    hide *;
    GetOrAllocExtends(p, s, hp, base, n, implicit, update);
    GetOrAllocCases(p, s, hp, base, n, implicit, update);
    var (s', tp, isNew) := GetOrAlloc(p, s, hp, base, n, implicit, update);
    if Lookup(s.entries, hp, n) < |s.entries| {
      assert Found(s.entries, hp, n) by { FoundMeans(s.entries, hp, n); }
      var f := OldEntry(s'.entries, s.entries, e, hp, n);
      SameContained(e, f, hp, n, hp);
      ContainedFound(s.entries, f, hp, n);
      ContainedUsable(f, hp, n, implicit);
    } else {
      OwnHead(Entry(base, hp, hp + n, tp, 1), s.entries, hp, n);
      ContainedFound(s'.entries, e, hp, n);
      BeginTranslates(e, hp);
    }
  }

  lemma FoundMeans(es: Entries, hp: int, n: nat)
    ensures Found(es, hp, n) <==> Lookup(es, hp, n) < |es|
  {
  }

  lemma ContainedUsable(e: Entry, hp: int, n: nat, implicit: bool)
    requires Contained(e, hp, n)
    ensures Usable(e, hp, n, implicit)
  {
  }

  lemma BeginTranslates(e: Entry, hp: int)
    requires e.begin == hp
    ensures Translate(e, hp) == e.tgt
  {
  }

  lemma StepExtendsAll(p: Plugin, s: Env, args: seq<Arg>, i: nat)
    requires i < |args| && args[i].ty.memberOf < |args| && WellFormed(s.entries)
    ensures var es' := BeginStep(p, s, args, i).env.entries;
            WellFormed(es') && Extends(es', s.entries)
    ensures BeginStep(p, s, args, i).env.host == s.host
  {
    hide WellFormed, Extends, GetOrAlloc, SendArgument;
    var a := args[i];
    ExtendsRefl(s.entries);
    if !Skipped(a) {
      GetOrAllocExtends(p, s, a.base, a.base, PTR_BYTES, a.ty.implicit, !Member(a));
      var s1 := MapSlot(p, s, args, i).0;
      GetOrAllocExtends(p, s1, Begin(args, i), PointeeBase(s.host, a), Size(args, i), a.ty.implicit, !PlainMember(a));
      ExtendsTrans(s.entries, s1.entries, MapPointee(p, s, args, i).0.entries);
      ShadowPointers.MapKeeps(p, s, args, i);
    }
  }

  lemma {:induction false} BeginExtendsAll(p: Plugin, s: Env, args: seq<Arg>, j: nat, k: nat)
    requires j <= k <= |args| && ArgsValid(args) && WellFormed(s.entries)
    ensures WellFormed(StateAt(p, s, args, k).entries) && WellFormed(StateAt(p, s, args, j).entries)
    ensures Extends(StateAt(p, s, args, k).entries, StateAt(p, s, args, j).entries)
    ensures StateAt(p, s, args, k).host == s.host
    decreases k
  {
    hide *;
    if k == 0 {
      StateZero(p, s, args);
      ExtendsRefl(s.entries);
    } else {
      BeginExtendsAll(p, s, args, if j < k then j else k - 1, k - 1);
      AtNext(p, s, args, k - 1);
      StepExtendsAll(p, StateAt(p, s, args, k - 1), args, k - 1);
      if j < k {
        ExtendsTrans(StateAt(p, s, args, j).entries, StateAt(p, s, args, k - 1).entries, StateAt(p, s, args, k).entries);
      } else {
        ExtendsRefl(StateAt(p, s, args, k).entries);
      }
    }
  }

  // The address of argument i's section, as its turn finds it.
  lemma PointeeTgt(p: Plugin, s: Env, args: seq<Arg>, i: nat, e: Entry)
    requires i < |args| && args[i].ty.memberOf < |args| && WellFormed(s.entries) && !Skipped(args[i])
    requires Size(args, i) > 0 && Contained(e, Begin(args, i), Size(args, i))
    requires e in BeginStep(p, s, args, i).env.entries
    ensures MapPointee(p, s, args, i).1 == Translate(e, Begin(args, i))
  {
    hide WellFormed, GetOrAlloc, SendArgument, Contained, Begin, Size;
    var a := args[i];
    GetOrAllocWellFormed(p, s, a.base, a.base, PTR_BYTES, a.ty.implicit, !Member(a));
    var s1 := MapSlot(p, s, args, i).0;
    GetOrAllocTgt(p, s1, Begin(args, i), PointeeBase(s.host, a), Size(args, i), a.ty.implicit, !PlainMember(a), e);
  }

  lemma StepBase(p: Plugin, s: Env, args: seq<Arg>, i: nat)
    requires i < |args| && args[i].ty.memberOf < |args|
    ensures BeginStep(p, s, args, i).base ==
            if Skipped(args[i]) || !args[i].ty.returnParam then args[i].base
            else MapPointee(p, s, args, i).1 - (Begin(args, i) - PointeeBase(s.host, args[i]))
  {
    hide MapPointee, SendArgument, Begin, PointeeBase;
  }

  lemma BaseAt(p: Plugin, s: Env, args: seq<Arg>, i: nat)
    requires i < |args| && ArgsValid(args)
    ensures args[i].ty.memberOf < |args|
    ensures Bases(p, s, args)[i] == BeginStep(p, StateAt(p, s, args, i), args, i).base
  {
    hide BeginStep, StateAt;
    assert args[i] in args;
  }

  // What target_data_begin leaves in args_base: for a RETURN_PARAM argument the device base
  // from which every byte of its section, at its displacement from the host base, is found
  // where the map translates it ...
  lemma ReturnedBase(p: Plugin, s: Env, args: seq<Arg>, i: nat, e: Entry, x: int)
    requires ArgsValid(args) && WellFormed(s.entries) && i < |args| && !Skipped(args[i]) && args[i].ty.returnParam
    requires e in DataBegin(p, s, args).0.entries && Contained(e, Begin(args, i), Size(args, i))
    requires Begin(args, i) <= x < Begin(args, i) + Size(args, i)
    ensures Bases(p, s, args)[i] + (x - PointeeBase(s.host, args[i])) == Translate(e, x)
  {
    hide *;
    var si, sj, t := StateAt(p, s, args, i), StateAt(p, s, args, i + 1), StateAt(p, s, args, |args|);
    RegionEnds(p, s, args, t);
    BaseAt(p, s, args, i);
    AtNext(p, s, args, i);
    StepBase(p, si, args, i);
    BeginExtendsAll(p, s, args, i, i + 1);
    BeginExtendsAll(p, s, args, i + 1, |args|);
    BeginExtendsAll(p, s, args, i, i);
    MetAtTurn(p, si, args, i);
    var f := OldEntry(t.entries, sj.entries, e, Begin(args, i), Size(args, i));
    SameContained(e, f, Begin(args, i), Size(args, i), x);
    PointeeTgt(p, si, args, i, f);
  }

  // A section is met by some entry once its turn is over.
  lemma MetAtTurn(p: Plugin, s: Env, args: seq<Arg>, i: nat)
    requires i < |args| && args[i].ty.memberOf < |args| && !Skipped(args[i]) && Size(args, i) > 0
    ensures Found(BeginStep(p, s, args, i).env.entries, Begin(args, i), Size(args, i))
  {
    BeginStepEntries(p, s, args, i);
    var a, hp, n, s1 := args[i], Begin(args, i), Size(args, i), AfterSlot(p, s, args, i);
    hide BeginStep, AfterSlot, NewTgt, Begin, Size, Flagged;
    var es, j := s1.entries, Lookup(s1.entries, hp, n);
    if j < |es| {
      LookupRecount(es, j, es[j].count + 1, hp, n);
    } else {
      OwnHead(Entry(PointeeBase(s.host, a), hp, hp + n, NewTgt(p, s1, n), 1), es, hp, n);
    }
  }

  lemma OwnHead(e: Entry, es: Entries, hp: int, n: nat)
    requires e.begin == hp && e.end == hp + n && n > 0
    ensures Lookup([e] + es, hp, n) == 0
  {
    assert Flagged(e, hp, n);
  }

  lemma SameContained(e: Entry, f: Entry, hp: int, n: nat, x: int)
    requires f.begin == e.begin && f.end == e.end && f.tgt == e.tgt
    ensures Contained(f, hp, n) <==> Contained(e, hp, n)
    ensures Translate(f, hp) == Translate(e, hp) && Translate(e, x) == Translate(e, hp) + (x - hp)
  {
  }

  // ... and every other argument's base is the host's.
  lemma BaseKept(p: Plugin, s: Env, args: seq<Arg>, i: nat)
    requires ArgsValid(args) && i < |args| && (Skipped(args[i]) || !args[i].ty.returnParam)
    ensures Bases(p, s, args)[i] == args[i].base
  {
    hide *;
    BaseAt(p, s, args, i);
    StepBase(p, StateAt(p, s, args, i), args, i);
  }

  // ------------------------------------------------------------------------- target()

  // Does argument i become a parameter of the kernel, and how many do before it?
  predicate Passed(args: seq<Arg>, i: nat)
    requires i < |args| && args[i].ty.memberOf < |args|
  {
    !OfPrivateParent(args, i) && args[i].ty.targetParam
  }

  function Before(args: seq<Arg>, k: nat): (n: nat)
    requires k <= |args| && ArgsValid(args)
    ensures n <= k
  {
    if k == 0 then 0 else
    assert args[k - 1] in args;
    Before(args, k - 1) + if Passed(args, k - 1) then 1 else 0
  }

  // What one turn of the loop does to the parameters.
  lemma StepParams(p: Plugin, b: Build, args: seq<Arg>, bases: seq<int>, i: nat)
    requires i < |args| == |bases| && args[i].ty.memberOf < |args|
    requires BuildStep(p, b, args, bases, i).ok
    ensures var ps := BuildStep(p, b, args, bases, i).params;
            if Passed(args, i) then |ps| == |b.params| + 1 && ps[..|b.params|] == b.params else ps == b.params
  {
    hide GetTgtPtr, GetOrAlloc, DataSubmit, SubmitPointer;
  }

  // Parameters stay where they were pushed.
  lemma {:induction false} ParamsGrow(p: Plugin, s: Env, args: seq<Arg>, bases: seq<int>, j: nat, k: nat)
    requires j <= k <= |args| == |bases| && ArgsValid(args) && BuildFirst(p, s, args, bases, k).ok
    ensures BuildFirst(p, s, args, bases, j).ok
    ensures |BuildFirst(p, s, args, bases, k).params| == Before(args, k)
    ensures |BuildFirst(p, s, args, bases, j).params| == Before(args, j)
    ensures BuildFirst(p, s, args, bases, j).params <= BuildFirst(p, s, args, bases, k).params
    decreases k
  {
    hide BuildStep, Passed;
    if k > 0 {
      NextBuild(p, s, args, bases, k);
      ParamsGrow(p, s, args, bases, if j < k then j else k - 1, k - 1);
      StepParams(p, BuildFirst(p, s, args, bases, k - 1), args, bases, k - 1);
    }
  }

  // The entries stay, too, under the private copies.
  lemma StepBuildExtends(p: Plugin, b: Build, args: seq<Arg>, bases: seq<int>, i: nat)
    requires i < |args| == |bases| && args[i].ty.memberOf < |args| && WellFormed(b.env.entries)
    ensures var es' := BuildStep(p, b, args, bases, i).env.entries;
            WellFormed(es') && Extends(es', b.env.entries)
  {
    hide WellFormed, Extends, GetOrAlloc, MakesPrivate, BuildStep;
    BuildStepEntries(p, b, args, bases, i);
    ExtendsRefl(b.env.entries);
    GetOrAllocExtends(p, b.env, args[i].begin, bases[i], args[i].size, true, true);
  }

  lemma {:induction false} BuildExtends(p: Plugin, s: Env, args: seq<Arg>, bases: seq<int>, k: nat)
    requires k <= |args| == |bases| && ArgsValid(args) && WellFormed(s.entries)
    ensures var es := BuildFirst(p, s, args, bases, k).env.entries;
            WellFormed(es) && Extends(es, s.entries)
  {
    hide WellFormed, Extends, BuildStep;
    if k == 0 {
      ExtendsRefl(s.entries);
    } else {
      var b := BuildFirst(p, s, args, bases, k - 1);
      NextBuild(p, s, args, bases, k);
      BuildExtends(p, s, args, bases, k - 1);
      StepBuildExtends(p, b, args, bases, k - 1);
      ExtendsRefl(b.env.entries);
      ExtendsTrans(s.entries, b.env.entries, BuildFirst(p, s, args, bases, k).env.entries);
    }
  }

  // The parameter argument i becomes.
  function ParamAt(p: Plugin, s: Env, args: seq<Arg>, bases: seq<int>, i: nat): Param
    requires i < |args| == |bases| && ArgsValid(args) && args[i].ty.memberOf < |args| && Passed(args, i)
    requires BuildFirst(p, s, args, bases, |args|).ok
  {
    ParamPlace(p, s, args, bases, i);
    BuildFirst(p, s, args, bases, |args|).params[Before(args, i)]
  }

  lemma ParamPlace(p: Plugin, s: Env, args: seq<Arg>, bases: seq<int>, i: nat)
    requires i < |args| == |bases| && ArgsValid(args) && args[i].ty.memberOf < |args| && Passed(args, i)
    requires BuildFirst(p, s, args, bases, |args|).ok
    ensures Before(args, i) < |BuildFirst(p, s, args, bases, |args|).params|
    ensures var b := BuildFirst(p, s, args, bases, i);
            var b' := BuildStep(p, b, args, bases, i);
            && b.ok && b'.ok && b' == BuildFirst(p, s, args, bases, i + 1) && |b'.params| == |b.params| + 1
            && BuildFirst(p, s, args, bases, |args|).params[Before(args, i)] == b'.params[|b.params|]
  {
    hide BuildStep, Passed;
    ParamsGrow(p, s, args, bases, i, |args|);
    ParamsGrow(p, s, args, bases, i + 1, |args|);
    NextBuild(p, s, args, bases, i + 1);
    StepParams(p, BuildFirst(p, s, args, bases, i), args, bases, i);
  }

  // A by-value argument is handed over as it is.
  lemma LiteralParam(p: Plugin, s: Env, args: seq<Arg>, bases: seq<int>, i: nat)
    requires i < |args| == |bases| && ArgsValid(args) && args[i].ty.memberOf < |args| && Passed(args, i)
    requires BuildFirst(p, s, args, bases, |args|).ok && args[i].ty.literal
    ensures ParamAt(p, s, args, bases, i) == Param(bases[i], 0, args[i].size, true)
  {
    ParamPlace(p, s, args, bases, i);
    hide BuildFirst, GetTgtPtr, PrivateCopy;
  }

  // From the base a mapped section is handed over with, every byte is found, at its
  // displacement from the host base, where the map translates it.
  lemma SectionParam(p: Plugin, s: Env, args: seq<Arg>, bases: seq<int>, i: nat, e: Entry, x: int)
    requires i < |args| == |bases| && ArgsValid(args) && args[i].ty.memberOf < |args| && Passed(args, i)
    requires BuildFirst(p, s, args, bases, |args|).ok && WellFormed(s.entries)
    requires !args[i].ty.literal && !args[i].ty.isPrivate && !args[i].ty.ptrAndObj
    requires e in s.entries && Contained(e, args[i].begin, args[i].size)
    ensures var q := ParamAt(p, s, args, bases, i);
            && !q.isValue && q.size == args[i].size
            && q.ptr + q.offset + (x - bases[i]) == Translate(e, x)
  {
    hide *;
    ParamPlace(p, s, args, bases, i);
    ParamIs(p, s, args, bases, i);
    SectionPushed(p, BuildFirst(p, s, args, bases, i), args, bases, i);
    LookedUp(p, s, args, bases, i, e, args[i].begin, args[i].size, x);
  }

  lemma ParamIs(p: Plugin, s: Env, args: seq<Arg>, bases: seq<int>, i: nat)
    requires i < |args| == |bases| && ArgsValid(args) && args[i].ty.memberOf < |args| && Passed(args, i)
    requires BuildFirst(p, s, args, bases, |args|).ok
    ensures Before(args, i) < |BuildFirst(p, s, args, bases, |args|).params|
    ensures ParamAt(p, s, args, bases, i) == BuildFirst(p, s, args, bases, |args|).params[Before(args, i)]
  {
    ParamPlace(p, s, args, bases, i);
    hide BuildFirst, Before, Passed;
  }

  lemma SectionPushed(p: Plugin, b: Build, args: seq<Arg>, bases: seq<int>, i: nat)
    requires i < |args| == |bases| && args[i].ty.memberOf < |args| && Passed(args, i)
    requires !args[i].ty.literal && !args[i].ty.isPrivate && !args[i].ty.ptrAndObj
    requires |BuildStep(p, b, args, bases, i).params| == |b.params| + 1
    ensures BuildStep(p, b, args, bases, i).params[|b.params|] ==
            Param(GetTgtPtr(b.env, args[i].begin, args[i].size, false).1, bases[i] - args[i].begin, args[i].size, false)
  {
    hide GetTgtPtr, PrivateCopy;
  }

  // What an entry of the region's list says of a lookup at argument i's turn.
  lemma LookedUp(p: Plugin, s: Env, args: seq<Arg>, bases: seq<int>, i: nat, e: Entry, hp: int, n: nat, x: int)
    requires i < |args| == |bases| && ArgsValid(args) && WellFormed(s.entries)
    requires e in s.entries && Contained(e, hp, n)
    ensures GetTgtPtr(BuildFirst(p, s, args, bases, i).env, hp, n, false).1 == Translate(e, hp)
    ensures Translate(e, x) == Translate(e, hp) + (x - hp)
  {
    hide *;
    var es := BuildFirst(p, s, args, bases, i).env.entries;
    BuildExtends(p, s, args, bases, i);
    var f := NewEntry(es, s.entries, e);
    SameContained(e, f, hp, n, x);
    ContainedFound(es, f, hp, n);
    TgtOfLookup(BuildFirst(p, s, args, bases, i).env, hp, n);
  }

  lemma TgtOfLookup(s: Env, hp: int, n: nat)
    requires Lookup(s.entries, hp, n) < |s.entries|
    ensures GetTgtPtr(s, hp, n, false).1 == Translate(s.entries[Lookup(s.entries, hp, n)], hp)
  {
    hide Lookup;
  }

  // A pointer is handed over as the translation of its slot, without an offset.
  lemma PointerParam(p: Plugin, s: Env, args: seq<Arg>, bases: seq<int>, i: nat, e: Entry)
    requires i < |args| == |bases| && ArgsValid(args) && args[i].ty.memberOf < |args| && Passed(args, i)
    requires BuildFirst(p, s, args, bases, |args|).ok && WellFormed(s.entries)
    requires !args[i].ty.literal && !args[i].ty.isPrivate && args[i].ty.ptrAndObj
    requires e in s.entries && Contained(e, bases[i], PTR_BYTES)
    ensures ParamAt(p, s, args, bases, i) == Param(Translate(e, bases[i]), 0, args[i].size, false)
  {
    hide *;
    ParamPlace(p, s, args, bases, i);
    ParamIs(p, s, args, bases, i);
    PointerPushed(p, BuildFirst(p, s, args, bases, i), args, bases, i);
    LookedUp(p, s, args, bases, i, e, bases[i], PTR_BYTES, bases[i]);
  }

  lemma PointerPushed(p: Plugin, b: Build, args: seq<Arg>, bases: seq<int>, i: nat)
    requires i < |args| == |bases| && args[i].ty.memberOf < |args| && Passed(args, i)
    requires !args[i].ty.literal && !args[i].ty.isPrivate && args[i].ty.ptrAndObj
    requires |BuildStep(p, b, args, bases, i).params| == |b.params| + 1
    ensures BuildStep(p, b, args, bases, i).params[|b.params|] ==
            Param(GetTgtPtr(b.env, bases[i], PTR_BYTES, false).1, 0, args[i].size, false)
  {
    hide GetTgtPtr, PrivateCopy;
  }

  // A section of which no byte is mapped is handed over as the null pointer.
  lemma UnmappedParam(p: Plugin, s: Env, args: seq<Arg>, bases: seq<int>, i: nat)
    requires i < |args| == |bases| && ArgsValid(args) && args[i].ty.memberOf < |args| && Passed(args, i)
    requires BuildFirst(p, s, args, bases, |args|).ok
    requires !args[i].ty.literal && !args[i].ty.isPrivate && !args[i].ty.ptrAndObj
    requires !Found(BuildFirst(p, s, args, bases, i).env.entries, args[i].begin, args[i].size)
    ensures var q := ParamAt(p, s, args, bases, i); q.ptr == 0 && !q.isValue
  {
    hide *;
    ParamPlace(p, s, args, bases, i);
    ParamIs(p, s, args, bases, i);
    SectionPushed(p, BuildFirst(p, s, args, bases, i), args, bases, i);
    NullOfLookup(BuildFirst(p, s, args, bases, i).env, args[i].begin, args[i].size);
  }

  lemma NullOfLookup(s: Env, hp: int, n: nat)
    requires !Found(s.entries, hp, n)
    ensures GetTgtPtr(s, hp, n, false).1 == 0
  {
  }

  // A private copy is handed over like a section, by the entry made for it.
  lemma PrivateParam(p: Plugin, s: Env, args: seq<Arg>, bases: seq<int>, i: nat, e: Entry, x: int)
    requires i < |args| == |bases| && ArgsValid(args) && args[i].ty.memberOf < |args| && Passed(args, i)
    requires BuildFirst(p, s, args, bases, |args|).ok && WellFormed(s.entries)
    requires !args[i].ty.literal && args[i].ty.isPrivate && args[i].size > 0
    requires e in BuildFirst(p, s, args, bases, i + 1).env.entries && Contained(e, args[i].begin, args[i].size)
    ensures var q := ParamAt(p, s, args, bases, i);
            && !q.isValue && q.size == args[i].size && q.ptr != 0
            && q.ptr + q.offset + (x - bases[i]) == Translate(e, x)
  {
    hide *;
    var b := BuildFirst(p, s, args, bases, i);
    ParamPlace(p, s, args, bases, i);
    ParamIs(p, s, args, bases, i);
    BuildExtends(p, s, args, bases, i);
    PrivatePushed(p, b, args, bases, i);
    GetOrAllocTgt(p, b.env, args[i].begin, bases[i], args[i].size, true, true, e);
    SameContained(e, e, args[i].begin, args[i].size, x);
  }

  lemma PrivatePushed(p: Plugin, b: Build, args: seq<Arg>, bases: seq<int>, i: nat)
    requires i < |args| == |bases| && args[i].ty.memberOf < |args| && Passed(args, i)
    requires !args[i].ty.literal && args[i].ty.isPrivate
    requires BuildStep(p, b, args, bases, i).ok && |BuildStep(p, b, args, bases, i).params| == |b.params| + 1
    ensures var (s1, tp, isNew) := GetOrAlloc(p, b.env, args[i].begin, bases[i], args[i].size, true, true);
            && BuildStep(p, b, args, bases, i).params[|b.params|] ==
               Param(tp, bases[i] - args[i].begin, args[i].size, false)
            && BuildStep(p, b, args, bases, i).env.entries == s1.entries && tp != 0
  {
    hide GetOrAlloc, DataSubmit;
  }

  // --------------------------------------------------- the two kinds of base together

  // The list target() collects for the kernel.
  function Collected(p: Plugin, s: Env, args: seq<Arg>): Build
    requires ArgsValid(args)
  {
    BuildFirst(p, DataBegin(p, s, args).0, args, Bases(p, s, args), |args|)
  }

  // For every list, the kernel finds each byte of a mapped section at its displacement from
  // the base the program knows, exactly unless RETURN_PARAM has put another base there.
  lemma KernelFinds(p: Plugin, s: Env, args: seq<Arg>, i: nat, e: Entry, x: int)
    requires ArgsValid(args) && WellFormed(s.entries) && i < |args| && args[i].ty.memberOf < |args| && Passed(args, i)
    requires Collected(p, s, args).ok && !args[i].ty.literal && !args[i].ty.isPrivate && !args[i].ty.ptrAndObj
    requires e in DataBegin(p, s, args).0.entries && Contained(e, args[i].begin, args[i].size)
    ensures var q := ParamAt(p, DataBegin(p, s, args).0, args, Bases(p, s, args), i);
            && !q.isValue && q.size == args[i].size
            && (q.ptr + q.offset + (x - args[i].base) == Translate(e, x) <==> Bases(p, s, args)[i] == args[i].base)
            && (!args[i].ty.returnParam ==> q.ptr + q.offset + (x - args[i].base) == Translate(e, x))
  {
    hide *;
    var t := DataBegin(p, s, args).0;
    RegionEnds(p, s, args, t);
    BeginExtendsAll(p, s, args, 0, |args|);
    assert Collected(p, s, args) == BuildFirst(p, t, args, Bases(p, s, args), |args|) by { CollectedIs(p, s, args); }
    SectionParam(p, t, args, Bases(p, s, args), i, e, x);
    if !args[i].ty.returnParam {
      BaseKept(p, s, args, i);
    }
  }

  lemma CollectedIs(p: Plugin, s: Env, args: seq<Arg>)
    requires ArgsValid(args)
    ensures Collected(p, s, args) == BuildFirst(p, DataBegin(p, s, args).0, args, Bases(p, s, args), |args|)
  {
    hide BuildFirst, DataBegin, Bases;
  }

  // It is this list that the kernel is run on.
  lemma KernelRun(p: Plugin, k: Kernel, s: Env, args: seq<Arg>)
    requires ArgsValid(args) && DataBegin(p, s, args).1
    ensures var b := Collected(p, s, args);
            && (forall i :: i in b.privates ==> i < |args|)
            && var (t, ok) := if b.ok then (b.env.(dev := k.run(b.env.dev, b.params).0), k.run(b.env.dev, b.params).1)
                              else (b.env, false);
               Target(p, k, s, args) ==
               (DataEnd(FreePrivates(t, args, b.privates).0, args).0,
                ok && FreePrivates(t, args, b.privates).1 && DataEnd(FreePrivates(t, args, b.privates).0, args).1)
  {
    PrivatesInRange(p, DataBegin(p, s, args).0, args, Bases(p, s, args), |args|);
    hide BuildFirst, DataBegin, Bases, FreePrivates, DataEnd;
  }
}
