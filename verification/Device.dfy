/** One device of libomptarget as the object its methods update. */
module Device {
  // Its fields are the entry list, the shadow-pointer map and, standing in for the
  // plugin, both memories.  Every method is proved to do to the state what the function
  // of DataEnvironment, DeviceMap or TargetRegion of the same purpose says.

  import opened Memory
  import opened DeviceMap
  import opened DataEnvironment
  import opened ShadowPointers
  import opened TransferOnce
  import opened TargetRegion

  datatype LookupFlags = LookupFlags(isContained: bool, extendsBefore: bool, extendsAfter: bool)

  // The count of the first entry holding p, at position i.
  lemma {:induction false} RefCountFirst(es: Entries, p: int, i: nat)
    requires i <= |es| && forall j :: 0 <= j < i ==> !Holds(es[j], p)
    requires i < |es| ==> Holds(es[i], p)
    ensures RefCount(es, p) == if i < |es| then es[i].count else -1
  {
    if i > 0 {
      assert !Holds(es[0], p);
      RefCountFirst(es[1..], p, i - 1);
    }
  }

  // ------------------------------------------------ scans of the shadow-pointer map

  lemma ConcatTail<T>(a: seq<T>, b: seq<T>)
    requires a != []
    ensures a + b != [] && (a + b)[0] == a[0] && (a + b)[1..] == a[1..] + b
  {
  }

  lemma ConcatAssoc<T>(a: seq<T>, b: seq<T>, c: seq<T>)
    ensures a + (b + c) == a + b + c
  {
  }

  lemma {:induction false} InRangeConcat(a: seq<Shadow>, b: seq<Shadow>, lb: int, ub: int)
    ensures InRange(a + b, lb, ub) == InRange(a, lb, ub) + InRange(b, lb, ub)
  {
    if a == [] {
      assert a + b == b;
    } else {
      ConcatTail(a, b);
      InRangeConcat(a[1..], b, lb, ub);
      ConcatAssoc([a[0]], InRange(a[1..], lb, ub), InRange(b, lb, ub));
    }
  }

  lemma {:induction false} OutOfRangeConcat(a: seq<Shadow>, b: seq<Shadow>, lb: int, ub: int)
    ensures OutOfRange(a + b, lb, ub) == OutOfRange(a, lb, ub) + OutOfRange(b, lb, ub)
  {
    if a == [] {
      assert a + b == b;
    } else {
      ConcatTail(a, b);
      OutOfRangeConcat(a[1..], b, lb, ub);
      ConcatAssoc([a[0]], OutOfRange(a[1..], lb, ub), OutOfRange(b, lb, ub));
    }
  }

  lemma {:induction false} PastRange(sh: seq<Shadow>, lb: int, ub: int)
    requires forall q :: q in sh ==> q.key >= ub
    ensures InRange(sh, lb, ub) == [] && OutOfRange(sh, lb, ub) == sh
  {
    if sh != [] {
      assert sh[0] in sh;
      PastRange(sh[1..], lb, ub);
    }
  }

  lemma {:induction false} RestoreHostConcat(m: Mem, a: seq<Shadow>, b: seq<Shadow>)
    ensures RestoreHost(m, a + b) == RestoreHost(RestoreHost(m, a), b)
    decreases |a|
  {
    hide Write, PtrBytes;
    if a == [] {
      assert a + b == b;
    } else {
      RestoreHostConcat(Write(m, a[0].key, PtrBytes(a[0].hstVal)), a[1..], b);
      assert (a + b)[1..] == a[1..] + b;
    }
  }

  lemma {:induction false} RestoreDeviceConcat(s: Env, a: seq<Shadow>, b: seq<Shadow>)
    ensures RestoreDevice(s, a + b) == RestoreDevice(RestoreDevice(s, a), b)
    decreases |a|
  {
    if a == [] {
      assert a + b == b;
    } else {
      RestoreDeviceConcat(SubmitPointer(s, a[0].tgtAddr, a[0].tgtVal).0, a[1..], b);
      assert (a + b)[1..] == a[1..] + b;
    }
  }

  // One more shadow entry joins the scanned prefix.
  lemma ScanStep(sh: seq<Shadow>, j: nat, lb: int, ub: int)
    requires j < |sh|
    ensures InRange(sh[..j + 1], lb, ub) ==
            InRange(sh[..j], lb, ub) + if lb <= sh[j].key < ub then [sh[j]] else []
    ensures OutOfRange(sh[..j + 1], lb, ub) ==
            OutOfRange(sh[..j], lb, ub) + if lb <= sh[j].key < ub then [] else [sh[j]]
  {
    assert sh[..j + 1] == sh[..j] + [sh[j]];
    InRangeConcat(sh[..j], [sh[j]], lb, ub);
    OutOfRangeConcat(sh[..j], [sh[j]], lb, ub);
    assert [sh[j]][1..] == [];
    assert InRange([sh[j]], lb, ub) == (if lb <= sh[j].key < ub then [sh[j]] else []) + InRange([], lb, ub);
    assert OutOfRange([sh[j]], lb, ub) == (if lb <= sh[j].key < ub then [] else [sh[j]]) + OutOfRange([], lb, ub);
  }

  // The rest of a sorted map is out of range once one key is.
  lemma ScanStops(sh: seq<Shadow>, j: nat, lb: int, ub: int)
    requires Sorted(sh) && j <= |sh| && (j < |sh| ==> sh[j].key >= ub)
    ensures InRange(sh, lb, ub) == InRange(sh[..j], lb, ub)
    ensures OutOfRange(sh, lb, ub) == OutOfRange(sh[..j], lb, ub) + sh[j..]
  {
    assert sh == sh[..j] + sh[j..];
    InRangeConcat(sh[..j], sh[j..], lb, ub);
    OutOfRangeConcat(sh[..j], sh[j..], lb, ub);
    PastRange(sh[j..], lb, ub);
  }

  lemma RestoreOne(m: Mem, a: seq<Shadow>, q: Shadow)
    ensures RestoreHost(m, a + [q]) == Write(RestoreHost(m, a), q.key, PtrBytes(q.hstVal))
  {
    RestoreHostConcat(m, a, [q]);
    assert [q][1..] == [];
  }

  lemma RestoreOneDevice(s: Env, a: seq<Shadow>, q: Shadow)
    ensures RestoreDevice(s, a + [q]) == SubmitPointer(RestoreDevice(s, a), q.tgtAddr, q.tgtVal).0
  {
    RestoreDeviceConcat(s, a, [q]);
    assert [q][1..] == [];
  }

  lemma EraseAt<T>(a: seq<T>, b: seq<T>)
    requires b != []
    ensures (a + b)[|a|] == b[0] && (a + b)[..|a|] + (a + b)[|a| + 1..] == a + b[1..]
    ensures a + [b[0]] + b[1..] == a + b
  {
  }

  // What the scan has done once j entries of s0's shadow pointers are behind it.
  ghost function Scanned(s0: Env, j: nat, lb: int, ub: int, from: bool, del: bool): Env
    requires j <= |s0.shadows|
  {
    var s1 := if from then s0.(host := RestoreHost(s0.host, InRange(s0.shadows[..j], lb, ub))) else s0;
    if del then s1.(shadows := OutOfRange(s0.shadows[..j], lb, ub) + s0.shadows[j..]) else s1
  }

  ghost function ScanIndex(s0: Env, j: nat, lb: int, ub: int, del: bool): nat
    requires j <= |s0.shadows|
  {
    if del then |OutOfRange(s0.shadows[..j], lb, ub)| else j
  }

  lemma ScannedStart(s0: Env, lb: int, ub: int, from: bool, del: bool)
    ensures Scanned(s0, 0, lb, ub, from, del) == s0 && ScanIndex(s0, 0, lb, ub, del) == 0
  {
    assert s0.shadows[..0] == [] && s0.shadows[0..] == s0.shadows;
    assert [] + s0.shadows == s0.shadows;
  }

  lemma ScannedAt(s0: Env, j: nat, lb: int, ub: int, from: bool, del: bool)
    requires j <= |s0.shadows|
    ensures var s, i := Scanned(s0, j, lb, ub, from, del), ScanIndex(s0, j, lb, ub, del);
            i <= |s.shadows| && (i == |s.shadows| <==> j == |s0.shadows|) &&
            (j < |s0.shadows| ==> s.shadows[i] == s0.shadows[j])
  {
  }

  // Passing an entry below the range only moves on.
  lemma ScannedBelow(s0: Env, j: nat, lb: int, ub: int, from: bool, del: bool)
    requires j < |s0.shadows| && s0.shadows[j].key < lb
    ensures Scanned(s0, j + 1, lb, ub, from, del) == Scanned(s0, j, lb, ub, from, del)
    ensures ScanIndex(s0, j + 1, lb, ub, del) == ScanIndex(s0, j, lb, ub, del) + 1
  {
    hide InRange, OutOfRange, RestoreHost;
    ScanStep(s0.shadows, j, lb, ub);
    EraseAt(OutOfRange(s0.shadows[..j], lb, ub), s0.shadows[j..]);
    assert s0.shadows[j..][1..] == s0.shadows[j + 1..];
    assert InRange(s0.shadows[..j], lb, ub) + [] == InRange(s0.shadows[..j], lb, ub);
  }

  // An entry in range is restored, erased, or both.
  lemma ScannedInside(s0: Env, j: nat, lb: int, ub: int, from: bool, del: bool)
    requires j < |s0.shadows| && lb <= s0.shadows[j].key < ub
    ensures var s, i, q := Scanned(s0, j, lb, ub, from, del), ScanIndex(s0, j, lb, ub, del), s0.shadows[j];
            var s1 := if from then s.(host := Write(s.host, q.key, PtrBytes(q.hstVal))) else s;
            i < |s.shadows| &&
            Scanned(s0, j + 1, lb, ub, from, del) ==
            if del then s1.(shadows := s.shadows[..i] + s.shadows[i + 1..]) else s1
    ensures ScanIndex(s0, j + 1, lb, ub, del) == ScanIndex(s0, j, lb, ub, del) + if del then 0 else 1
  {
    hide InRange, OutOfRange, RestoreHost, Write, PtrBytes;
    ScanStep(s0.shadows, j, lb, ub);
    EraseAt(OutOfRange(s0.shadows[..j], lb, ub), s0.shadows[j..]);
    assert s0.shadows[j..][1..] == s0.shadows[j + 1..];
    assert OutOfRange(s0.shadows[..j], lb, ub) + [] == OutOfRange(s0.shadows[..j], lb, ub);
    RestoreOne(s0.host, InRange(s0.shadows[..j], lb, ub), s0.shadows[j]);
  }

  lemma ScannedEnd(s0: Env, j: nat, lb: int, ub: int, from: bool, del: bool)
    requires Sorted(s0.shadows) && j <= |s0.shadows| && (j < |s0.shadows| ==> s0.shadows[j].key >= ub)
    ensures var s1 := if from then s0.(host := RestoreHost(s0.host, InRange(s0.shadows, lb, ub))) else s0;
            Scanned(s0, j, lb, ub, from, del) ==
            if del then s1.(shadows := OutOfRange(s1.shadows, lb, ub)) else s1
  {
    hide InRange, OutOfRange, RestoreHost;
    ScanStops(s0.shadows, j, lb, ub);
  }

  class DeviceTy {
    const plugin: Plugin
    const answers: nat -> Answer

    var entries: Entries
    var shadows: seq<Shadow>
    var host: Mem
    var dev: Mem
    var blocks: map<int, nat>
    var clock: nat
    var log: seq<Transfer>

    function State(): (s: Env)
      reads this
    {
      Env(entries, shadows, host, dev, blocks, clock, log, answers)
    }

    ghost predicate Valid()
      reads this
    {
      Sorted(shadows)
    }

    lemma StateIs()
      ensures State() == Env(entries, shadows, host, dev, blocks, clock, log, answers)
      ensures Valid() <==> Sorted(State().shadows)
    {
    }

    constructor (plugin: Plugin, answers: nat -> Answer, host: Mem, dev: Mem)
      ensures Valid() && State() == Env([], [], host, dev, map[], 0, [], answers) && this.plugin == plugin
    {
      this.plugin, this.answers := plugin, answers;
      this.host, this.dev := host, dev;
      entries, shadows, blocks, clock, log := [], [], map[], 0, [];
    }

    // ------------------------------------------------------------- calls to the plugin

    method Assign(s: Env)
      requires s.answers == answers
      modifies this
      ensures State() == s
    {
      entries, shadows, host, dev, blocks, clock, log :=
        s.entries, s.shadows, s.host, s.dev, s.blocks, s.clock, s.log;
    }

    method Submit(tgt: int, hst: int, n: nat) returns (ok: bool)
      modifies this
      ensures (State(), ok) == DataSubmit(old(State()), tgt, hst, n)
    {
      var r := DataSubmit(State(), tgt, hst, n);
      Assign(r.0);
      ok := r.1;
    }

    method SubmitPtr(slot: int, val: int) returns (ok: bool)
      modifies this
      ensures (State(), ok) == SubmitPointer(old(State()), slot, val)
    {
      var r := SubmitPointer(State(), slot, val);
      Assign(r.0);
      ok := r.1;
    }

    method Retrieve(hst: int, tgt: int, n: nat) returns (ok: bool)
      modifies this
      ensures (State(), ok) == DataRetrieve(old(State()), hst, tgt, n)
    {
      var r := DataRetrieve(State(), hst, tgt, n);
      Assign(r.0);
      ok := r.1;
    }

    // --------------------------------------------------------------- the map of entries

    method LookupMapping(hp: int, n: nat) returns (flags: LookupFlags, i: nat)
      ensures i == Lookup(entries, hp, n)
      ensures i < |entries| ==>
                flags == LookupFlags(Contained(entries[i], hp, n), ExtendsBefore(entries[i], hp, n),
                                     ExtendsAfter(entries[i], hp, n))
      ensures (i < |entries|) <==> (flags.isContained || flags.extendsBefore || flags.extendsAfter)
    {
      flags, i := LookupFlags(false, false, false), 0;
      while i < |entries|
        invariant i <= |entries|
        invariant forall j :: 0 <= j < i ==> !Flagged(entries[j], hp, n)
        invariant flags == LookupFlags(false, false, false)
      {
        var e := entries[i];
        flags := LookupFlags(e.begin <= hp < e.end && hp + n <= e.end,
                             hp < e.begin && hp + n > e.begin,
                             hp < e.end && hp + n > e.end);
        if flags.isContained || flags.extendsBefore || flags.extendsAfter {
          LookupIs(entries, hp, n, i);
          return;
        }
        i := i + 1;
      }
      LookupIs(entries, hp, n, i);
    }

    method GetMapEntryRefCnt(p: int) returns (c: int)
      ensures c == RefCount(entries, p)
    {
      c := -1;
      var i := 0;
      while i < |entries|
        invariant i <= |entries|
        invariant forall j :: 0 <= j < i ==> !Holds(entries[j], p)
      {
        if entries[i].begin <= p < entries[i].end {
          c := entries[i].count;
          RefCountFirst(entries, p, i);
          return;
        }
        i := i + 1;
      }
      RefCountFirst(entries, p, i);
    }

    method AssociatePtr(hp: int, tgt: int, n: nat) returns (ok: bool)
      modifies this
      ensures State() == old(State()).(entries := Associate(old(entries), hp, tgt, n).0)
      ensures ok == Associate(old(entries), hp, tgt, n).1
    {
      var i := 0;
      while i < |entries|
        invariant i <= |entries| && entries == old(entries) && State() == old(State())
        invariant FindBegin(entries, hp) == i + FindBegin(entries[i..], hp)
      {
        if entries[i].begin == hp {
          ok := entries[i].end == hp + n && entries[i].tgt == tgt;
          return;
        }
        assert entries[i..][1..] == entries[i + 1..];
        i := i + 1;
      }
      entries := [Entry(hp, hp, hp + n, tgt, INF_REF_CNT)] + entries;
      ok := true;
    }

    method DisassociatePtr(hp: int) returns (ok: bool)
      modifies this
      ensures State() == old(State()).(entries := Disassociate(old(entries), hp).0)
      ensures ok == Disassociate(old(entries), hp).1
    {
      var i := 0;
      while i < |entries|
        invariant i <= |entries| && entries == old(entries) && State() == old(State())
        invariant FindBegin(entries, hp) == i + FindBegin(entries[i..], hp)
      {
        if entries[i].begin == hp {
          if ConsideredInf(entries[i].count) {
            entries := entries[..i] + entries[i + 1..];
            return true;
          }
          break;
        }
        assert entries[i..][1..] == entries[i + 1..];
        i := i + 1;
      }
      ok := false;
    }

    method GetOrAllocTgtPtr(hp: int, base: int, n: nat, implicit: bool, update: bool) returns (tp: int, isNew: bool)
      modifies this
      ensures (State(), tp, isNew) == GetOrAlloc(plugin, old(State()), hp, base, n, implicit, update)
    {
      tp, isNew := 0, plugin.stale(clock);
      var flags, i := LookupMapping(hp, n);
      if flags.isContained || ((flags.extendsBefore || flags.extendsAfter) && implicit) {
        isNew := false;
        tp := entries[i].tgt + (hp - entries[i].begin);
        if update {
          entries := entries[i := entries[i].(count := entries[i].count + 1)];
        }
        clock := clock + 1;
      } else if (flags.extendsBefore || flags.extendsAfter) && !implicit {
        clock := clock + 1;
      } else if n != 0 {
        isNew := true;
        var r := DataAlloc(plugin, State(), n);
        Assign(r.0);
        tp := r.1;
        entries := [Entry(base, hp, hp + n, tp, 1)] + entries;
      } else {
        clock := clock + 1;
      }
    }

    method GetTgtPtrBegin(hp: int, n: nat, update: bool) returns (tp: int, isLast: bool)
      modifies this
      ensures (State(), tp, isLast) == GetTgtPtr(old(State()), hp, n, update)
    {
      var flags, i := LookupMapping(hp, n);
      if flags.isContained || flags.extendsBefore || flags.extendsAfter {
        isLast := !(entries[i].count > 1);
        tp := entries[i].tgt + (hp - entries[i].begin);
        if entries[i].count > 1 && update {
          entries := entries[i := entries[i].(count := entries[i].count - 1)];
        }
      } else {
        tp, isLast := 0, false;
      }
    }

    method DeallocTgtPtr(hp: int, n: nat, force: bool) returns (ok: bool)
      modifies this
      ensures (State(), ok) == Dealloc(old(State()), hp, n, force)
    {
      var flags, i := LookupMapping(hp, n);
      if flags.isContained || flags.extendsBefore || flags.extendsAfter {
        var c := if force then 1 else entries[i].count;
        c := c - 1;
        if c <= 0 {
          var es := entries[..i] + entries[i + 1..];
          Assign(DataDelete(State(), entries[i].tgt));
          entries := es;
        } else {
          entries := entries[i := entries[i].(count := c)];
        }
        ok := true;
      } else {
        ok := false;
      }
    }

    // ------------------------------------------------------------- the shadow-pointer map

    // One shadow entry in range: restored to the host, erased, or both.
    method VisitShadow(i: nat, from: bool, del: bool)
      requires i < |shadows|
      modifies this
      ensures var s, q := old(State()), old(shadows)[i];
              var s1 := if from then s.(host := Write(s.host, q.key, PtrBytes(q.hstVal))) else s;
              State() == if del then s1.(shadows := s.shadows[..i] + s.shadows[i + 1..]) else s1
    {
      if from {
        host := Write(host, shadows[i].key, PtrBytes(shadows[i].hstVal));
      }
      if del {
        shadows := shadows[..i] + shadows[i + 1..];
      }
    }

    // The scan of target_data_end: stops at the first key past the section, restores
    // host pointers and erases entries as it goes.
    method ScanShadows(lb: int, ub: int, from: bool, del: bool)
      requires Valid()
      modifies this
      ensures Valid()
      ensures var s0 := old(State());
              var s1 := if from then s0.(host := RestoreHost(s0.host, InRange(s0.shadows, lb, ub))) else s0;
              State() == if del then s1.(shadows := OutOfRange(s1.shadows, lb, ub)) else s1
    {
      ghost var s0 := State();
      ghost var j := 0;
      var i := 0;
      hide *;
      StateIs();
      FilterSorted(s0.shadows, lb, ub);
      ScannedStart(s0, lb, ub, from, del);
      while i < |shadows|
        invariant j <= |s0.shadows|
        invariant i == ScanIndex(s0, j, lb, ub, del)
        invariant State() == Scanned(s0, j, lb, ub, from, del)
        decreases |s0.shadows| - j
      {
        StateIs();
        ScannedAt(s0, j, lb, ub, from, del);
        var key := shadows[i].key;
        if key < lb {
          ScannedBelow(s0, j, lb, ub, from, del);
          i, j := i + 1, j + 1;
          continue;
        }
        if key >= ub {
          break;
        }
        ScannedInside(s0, j, lb, ub, from, del);
        VisitShadow(i, from, del);
        if !del {
          i := i + 1;
        }
        j := j + 1;
      }
      StateIs();
      ScannedAt(s0, j, lb, ub, from, del);
      ScannedEnd(s0, j, lb, ub, from, del);
    }

    // The scan of an update TO: submits the device pointers of the slots in range.
    method ScanShadowsDevice(lb: int, ub: int)
      requires Valid()
      modifies this
      ensures Valid() && State() == RestoreDevice(old(State()), InRange(old(shadows), lb, ub))
    {
      ghost var s0 := State();
      var i := 0;
      assert shadows[..0] == [];
      while i < |shadows|
        invariant i <= |shadows| && shadows == s0.shadows
        invariant State() == RestoreDevice(s0, InRange(s0.shadows[..i], lb, ub))
      {
        ScanStep(s0.shadows, i, lb, ub);
        ghost var done := InRange(s0.shadows[..i], lb, ub);
        assert done + [] == done;
        var q := shadows[i];
        if q.key < lb {
          i := i + 1;
          continue;
        }
        if q.key >= ub {
          break;
        }
        RestoreOneDevice(s0, done, q);
        var ok := SubmitPtr(q.tgtAddr, q.tgtVal);
        i := i + 1;
      }
      ScanStops(s0.shadows, i, lb, ub);
    }

    // -------------------------------------------------------------- target_data_begin

    // The section of argument i, widened to an aligned begin for a combined entry.
    method PaddedSection(args: seq<Arg>, i: nat) returns (hp: int, n: nat)
      requires i < |args| && -1 <= args[i].ty.memberOf
      ensures hp == Begin(args, i) && n == Size(args, i)
    {
      hp, n := args[i].begin, args[i].size;
      if args[i].ty.memberOf < 0 && i + 1 < |args| && args[i + 1].ty.memberOf == i {
        var padding := hp % ALIGNMENT;
        hp, n := hp - padding, n + padding;
      }
    }

    // One iteration of its loop; base is the value for args_base[i].
    method MapArgument(args: seq<Arg>, i: nat) returns (ok: bool, base: int)
      requires Valid() && i < |args| && -1 <= args[i].ty.memberOf < |args|
      modifies this
      ensures Valid()
      ensures Outcome(State(), ok, base) == BeginStep(plugin, old(State()), args, i)
    {
      ghost var s0 := State();
      var a := args[i];
      ok, base := true, a.base;
      if a.ty.literal || a.ty.isPrivate {
        return;
      }
      var hp, n := PaddedSection(args, i);
      var slot, hstBase := MapSlotOf(args, i);
      var update := a.ty.ptrAndObj || a.ty.memberOf < 0;
      hide GetOrAlloc, MapSlot, InsertShadow, Sorted, SendArgument, Begin, Size, PointeeBase, UsesSlot;
      var tp, isNew := GetOrAllocTgtPtr(hp, hstBase, n, a.ty.implicit, update);
      assert (State(), tp, isNew) == MapPointee(plugin, s0, args, i);
      assert Sorted(shadows) by { MapKeeps(plugin, s0, args, i); }
      if a.ty.returnParam {
        base := tp - (hp - hstBase);
      }
      ok := SendSection(args, i, slot, hstBase, tp, isNew);
    }

    // The pointer slot of a PTR_AND_OBJ argument, and the base its section hangs from.
    method MapSlotOf(args: seq<Arg>, i: nat) returns (slot: int, hstBase: int)
      requires Valid() && i < |args| && -1 <= args[i].ty.memberOf < |args|
      modifies this
      ensures Valid()
      ensures (State(), slot) == MapSlot(plugin, old(State()), args, i)
      ensures hstBase == PointeeBase(old(host), args[i])
    {
      ghost var s0 := State();
      var a := args[i];
      slot, hstBase := 0, a.base;
      if a.ty.ptrAndObj {
        if a.ty.memberOf < 0 || !args[a.ty.memberOf].ty.isPrivate {
          var isNew;
          hide GetOrAlloc, LoadPtr;
          slot, isNew := GetOrAllocTgtPtr(a.base, a.base, PTR_BYTES, a.ty.implicit, a.ty.memberOf < 0);
          GetOrAllocKeeps(plugin, s0, a.base, a.base, PTR_BYTES, a.ty.implicit, a.ty.memberOf < 0);
        }
        hstBase := LoadPtr(host, a.base);
      }
    }

    // The transfers of one argument: the section if it is due, then its device pointer.
    method SendSection(args: seq<Arg>, i: nat, slot: int, hstBase: int, tp: int, isNew: bool) returns (ok: bool)
      requires Valid() && i < |args| && -1 <= args[i].ty.memberOf < |args|
      modifies this
      ensures Valid()
      ensures (State(), ok) == SendArgument(old(State()), args, i, slot, hstBase, tp, isNew)
    {
      ghost var s0 := State();
      var a, hp, n := args[i], Begin(args, i), Size(args, i);
      hide InsertShadow, Sorted, DataSubmit, SubmitPointer, Begin, Size, RefCount;
      ok := true;
      if a.ty.to {
        var copy := false;
        if isNew || a.ty.always {
          copy := true;
        } else if a.ty.memberOf >= 0 {
          var parentRc := GetMapEntryRefCnt(args[a.ty.memberOf].begin);
          copy := parentRc == 1;
        }
        assert copy == CopyIn(s0.entries, args, i, isNew);
        if copy {
          ok := Submit(tp, hp, n);
        }
      }
      SubmitKeeps(s0, tp, hp, n);
      ghost var s1 := State();
      if slot != 0 {
        var tgtBase := tp - (hp - hstBase);
        var rt := SubmitPtr(slot, tgtBase);
        SubmitPointerKeeps(s1, slot, tgtBase);
        ok := ok && rt;
        InsertSorted(shadows, Shadow(a.base, hstBase, slot, tgtBase));
        shadows := InsertShadow(shadows, Shadow(a.base, hstBase, slot, tgtBase));
      }
    }

    method TargetDataBegin(args: seq<Arg>, argsBase: array<int>) returns (ok: bool)
      requires Valid() && ArgsValid(args)
      requires argsBase.Length == |args| && forall i :: 0 <= i < |args| ==> argsBase[i] == args[i].base
      modifies this, argsBase
      ensures Valid()
      ensures (State(), ok) == DataBegin(plugin, old(State()), args)
      ensures argsBase[..] == Bases(plugin, old(State()), args)
    {
      ghost var s0 := State();
      hide BeginStep;
      ok := true;
      var i := 0;
      while i < |args|
        invariant i <= |args| && Valid()
        invariant (State(), ok) == BeginFirst(plugin, s0, args, i)
        invariant forall j :: 0 <= j < i ==> argsBase[j] == Bases(plugin, s0, args)[j]
        invariant forall j :: i <= j < |args| ==> argsBase[j] == args[j].base
      {
        assert args[i] in args;
        ghost var s := State();
        var rt, base := MapArgument(args, i);
        assert s == StateAt(plugin, s0, args, i);
        argsBase[i] := base;
        ok := ok && rt;
        i := i + 1;
      }
    }

    // ---------------------------------------------------------------- target_data_end

    method UnmapArgument(args: seq<Arg>, i: nat) returns (ok: bool)
      requires Valid() && i < |args| && -1 <= args[i].ty.memberOf < |args|
      modifies this
      ensures Valid()
      ensures (State(), ok) == EndStep(old(State()), args, i)
    {
      var a := args[i];
      if a.ty.literal || a.ty.isPrivate {
        return true;
      }
      ghost var s0 := State();
      assert EndStep(s0, args, i) == UnmapSteps(s0, args, i);
      hide *;
      StateIs();
      var hp, n := PaddedSection(args, i);
      var plain := a.ty.memberOf >= 0 && !a.ty.ptrAndObj;
      assert plain == PlainMember(a) by { PlainMemberIs(a); }
      GetTgtPtrKeeps(s0, hp, n, !plain);
      var tp, isLast := GetTgtPtrBegin(hp, n, !plain);
      ghost var s1 := State();
      StateIs();
      var del := isLast || a.ty.delete;
      if plain {
        del := false;
      }
      ok := true;
      if a.ty.from || del {
        ok := FetchSection(args, i, hp, n, tp, del);
      }
      ghost var s2, ok2 := State(), ok;
      if del {
        DeallocKeeps(s2, hp, n, a.ty.delete);
        var rt := DeallocTgtPtr(hp, n, a.ty.delete);
        ok := ok && rt;
      }
      StateIs();
      UnmapStepsIs(s0, args, i, hp, n, s1, tp, isLast, plain, s2, ok2);
    }

    // The transfer back of one argument and the scan of its shadow pointers.
    method FetchSection(args: seq<Arg>, i: nat, hp: int, n: nat, tp: int, del: bool) returns (ok: bool)
      requires Valid() && i < |args| && -1 <= args[i].ty.memberOf < |args|
      requires hp == Begin(args, i) && n == Size(args, i)
      modifies this
      ensures Valid()
      ensures (State(), ok) == CopyOut(old(State()), args, i, tp, del)
    {
      hide InRange, OutOfRange, RestoreHost, Sorted, DataRetrieve, Begin, Size, RefCount;
      ghost var s0 := State();
      var a := args[i];
      ok := true;
      if a.ty.from {
        var copyMember := false;
        if a.ty.memberOf >= 0 && !a.ty.ptrAndObj {
          var parentRc := GetMapEntryRefCnt(args[a.ty.memberOf].begin);
          copyMember := parentRc == 1;
        }
        assert copyMember == CopyMember(s0.entries, args, i);
        if del || a.ty.always || copyMember {
          ok := Retrieve(hp, tp, n);
        }
      }
      RetrieveKeeps(s0, hp, tp, n);
      ScanShadows(hp, hp + n, a.ty.from, del);
    }

    method TargetDataEnd(args: seq<Arg>) returns (ok: bool)
      requires Valid() && ArgsValid(args)
      modifies this
      ensures Valid()
      ensures (State(), ok) == DataEnd(old(State()), args)
    {
      ghost var s0 := State();
      hide EndStep;
      ok := true;
      var i := |args|;
      while i > 0
        invariant 0 <= i <= |args| && Valid()
        invariant EndFirst(s0, args, |args|) == (EndFirst(State(), args, i).0, ok && EndFirst(State(), args, i).1)
      {
        i := i - 1;
        assert args[i] in args;
        var rt := UnmapArgument(args, i);
        ok := ok && rt;
      }
    }

    // --------------------------------------------------------- __tgt_target_data_update

    method TargetDataUpdate(args: seq<Arg>)
      requires Valid()
      modifies this
      ensures Valid()
      ensures State() == DataUpdate(old(State()), args)
    {
      ghost var s0 := State();
      assert args[0..] == args;
      var i := 0;
      while i < |args|
        invariant i <= |args| && Valid()
        invariant DataUpdate(State(), args[i..]) == DataUpdate(s0, args)
      {
        assert args[i..][1..] == args[i + 1..];
        UpdateArgument(args[i]);
        i := i + 1;
      }
    }

    method UpdateArgument(a: Arg)
      requires Valid()
      modifies this
      ensures Valid()
      ensures State() == UpdateStep(old(State()), a)
    {
      ghost var s0 := State();
      if a.ty.literal || a.ty.isPrivate {
        return;
      }
      hide *;
      StateIs();
      GetTgtPtrKeeps(s0, a.begin, a.size, false);
      var tp, isLast := GetTgtPtrBegin(a.begin, a.size, false);
      UpdateFrom(a, tp);
      ghost var s1 := State();
      StateIs();
      if a.ty.to {
        SubmitKeeps(s1, tp, a.begin, a.size);
        var rt := Submit(tp, a.begin, a.size);
        StateIs();
        ScanShadowsDevice(a.begin, a.begin + a.size);
      }
      UpdateStepIs(s0, a);
    }

    method UpdateFrom(a: Arg, tp: int)
      requires Valid() && tp == GetTgtPtr(State(), a.begin, a.size, false).1
      modifies this
      ensures Valid() && State() == AfterFrom(old(State()), a) && shadows == old(shadows)
    {
      ghost var s0 := State();
      hide GetTgtPtr, InRange, RestoreHost, Sorted, DataRetrieve;
      if a.ty.from {
        RetrieveKeeps(s0, a.begin, tp, a.size);
        var rt := Retrieve(a.begin, tp, a.size);
        ScanShadows(a.begin, a.begin + a.size, true, false);
      }
    }

    // -------------------------------------------------------------------------- target

    // The loop that collects the kernel's arguments; it leaves at the first failure.
    method CollectArguments(args: seq<Arg>, argsBase: array<int>)
        returns (params: seq<Param>, privates: seq<nat>, ok: bool)
      requires Valid() && ArgsValid(args) && argsBase.Length == |args|
      modifies this
      ensures Valid() && argsBase[..] == old(argsBase[..])
      ensures Build(State(), params, privates, ok) ==
              BuildFirst(plugin, old(State()), args, argsBase[..], |args|)
    {
      ghost var s0, bases := State(), argsBase[..];
      hide BuildStep;
      params, privates, ok := [], [], true;
      var i := 0;
      while i < |args| && ok
        invariant i <= |args| && Valid() && argsBase[..] == bases
        invariant Build(State(), params, privates, ok) == BuildFirst(plugin, s0, args, bases, i)
      {
        assert args[i] in args;
        params, privates, ok := CollectArgument(args, bases, argsBase, i, params, privates);
        i := i + 1;
      }
      BuildStopped(plugin, s0, args, bases, i, |args|);
    }

    method CollectArgument(args: seq<Arg>, ghost bases: seq<int>, argsBase: array<int>, i: nat,
                           params0: seq<Param>, privates0: seq<nat>)
        returns (params: seq<Param>, privates: seq<nat>, ok: bool)
      requires Valid() && i < |args| == |bases| && -1 <= args[i].ty.memberOf < |args|
      requires argsBase.Length == |args| && argsBase[..] == bases
      modifies this
      ensures Valid() && argsBase[..] == bases
      ensures Build(State(), params, privates, ok) ==
              BuildStep(plugin, Build(old(State()), params0, privates0, true), args, bases, i)
    {
      ghost var s0 := State();
      var a, base := args[i], argsBase[i];
      assert base == bases[i];
      hide GetTgtPtr, GetOrAlloc, DataSubmit, SubmitPointer, Sorted;
      params, privates, ok := params0, privates0, true;
      GetTgtPtrKeeps(s0, a.begin, a.size, false);
      GetTgtPtrKeeps(s0, base, PTR_BYTES, false);
      if a.ty.memberOf >= 0 && args[a.ty.memberOf].ty.isPrivate {
        var parent := args[a.ty.memberOf];
        GetTgtPtrKeeps(s0, parent.begin, parent.size, false);
        var parentTgt, last := GetTgtPtrBegin(parent.begin, parent.size, false);
        var tp, last' := GetTgtPtrBegin(a.begin, a.size, false);
        var slot := parentTgt + (base - argsBase[a.ty.memberOf]);
        assert argsBase[a.ty.memberOf] == bases[a.ty.memberOf];
        SubmitPointerKeeps(s0, slot, tp);
        ok := SubmitPtr(slot, tp);
      } else if !a.ty.targetParam {
      } else if a.ty.literal {
        params := params + [Param(base, 0, a.size, true)];
      } else if a.ty.isPrivate {
        GetOrAllocKeeps(plugin, s0, a.begin, base, a.size, true, true);
        var tp, isNew := GetOrAllocTgtPtr(a.begin, base, a.size, true, true);
        if tp == 0 {
          ok := false;
        } else {
          privates := privates + [i];
          if a.ty.to {
            SubmitKeeps(State(), tp, a.begin, a.size);
            ok := Submit(tp, a.begin, a.size);
          }
          if ok {
            params := params + [Param(tp, base - a.begin, a.size, false)];
          }
        }
      } else if a.ty.ptrAndObj {
        var tp, last := GetTgtPtrBegin(base, PTR_BYTES, false);
        params := params + [Param(tp, 0, a.size, false)];
      } else {
        var tp, last := GetTgtPtrBegin(a.begin, a.size, false);
        params := params + [Param(tp, base - a.begin, a.size, false)];
      }
    }

    method ReleasePrivates(args: seq<Arg>, privates: seq<nat>) returns (ok: bool)
      requires Valid() && forall i :: i in privates ==> i < |args|
      modifies this
      ensures Valid()
      ensures (State(), ok) == FreePrivates(old(State()), args, privates)
    {
      ghost var s0 := State();
      ok := true;
      var j := 0;
      assert privates[0..] == privates;
      while j < |privates|
        invariant j <= |privates| && Valid()
        invariant forall i :: i in privates[j..] ==> i in privates
        invariant FreePrivates(s0, args, privates) ==
                  (FreePrivates(State(), args, privates[j..]).0, ok && FreePrivates(State(), args, privates[j..]).1)
      {
        assert privates[j..][1..] == privates[j + 1..] && privates[j] in privates;
        var a := args[privates[j]];
        DeallocKeeps(State(), a.begin, a.size, true);
        hide Dealloc, Sorted;
        var rt := DeallocTgtPtr(a.begin, a.size, true);
        ok := ok && rt;
        j := j + 1;
      }
    }

    method RunRegion(kernel: Kernel, params: seq<Param>) returns (ok: bool)
      modifies this
      ensures State() == old(State()).(dev := kernel.run(old(dev), params).0)
      ensures ok == kernel.run(old(dev), params).1
    {
      var r := kernel.run(dev, params);
      dev, ok := r.0, r.1;
    }

    // target() once the entry's table is known.
    method Target(kernel: Kernel, args: seq<Arg>, argsBase: array<int>) returns (ok: bool)
      requires Valid() && ArgsValid(args)
      requires argsBase.Length == |args| && forall i :: 0 <= i < |args| ==> argsBase[i] == args[i].base
      modifies this, argsBase
      ensures Valid()
      ensures (State(), ok) == TargetRegion.Target(plugin, kernel, old(State()), args)
    {
      ghost var s0 := State();
      hide DataBegin, DataEnd, BuildFirst, FreePrivates, Sorted, Bases, ArgsValid;
      ok := TargetDataBegin(args, argsBase);
      if !ok {
        var rt := TargetDataEnd(args);
        return false;
      }
      ghost var s1, bases := State(), argsBase[..];
      assert bases == Bases(plugin, s0, args);
      var params, privates;
      params, privates, ok := CollectArguments(args, argsBase);
      ghost var b := Build(State(), params, privates, ok);
      PrivatesInRange(plugin, s1, args, bases, |args|);
      if ok {
        ok := RunRegion(kernel, params);
      }
      assert (State(), ok) == Launch(kernel, b);
      var rt := ReleasePrivates(args, privates);
      ok := ok && rt;
      rt := TargetDataEnd(args);
      ok := ok && rt;
    }
  }

  // The steps of target_data_end for one argument that is not skipped.
  ghost function UnmapSteps(s: Env, args: seq<Arg>, i: nat): (Env, bool)
    requires i < |args| && args[i].ty.memberOf < |args|
  {
    var a := args[i];
    var hp, n := Begin(args, i), Size(args, i);
    var (s1, tp, isLast) := GetTgtPtr(s, hp, n, !PlainMember(a));
    var del := (isLast || a.ty.delete) && !PlainMember(a);
    var (s2, ok2) := if a.ty.from || del then CopyOut(s1, args, i, tp, del) else (s1, true);
    var (s3, ok3) := if del then Dealloc(s2, hp, n, a.ty.delete) else (s2, true);
    (s3, ok2 && ok3)
  }

  lemma UnmapStepsIs(s: Env, args: seq<Arg>, i: nat, hp: int, n: nat, s1: Env, tp: int, isLast: bool, plain: bool,
                     s2: Env, ok2: bool)
    requires i < |args| && args[i].ty.memberOf < |args| && hp == Begin(args, i) && n == Size(args, i)
    requires plain == PlainMember(args[i]) && (s1, tp, isLast) == GetTgtPtr(s, hp, n, !plain)
    requires var del := (isLast || args[i].ty.delete) && !plain;
             (s2, ok2) == if args[i].ty.from || del then CopyOut(s1, args, i, tp, del) else (s1, true)
    ensures var del := (isLast || args[i].ty.delete) && !plain;
            var (s3, ok3) := if del then Dealloc(s2, hp, n, args[i].ty.delete) else (s2, true);
            UnmapSteps(s, args, i) == (s3, ok2 && ok3)
  {
    hide GetTgtPtr, CopyOut, Dealloc, Begin, Size;
  }

  lemma PlainMemberIs(a: Arg)
    ensures PlainMember(a) <==> a.ty.memberOf >= 0 && !a.ty.ptrAndObj
  {
  }

  lemma UpdateStepIs(s: Env, a: Arg)
    requires !a.ty.literal && !a.ty.isPrivate
    ensures var tp := GetTgtPtr(s, a.begin, a.size, false).1;
            UpdateStep(s, a) ==
            if !a.ty.to then AfterFrom(s, a)
            else RestoreDevice(DataSubmit(AfterFrom(s, a), tp, a.begin, a.size).0,
                               InRange(s.shadows, a.begin, a.begin + a.size))
  {
    hide GetTgtPtr, AfterFrom, RestoreDevice, DataSubmit, InRange;
  }

  // ------------------------------------------------------ what plugin calls leave alone

  lemma SubmitKeeps(s: Env, tp: int, hp: int, n: nat)
    ensures DataSubmit(s, tp, hp, n).0.shadows == s.shadows
  {
  }

  lemma SubmitPointerKeeps(s: Env, slot: int, val: int)
    ensures SubmitPointer(s, slot, val).0.shadows == s.shadows
  {
  }

  lemma RetrieveKeeps(s: Env, hp: int, tp: int, n: nat)
    ensures DataRetrieve(s, hp, tp, n).0.shadows == s.shadows
  {
  }

  lemma GetTgtPtrKeeps(s: Env, hp: int, n: nat, update: bool)
    ensures GetTgtPtr(s, hp, n, update).0.shadows == s.shadows
    ensures !update ==> GetTgtPtr(s, hp, n, update).0 == s
  {
  }

  lemma DeallocKeeps(s: Env, hp: int, n: nat, force: bool)
    ensures Dealloc(s, hp, n, force).0.shadows == s.shadows
  {
  }
}
