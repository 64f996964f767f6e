/** Deep copies keep pointers on their own side. */
module ShadowPointers {
  // Whatever is copied between host and device, host pointer slots keep their host
  // pointers and device slots their device pointers.

  import opened Memory
  import opened DeviceMap
  import opened DataEnvironment
  import opened TransferOnce

  // --------------------------------------------------------------- the sorted map

  ghost predicate Sorted(sh: seq<Shadow>) {
    forall i, j :: 0 <= i < j < |sh| ==> sh[i].key < sh[j].key
  }

  lemma {:induction false} InRangeExact(sh: seq<Shadow>, lb: int, ub: int, x: Shadow)
    ensures x in InRange(sh, lb, ub) <==> x in sh && lb <= x.key < ub
    ensures x in OutOfRange(sh, lb, ub) <==> x in sh && !(lb <= x.key < ub)
  {
    if sh != [] {
      InRangeExact(sh[1..], lb, ub, x);
    }
  }

  lemma {:induction false} InsertExact(sh: seq<Shadow>, x: Shadow, y: Shadow)
    requires Sorted(sh)
    ensures y in InsertShadow(sh, x) <==> y == x || (y in sh && y.key != x.key)
  {
    if sh == [] || x.key < sh[0].key {
    } else if x.key == sh[0].key {
      assert InsertShadow(sh, x) == [x] + sh[1..];
    } else {
      InsertExact(sh[1..], x, y);
      assert InsertShadow(sh, x) == [sh[0]] + InsertShadow(sh[1..], x);
    }
  }

  lemma {:induction false} InsertSorted(sh: seq<Shadow>, x: Shadow)
    requires Sorted(sh)
    ensures Sorted(InsertShadow(sh, x))
  {
    if sh != [] && x.key > sh[0].key {
      InsertSorted(sh[1..], x);
      var r := InsertShadow(sh[1..], x);
      forall i | 0 <= i < |r| ensures sh[0].key < r[i].key {
        InsertExact(sh[1..], x, r[i]);
      }
    }
  }

  lemma {:induction false} FilterSorted(sh: seq<Shadow>, lb: int, ub: int)
    requires Sorted(sh)
    ensures Sorted(InRange(sh, lb, ub)) && Sorted(OutOfRange(sh, lb, ub))
  {
    if sh != [] {
      FilterSorted(sh[1..], lb, ub);
      forall x | x in InRange(sh[1..], lb, ub) || x in OutOfRange(sh[1..], lb, ub) ensures sh[0].key < x.key {
        InRangeExact(sh[1..], lb, ub, x);
      }
    }
  }

  // ---------------------------------------------------------------- host pointer slots

  // Slots are disjoint from one another (pointers are aligned).
  ghost predicate SlotsApart(sh: seq<Shadow>) {
    forall i, j :: 0 <= i < j < |sh| ==> sh[i].key + PTR_BYTES <= sh[j].key
  }

  predicate InSlot(x: int, q: Shadow) {
    q.key <= x < q.key + PTR_BYTES
  }

  // A copy of [lb, ub) takes slots whole or not at all.
  ghost predicate SlotsWhole(sh: seq<Shadow>, lb: int, ub: int) {
    forall q :: q in sh ==>
      (lb <= q.key && q.key + PTR_BYTES <= ub) || q.key + PTR_BYTES <= lb || ub <= q.key
  }

  // The host slots hold the host pointers recorded for them.
  ghost predicate HostFaithful(host: Mem, sh: seq<Shadow>) {
    forall q :: q in sh ==> Allocated(host, q.key, PTR_BYTES) && Read(host, q.key, PTR_BYTES) == PtrBytes(q.hstVal)
  }

  lemma {:induction false} RestoreHostElsewhere(m: Mem, sh: seq<Shadow>, x: int)
    requires x in m && forall q :: q in sh ==> !InSlot(x, q)
    ensures RestoreHost(m, sh)[x] == m[x]
  {
    if sh != [] {
      assert sh[0] in sh && !InSlot(x, sh[0]);
      RestoreHostElsewhere(Write(m, sh[0].key, PtrBytes(sh[0].hstVal)), sh[1..], x);
    }
  }

  lemma {:induction false} RestoreHostSlot(m: Mem, sh: seq<Shadow>, q: Shadow)
    requires SlotsApart(sh) && q in sh && Allocated(m, q.key, PTR_BYTES)
    ensures Read(RestoreHost(m, sh), q.key, PTR_BYTES) == PtrBytes(q.hstVal)
  {
    var m1 := Write(m, sh[0].key, PtrBytes(sh[0].hstVal));
    if q == sh[0] {
      ReadWrite(m, q.key, PtrBytes(q.hstVal));
      forall x | q.key <= x < q.key + PTR_BYTES ensures RestoreHost(m1, sh[1..])[x] == m1[x] {
        RestoreHostElsewhere(m1, sh[1..], x);
      }
    } else {
      RestoreHostSlot(m1, sh[1..], q);
    }
  }

  lemma InRangeApart(sh: seq<Shadow>, lb: int, ub: int)
    requires SlotsApart(sh)
    ensures SlotsApart(InRange(sh, lb, ub)) && SlotsApart(OutOfRange(sh, lb, ub))
    decreases |sh|
  {
    if sh != [] {
      InRangeApart(sh[1..], lb, ub);
      forall x | x in InRange(sh[1..], lb, ub) || x in OutOfRange(sh[1..], lb, ub)
        ensures sh[0].key + PTR_BYTES <= x.key
      {
        InRangeExact(sh[1..], lb, ub, x);
      }
    }
  }

  // The host after [lb, ub) was overwritten by data (any data) and its slots restored.
  function CopiedBack(host: Mem, sh: seq<Shadow>, lb: int, data: seq<Byte>): Mem {
    RestoreHost(Write(host, lb, data), InRange(sh, lb, lb + |data|))
  }

  // Byte by byte: inside a slot the host pointer, elsewhere in the section the device's
  // data, outside the section and the slots what was there.
  lemma CopiedBackExact(host: Mem, sh: seq<Shadow>, lb: int, data: seq<Byte>)
    requires SlotsApart(sh) && HostFaithful(host, sh) && SlotsWhole(sh, lb, lb + |data|)
    ensures var h := CopiedBack(host, sh, lb, data);
            && h.Keys == host.Keys
            && (forall q :: q in sh ==> Read(h, q.key, PTR_BYTES) == PtrBytes(q.hstVal))
            && (forall x :: x in host && (forall q :: q in sh ==> !InSlot(x, q)) ==>
                  h[x] == if lb <= x < lb + |data| then data[x - lb] else host[x])
            && HostFaithful(h, sh)
  {
    hide *;
    var h := CopiedBack(host, sh, lb, data);
    CopiedBackKeys(host, sh, lb, data);
    forall q | q in sh ensures Allocated(h, q.key, PTR_BYTES) && Read(h, q.key, PTR_BYTES) == PtrBytes(q.hstVal) {
      FaithfulAt(host, sh, q);
      SameAllocation(host, h, q.key, PTR_BYTES);
      CopiedBackSlot(host, sh, lb, data, q);
    }
    FaithfulIntro(h, sh);
    forall x | x in host && (forall q :: q in sh ==> !InSlot(x, q))
      ensures h[x] == if lb <= x < lb + |data| then data[x - lb] else host[x]
    {
      CopiedBackElsewhere(host, sh, lb, data, x);
    }
  }

  lemma FaithfulIntro(host: Mem, sh: seq<Shadow>)
    requires forall q :: q in sh ==> Allocated(host, q.key, PTR_BYTES) && Read(host, q.key, PTR_BYTES) == PtrBytes(q.hstVal)
    ensures HostFaithful(host, sh)
  {
  }

  lemma FaithfulAt(host: Mem, sh: seq<Shadow>, q: Shadow)
    requires HostFaithful(host, sh) && q in sh
    ensures Allocated(host, q.key, PTR_BYTES) && Read(host, q.key, PTR_BYTES) == PtrBytes(q.hstVal)
  {
  }

  lemma WriteKeeps(m: Mem, a: int, s: seq<Byte>, b: int, n: nat)
    requires Allocated(m, b, n)
    ensures Allocated(Write(m, a, s), b, n)
  {
  }

  lemma CopiedBackSlot(host: Mem, sh: seq<Shadow>, lb: int, data: seq<Byte>, q: Shadow)
    requires SlotsApart(sh) && HostFaithful(host, sh) && SlotsWhole(sh, lb, lb + |data|) && q in sh
    ensures Read(CopiedBack(host, sh, lb, data), q.key, PTR_BYTES) == PtrBytes(q.hstVal)
  {
    hide *;
    if lb <= q.key < lb + |data| {
      RestoredSlot(host, sh, lb, data, q);
    } else {
      UntouchedSlot(host, sh, lb, data, q);
    }
  }

  lemma RestoredSlot(host: Mem, sh: seq<Shadow>, lb: int, data: seq<Byte>, q: Shadow)
    requires SlotsApart(sh) && HostFaithful(host, sh) && q in sh && lb <= q.key < lb + |data|
    ensures Read(CopiedBack(host, sh, lb, data), q.key, PTR_BYTES) == PtrBytes(q.hstVal)
  {
    hide SlotsApart, HostFaithful, Read, Write, InRange, RestoreHost, Allocated;
    FaithfulAt(host, sh, q);
    WriteKeeps(host, lb, data, q.key, PTR_BYTES);
    InRangeExact(sh, lb, lb + |data|, q);
    InRangeApart(sh, lb, lb + |data|);
    RestoreHostSlot(Write(host, lb, data), InRange(sh, lb, lb + |data|), q);
  }

  lemma CopiedBackElsewhere(host: Mem, sh: seq<Shadow>, lb: int, data: seq<Byte>, x: int)
    requires x in host && forall q :: q in sh ==> !InSlot(x, q)
    ensures CopiedBack(host, sh, lb, data)[x] == if lb <= x < lb + |data| then data[x - lb] else host[x]
  {
    hide InRange, RestoreHost, InSlot;
    forall q | q in InRange(sh, lb, lb + |data|) ensures !InSlot(x, q) {
      InRangeExact(sh, lb, lb + |data|, q);
    }
    RestoreHostElsewhere(Write(host, lb, data), InRange(sh, lb, lb + |data|), x);
  }

  lemma UntouchedSlot(host: Mem, sh: seq<Shadow>, lb: int, data: seq<Byte>, q: Shadow)
    requires SlotsApart(sh) && HostFaithful(host, sh) && SlotsWhole(sh, lb, lb + |data|)
    requires q in sh && !(lb <= q.key < lb + |data|)
    ensures Read(CopiedBack(host, sh, lb, data), q.key, PTR_BYTES) == PtrBytes(q.hstVal)
  {
    FaithfulAt(host, sh, q);
    WholeOutside(sh, lb, data, q);
    hide HostFaithful, SlotsWhole, CopiedBack, SlotsApart, Read;
    forall x | q.key <= x < q.key + PTR_BYTES ensures CopiedBack(host, sh, lb, data)[x] == host[x] {
      UntouchedByte(host, sh, lb, data, q, x);
    }
    hide Allocated;
    CopiedBackKeys(host, sh, lb, data);
    SameBytes(host, CopiedBack(host, sh, lb, data), q.key, PTR_BYTES);
  }

  lemma CopiedBackKeys(host: Mem, sh: seq<Shadow>, lb: int, data: seq<Byte>)
    ensures CopiedBack(host, sh, lb, data).Keys == host.Keys
  {
  }

  lemma WholeOutside(sh: seq<Shadow>, lb: int, data: seq<Byte>, q: Shadow)
    requires SlotsWhole(sh, lb, lb + |data|) && q in sh && !(lb <= q.key < lb + |data|)
    ensures q.key + PTR_BYTES <= lb || lb + |data| <= q.key
  {
  }

  lemma UntouchedByte(host: Mem, sh: seq<Shadow>, lb: int, data: seq<Byte>, q: Shadow, x: int)
    requires SlotsApart(sh) && q in sh && x in host && InSlot(x, q)
    requires q.key + PTR_BYTES <= lb || lb + |data| <= q.key
    ensures CopiedBack(host, sh, lb, data)[x] == host[x]
  {
    hide SlotsApart, InRange, RestoreHost;
    forall o | o in InRange(sh, lb, lb + |data|) ensures !InSlot(x, o) {
      InRangeExact(sh, lb, lb + |data|, o);
      if o != q {
        SlotPairApartOf(sh, o, q);
      }
    }
    RestoreHostElsewhere(Write(host, lb, data), InRange(sh, lb, lb + |data|), x);
  }

  lemma SameBytes(m: Mem, m': Mem, a: int, n: nat)
    requires m.Keys == m'.Keys && Allocated(m, a, n)
    requires forall x :: a <= x < a + n ==> m'[x] == m[x]
    ensures Read(m', a, n) == Read(m, a, n)
  {
  }

  // ------------------------------------------------------------- one argument of a region

  // The section at hp after a transfer back from tp: as many of the device's bytes as
  // were copied, then the host's own.
  function Arrived(s: Env, hp: int, tp: int, n: nat): (r: seq<Byte>)
    ensures |r| == n
    ensures Sound(s) ==> r == Read(s.dev, tp, n)
  {
    Read(s.dev, tp, Moved(s, n)) + Read(s.host, hp, n)[Moved(s, n)..]
  }

  lemma WriteThenOwn(m: Mem, a: int, s: seq<Byte>, n: nat)
    requires |s| <= n
    ensures Write(m, a, s) == Write(m, a, s + Read(m, a, n)[|s|..])
  {
    SameMemory(Write(m, a, s), Write(m, a, s + Read(m, a, n)[|s|..]));
  }

  lemma ArrivedWritten(s: Env, hp: int, tp: int, n: nat)
    ensures Write(s.host, hp, Read(s.dev, tp, Moved(s, n))) == Write(s.host, hp, Arrived(s, hp, tp, n))
  {
    WriteThenOwn(s.host, hp, Read(s.dev, tp, Moved(s, n)), n);
  }

  // Is the section of argument i due to be fetched, and can it be?
  predicate FetchDue(s: Env, args: seq<Arg>, i: nat, del: bool)
    requires i < |args| && args[i].ty.memberOf < |args|
  {
    args[i].ty.from && (del || args[i].ty.always || CopyMember(s.entries, args, i))
  }

  predicate Reachable(s: Env, hp: int, tp: int, n: nat) {
    Allocated(s.dev, tp, n) && Allocated(s.host, hp, n)
  }

  // The bytes argument i brings back: the device's if the section is fetched, otherwise
  // the host's own (only the slots are rewritten).
  lemma CopyOutHost(s: Env, args: seq<Arg>, i: nat, tp: int, del: bool)
    requires i < |args| && args[i].ty.memberOf < |args|
    ensures var hp, n := Begin(args, i), Size(args, i);
            CopyOut(s, args, i, tp, del).0.host ==
            if !args[i].ty.from then s.host
            else CopiedBack(s.host, s.shadows, hp, if FetchDue(s, args, i, del) && Reachable(s, hp, tp, n)
                                                   then Arrived(s, hp, tp, n) else Read(s.host, hp, n))
    ensures CopyOut(s, args, i, tp, del).0.shadows ==
            if del then OutOfRange(s.shadows, Begin(args, i), Begin(args, i) + Size(args, i)) else s.shadows
  {
    hide Write, Read, InRange, OutOfRange, RestoreHost, CopyMember, Begin, Size, Allocated, Moved, Arrived;
    WriteRead(s.host, Begin(args, i), Size(args, i));
    ArrivedWritten(s, Begin(args, i), tp, Size(args, i));
  }

  // The bytes of argument i's section once target_data_end is done with it.
  function Brought(s: Env, args: seq<Arg>, i: nat): (data: seq<Byte>)
    requires i < |args| && args[i].ty.memberOf < |args|
    ensures |data| == Size(args, i)
  {
    var hp, n := Begin(args, i), Size(args, i);
    var (s1, tp, isLast) := GetTgtPtr(s, hp, n, !PlainMember(args[i]));
    var del := (isLast || args[i].ty.delete) && !PlainMember(args[i]);
    if FetchDue(s1, args, i, del) && Reachable(s, hp, tp, n) then Arrived(s, hp, tp, n) else Read(s.host, hp, n)
  }

  // Does target_data_end release argument i's section?
  predicate Releases(s: Env, args: seq<Arg>, i: nat)
    requires i < |args|
  {
    var a := args[i];
    !Skipped(a) && !PlainMember(a) &&
    (GetTgtPtr(s, Begin(args, i), Size(args, i), true).2 || a.ty.delete)
  }

  // What target_data_end does to the host for one argument: its section is brought back
  // and the slots in it are restored.  The records in it are dropped exactly if the section
  // is released.
  lemma EndStepHost(s: Env, args: seq<Arg>, i: nat)
    requires i < |args| && args[i].ty.memberOf < |args|
    ensures var hp, n := Begin(args, i), Size(args, i);
            var s' := EndStep(s, args, i).0;
            && s'.host == (if args[i].ty.from && !Skipped(args[i])
                           then CopiedBack(s.host, s.shadows, hp, Brought(s, args, i)) else s.host)
            && s'.shadows == (if Releases(s, args, i) then OutOfRange(s.shadows, hp, hp + n) else s.shadows)
  {
    hide CopiedBack, CopyOut, Dealloc, OutOfRange, Begin, Size, Lookup, FetchDue, Reachable, Arrived, Read;
    if !Skipped(args[i]) {
      var hp, n := Begin(args, i), Size(args, i);
      var (s1, tp, isLast) := GetTgtPtr(s, hp, n, !PlainMember(args[i]));
      var del := (isLast || args[i].ty.delete) && !PlainMember(args[i]);
      CopyOutHost(s1, args, i, tp, del);
      SameTransfer(s, s1, hp, tp, n);
      var s2 := if args[i].ty.from || del then CopyOut(s1, args, i, tp, del).0 else s1;
      DeallocHost(s2, hp, n, args[i].ty.delete);
    }
  }

  // Is the section of argument i fetched in full by target_data_end in state s?
  predicate FetchedWhole(s: Env, args: seq<Arg>, i: nat)
    requires i < |args| && args[i].ty.memberOf < |args|
  {
    var hp, n := Begin(args, i), Size(args, i);
    var (s1, tp, isLast) := GetTgtPtr(s, hp, n, !PlainMember(args[i]));
    !Skipped(args[i]) && Sound(s) && Reachable(s, hp, tp, n) &&
    FetchDue(s1, args, i, (isLast || args[i].ty.delete) && !PlainMember(args[i]))
  }

  // The device address of argument i's section.
  function SectionTgt(s: Env, args: seq<Arg>, i: nat): int
    requires i < |args|
  {
    GetTgtPtr(s, Begin(args, i), Size(args, i), false).1
  }

  // A fetched section brings the device's bytes and nothing but them.
  lemma EndStepFetches(s: Env, args: seq<Arg>, i: nat)
    requires i < |args| && args[i].ty.memberOf < |args| && FetchedWhole(s, args, i)
    ensures Brought(s, args, i) == Read(s.dev, SectionTgt(s, args, i), Size(args, i))
    ensures EndStep(s, args, i).0.host ==
            CopiedBack(s.host, s.shadows, Begin(args, i), Read(s.dev, SectionTgt(s, args, i), Size(args, i)))
  {
    EndStepHost(s, args, i);
    hide EndStep, CopiedBack, Begin, Size, Lookup, Read, Moved, CopyMember;
  }

  // Byte by byte, for one argument: recorded slots keep their host pointers, the other
  // bytes of the section are those brought back, all others are untouched.
  lemma EndStepBytes(s: Env, args: seq<Arg>, i: nat)
    requires i < |args| && args[i].ty.memberOf < |args| && args[i].ty.from && !Skipped(args[i])
    requires SlotsApart(s.shadows) && HostFaithful(s.host, s.shadows)
    requires SlotsWhole(s.shadows, Begin(args, i), Begin(args, i) + Size(args, i))
    ensures var h, hp, n := EndStep(s, args, i).0.host, Begin(args, i), Size(args, i);
            && h.Keys == s.host.Keys
            && (forall q :: q in s.shadows ==> Read(h, q.key, PTR_BYTES) == PtrBytes(q.hstVal))
            && (forall x :: x in s.host && (forall q :: q in s.shadows ==> !InSlot(x, q)) ==>
                  h[x] == if hp <= x < hp + n then Brought(s, args, i)[x - hp] else s.host[x])
  {
    hide *;
    EndStepHost(s, args, i);
    CopiedBackExact(s.host, s.shadows, Begin(args, i), Brought(s, args, i));
  }

  lemma SameTransfer(s: Env, s1: Env, hp: int, tp: int, n: nat)
    requires s1 == s.(entries := s1.entries)
    ensures Reachable(s1, hp, tp, n) <==> Reachable(s, hp, tp, n)
    ensures Arrived(s1, hp, tp, n) == Arrived(s, hp, tp, n)
  {
  }

  lemma DeallocHost(s: Env, hp: int, n: nat, force: bool)
    ensures Dealloc(s, hp, n, force).0.host == s.host && Dealloc(s, hp, n, force).0.shadows == s.shadows
  {
  }

  lemma EndStepSub(s: Env, args: seq<Arg>, i: nat)
    requires i < |args| && args[i].ty.memberOf < |args| && SlotsApart(s.shadows)
    ensures var s' := EndStep(s, args, i).0;
            SlotsApart(s'.shadows) && forall q :: q in s'.shadows ==> q in s.shadows
  {
    hide *;
    EndStepHost(s, args, i);
    InRangeApart(s.shadows, Begin(args, i), Begin(args, i) + Size(args, i));
    forall q | q in EndStep(s, args, i).0.shadows ensures q in s.shadows {
      InRangeExact(s.shadows, Begin(args, i), Begin(args, i) + Size(args, i), q);
    }
  }

  // The section of argument i, if it may be fetched, takes recorded slots whole and is
  // clear of slots that are no longer recorded.
  ghost predicate FetchClean(s: Env, args: seq<Arg>, i: nat, sh0: seq<Shadow>)
    requires i < |args|
  {
    args[i].ty.from && !Skipped(args[i]) ==>
      SlotsWhole(s.shadows, Begin(args, i), Begin(args, i) + Size(args, i)) &&
      DroppedClear(s.shadows, sh0, Begin(args, i), Begin(args, i) + Size(args, i))
  }

  ghost predicate Subset(sh: seq<Shadow>, sh0: seq<Shadow>) {
    forall q :: q in sh ==> q in sh0
  }

  // Every slot of sh0, recorded or not any more, keeps its host pointer.
  lemma EndStepKeepsSlots(s: Env, args: seq<Arg>, i: nat, sh0: seq<Shadow>)
    requires i < |args| && args[i].ty.memberOf < |args|
    requires SlotsApart(s.shadows) && SlotsApart(sh0) && HostFaithful(s.host, sh0) && Subset(s.shadows, sh0)
    requires FetchClean(s, args, i, sh0)
    ensures var s' := EndStep(s, args, i).0;
            HostFaithful(s'.host, sh0) && SlotsApart(s'.shadows) && Subset(s'.shadows, sh0)
  {
    var s' := EndStep(s, args, i).0;
    EndStepHost(s, args, i);
    EndStepSub(s, args, i);
    hide EndStep, CopiedBack, OutOfRange, SlotsApart, HostFaithful, SlotsWhole, DroppedClear, Begin, Size, Brought;
    if args[i].ty.from && !Skipped(args[i]) {
      DroppedKept(s.host, s.shadows, sh0, Begin(args, i), Brought(s, args, i));
    }
  }

  // Slots no longer recorded are clear of [lb, ub).
  ghost predicate DroppedClear(sh: seq<Shadow>, sh0: seq<Shadow>, lb: int, ub: int) {
    forall q :: q in sh0 && q !in sh ==> q.key + PTR_BYTES <= lb || ub <= q.key
  }

  lemma DroppedKept(host: Mem, sh: seq<Shadow>, sh0: seq<Shadow>, lb: int, data: seq<Byte>)
    requires SlotsApart(sh0) && HostFaithful(host, sh0) && Subset(sh, sh0)
    requires SlotsApart(sh) && SlotsWhole(sh, lb, lb + |data|) && DroppedClear(sh, sh0, lb, lb + |data|)
    ensures HostFaithful(CopiedBack(host, sh, lb, data), sh0)
  {
    var h := CopiedBack(host, sh, lb, data);
    assert HostFaithful(host, sh);
    CopiedBackExact(host, sh, lb, data);
    hide CopiedBack;
    forall q | q in sh0 ensures Allocated(h, q.key, PTR_BYTES) && Read(h, q.key, PTR_BYTES) == PtrBytes(q.hstVal) {
      if q !in sh {
        forall x | q.key <= x < q.key + PTR_BYTES ensures h[x] == host[x] {
          forall o | o in sh ensures !InSlot(x, o) {
            SlotPairApartOf(sh0, o, q);
          }
        }
      }
    }
  }

  // Distinct records of one sorted list have distinct keys.
  lemma SlotPairApartOf(sh: seq<Shadow>, o: Shadow, q: Shadow)
    requires SlotsApart(sh) && o in sh && q in sh && o != q
    ensures o.key + PTR_BYTES <= q.key || q.key + PTR_BYTES <= o.key
  {
    var i :| 0 <= i < |sh| && sh[i] == o;
    var j :| 0 <= j < |sh| && sh[j] == q;
    if i < j {
      assert sh[i].key + PTR_BYTES <= sh[j].key;
    } else {
      assert sh[j].key + PTR_BYTES <= sh[i].key;
    }
  }

  // ------------------------------------------------------------------ target_data_begin

  // Argument i's pointer slot, if it has one, is host memory and is apart from the
  // other slots unless it is one of them.
  ghost predicate SlotFits(s: Env, args: seq<Arg>, i: nat)
    requires i < |args| && args[i].ty.memberOf < |args|
  {
    UsesSlot(args, i) && !Skipped(args[i]) ==>
      Allocated(s.host, args[i].base, PTR_BYTES) &&
      forall q :: q in s.shadows && q.key != args[i].base ==>
        q.key + PTR_BYTES <= args[i].base || args[i].base + PTR_BYTES <= q.key
  }

  lemma LoadedSlot(host: Mem, a: int)
    ensures PtrBytes(LoadPtr(host, a)) == Read(host, a, PTR_BYTES)
  {
    EncodeDecode(Read(host, a, PTR_BYTES));
  }

  lemma {:induction false} InsertApart(sh: seq<Shadow>, x: Shadow)
    requires SlotsApart(sh)
    requires forall q :: q in sh && q.key != x.key ==> q.key + PTR_BYTES <= x.key || x.key + PTR_BYTES <= q.key
    ensures SlotsApart(InsertShadow(sh, x))
  {
    if sh != [] && x.key > sh[0].key {
      InsertApart(sh[1..], x);
      var r := InsertShadow(sh[1..], x);
      forall i | 0 <= i < |r| ensures sh[0].key + PTR_BYTES <= r[i].key {
        InsertExact(sh[1..], x, r[i]);
      }
    } else if sh != [] {
      assert sh[0] in sh;
    }
  }

  lemma SendArgumentShadows(s: Env, args: seq<Arg>, i: nat, slot: int, base: int, tp: int, isNew: bool)
    requires i < |args| && args[i].ty.memberOf < |args|
    ensures var sh := SendArgument(s, args, i, slot, base, tp, isNew).0.shadows;
            if slot == 0 then sh == s.shadows
            else sh == InsertShadow(s.shadows, Shadow(args[i].base, base, slot, tp - (Begin(args, i) - base)))
  {
  }

  lemma BeginStepShadows(p: Plugin, s: Env, args: seq<Arg>, i: nat)
    requires i < |args| && args[i].ty.memberOf < |args|
    ensures var s' := BeginStep(p, s, args, i).env;
            && s'.host == s.host
            && (s'.shadows == s.shadows ||
                (UsesSlot(args, i) && !Skipped(args[i]) &&
                 exists tgt, val :: s'.shadows == InsertShadow(s.shadows, Shadow(args[i].base, LoadPtr(s.host, args[i].base), tgt, val))))
  {
    if !Skipped(args[i]) {
      hide InsertShadow, SendArgument, GetOrAlloc;
      var (s2, tp, isNew) := MapPointee(p, s, args, i);
      var slot := MapSlot(p, s, args, i).1;
      MapKeeps(p, s, args, i);
      SendArgumentShadows(s2, args, i, slot, PointeeBase(s.host, args[i]), tp, isNew);
    }
  }

  lemma MapKeeps(p: Plugin, s: Env, args: seq<Arg>, i: nat)
    requires i < |args| && args[i].ty.memberOf < |args|
    ensures MapPointee(p, s, args, i).0.host == s.host && MapPointee(p, s, args, i).0.shadows == s.shadows
  {
    var a := args[i];
    GetOrAllocKeeps(p, s, a.base, a.base, PTR_BYTES, a.ty.implicit, !Member(a));
    GetOrAllocKeeps(p, MapSlot(p, s, args, i).0, Begin(args, i), PointeeBase(s.host, a), Size(args, i),
                    a.ty.implicit, !PlainMember(a));
    hide GetOrAlloc;
  }

  lemma GetOrAllocKeeps(p: Plugin, s: Env, hp: int, base: int, n: nat, implicit: bool, update: bool)
    ensures GetOrAlloc(p, s, hp, base, n, implicit, update).0.host == s.host
    ensures GetOrAlloc(p, s, hp, base, n, implicit, update).0.shadows == s.shadows
  {
  }

  ghost predicate SlotsGood(s: Env) {
    Sorted(s.shadows) && SlotsApart(s.shadows) && HostFaithful(s.host, s.shadows)
  }

  lemma BeginStepKeepsSlots(p: Plugin, s: Env, args: seq<Arg>, i: nat)
    requires i < |args| && args[i].ty.memberOf < |args|
    requires SlotsGood(s) && SlotFits(s, args, i)
    ensures SlotsGood(BeginStep(p, s, args, i).env)
    ensures BeginStep(p, s, args, i).env.host == s.host
  {
    BeginStepShadows(p, s, args, i);
    var s' := BeginStep(p, s, args, i).env;
    hide BeginStep;
    if s'.shadows != s.shadows {
      var tgt, val :| s'.shadows == InsertShadow(s.shadows, Shadow(args[i].base, LoadPtr(s.host, args[i].base), tgt, val));
      var x := Shadow(args[i].base, LoadPtr(s.host, args[i].base), tgt, val);
      InsertApart(s.shadows, x);
      InsertSorted(s.shadows, x);
      LoadedSlot(s.host, args[i].base);
      hide InsertShadow, Read, LoadPtr, Sorted, SlotsApart;
      forall q | q in s'.shadows ensures Allocated(s.host, q.key, PTR_BYTES) && Read(s.host, q.key, PTR_BYTES) == PtrBytes(q.hstVal) {
        InsertedFrom(s.shadows, x, q);
      }
    }
  }

  lemma InsertedFrom(sh: seq<Shadow>, x: Shadow, q: Shadow)
    requires Sorted(sh) && q in InsertShadow(sh, x)
    ensures q == x || q in sh
  {
    InsertExact(sh, x, q);
  }

  // -------------------------------------------------------------------- whole regions

  ghost predicate AllSlotsFit(p: Plugin, s: Env, args: seq<Arg>, k: nat)
    requires k <= |args| && ArgsValid(args)
  {
    k == 0 || (AllSlotsFit(p, s, args, k - 1) && SlotFits(StateAt(p, s, args, k - 1), args, k - 1))
  }

  lemma {:induction false} BeginKeepsSlots(p: Plugin, s: Env, args: seq<Arg>, k: nat)
    requires k <= |args| && ArgsValid(args) && SlotsGood(s) && AllSlotsFit(p, s, args, k)
    ensures SlotsGood(StateAt(p, s, args, k)) && StateAt(p, s, args, k).host == s.host
  {
    hide SlotsGood, SlotFits, BeginStep;
    if k > 0 {
      assert args[k - 1] in args;
      BeginKeepsSlots(p, s, args, k - 1);
      BeginStepKeepsSlots(p, StateAt(p, s, args, k - 1), args, k - 1);
    }
  }

  ghost predicate AllFetchClean(t: Env, args: seq<Arg>, k: nat, sh0: seq<Shadow>)
    requires k <= |args| && ArgsValid(args)
    decreases k
  {
    k == 0 || (FetchClean(t, args, k - 1, sh0) && AllFetchClean(EndStep(t, args, k - 1).0, args, k - 1, sh0))
  }

  // A check before the call: FROM sections take the slots of sh0 whole, and stay clear of
  // the slots that an argument unmapped earlier (one further back in the list) may drop.
  ghost predicate CleanSlots(sh0: seq<Shadow>, args: seq<Arg>) {
    forall i :: 0 <= i < |args| && args[i].ty.from && !Skipped(args[i]) ==>
      && SlotsWhole(sh0, Begin(args, i), Begin(args, i) + Size(args, i))
      && (forall j, q :: i < j < |args| && MayDrop(args, j, q) && q in sh0 ==>
            q.key + PTR_BYTES <= Begin(args, i) || Begin(args, i) + Size(args, i) <= q.key)
  }

  predicate MayDrop(args: seq<Arg>, j: nat, q: Shadow)
    requires j < |args|
  {
    !Skipped(args[j]) && !PlainMember(args[j]) && Begin(args, j) <= q.key < Begin(args, j) + Size(args, j)
  }

  // Records missing from sh were dropped by one of the arguments from k on.
  ghost predicate DroppedFrom(sh: seq<Shadow>, sh0: seq<Shadow>, args: seq<Arg>, k: nat) {
    && Subset(sh, sh0)
    && forall q :: q in sh0 && q !in sh ==> exists j :: k <= j < |args| && MayDrop(args, j, q)
  }

  lemma PlainDropsNothing(t: Env, args: seq<Arg>, i: nat)
    requires i < |args| && args[i].ty.memberOf < |args| && (Skipped(args[i]) || PlainMember(args[i]))
    ensures EndStep(t, args, i).0.shadows == t.shadows
  {
    hide Begin, Size, InRange, RestoreHost, GetTgtPtr;
    var hp, n := Begin(args, i), Size(args, i);
    assert GetTgtPtr(t, hp, n, false).0.shadows == t.shadows by {
      GetTgtPtrShadows(t, hp, n);
    }
  }

  lemma GetTgtPtrShadows(t: Env, hp: int, n: nat)
    ensures GetTgtPtr(t, hp, n, false).0 == t
  {
  }

  lemma DroppedStep(t: Env, args: seq<Arg>, i: nat, sh0: seq<Shadow>)
    requires i < |args| && args[i].ty.memberOf < |args| && DroppedFrom(t.shadows, sh0, args, i + 1)
    ensures DroppedFrom(EndStep(t, args, i).0.shadows, sh0, args, i)
  {
    var sh, lb, ub := EndStep(t, args, i).0.shadows, Begin(args, i), Begin(args, i) + Size(args, i);
    EndStepHost(t, args, i);
    if Skipped(args[i]) || PlainMember(args[i]) {
      PlainDropsNothing(t, args, i);
    }
    hide EndStep, Begin, Size, OutOfRange, CopiedBack;
    forall q | q in sh ensures q in sh0 {
      InRangeExact(t.shadows, lb, ub, q);
    }
    forall q | q in sh0 && q !in sh ensures exists j :: i <= j < |args| && MayDrop(args, j, q) {
      if q in t.shadows {
        InRangeExact(t.shadows, lb, ub, q);
        assert MayDrop(args, i, q);
      } else {
        var j :| i + 1 <= j < |args| && MayDrop(args, j, q);
      }
    }
  }

  lemma CleanAt(t: Env, args: seq<Arg>, i: nat, sh0: seq<Shadow>)
    requires i < |args| && CleanSlots(sh0, args) && DroppedFrom(t.shadows, sh0, args, i + 1)
    ensures FetchClean(t, args, i, sh0)
  {
    hide Begin, Size, MayDrop;
  }

  // So target_data_end is clean on every list that passes the check.
  lemma {:induction false} CleanSlotsFetchClean(t: Env, args: seq<Arg>, k: nat, sh0: seq<Shadow>)
    requires k <= |args| && ArgsValid(args) && CleanSlots(sh0, args) && DroppedFrom(t.shadows, sh0, args, k)
    ensures AllFetchClean(t, args, k, sh0)
    decreases k
  {
    hide CleanSlots, DroppedFrom, FetchClean, EndStep;
    if k > 0 {
      assert args[k - 1] in args;
      CleanAt(t, args, k - 1, sh0);
      DroppedStep(t, args, k - 1, sh0);
      CleanSlotsFetchClean(EndStep(t, args, k - 1).0, args, k - 1, sh0);
    }
  }

  lemma CleanRegion(t: Env, args: seq<Arg>)
    requires ArgsValid(args) && CleanSlots(t.shadows, args)
    ensures AllFetchClean(t, args, |args|, t.shadows)
  {
    hide CleanSlots;
    CleanSlotsFetchClean(t, args, |args|, t.shadows);
  }

  lemma {:induction false} EndKeepsSlots(t: Env, args: seq<Arg>, k: nat, sh0: seq<Shadow>)
    requires k <= |args| && ArgsValid(args)
    requires SlotsApart(t.shadows) && SlotsApart(sh0) && HostFaithful(t.host, sh0) && Subset(t.shadows, sh0)
    requires AllFetchClean(t, args, k, sh0)
    ensures HostFaithful(EndFirst(t, args, k).0.host, sh0)
    decreases k
  {
    hide SlotsApart, HostFaithful, Subset, FetchClean, EndStep;
    if k > 0 {
      assert args[k - 1] in args;
      EndStepKeepsSlots(t, args, k - 1, sh0);
      EndKeepsSlots(EndStep(t, args, k - 1).0, args, k - 1, sh0);
    }
  }

  // A region over structs with pointers, whatever the kernel did to device memory
  // (dev'), leaves every recorded host pointer slot with the bytes it had before.
  lemma RegionKeepsHostPointers(p: Plugin, s: Env, args: seq<Arg>, dev': Mem, q: Shadow)
    requires ArgsValid(args) && SlotsGood(s) && AllSlotsFit(p, s, args, |args|)
    requires var t := StateAt(p, s, args, |args|).(dev := dev');
             q in t.shadows && AllFetchClean(t, args, |args|, t.shadows)
    ensures Read(DataEnd(StateAt(p, s, args, |args|).(dev := dev'), args).0.host, q.key, PTR_BYTES) ==
            Read(s.host, q.key, PTR_BYTES)
  {
    var t := StateAt(p, s, args, |args|).(dev := dev');
    BeginKeepsSlots(p, s, args, |args|);
    hide StateAt, AllSlotsFit, AllFetchClean, EndFirst, Read;
    EndKeepsSlots(t, args, |args|, t.shadows);
  }

  // No FROM section of the first k arguments holds x.
  ghost predicate FetchedElsewhere(args: seq<Arg>, k: nat, x: int)
    requires k <= |args|
  {
    forall j :: 0 <= j < k && args[j].ty.from && !Skipped(args[j]) ==>
      !(Begin(args, j) <= x < Begin(args, j) + Size(args, j))
  }

  // A byte outside every slot and every FROM section stays as it is ...
  lemma {:induction false} EndLeavesByte(t: Env, args: seq<Arg>, k: nat, x: int)
    requires k <= |args| && ArgsValid(args) && x in t.host && SlotsApart(t.shadows)
    requires (forall q :: q in t.shadows ==> !InSlot(x, q)) && FetchedElsewhere(args, k, x)
    ensures x in EndFirst(t, args, k).0.host && EndFirst(t, args, k).0.host[x] == t.host[x]
    decreases k
  {
    hide *;
    if k == 0 {
      EndZero(t, args);
    } else {
      EndNext(t, args, k);
      EndStepSub(t, args, k - 1);
      EndStepElsewhere(t, args, k - 1, x);
      assert FetchedElsewhere(args, k - 1, x) by { FewerFetched(args, k, x); }
      EndLeavesByte(EndStep(t, args, k - 1).0, args, k - 1, x);
    }
  }

  lemma FewerFetched(args: seq<Arg>, k: nat, x: int)
    requires 0 < k <= |args| && FetchedElsewhere(args, k, x)
    ensures FetchedElsewhere(args, k - 1, x)
    ensures args[k - 1].ty.from && !Skipped(args[k - 1]) ==>
              !(Begin(args, k - 1) <= x < Begin(args, k - 1) + Size(args, k - 1))
  {
    hide Begin, Size;
  }

  lemma EndStepElsewhere(t: Env, args: seq<Arg>, i: nat, x: int)
    requires i < |args| && args[i].ty.memberOf < |args| && x in t.host
    requires (forall q :: q in t.shadows ==> !InSlot(x, q)) && FetchedElsewhere(args, i + 1, x)
    ensures var h := EndStep(t, args, i).0.host; x in h && h[x] == t.host[x]
  {
    hide *;
    EndStepHost(t, args, i);
    FewerFetched(args, i + 1, x);
    if args[i].ty.from && !Skipped(args[i]) {
      CopiedBackElsewhere(t.host, t.shadows, Begin(args, i), Brought(t, args, i), x);
      CopiedBackKeys(t.host, t.shadows, Begin(args, i), Brought(t, args, i));
    }
  }

  // What is left of device memory while a region ends is unchanged.
  lemma EndStepShrinks(t: Env, args: seq<Arg>, i: nat)
    requires i < |args| && args[i].ty.memberOf < |args|
    ensures var dev := EndStep(t, args, i).0.dev; forall y :: y in dev ==> y in t.dev && dev[y] == t.dev[y]
    ensures EndStep(t, args, i).0.host.Keys == t.host.Keys
  {
    hide CopyOut, Dealloc, Begin, Size, Lookup;
    if !Skipped(args[i]) {
      var hp, n := Begin(args, i), Size(args, i);
      var (s1, tp, isLast) := GetTgtPtr(t, hp, n, !PlainMember(args[i]));
      var del := (isLast || args[i].ty.delete) && !PlainMember(args[i]);
      var s2 := if args[i].ty.from || del then CopyOut(s1, args, i, tp, del).0 else s1;
      DeallocShrinks(s2, hp, n, args[i].ty.delete);
    }
  }

  lemma DeallocShrinks(s: Env, hp: int, n: nat, force: bool)
    ensures var s' := Dealloc(s, hp, n, force).0;
            s'.host == s.host && forall y :: y in s'.dev ==> y in s.dev && s'.dev[y] == s.dev[y]
  {
  }

  lemma {:induction false} EndDownShrinks(t: Env, args: seq<Arg>, k: nat, i: nat)
    requires i <= k <= |args| && ArgsValid(args) && SlotsApart(t.shadows)
    ensures var u := EndDown(t, args, k, i);
            && (forall y :: y in u.dev ==> y in t.dev && u.dev[y] == t.dev[y])
            && u.host.Keys == t.host.Keys && SlotsApart(u.shadows) && Subset(u.shadows, t.shadows)
    decreases k
  {
    hide EndStep, SlotsApart;
    if i < k {
      assert args[k - 1] in args;
      EndStepShrinks(t, args, k - 1);
      EndStepSub(t, args, k - 1);
      EndDownShrinks(EndStep(t, args, k - 1).0, args, k - 1, i);
    }
  }

  // Is the record of slot q dropped in argument i's turn?
  ghost predicate DroppedAt(t: Env, args: seq<Arg>, i: nat, q: Shadow)
    requires i < |args| && ArgsValid(args)
  {
    Begin(args, i) <= q.key < Begin(args, i) + Size(args, i) && Releases(EndDown(t, args, |args|, i + 1), args, i)
  }

  // target_data_end forgets exactly the slots in the sections it releases.
  lemma EndForgets(t: Env, args: seq<Arg>, q: Shadow)
    requires ArgsValid(args)
    ensures q in DataEnd(t, args).0.shadows <==>
            q in t.shadows && forall i :: 0 <= i < |args| ==> !DroppedAt(t, args, i, q)
  {
    hide *;
    EndZero(EndDown(t, args, |args|, 0), args);
    EndSplit(t, args, |args|, 0);
    EndIsAll(t, args);
    EndDownForgets(t, args, 0, q);
  }

  lemma {:induction false} EndDownForgets(t: Env, args: seq<Arg>, k: nat, q: Shadow)
    requires k <= |args| && ArgsValid(args)
    ensures q in EndDown(t, args, |args|, k).shadows <==>
            q in t.shadows && forall i :: k <= i < |args| ==> !DroppedAt(t, args, i, q)
    decreases |args| - k
  {
    hide *;
    if k == |args| {
      EndDownZero(t, args, |args|);
    } else {
      var u := EndDown(t, args, |args|, k + 1);
      EndDownForgets(t, args, k + 1, q);
      EndDownLast(t, args, |args|, k);
      EndStepHost(u, args, k);
      InRangeExact(u.shadows, Begin(args, k), Begin(args, k) + Size(args, k), q);
      DroppedMeans(t, args, k, q);
    }
  }

  lemma DroppedMeans(t: Env, args: seq<Arg>, i: nat, q: Shadow)
    requires i < |args| && ArgsValid(args)
    ensures DroppedAt(t, args, i, q) <==>
            Begin(args, i) <= q.key < Begin(args, i) + Size(args, i) && Releases(EndDown(t, args, |args|, i + 1), args, i)
  {
  }

  predicate SameByte(m: Mem, x: int, m': Mem, y: int) {
    x in m && y in m' && m[x] == m'[y]
  }

  // ... and a byte of a section that is fetched when its turn comes is the device's,
  // unless it lies in a slot or in a FROM section whose turn comes later.
  lemma EndFetchesByte(t: Env, args: seq<Arg>, i: nat, x: int)
    requires i < |args| && ArgsValid(args) && args[i].ty.memberOf < |args| && SlotsApart(t.shadows)
    requires Begin(args, i) <= x < Begin(args, i) + Size(args, i)
    requires (forall q :: q in t.shadows ==> !InSlot(x, q)) && FetchedElsewhere(args, i, x)
    requires FetchedWhole(EndDown(t, args, |args|, i + 1), args, i)
    ensures var u := EndDown(t, args, |args|, i + 1);
            SameByte(DataEnd(t, args).0.host, x, t.dev, SectionTgt(u, args, i) + (x - Begin(args, i)))
  {
    hide *;
    var u := EndDown(t, args, |args|, i + 1);
    var v := EndStep(u, args, i).0;
    var y := SectionTgt(u, args, i) + (x - Begin(args, i));
    EndSplitAt(t, args, i);
    EndIsAll(t, args);
    EndDownShrinks(t, args, |args|, i + 1);
    SubsetMembers(u.shadows, t.shadows);
    SubsetOutside(u.shadows, t.shadows, x);
    FetchedByte(u, args, i, x);
    EndStepSub(u, args, i);
    SubsetOutside(v.shadows, u.shadows, x);
    EndLeavesByte(v, args, i, x);
    SameByteIntro(DataEnd(t, args).0.host, x, t.dev, y);
  }

  lemma SameByteIntro(m: Mem, x: int, m': Mem, y: int)
    requires x in m && y in m' && m[x] == m'[y]
    ensures SameByte(m, x, m', y)
  {
  }

  lemma SubsetMembers(sh: seq<Shadow>, sh0: seq<Shadow>)
    requires Subset(sh, sh0)
    ensures forall q :: q in sh ==> q in sh0
  {
  }

  lemma EndIsAll(t: Env, args: seq<Arg>)
    requires ArgsValid(args)
    ensures DataEnd(t, args) == EndFirst(t, args, |args|)
  {
  }

  lemma SubsetOutside(sh: seq<Shadow>, sh0: seq<Shadow>, x: int)
    requires (forall q :: q in sh ==> q in sh0) && forall q :: q in sh0 ==> !InSlot(x, q)
    ensures forall q :: q in sh ==> !InSlot(x, q)
  {
  }

  lemma FetchedByte(u: Env, args: seq<Arg>, i: nat, x: int)
    requires i < |args| && args[i].ty.memberOf < |args| && FetchedWhole(u, args, i)
    requires Begin(args, i) <= x < Begin(args, i) + Size(args, i) && forall q :: q in u.shadows ==> !InSlot(x, q)
    ensures var h, y := EndStep(u, args, i).0.host, SectionTgt(u, args, i) + (x - Begin(args, i));
            x in h && y in u.dev && h[x] == u.dev[y]
  {
    hide *;
    var hp, n, tp := Begin(args, i), Size(args, i), SectionTgt(u, args, i);
    EndStepFetches(u, args, i);
    WholeReachable(u, args, i);
    AllocatedAt(u.host, hp, n, x);
    AllocatedAt(u.dev, tp, n, tp + (x - hp));
    ReadAt(u.dev, tp, n, x - hp);
    CopiedBackElsewhere(u.host, u.shadows, hp, Read(u.dev, tp, n), x);
    CopiedBackKeys(u.host, u.shadows, hp, Read(u.dev, tp, n));
  }

  lemma WholeReachable(u: Env, args: seq<Arg>, i: nat)
    requires i < |args| && args[i].ty.memberOf < |args| && FetchedWhole(u, args, i)
    ensures Allocated(u.dev, SectionTgt(u, args, i), Size(args, i)) && Allocated(u.host, Begin(args, i), Size(args, i))
  {
    hide FetchDue, Allocated, Begin, Size, Lookup;
  }

  lemma ReadAt(m: Mem, a: int, n: nat, k: nat)
    requires k < n && a + k in m
    ensures |Read(m, a, n)| == n && Read(m, a, n)[k] == m[a + k]
  {
  }

  // --------------------------------------------------------------------- target update

  // After an update FROM the slots in range are the host's, whether the transfer fails or
  // not, and if it succeeds the rest is the device's.
  lemma UpdateFromKeepsSlots(s: Env, a: Arg, x: int)
    requires SlotsApart(s.shadows) && HostFaithful(s.host, s.shadows)
    requires SlotsWhole(s.shadows, a.begin, a.begin + a.size) && a.ty.from
    requires a.begin <= x < a.begin + a.size && forall q :: q in s.shadows ==> !InSlot(x, q)
    ensures HostFaithful(AfterFrom(s, a).host, s.shadows)
    ensures var tp := GetTgtPtr(s, a.begin, a.size, false).1;
            Reachable(s, a.begin, tp, a.size) && Sound(s) ==>
              x in AfterFrom(s, a).host && tp + (x - a.begin) in s.dev &&
              AfterFrom(s, a).host[x] == s.dev[tp + (x - a.begin)]
  {
    hide *;
    var tp := GetTgtPtr(s, a.begin, a.size, false).1;
    AfterFromIs(s, a);
    CopiedBackExact(s.host, s.shadows, a.begin, UpdateData(s, a));
    if Reachable(s, a.begin, tp, a.size) && Sound(s) {
      ReachedByte(s, a.begin, tp, a.size, x);
      CopiedBackElsewhere(s.host, s.shadows, a.begin, UpdateData(s, a), x);
    }
  }

  // The bytes of the section after the FROM part of an update.
  function UpdateData(s: Env, a: Arg): (data: seq<Byte>)
    ensures |data| == a.size
    ensures var tp := GetTgtPtr(s, a.begin, a.size, false).1;
            Reachable(s, a.begin, tp, a.size) ==> data == Arrived(s, a.begin, tp, a.size)
  {
    var tp := GetTgtPtr(s, a.begin, a.size, false).1;
    if Reachable(s, a.begin, tp, a.size) then Arrived(s, a.begin, tp, a.size) else Read(s.host, a.begin, a.size)
  }

  lemma AfterFromIs(s: Env, a: Arg)
    requires a.ty.from
    ensures AfterFrom(s, a).host == CopiedBack(s.host, s.shadows, a.begin, UpdateData(s, a))
  {
    hide Allocated, Read, Write, GetTgtPtr, InRange, RestoreHost, Arrived, Moved;
    WriteRead(s.host, a.begin, a.size);
    ArrivedWritten(s, a.begin, GetTgtPtr(s, a.begin, a.size, false).1, a.size);
  }

  // A byte of a section that arrived whole.
  lemma ReachedByte(s: Env, hp: int, tp: int, n: nat, x: int)
    requires Reachable(s, hp, tp, n) && Sound(s) && hp <= x < hp + n
    ensures x in s.host && tp + (x - hp) in s.dev
    ensures |Arrived(s, hp, tp, n)| == n && Arrived(s, hp, tp, n)[x - hp] == s.dev[tp + (x - hp)]
  {
    hide Arrived, Moved;
  }

  lemma AllocatedAt(m: Mem, a: int, n: nat, x: int)
    requires Allocated(m, a, n) && a <= x < a + n
    ensures x in m
  {
  }

  ghost predicate TgtSlotsApart(sh: seq<Shadow>) {
    forall i, j :: 0 <= i < j < |sh| ==>
      sh[i].tgtAddr + PTR_BYTES <= sh[j].tgtAddr || sh[j].tgtAddr + PTR_BYTES <= sh[i].tgtAddr
  }

  predicate InTgtSlot(x: int, q: Shadow) {
    q.tgtAddr <= x < q.tgtAddr + PTR_BYTES
  }

  lemma {:induction false} RestoreDeviceElsewhere(s: Env, sh: seq<Shadow>, x: int)
    requires x in s.dev && forall q :: q in sh ==> !InTgtSlot(x, q)
    ensures RestoreDevice(s, sh).dev.Keys == s.dev.Keys && RestoreDevice(s, sh).dev[x] == s.dev[x]
    ensures RestoreDevice(s, sh).host == s.host
    decreases |sh|
  {
    if sh != [] {
      assert sh[0] in sh && !InTgtSlot(x, sh[0]);
      RestoreDeviceElsewhere(SubmitPointer(s, sh[0].tgtAddr, sh[0].tgtVal).0, sh[1..], x);
    }
  }

  lemma {:induction false} RestoreDeviceKeys(s: Env, sh: seq<Shadow>)
    ensures RestoreDevice(s, sh).dev.Keys == s.dev.Keys
    decreases |sh|
  {
    if sh != [] {
      RestoreDeviceKeys(SubmitPointer(s, sh[0].tgtAddr, sh[0].tgtVal).0, sh[1..]);
    }
  }

  // The m transfers that come next all succeed.
  ghost predicate AllSound(s: Env, m: nat) {
    forall t :: |s.log| <= t < |s.log| + m ==> s.answers(t).Whole?
  }

  lemma SoundPointer(s: Env, slot: int, val: int, m: nat)
    requires AllSound(s, m + 1)
    ensures var s1 := SubmitPointer(s, slot, val).0;
            && AllSound(s1, m)
            && (Allocated(s.dev, slot, PTR_BYTES) ==> s1.dev == Write(s.dev, slot, PtrBytes(val)))
  {
    hide PtrBytes, Write, Allocated;
    assert PtrBytes(val)[..PTR_BYTES] == PtrBytes(val);
  }

  lemma {:induction false} RestoreDeviceSlot(s: Env, sh: seq<Shadow>, q: Shadow)
    requires TgtSlotsApart(sh) && q in sh && Allocated(s.dev, q.tgtAddr, PTR_BYTES) && AllSound(s, |sh|)
    ensures Read(RestoreDevice(s, sh).dev, q.tgtAddr, PTR_BYTES) == PtrBytes(q.tgtVal)
    decreases |sh|
  {
    hide *;
    var s1 := SubmitPointer(s, sh[0].tgtAddr, sh[0].tgtVal).0;
    TgtApartTail(sh);
    SoundPointer(s, sh[0].tgtAddr, sh[0].tgtVal, |sh| - 1);
    SubmitPointerKeys(s, sh[0].tgtAddr, sh[0].tgtVal);
    RestoreDeviceHead(s, sh);
    if q == sh[0] {
      ReadWrite(s.dev, q.tgtAddr, PtrBytes(q.tgtVal));
      SameAllocation(s.dev, s1.dev, q.tgtAddr, PTR_BYTES);
      RestoreDeviceKeys(s1, sh[1..]);
      forall x | q.tgtAddr <= x < q.tgtAddr + PTR_BYTES ensures RestoreDevice(s1, sh[1..]).dev[x] == s1.dev[x] {
        AllocatedAt(s1.dev, q.tgtAddr, PTR_BYTES, x);
        TailOutside(sh, x);
        RestoreDeviceElsewhere(s1, sh[1..], x);
      }
      SameBytes(s1.dev, RestoreDevice(s1, sh[1..]).dev, q.tgtAddr, PTR_BYTES);
    } else {
      assert q in sh[1..];
      SameAllocation(s.dev, s1.dev, q.tgtAddr, PTR_BYTES);
      RestoreDeviceSlot(s1, sh[1..], q);
    }
  }

  lemma SubmitPointerKeys(s: Env, slot: int, val: int)
    ensures SubmitPointer(s, slot, val).0.dev.Keys == s.dev.Keys
  {
  }

  lemma TailOutside(sh: seq<Shadow>, x: int)
    requires TgtSlotsApart(sh) && sh != [] && sh[0].tgtAddr <= x < sh[0].tgtAddr + PTR_BYTES
    ensures forall q :: q in sh[1..] ==> !InTgtSlot(x, q)
  {
    TgtApartTail(sh);
  }

  lemma RestoreDeviceHead(s: Env, sh: seq<Shadow>)
    requires sh != []
    ensures RestoreDevice(s, sh) == RestoreDevice(SubmitPointer(s, sh[0].tgtAddr, sh[0].tgtVal).0, sh[1..])
  {
  }

  lemma TgtApartTail(sh: seq<Shadow>)
    requires TgtSlotsApart(sh) && sh != []
    ensures TgtSlotsApart(sh[1..])
    ensures forall q :: q in sh[1..] ==>
              sh[0].tgtAddr + PTR_BYTES <= q.tgtAddr || q.tgtAddr + PTR_BYTES <= sh[0].tgtAddr
  {
  }

  // After an update TO, also one that is FROM as well, the device slots in range hold the
  // device pointers ...
  lemma UpdateToKeepsSlots(s: Env, a: Arg, q: Shadow)
    requires a.ty.to && !Skipped(a)
    requires TgtSlotsApart(InRange(s.shadows, a.begin, a.begin + a.size))
    requires q in InRange(s.shadows, a.begin, a.begin + a.size) && Allocated(s.dev, q.tgtAddr, PTR_BYTES)
    requires AllSound(AfterFrom(s, a), 1 + |InRange(s.shadows, a.begin, a.begin + a.size)|)
    ensures Read(UpdateStep(s, a).dev, q.tgtAddr, PTR_BYTES) == PtrBytes(q.tgtVal)
  {
    hide *;
    var tp, sh := GetTgtPtr(s, a.begin, a.size, false).1, InRange(s.shadows, a.begin, a.begin + a.size);
    var s1 := DataSubmit(AfterFrom(s, a), tp, a.begin, a.size).0;
    UpdateToIs(s, a);
    SubmitSound(AfterFrom(s, a), tp, a.begin, a.size, |sh|);
    SameAllocation(s.dev, s1.dev, q.tgtAddr, PTR_BYTES);
    RestoreDeviceSlot(s1, sh, q);
  }

  // ... and every other byte of the device section is the host's.
  lemma UpdateToSendsRest(s: Env, a: Arg, x: int)
    requires a.ty.to && !Skipped(a) && Sound(AfterFrom(s, a))
    requires Reachable(s, a.begin, GetTgtPtr(s, a.begin, a.size, false).1, a.size)
    requires forall q :: q in InRange(s.shadows, a.begin, a.begin + a.size) ==> !InTgtSlot(x, q)
    requires var tp := GetTgtPtr(s, a.begin, a.size, false).1; tp <= x < tp + a.size
    ensures var tp, host := GetTgtPtr(s, a.begin, a.size, false).1, AfterFrom(s, a).host;
            x in UpdateStep(s, a).dev && a.begin + (x - tp) in host &&
            UpdateStep(s, a).dev[x] == host[a.begin + (x - tp)]
  {
    hide *;
    var tp, sh := GetTgtPtr(s, a.begin, a.size, false).1, InRange(s.shadows, a.begin, a.begin + a.size);
    UpdateToIs(s, a);
    SubmittedByte(AfterFrom(s, a), tp, a.begin, a.size, x);
    RestoreDeviceElsewhere(DataSubmit(AfterFrom(s, a), tp, a.begin, a.size).0, sh, x);
  }

  lemma SubmittedByte(s: Env, tp: int, hp: int, n: nat, x: int)
    requires Reachable(s, hp, tp, n) && Sound(s) && tp <= x < tp + n
    ensures var s1 := DataSubmit(s, tp, hp, n).0;
            x in s1.dev && hp + (x - tp) in s.host && s1.dev[x] == s.host[hp + (x - tp)]
  {
    hide Moved;
  }

  lemma SubmitSound(s: Env, tp: int, hp: int, n: nat, m: nat)
    requires AllSound(s, 1 + m)
    ensures AllSound(DataSubmit(s, tp, hp, n).0, m) && DataSubmit(s, tp, hp, n).0.dev.Keys == s.dev.Keys
  {
  }

  lemma UpdateToIs(s: Env, a: Arg)
    requires a.ty.to && !Skipped(a)
    ensures var tp, sh := GetTgtPtr(s, a.begin, a.size, false).1, InRange(s.shadows, a.begin, a.begin + a.size);
            UpdateStep(s, a) == RestoreDevice(DataSubmit(AfterFrom(s, a), tp, a.begin, a.size).0, sh)
    ensures AfterFrom(s, a).dev == s.dev
    ensures forall n: nat, tp: int :: Reachable(AfterFrom(s, a), a.begin, tp, n) <==> Reachable(s, a.begin, tp, n)
  {
    hide GetTgtPtr, InRange, RestoreDevice, DataSubmit, RestoreHost, Write;
  }

  lemma SameAllocation(m: Mem, m': Mem, a: int, n: nat)
    requires Allocated(m, a, n) && m.Keys == m'.Keys
    ensures Allocated(m', a, n)
  {
  }
}
