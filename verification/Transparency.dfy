/** Offloading a region means the same as running it on the host. */
module Transparency {
  // The kernel is an arbitrary function of the contents of its parameters, and any
  // allocation, transfer or the kernel itself may fail.  target() says exactly whether one
  // of them did; if none did, the host memory is what the map types promise, and for TOFROM
  // parameters it is what the kernel would have done on the host.

  import opened Memory
  import opened DeviceMap
  import opened DataEnvironment
  import opened MapInverse
  import opened DeviceBlocks
  import opened TransferRuns
  import opened TransferOnce
  import opened TargetRegion
  import opened RegionMemory
  import TargetAddresses

  // --------------------------------------------------------------------- the kernel

  datatype Val = Value(v: int) | Bytes(s: seq<Byte>)

  // A region's computation: new contents for its parameters from their old contents.
  type Body = seq<Val> -> seq<seq<Byte>>

  ghost predicate KeepsSizes(f: Body) {
    forall ins: seq<Val> {:trigger f(ins)} ::
      |f(ins)| == |ins| && forall i :: 0 <= i < |ins| && ins[i].Bytes? ==> |f(ins)[i]| == |ins[i].s|
  }

  function Gather(dev: Mem, ps: seq<Param>): (r: seq<Val>)
    ensures |r| == |ps|
  {
    seq(|ps|, i requires 0 <= i < |ps| =>
      if ps[i].isValue then Value(ps[i].ptr) else Bytes(Read(dev, ps[i].ptr, ps[i].size)))
  }

  function Scatter(dev: Mem, ps: seq<Param>, outs: seq<seq<Byte>>, k: nat): (r: Mem)
    requires k <= |ps| == |outs|
    ensures r.Keys == dev.Keys
  {
    if k == 0 then dev
    else if ps[k - 1].isValue then Scatter(dev, ps, outs, k - 1)
    else Write(Scatter(dev, ps, outs, k - 1), ps[k - 1].ptr, outs[k - 1])
  }

  // Where the region finds the section of a: it indexes from the base it was given, at the
  // displacement the section has from the program's base.
  function Seen(q: Param, a: Arg): Param {
    if q.isValue then q else q.(ptr := q.ptr + q.offset + (a.begin - a.base), offset := 0)
  }

  function AllSeen(ps: seq<Param>, args: seq<Arg>): (r: seq<Param>)
    requires |ps| == |args|
    ensures |r| == |ps|
  {
    seq(|ps|, i requires 0 <= i < |ps| => Seen(ps[i], args[i]))
  }

  // A kernel that succeeds reads and writes the sections of the region's arguments as f
  // says, and nothing else; a failing one may leave anything behind.
  ghost predicate Computes(k: Kernel, f: Body, args: seq<Arg>) {
    && KeepsSizes(f)
    && forall dev: Mem, ps: seq<Param> {:trigger k.run(dev, ps)} ::
         |ps| == |args| && k.run(dev, ps).1 ==>
           k.run(dev, ps).0 == Scatter(dev, AllSeen(ps, args), f(Gather(dev, AllSeen(ps, args))), |ps|)
  }

  function GatherHost(host: Mem, args: seq<Arg>): (r: seq<Val>)
    ensures |r| == |args|
  {
    seq(|args|, i requires 0 <= i < |args| =>
      if args[i].ty.literal then Value(args[i].base) else Bytes(Read(host, args[i].begin, args[i].size)))
  }

  // Writes outs to the sections that all(i) selects, the last section first.
  function WriteBack(host: Mem, args: seq<Arg>, outs: seq<seq<Byte>>, k: nat, all: bool): (r: Mem)
    requires k <= |args| == |outs|
    ensures r.Keys == host.Keys
    decreases k
  {
    if k == 0 then host else
    var a := args[k - 1];
    WriteBack(if !a.ty.literal && (all || a.ty.from) then Write(host, a.begin, outs[k - 1]) else host,
              args, outs, k - 1, all)
  }

  // Writes to the FROM sections as much of outs as their retrieves copy when
  // target_data_end starts in t.
  function PartBack(host: Mem, args: seq<Arg>, outs: seq<seq<Byte>>, t: Env, k: nat): Mem
    requires k <= |args| == |outs|
    decreases k
  {
    if k == 0 then host else
    PartBack(if ToFetch(args[k - 1]) then Write(host, args[k - 1].begin, Got(t, args, k - 1, outs[k - 1])) else host,
             args, outs, t, k - 1)
  }

  lemma {:induction false} PartBackWhole(host: Mem, args: seq<Arg>, outs: seq<seq<Byte>>, t: Env, k: nat)
    requires k <= |args| == |outs|
    requires forall j :: 0 <= j < k && ToFetch(args[j]) ==> FetchAnswer(t, args, j).Whole?
    ensures PartBack(host, args, outs, t, k) == WriteBack(host, args, outs, k, false)
    decreases k
  {
    hide FetchAnswer, Write;
    if k > 0 {
      var h := if ToFetch(args[k - 1]) then Write(host, args[k - 1].begin, outs[k - 1]) else host;
      PartBackWhole(h, args, outs, t, k - 1);
    }
  }

  // The same computation run on the host, on the host's own sections.
  function HostRun(f: Body, host: Mem, args: seq<Arg>): Mem
    requires |f(GatherHost(host, args))| == |args|
  {
    WriteBack(host, args, f(GatherHost(host, args)), |args|, true)
  }

  // ---------------------------------------------------------- what the kernel receives

  lemma {:induction false} NewHas(p: Plugin, s: Env, args: seq<Arg>, k: nat, j: nat)
    requires j < k <= |args| && ArgsValid(args) && !args[j].ty.literal
    ensures NewEntry(p, s, args, j) in New(p, s, args, k)
  {
    hide NewEntry;
    if j < k - 1 {
      NewHas(p, s, args, k - 1, j);
    }
  }

  lemma OwnLookup(es: Entries, e: Entry, n: nat)
    requires WellFormed(es) && e in es && n > 0 && e.end == e.begin + n
    ensures var i := Lookup(es, e.begin, n); i < |es| && es[i] == e
  {
    var j :| 0 <= j < |es| && es[j] == e;
    assert Flagged(es[j], e.begin, n);
    var i := Lookup(es, e.begin, n);
    hide Lookup;
    FlaggedIffMeets(es[i], e.begin, n);
    var x :| InSection(x, e.begin, n) && Holds(es[i], x);
    OwnerUnique(es, es[i], e, x);
  }

  predicate ParamFor(q: Param, a: Arg, tp: int) {
    q.size == a.size && q.isValue == a.ty.literal && q.ptr == if a.ty.literal then a.base else tp
  }

  lemma FoundTgt(p: Plugin, s: Env, args: seq<Arg>, t: Env, j: nat)
    requires j < |args| && ArgsValid(args) && Fresh(s, args) && !args[j].ty.literal
    requires t.entries == New(p, s, args, |args|) + s.entries && WellFormed(t.entries)
    ensures GetTgtPtr(t, args[j].begin, args[j].size, false).1 == Tgt(p, s, args, j)
  {
    var e := NewEntry(p, s, args, j);
    NewHas(p, s, args, |args|, j);
    FreshSection(s, args, j);
    NewEntryRange(p, s, args, j);
    hide NewEntry, New, WellFormed, Tgt, Fresh;
    assert e in t.entries;
    OwnLookup(t.entries, e, args[j].size);
  }

  lemma BuildStepPlain(p: Plugin, b: Build, args: seq<Arg>, bases: seq<int>, i: nat, tp: int)
    requires i < |args| == |bases| && PlainArg(args[i]) && b.ok
    requires bases[i] == args[i].base
    requires !args[i].ty.literal ==> GetTgtPtr(b.env, args[i].begin, args[i].size, false).1 == tp
    ensures args[i].ty.memberOf < |args|
    ensures var b' := BuildStep(p, b, args, bases, i);
            && b'.ok && b'.env == b.env && b'.privates == b.privates && |b'.params| == |b.params| + 1
            && b'.params[..|b.params|] == b.params
            && ParamFor(Seen(b'.params[|b.params|], args[i]), args[i], tp)
  {
    hide GetTgtPtr, PrivateCopy;
  }

  ghost predicate Collected(p: Plugin, s: Env, args: seq<Arg>, t: Env, b: Build, k: nat)
    requires k <= |args| && ArgsValid(args)
  {
    && b.ok && b.env == t && b.privates == [] && |b.params| == k
    && forall i :: 0 <= i < k ==> ParamFor(Seen(b.params[i], args[i]), args[i], Tgt(p, s, args, i))
  }

  lemma CollectedStep(p: Plugin, s: Env, args: seq<Arg>, t: Env, b: Build, b': Build, k: nat)
    requires k < |args| && ArgsValid(args) && Collected(p, s, args, t, b, k)
    requires b'.ok && b'.env == b.env && b'.privates == b.privates && |b'.params| == |b.params| + 1
    requires b'.params[..|b.params|] == b.params
    requires ParamFor(Seen(b'.params[|b.params|], args[k]), args[k], Tgt(p, s, args, k))
    ensures Collected(p, s, args, t, b', k + 1)
  {
    hide Tgt, ParamFor, Seen;
    forall i | 0 <= i < k ensures b'.params[i] == b.params[i] {
      assert b'.params[..|b.params|][i] == b.params[i];
    }
  }

  lemma {:induction false} BuildFresh(p: Plugin, s: Env, args: seq<Arg>, t: Env, bases: seq<int>, k: nat)
    requires k <= |args| == |bases| && ArgsValid(args) && Fresh(s, args)
    requires t.entries == New(p, s, args, |args|) + s.entries && WellFormed(t.entries)
    requires forall i :: 0 <= i < |args| ==> bases[i] == args[i].base
    ensures Collected(p, s, args, t, BuildFirst(p, t, args, bases, k), k)
  {
    hide *;
    if k == 0 {
      CollectedZero(p, s, args, t, bases);
    } else {
      var b := BuildFirst(p, t, args, bases, k - 1);
      BuildFresh(p, s, args, t, bases, k - 1);
      FreshPlain(s, args, k - 1);
      CollectedParts(p, s, args, t, b, k - 1);
      if !args[k - 1].ty.literal {
        FoundTgt(p, s, args, t, k - 1);
      }
      BuildStepPlain(p, b, args, bases, k - 1, Tgt(p, s, args, k - 1));
      CollectedStep(p, s, args, t, b, BuildStep(p, b, args, bases, k - 1), k - 1);
      BuildNext(p, t, args, bases, k);
    }
  }

  lemma CollectedZero(p: Plugin, s: Env, args: seq<Arg>, t: Env, bases: seq<int>)
    requires ArgsValid(args) && |bases| == |args|
    ensures Collected(p, s, args, t, BuildFirst(p, t, args, bases, 0), 0)
  {
  }

  lemma BuildNext(p: Plugin, t: Env, args: seq<Arg>, bases: seq<int>, k: nat)
    requires 0 < k <= |args| == |bases| && ArgsValid(args) && BuildFirst(p, t, args, bases, k - 1).ok
    ensures args[k - 1].ty.memberOf < |args|
    ensures BuildFirst(p, t, args, bases, k) ==
            BuildStep(p, BuildFirst(p, t, args, bases, k - 1), args, bases, k - 1)
  {
    hide BuildStep;
    assert args[k - 1] in args;
  }

  lemma CollectedParts(p: Plugin, s: Env, args: seq<Arg>, t: Env, b: Build, k: nat)
    requires k <= |args| && ArgsValid(args) && Collected(p, s, args, t, b, k)
    ensures b.ok && b.env == t && b.privates == [] && |b.params| == k
    ensures forall i :: 0 <= i < k ==> ParamFor(Seen(b.params[i], args[i]), args[i], Tgt(p, s, args, i))
  {
    hide Tgt, ParamFor, Seen;
  }

  lemma CollectedSeen(p: Plugin, s: Env, args: seq<Arg>, t: Env, b: Build)
    requires ArgsValid(args) && Collected(p, s, args, t, b, |args|)
    ensures |b.params| == |args|
    ensures var ps := AllSeen(b.params, args);
            forall i :: 0 <= i < |args| ==> ParamFor(ps[i], args[i], Tgt(p, s, args, i))
  {
    hide Tgt, ParamFor, Seen;
  }

  lemma PlainBases(p: Plugin, s: Env, args: seq<Arg>)
    requires ArgsValid(args) && PlainArgs(args)
    ensures forall i :: 0 <= i < |args| ==> Bases(p, s, args)[i] == args[i].base
  {
    hide Bases;
    forall i | 0 <= i < |args| ensures Bases(p, s, args)[i] == args[i].base {
      assert PlainArg(args[i]);
      TargetAddresses.BaseKept(p, s, args, i);
    }
  }

  // ------------------------------------------------------------------ what it writes

  ghost predicate ParamsApart(ps: seq<Param>, dev: Mem) {
    && (forall i :: 0 <= i < |ps| && !ps[i].isValue ==> Allocated(dev, ps[i].ptr, ps[i].size))
    && (forall i, j :: 0 <= i < j < |ps| && !ps[i].isValue && !ps[j].isValue ==>
          Apart(ps[i].ptr, ps[i].size, ps[j].ptr, ps[j].size))
  }

  lemma {:induction false} ScatterElsewhere(dev: Mem, ps: seq<Param>, outs: seq<seq<Byte>>, k: nat, x: int)
    requires k <= |ps| == |outs| && x in dev
    requires forall i :: 0 <= i < k && !ps[i].isValue ==> !InBlock(x, ps[i].ptr, |outs[i]|)
    ensures Scatter(dev, ps, outs, k)[x] == dev[x]
  {
    if k > 0 {
      ScatterElsewhere(dev, ps, outs, k - 1, x);
    }
  }

  lemma {:induction false} ScatterContents(dev: Mem, ps: seq<Param>, outs: seq<seq<Byte>>, k: nat, i: nat)
    requires i < k <= |ps| == |outs| && ParamsApart(ps, dev) && !ps[i].isValue
    requires forall j :: 0 <= j < |ps| && !ps[j].isValue ==> |outs[j]| == ps[j].size
    ensures Read(Scatter(dev, ps, outs, k), ps[i].ptr, ps[i].size) == outs[i]
  {
    hide ParamsApart, Read, Write;
    var m, q := Scatter(dev, ps, outs, k - 1), ps[k - 1];
    if i == k - 1 {
      ParamAllocated(ps, dev, i);
      SameAllocated(dev, m, q.ptr, q.size);
      ReadWrite(m, q.ptr, outs[k - 1]);
    } else {
      ScatterContents(dev, ps, outs, k - 1, i);
      if !q.isValue {
        ParamPairApart(ps, dev, i, k - 1);
        ReadWriteElsewhere(m, q.ptr, outs[k - 1], ps[i].ptr, ps[i].size);
      }
    }
  }

  lemma ParamAllocated(ps: seq<Param>, dev: Mem, i: nat)
    requires ParamsApart(ps, dev) && i < |ps| && !ps[i].isValue
    ensures Allocated(dev, ps[i].ptr, ps[i].size)
  {
  }

  lemma ParamPairApart(ps: seq<Param>, dev: Mem, i: nat, j: nat)
    requires ParamsApart(ps, dev) && i < j < |ps| && !ps[i].isValue && !ps[j].isValue
    ensures Apart(ps[i].ptr, ps[i].size, ps[j].ptr, ps[j].size)
  {
  }

  // ----------------------------------------------------------------------- the results

  ghost predicate AllGranted(p: Plugin, s: Env, args: seq<Arg>)
    requires ArgsValid(args)
  {
    forall j :: 0 <= j < |args| && !args[j].ty.literal ==> Tgt(p, s, args, j) != 0
  }

  lemma BlocksApart(p: Plugin, s: Env, args: seq<Arg>, t: Env, i: nat, j: nat)
    requires i < j < |args| && ArgsValid(args) && Fresh(s, args) && DeviceOk(t)
    requires t.entries == New(p, s, args, |args|) + s.entries
    requires !args[i].ty.literal && !args[j].ty.literal
    requires Tgt(p, s, args, i) != 0 && Tgt(p, s, args, j) != 0
    ensures Apart(Tgt(p, s, args, i), args[i].size, Tgt(p, s, args, j), args[j].size)
  {
    NewHas(p, s, args, |args|, i);
    NewHas(p, s, args, |args|, j);
    NewEntryRange(p, s, args, i);
    NewEntryRange(p, s, args, j);
    FreshSection(s, args, i);
    FreshSection(s, args, j);
    assert SectionsApart(args[i], args[j]);
    hide New, NewEntry, Tgt, Fresh;
    EntriesApart(t.entries, NewEntry(p, s, args, i), NewEntry(p, s, args, j));
  }

  lemma EntriesApart(es: Entries, e: Entry, f: Entry)
    requires TargetsApart(es) && e in es && f in es && e != f && e.tgt != 0 && f.tgt != 0
    ensures Apart(e.tgt, Length(e), f.tgt, Length(f))
  {
    var i :| 0 <= i < |es| && es[i] == e;
    var j :| 0 <= j < |es| && es[j] == f;
    if i < j {
      assert Apart(es[i].tgt, Length(es[i]), es[j].tgt, Length(es[j]));
    } else {
      assert Apart(es[j].tgt, Length(es[j]), es[i].tgt, Length(es[i]));
    }
  }

  lemma CollectedApart(p: Plugin, s: Env, args: seq<Arg>, t: Env, b: Build, ok: bool)
    requires ArgsValid(args) && Fresh(s, args) && AllGranted(p, s, args)
    requires Begun(p, s, args, |args|, t, ok) && Collected(p, s, args, t, b, |args|)
    ensures |b.params| == |args| && ParamsApart(AllSeen(b.params, args), t.dev)
  {
    CollectedSeen(p, s, args, t, b);
    var ps := AllSeen(b.params, args);
    hide Fresh, Tgt, DeviceOk, New, Loaded, AllSeen;
    forall i, j | 0 <= i < j < |ps| && !ps[i].isValue && !ps[j].isValue
      ensures Apart(ps[i].ptr, ps[i].size, ps[j].ptr, ps[j].size)
    {
      assert ParamFor(ps[i], args[i], Tgt(p, s, args, i)) && ParamFor(ps[j], args[j], Tgt(p, s, args, j));
      BlocksApart(p, s, args, t, i, j);
    }
    forall i | 0 <= i < |ps| && !ps[i].isValue
      ensures Allocated(t.dev, ps[i].ptr, ps[i].size)
    {
      assert ParamFor(ps[i], args[i], Tgt(p, s, args, i));
    }
  }

  // What the kernel reads: by-value arguments, host contents for TO sections, and
  // sections of the right size otherwise.
  ghost predicate GivenInputs(host: Mem, args: seq<Arg>, ins: seq<Val>) {
    && |ins| == |args|
    && forall i :: 0 <= i < |args| ==>
         if args[i].ty.literal then ins[i] == Value(args[i].base)
         else if args[i].ty.to then ins[i] == Bytes(Read(host, args[i].begin, args[i].size))
         else ins[i].Bytes? && |ins[i].s| == args[i].size
  }

  // A TO section sent in full holds the host's bytes.
  lemma LoadWhole(p: Plugin, s: Env, args: seq<Arg>, j: nat)
    requires ArgsValid(args) && Fresh(s, args) && Honest(p) && j < |args|
    requires !args[j].ty.literal && args[j].ty.to && SentWhole(p, s, args, j)
    ensures Load(p, s, args, j) == Read(s.host, args[j].begin, args[j].size)
  {
    assert Sound(StateAt(p, s, args, j));
    assert StateAt(p, s, args, j).host == s.host by {
      hide StateAt, BeginFirst;
      BeginFresh(p, s, args, j);
      BegunParts(p, s, args, j, StateAt(p, s, args, j), BeginFirst(p, s, args, j).1);
    }
    hide StateAt, Initial, Sound, Fresh, Honest;
  }

  lemma GatherGiven(p: Plugin, s: Env, args: seq<Arg>, t: Env, b: Build)
    requires ArgsValid(args) && AllGranted(p, s, args) && Fresh(s, args) && Honest(p)
    requires Loaded(p, s, args, |args|, t.dev, true) && Collected(p, s, args, t, b, |args|)
    ensures |b.params| == |args| && GivenInputs(s.host, args, Gather(t.dev, AllSeen(b.params, args)))
  {
    CollectedSeen(p, s, args, t, b);
    hide Tgt, Fresh, Honest, Load, SentWhole, AllSeen;
    var ps := AllSeen(b.params, args);
    forall i | 0 <= i < |args|
      ensures var ins := Gather(t.dev, ps);
              if args[i].ty.literal then ins[i] == Value(args[i].base)
              else if args[i].ty.to then ins[i] == Bytes(Read(s.host, args[i].begin, args[i].size))
              else ins[i].Bytes? && |ins[i].s| == args[i].size
    {
      assert ParamFor(ps[i], args[i], Tgt(p, s, args, i));
      if !args[i].ty.literal && args[i].ty.to {
        LoadWhole(p, s, args, i);
      }
    }
  }

  // After the kernel the blocks hold its outputs ...
  lemma KernelOutputs(p: Plugin, s: Env, args: seq<Arg>, dev: Mem, ps: seq<Param>, outs: seq<seq<Byte>>)
    requires ArgsValid(args) && ParamsApart(ps, dev) && |ps| == |args| && Sized(args, outs) && |outs| == |args|
    requires forall i :: 0 <= i < |args| ==> ParamFor(ps[i], args[i], Tgt(p, s, args, i))
    ensures Contents(p, s, args, |args|, Scatter(dev, ps, outs, |ps|), outs)
  {
    hide Tgt, ParamsApart, Scatter;
    forall i | 0 <= i < |args| && !args[i].ty.literal
      ensures outs[i] == Read(Scatter(dev, ps, outs, |ps|), Tgt(p, s, args, i), args[i].size)
    {
      assert ParamFor(ps[i], args[i], Tgt(p, s, args, i));
      ScatterContents(dev, ps, outs, |ps|, i);
    }
  }

  // ... and older memory is untouched.
  lemma KernelElsewhere(p: Plugin, s: Env, args: seq<Arg>, dev: Mem, ps: seq<Param>, outs: seq<seq<Byte>>)
    requires ArgsValid(args) && AllGranted(p, s, args) && Placed(p, s, args, |args|, dev)
    requires |ps| == |args| && Sized(args, outs) && |outs| == |args|
    requires forall i :: 0 <= i < |args| ==> ParamFor(ps[i], args[i], Tgt(p, s, args, i))
    requires forall x :: x in s.dev ==> x in dev && dev[x] == s.dev[x]
    ensures var dev' := Scatter(dev, ps, outs, |ps|);
            forall x :: x in s.dev ==> x in dev' && dev'[x] == s.dev[x]
  {
    hide Tgt, Scatter;
    forall x | x in s.dev ensures Scatter(dev, ps, outs, |ps|)[x] == dev[x] {
      forall i | 0 <= i < |args| && !ps[i].isValue ensures !InBlock(x, ps[i].ptr, |outs[i]|) {
        assert ParamFor(ps[i], args[i], Tgt(p, s, args, i));
      }
      ScatterElsewhere(dev, ps, outs, |ps|, x);
    }
  }

  lemma KernelWrites(p: Plugin, s: Env, args: seq<Arg>, t: Env, b: Build, ok: bool, outs: seq<seq<Byte>>)
    requires ArgsValid(args) && AllGranted(p, s, args) && Fresh(s, args)
    requires Begun(p, s, args, |args|, t, ok) && Collected(p, s, args, t, b, |args|)
    requires Sized(args, outs) && |outs| == |args| == |b.params|
    ensures var dev := Scatter(t.dev, AllSeen(b.params, args), outs, |b.params|);
            && Contents(p, s, args, |args|, dev, outs)
            && forall x :: x in s.dev ==> x in dev && dev[x] == s.dev[x]
  {
    hide *;
    CollectedApart(p, s, args, t, b, ok);
    CollectedSeen(p, s, args, t, b);
    BegunParts(p, s, args, |args|, t, ok);
    LoadedKeeps(p, s, args, t.dev, ok);
    KernelOutputs(p, s, args, t.dev, AllSeen(b.params, args), outs);
    KernelElsewhere(p, s, args, t.dev, AllSeen(b.params, args), outs);
  }

  lemma LoadedKeeps(p: Plugin, s: Env, args: seq<Arg>, dev: Mem, ok: bool)
    requires ArgsValid(args) && Loaded(p, s, args, |args|, dev, ok)
    ensures forall x :: x in s.dev ==> x in dev && dev[x] == s.dev[x]
  {
    hide Tgt, Load, SentWhole;
  }

  lemma {:induction false} FetchedIsPartBack(p: Plugin, s: Env, args: seq<Arg>, host: Mem, outs: seq<seq<Byte>>,
                                             t: Env, k: nat)
    requires k <= |args| == |outs| && ArgsValid(args) && AllGranted(p, s, args)
    ensures Fetched(p, s, args, host, outs, t, k) == PartBack(host, args, outs, t, k)
    decreases k
  {
    hide Tgt, FetchAnswer;
    if k > 0 {
      var h := if ToFetch(args[k - 1]) then Write(host, args[k - 1].begin, Got(t, args, k - 1, outs[k - 1])) else host;
      FetchedIsPartBack(p, s, args, h, outs, t, k - 1);
    }
  }

  // Everything but the host is as it was.
  ghost predicate DeviceRestored(s: Env, s': Env) {
    s'.entries == s.entries && s'.shadows == s.shadows && s'.blocks == s.blocks && s'.dev == s.dev
  }

  // target_data_end from any state of the right shape.
  lemma EndRestores(p: Plugin, s: Env, args: seq<Arg>, t: Env, outs: seq<seq<Byte>>)
    requires ArgsValid(args) && Fresh(s, args) && Honest(p) && Sized(args, outs)
    requires Shaped(p, s, args, |args|, t) && Contents(p, s, args, |args|, t.dev, outs)
    requires forall x :: x in s.dev ==> x in t.dev && t.dev[x] == s.dev[x]
    ensures DeviceRestored(s, DataEnd(t, args).0)
    ensures DataEnd(t, args).0.host == Fetched(p, s, args, t.host, outs, t, |args|)
    ensures DataEnd(t, args).1 <==> forall j :: 0 <= j < |args| ==> FetchedWhole(p, s, args, t, j)
  {
    var t' := EndFirst(t, args, |args|).0;
    assert DataEnd(t, args) == EndFirst(t, args, |args|) by { hide EndFirst; }
    hide *;
    EndingStart(t, args);
    EndFresh(p, s, args, |args|, t, outs, t);
    ShapedParts(p, s, args, 0, t');
    StateZero(p, s, args);
    NewNone(p, s, args);
    RestoredIntro(s, t');
  }

  lemma EndingStart(t: Env, args: seq<Arg>)
    ensures Ending(t, t, args, |args|)
  {
  }

  lemma NewNone(p: Plugin, s: Env, args: seq<Arg>)
    requires ArgsValid(args)
    ensures New(p, s, args, 0) + s.entries == s.entries
  {
    assert [] + s.entries == s.entries;
  }

  lemma RestoredIntro(s: Env, s': Env)
    requires s'.entries == s.entries && s'.shadows == s.shadows && s'.blocks == s.blocks
    requires s'.dev.Keys == s.dev.Keys
    requires forall x :: x in s.dev ==> s'.dev[x] == s.dev[x]
    ensures DeviceRestored(s, s')
  {
    SameMemory(s'.dev, s.dev);
  }

  lemma BegunShaped(p: Plugin, s: Env, args: seq<Arg>, ok: bool)
    requires ArgsValid(args) && Begun(p, s, args, |args|, StateAt(p, s, args, |args|), ok)
    ensures Shaped(p, s, args, |args|, StateAt(p, s, args, |args|))
  {
    hide StateAt, New, DeviceOk, Loaded, Placed;
  }

  // Does the kernel succeed on what target() hands to it?
  predicate KernelSucceeds(p: Plugin, k: Kernel, s: Env, args: seq<Arg>)
    requires ArgsValid(args)
  {
    var t := DataBegin(p, s, args).0;
    k.run(t.dev, BuildFirst(p, t, args, Bases(p, s, args), |args|).params).1
  }

  lemma TargetPlain(p: Plugin, k: Kernel, s: Env, args: seq<Arg>, b: Build)
    requires ArgsValid(args) && DataBegin(p, s, args).1
    requires b == BuildFirst(p, DataBegin(p, s, args).0, args, Bases(p, s, args), |args|)
    requires b.ok && b.privates == [] && b.env == DataBegin(p, s, args).0
    ensures var (s4, ok4) := DataEnd(b.env.(dev := k.run(b.env.dev, b.params).0), args);
            Target(p, k, s, args) == (s4, KernelSucceeds(p, k, s, args) && ok4)
  {
    hide DataBegin, DataEnd, BuildFirst, Bases;
    FreeNone(Launch(k, b).0, args);
  }

  lemma RunOutputs(k: Kernel, f: Body, dev: Mem, args: seq<Arg>, host: Mem, b: Build)
    requires Computes(k, f, args) && |b.params| == |args| && GivenInputs(host, args, Gather(dev, AllSeen(b.params, args)))
    ensures var outs := f(Gather(dev, AllSeen(b.params, args)));
            && Sized(args, outs)
            && (k.run(dev, b.params).1 ==> k.run(dev, b.params).0 == Scatter(dev, AllSeen(b.params, args), outs, |b.params|))
  {
    hide Gather, Scatter, AllSeen;
  }

  // Does every retrieve of target_data_end succeed when it starts in t?
  ghost predicate AllFetched(t: Env, args: seq<Arg>) {
    forall j :: 0 <= j < |args| && ToFetch(args[j]) ==> FetchAnswer(t, args, j).Whole?
  }

  // What target_data_end does after the kernel left its outputs in the blocks.
  lemma RegionEnd(p: Plugin, s: Env, args: seq<Arg>, t: Env, ok: bool, b: Build, outs: seq<seq<Byte>>)
    requires ArgsValid(args) && Fresh(s, args) && Honest(p) && AllGranted(p, s, args)
    requires t == StateAt(p, s, args, |args|) && Begun(p, s, args, |args|, t, ok)
    requires Collected(p, s, args, t, b, |args|) && |b.params| == |args| && Sized(args, outs)
    ensures var (s', ok') := DataEnd(t.(dev := Scatter(t.dev, AllSeen(b.params, args), outs, |b.params|)), args);
            && DeviceRestored(s, s') && s'.host == PartBack(s.host, args, outs, t, |args|)
            && (ok' <==> AllFetched(t, args))
  {
    hide *;
    SizedParts(args, outs);
    var t1 := t.(dev := Scatter(t.dev, AllSeen(b.params, args), outs, |b.params|));
    BegunParts(p, s, args, |args|, t, ok);
    KernelWrites(p, s, args, t, b, ok, outs);
    BegunShaped(p, s, args, ok);
    SameShape(p, s, args, t, t1);
    EndRestores(p, s, args, t1, outs);
    FetchedIsPartBack(p, s, args, s.host, outs, t1, |args|);
    SamePartBack(s.host, args, outs, t, t1, |args|);
    GrantedFetched(p, s, args, t, t1);
  }

  lemma SizedParts(args: seq<Arg>, outs: seq<seq<Byte>>)
    requires Sized(args, outs)
    ensures |outs| == |args| && forall i :: 0 <= i < |args| && !args[i].ty.literal ==> |outs[i]| == args[i].size
  {
  }

  lemma {:induction false} SamePartBack(host: Mem, args: seq<Arg>, outs: seq<seq<Byte>>, t: Env, t1: Env, k: nat)
    requires k <= |args| == |outs| && t1.answers == t.answers && t1.log == t.log
    ensures PartBack(host, args, outs, t1, k) == PartBack(host, args, outs, t, k)
    decreases k
  {
    hide Write;
    if k > 0 {
      var h := if ToFetch(args[k - 1]) then Write(host, args[k - 1].begin, Got(t, args, k - 1, outs[k - 1])) else host;
      SamePartBack(h, args, outs, t, t1, k - 1);
    }
  }

  lemma GrantedFetched(p: Plugin, s: Env, args: seq<Arg>, t: Env, t1: Env)
    requires ArgsValid(args) && AllGranted(p, s, args) && t1.answers == t.answers && t1.log == t.log
    ensures (forall j :: 0 <= j < |args| ==> FetchedWhole(p, s, args, t1, j)) <==> AllFetched(t, args)
  {
    hide Tgt, FetchCount;
    if forall j :: 0 <= j < |args| ==> FetchedWhole(p, s, args, t1, j) {
      forall j | 0 <= j < |args| && ToFetch(args[j]) ensures FetchAnswer(t, args, j).Whole? {
        assert FetchedWhole(p, s, args, t1, j);
      }
    }
  }

  // The part of the proof after a successful begin.
  lemma RegionRun(p: Plugin, k: Kernel, f: Body, s: Env, args: seq<Arg>) returns (ins: seq<Val>)
    requires ArgsValid(args) && Fresh(s, args) && Honest(p) && Computes(k, f, args) && AllGranted(p, s, args)
    requires DataBegin(p, s, args).1
    ensures GivenInputs(s.host, args, ins) && |f(ins)| == |args|
    ensures !KernelSucceeds(p, k, s, args) ==> !Target(p, k, s, args).1
    ensures KernelSucceeds(p, k, s, args) ==>
              var (s', ok) := Target(p, k, s, args);
              var t := DataBegin(p, s, args).0;
              && (ok <==> AllFetched(t, args))
              && DeviceRestored(s, s') && s'.host == PartBack(s.host, args, f(ins), t, |args|)
  {
    var t, ok := StateAt(p, s, args, |args|), BeginFirst(p, s, args, |args|).1;
    var bases := Bases(p, s, args);
    var b := BuildFirst(p, t, args, bases, |args|);
    assert DataBegin(p, s, args).0 == t by { RegionEnds(p, s, args, t); }
    assert KernelSucceeds(p, k, s, args) == k.run(t.dev, b.params).1;
    hide *;
    assert ok by { BegunOk(p, s, args); }
    BeginFresh(p, s, args, |args|);
    BegunParts(p, s, args, |args|, t, ok);
    FreshPlainArgs(s, args);
    PlainBases(p, s, args);
    assert WellFormed(t.entries) by { BegunDeviceOk(p, s, args, t, ok); }
    BuildFresh(p, s, args, t, bases, |args|);
    CollectedParts(p, s, args, t, b, |args|);
    GatherGiven(p, s, args, t, b);
    ins := Gather(t.dev, AllSeen(b.params, args));
    RunOutputs(k, f, t.dev, args, s.host, b);
    SizedParts(args, f(ins));
    TargetPlain(p, k, s, args, b);
    if k.run(t.dev, b.params).1 {
      RegionEnd(p, s, args, t, ok, b, f(ins));
    }
  }

  lemma BegunOk(p: Plugin, s: Env, args: seq<Arg>)
    requires ArgsValid(args)
    ensures BeginFirst(p, s, args, |args|).1 == DataBegin(p, s, args).1
  {
    hide BeginFirst;
  }

  lemma BegunDeviceOk(p: Plugin, s: Env, args: seq<Arg>, t: Env, ok: bool)
    requires ArgsValid(args) && Begun(p, s, args, |args|, t, ok)
    ensures WellFormed(t.entries)
  {
    hide WellFormed, BlocksOk, Loaded, Placed, New;
  }

  lemma SameShape(p: Plugin, s: Env, args: seq<Arg>, t: Env, t1: Env)
    requires ArgsValid(args) && Shaped(p, s, args, |args|, t)
    requires t1.entries == t.entries && t1.shadows == t.shadows && t1.blocks == t.blocks
    requires t1.dev.Keys == t.dev.Keys && t1.host == t.host
    ensures Shaped(p, s, args, |args|, t1)
  {
    hide StateAt, New;
  }

  // Map-clause semantics: for any kernel and any map types, if every allocation is
  // granted and the begin succeeds, the kernel sees the host contents of the TO sections.
  // target() succeeds exactly when the kernel and all retrieves do; then exactly the FROM
  // sections receive the kernel's outputs, and nothing else changes.  If only a retrieve
  // fails, its section receives a part of the output.
  lemma MapClauses(p: Plugin, k: Kernel, f: Body, s: Env, args: seq<Arg>)
    requires Fresh(s, args) && Honest(p) && Computes(k, f, args)
    requires ArgsValid(args) && AllGranted(p, s, args) && DataBegin(p, s, args).1
    ensures Target(p, k, s, args).1 <==> KernelSucceeds(p, k, s, args) && AllFetched(DataBegin(p, s, args).0, args)
    ensures KernelSucceeds(p, k, s, args) ==>
              && DeviceRestored(s, Target(p, k, s, args).0)
              && exists ins :: GivenInputs(s.host, args, ins) && |f(ins)| == |args| &&
                   Target(p, k, s, args).0.host == PartBack(s.host, args, f(ins), DataBegin(p, s, args).0, |args|)
    ensures Target(p, k, s, args).1 ==>
              exists ins :: GivenInputs(s.host, args, ins) && |f(ins)| == |args| &&
                Target(p, k, s, args).0.host == WriteBack(s.host, args, f(ins), |args|, false)
  {
    hide *;
    var ins := RegionRun(p, k, f, s, args);
    if Target(p, k, s, args).1 {
      AllFetchedWhole(s.host, args, f(ins), DataBegin(p, s, args).0);
    }
  }

  lemma AllFetchedWhole(host: Mem, args: seq<Arg>, outs: seq<seq<Byte>>, t: Env)
    requires |outs| == |args| && AllFetched(t, args)
    ensures PartBack(host, args, outs, t, |args|) == WriteBack(host, args, outs, |args|, false)
  {
    hide PartBack, WriteBack, FetchAnswer;
    PartBackWhole(host, args, outs, t, |args|);
  }

  // ---------------------------------------------------------------- on the host instead

  // Every section is sent, and one that is not fetched is not written by the kernel.
  ghost predicate SentAndFetched(host: Mem, args: seq<Arg>, f: Body) {
    && (forall i :: 0 <= i < |args| && !args[i].ty.literal ==> args[i].ty.to)
    && |f(GatherHost(host, args))| == |args|
    && forall i :: 0 <= i < |args| && !args[i].ty.literal && !args[i].ty.from ==>
         f(GatherHost(host, args))[i] == Read(host, args[i].begin, args[i].size)
  }

  lemma GivenIsGathered(host: Mem, args: seq<Arg>, ins: seq<Val>)
    requires GivenInputs(host, args, ins)
    requires forall i :: 0 <= i < |args| && !args[i].ty.literal ==> args[i].ty.to
    ensures ins == GatherHost(host, args)
  {
  }

  lemma PlainApart(args: seq<Arg>, i: nat, j: nat)
    requires PlainArgs(args) && i < j < |args| && !args[i].ty.literal && !args[j].ty.literal
    ensures SectionsApart(args[i], args[j])
  {
  }

  // Writing an unchanged section back makes no difference.
  lemma {:induction false} WriteBackAll(host: Mem, args: seq<Arg>, outs: seq<seq<Byte>>, k: nat)
    requires k <= |args| == |outs| && PlainArgs(args)
    requires forall i :: 0 <= i < |args| && !args[i].ty.literal ==> |outs[i]| == args[i].size
    requires forall i :: 0 <= i < k && !args[i].ty.literal && !args[i].ty.from ==>
               outs[i] == Read(host, args[i].begin, args[i].size)
    ensures WriteBack(host, args, outs, k, true) == WriteBack(host, args, outs, k, false)
    decreases k
  {
    hide PlainArgs, Read, Write;
    if k > 0 {
      var a := args[k - 1];
      var h1 := if !a.ty.literal && a.ty.from then Write(host, a.begin, outs[k - 1]) else host;
      if !a.ty.literal && !a.ty.from {
        WriteRead(host, a.begin, a.size);
      }
      forall i | 0 <= i < k - 1 && !args[i].ty.literal && !args[i].ty.from
        ensures outs[i] == Read(h1, args[i].begin, args[i].size)
      {
        if !a.ty.literal && a.ty.from {
          PlainApart(args, i, k - 1);
          ReadWriteElsewhere(host, a.begin, outs[k - 1], args[i].begin, args[i].size);
        }
      }
      WriteBackAll(h1, args, outs, k - 1);
    }
  }

  // --------------------------------------------------------------- when begin has failed

  // target_data_end fetches section j of a granted block no further than it was sent, or
  // only bytes that happen to be the host's own.
  ghost predicate Unharmed(p: Plugin, s: Env, args: seq<Arg>, t: Env, j: nat)
    requires j < |args| && ArgsValid(args)
  {
    ToFetch(args[j]) && Tgt(p, s, args, j) != 0 ==>
      forall x :: SentBytes(p, s, args, j) <= x < Extent(FetchAnswer(t, args, j), args[j].size) ==>
        Initial(p, s, args, j)[x] == Read(s.host, args[j].begin, args[j].size)[x]
  }

  // How many bytes of section j were sent.
  function SentBytes(p: Plugin, s: Env, args: seq<Arg>, j: nat): (n: nat)
    requires j < |args| && ArgsValid(args)
  {
    if args[j].ty.to then Moved(StateAt(p, s, args, j), args[j].size) else 0
  }

  // Section j is fetched as the host has it.
  ghost predicate SameBack(p: Plugin, s: Env, args: seq<Arg>, outs: seq<seq<Byte>>, t: Env, j: nat)
    requires j < |args| == |outs| && ArgsValid(args)
  {
    ToFetch(args[j]) && Tgt(p, s, args, j) != 0 ==>
      Got(t, args, j, outs[j]) == Read(s.host, args[j].begin, |Got(t, args, j, outs[j])|)
  }

  lemma {:induction false} FetchedUnchanged(p: Plugin, s: Env, args: seq<Arg>, outs: seq<seq<Byte>>, t: Env, k: nat)
    requires k <= |args| == |outs| && ArgsValid(args)
    requires forall j :: 0 <= j < k ==> SameBack(p, s, args, outs, t, j)
    ensures Fetched(p, s, args, s.host, outs, t, k) == s.host
    decreases k
  {
    hide Tgt, FetchAnswer, Write, Read;
    if k > 0 {
      assert SameBack(p, s, args, outs, t, k - 1);
      WriteRead(s.host, args[k - 1].begin, |Got(t, args, k - 1, outs[k - 1])|);
      FetchedUnchanged(p, s, args, outs, t, k - 1);
    }
  }

  // A byte outside the sections of the first k arguments is not fetched by them.
  lemma {:induction false} FetchedOutside(p: Plugin, s: Env, args: seq<Arg>, host: Mem, outs: seq<seq<Byte>>, t: Env,
                                          k: nat, x: int)
    requires k <= |args| && ArgsValid(args) && Sized(args, outs) && x in host
    requires forall j :: 0 <= j < k && !args[j].ty.literal ==> !InBlock(x, args[j].begin, args[j].size)
    ensures var h := Fetched(p, s, args, host, outs, t, k); x in h && h[x] == host[x]
    decreases k
  {
    hide Tgt, FetchAnswer;
    if k > 0 {
      var h := if ToFetch(args[k - 1]) && Tgt(p, s, args, k - 1) != 0
               then Write(host, args[k - 1].begin, Got(t, args, k - 1, outs[k - 1])) else host;
      FetchedOutside(p, s, args, h, outs, t, k - 1, x);
    }
  }

  // Byte x of a fetched part of section j.
  lemma {:induction false} FetchedAt(p: Plugin, s: Env, args: seq<Arg>, host: Mem, outs: seq<seq<Byte>>, t: Env,
                                     k: nat, j: nat, x: nat)
    requires j < k <= |args| && ArgsValid(args) && Sized(args, outs) && PlainArgs(args)
    requires ToFetch(args[j]) && Tgt(p, s, args, j) != 0 && Allocated(host, args[j].begin, args[j].size)
    requires |outs| == |args| && x < |Got(t, args, j, outs[j])|
    ensures var h := Fetched(p, s, args, host, outs, t, k);
            args[j].begin + x in h && h[args[j].begin + x] == outs[j][x]
    decreases k
  {
    hide Tgt, FetchAnswer, PlainArgs, Allocated;
    SizedParts(args, outs);
    var h := if ToFetch(args[k - 1]) && Tgt(p, s, args, k - 1) != 0
             then Write(host, args[k - 1].begin, Got(t, args, k - 1, outs[k - 1])) else host;
    assert Allocated(h, args[j].begin, args[j].size) by { SameAllocated(host, h, args[j].begin, args[j].size); }
    if j < k - 1 {
      FetchedAt(p, s, args, h, outs, t, k - 1, j, x);
    } else {
      SectionByte(h, args[j], x);
      ClearOfOthers(args, j, x);
      FetchedOutside(p, s, args, h, outs, t, k - 1, args[j].begin + x);
    }
  }

  lemma SectionByte(h: Mem, a: Arg, x: nat)
    requires Allocated(h, a.begin, a.size) && x < a.size
    ensures a.begin + x in h
  {
  }

  lemma ClearOfOthers(args: seq<Arg>, j: nat, x: nat)
    requires j < |args| && PlainArgs(args) && !args[j].ty.literal && x < args[j].size
    ensures forall i :: 0 <= i < j && !args[i].ty.literal ==> !InBlock(args[j].begin + x, args[i].begin, args[i].size)
  {
    forall i | 0 <= i < j && !args[i].ty.literal ensures !InBlock(args[j].begin + x, args[i].begin, args[i].size) {
      PlainApart(args, i, j);
    }
  }

  // So the host is unchanged exactly when every section is fetched as the host has it.
  lemma FetchedSameIff(p: Plugin, s: Env, args: seq<Arg>, outs: seq<seq<Byte>>, t: Env)
    requires ArgsValid(args) && Fresh(s, args) && Sized(args, outs) && |outs| == |args|
    ensures Fetched(p, s, args, s.host, outs, t, |args|) == s.host <==>
            forall j :: 0 <= j < |args| ==> SameBack(p, s, args, outs, t, j)
  {
    hide *;
    if Fetched(p, s, args, s.host, outs, t, |args|) == s.host {
      forall j | 0 <= j < |args| ensures SameBack(p, s, args, outs, t, j) {
        SameBackOf(p, s, args, outs, t, j);
      }
    }
    if forall j :: 0 <= j < |args| ==> SameBack(p, s, args, outs, t, j) {
      FetchedUnchanged(p, s, args, outs, t, |args|);
    }
  }

  lemma SameBackOf(p: Plugin, s: Env, args: seq<Arg>, outs: seq<seq<Byte>>, t: Env, j: nat)
    requires ArgsValid(args) && Fresh(s, args) && Sized(args, outs) && j < |args| == |outs|
    requires Fetched(p, s, args, s.host, outs, t, |args|) == s.host
    ensures SameBack(p, s, args, outs, t, j)
  {
    hide Tgt, FetchAnswer, Fresh, Fetched, Sized;
    if ToFetch(args[j]) && Tgt(p, s, args, j) != 0 {
      var got := Got(t, args, j, outs[j]);
      FreshSection(s, args, j);
      forall x | 0 <= x < |got| ensures got[x] == Read(s.host, args[j].begin, |got|)[x] {
        FetchedAt(p, s, args, s.host, outs, t, |args|, j, x);
      }
    }
  }

  function DeviceContents(p: Plugin, s: Env, args: seq<Arg>, dev: Mem): (r: seq<seq<Byte>>)
    requires ArgsValid(args)
    ensures |r| == |args| && Sized(args, r)
  {
    seq(|args|, j requires 0 <= j < |args| => Read(dev, Tgt(p, s, args, j), args[j].size))
  }

  lemma ContentsLoaded(p: Plugin, s: Env, args: seq<Arg>, dev: Mem, ok: bool)
    requires ArgsValid(args) && Loaded(p, s, args, |args|, dev, ok)
    ensures var outs := DeviceContents(p, s, args, dev);
            && Contents(p, s, args, |args|, dev, outs)
            && forall j :: 0 <= j < |args| && !args[j].ty.literal && Tgt(p, s, args, j) != 0 ==>
                 outs[j] == Load(p, s, args, j)
    ensures forall x :: x in s.dev ==> x in dev && dev[x] == s.dev[x]
    ensures ok <==> forall j :: 0 <= j < |args| ==> SentWhole(p, s, args, j)
  {
    hide Tgt, Load, SentWhole;
  }

  lemma UnharmedIsSame(p: Plugin, s: Env, args: seq<Arg>, outs: seq<seq<Byte>>, t: Env, j: nat)
    requires ArgsValid(args) && j < |args| == |outs| && StateAt(p, s, args, j).host == s.host
    requires !args[j].ty.literal && Tgt(p, s, args, j) != 0 ==> outs[j] == Load(p, s, args, j)
    ensures Unharmed(p, s, args, t, j) <==> SameBack(p, s, args, outs, t, j)
  {
    hide Tgt, FetchAnswer, StateAt, Initial, Moved;
    if ToFetch(args[j]) && Tgt(p, s, args, j) != 0 {
      var a, got, sent := args[j], Got(t, args, j, outs[j]), SentBytes(p, s, args, j);
      var own := Read(s.host, a.begin, a.size);
      assert forall x :: 0 <= x < sent ==> outs[j][x] == own[x];
      assert forall x :: sent <= x < a.size ==> outs[j][x] == Initial(p, s, args, j)[x];
      ReadPrefix(s.host, a.begin, a.size, |got|);
    }
  }

  // When begin fails, target() fails, and target_data_end still copies the FROM sections
  // back: the device is restored, and the host is unharmed if and only if no section is
  // fetched further than it was sent (or only bytes equal to the host's own).
  lemma FailedBegin(p: Plugin, k: Kernel, s: Env, args: seq<Arg>)
    requires ArgsValid(args) && Fresh(s, args) && Honest(p) && !DataBegin(p, s, args).1
    ensures !Target(p, k, s, args).1 && DeviceRestored(s, Target(p, k, s, args).0)
    ensures Target(p, k, s, args).0.host == s.host <==>
            forall j :: 0 <= j < |args| ==> Unharmed(p, s, args, DataBegin(p, s, args).0, j)
  {
    var t, ok := StateAt(p, s, args, |args|), BeginFirst(p, s, args, |args|).1;
    assert DataBegin(p, s, args).0 == t by { RegionEnds(p, s, args, t); }
    assert Target(p, k, s, args) == (DataEnd(t, args).0, false) by { hide DataBegin, DataEnd; }
    hide *;
    BeginFresh(p, s, args, |args|);
    BegunParts(p, s, args, |args|, t, ok);
    BegunShaped(p, s, args, ok);
    ContentsLoaded(p, s, args, t.dev, ok);
    var outs := DeviceContents(p, s, args, t.dev);
    EndRestores(p, s, args, t, outs);
    FetchedSameIff(p, s, args, outs, t);
    forall j | 0 <= j < |args| ensures Unharmed(p, s, args, t, j) <==> SameBack(p, s, args, outs, t, j) {
      BeginFresh(p, s, args, j);
      BegunParts(p, s, args, j, StateAt(p, s, args, j), BeginFirst(p, s, args, j).1);
      UnharmedIsSame(p, s, args, outs, t, j);
    }
  }

  // Begin succeeds exactly when every TO section gets a block and is sent in full.
  lemma BeginSucceedsIff(p: Plugin, s: Env, args: seq<Arg>)
    requires ArgsValid(args) && Fresh(s, args) && Honest(p)
    ensures DataBegin(p, s, args).1 <==> forall j :: 0 <= j < |args| ==> SentWhole(p, s, args, j)
  {
    var t, ok := StateAt(p, s, args, |args|), BeginFirst(p, s, args, |args|).1;
    assert ok == DataBegin(p, s, args).1 by { hide BeginFirst; }
    hide *;
    BeginFresh(p, s, args, |args|);
    BegunParts(p, s, args, |args|, t, ok);
    ContentsLoaded(p, s, args, t.dev, ok);
  }

  // Offload transparency: target() succeeds exactly when begin, the kernel and all
  // retrieves do.  Then the host memory is what running the region on the host would have
  // left, and map, shadow pointers, allocations and device memory are back to what they
  // were.  If begin fails they are, too, and FailedBegin's condition decides about the host.
  lemma OffloadTransparency(p: Plugin, k: Kernel, f: Body, s: Env, args: seq<Arg>)
    requires Fresh(s, args) && Honest(p) && Computes(k, f, args) && SentAndFetched(s.host, args, f)
    requires ArgsValid(args)
    ensures var (s', ok) := Target(p, k, s, args);
            var (t, begun) := DataBegin(p, s, args);
            && (begun <==> forall j :: 0 <= j < |args| ==> SentWhole(p, s, args, j))
            && (ok <==> begun && KernelSucceeds(p, k, s, args) && AllFetched(t, args))
            && (ok ==> DeviceRestored(s, s') && s'.host == HostRun(f, s.host, args))
            && (!begun ==> DeviceRestored(s, s'))
            && (!begun ==> (s'.host == s.host <==> forall j :: 0 <= j < |args| ==> Unharmed(p, s, args, t, j)))
  {
    hide *;
    BeginSucceedsIff(p, s, args);
    if DataBegin(p, s, args).1 {
      RegionIsHostRun(p, k, f, s, args);
    } else {
      FailedBegin(p, k, s, args);
    }
  }

  lemma RegionIsHostRun(p: Plugin, k: Kernel, f: Body, s: Env, args: seq<Arg>)
    requires Fresh(s, args) && Honest(p) && Computes(k, f, args) && SentAndFetched(s.host, args, f)
    requires ArgsValid(args) && DataBegin(p, s, args).1
    ensures var (s', ok) := Target(p, k, s, args);
            && (ok <==> KernelSucceeds(p, k, s, args) && AllFetched(DataBegin(p, s, args).0, args))
            && (ok ==> DeviceRestored(s, s') && s'.host == HostRun(f, s.host, args))
  {
    var outs := f(GatherHost(s.host, args));
    assert HostRun(f, s.host, args) == WriteBack(s.host, args, outs, |args|, true);
    hide *;
    AllSent(s.host, args, f);
    assert AllGranted(p, s, args) by { SentGranted(p, s, args); }
    var ins := RegionRun(p, k, f, s, args);
    GivenIsGathered(s.host, args, ins);
    if Target(p, k, s, args).1 {
      AllFetchedWhole(s.host, args, outs, DataBegin(p, s, args).0);
      OutsSized(k, f, s.host, args);
      FreshPlainArgs(s, args);
      WriteBackAll(s.host, args, outs, |args|);
    }
  }

  lemma FreshPlainArgs(s: Env, args: seq<Arg>)
    requires Fresh(s, args)
    ensures PlainArgs(args)
  {
    hide DeviceOk, PlainArgs;
  }

  lemma AllSent(host: Mem, args: seq<Arg>, f: Body)
    requires SentAndFetched(host, args, f)
    ensures forall i :: 0 <= i < |args| && !args[i].ty.literal ==> args[i].ty.to
    ensures |f(GatherHost(host, args))| == |args|
    ensures forall i :: 0 <= i < |args| && !args[i].ty.literal && !args[i].ty.from ==>
              f(GatherHost(host, args))[i] == Read(host, args[i].begin, args[i].size)
  {
    hide GatherHost, Read;
  }

  lemma OutsSized(k: Kernel, f: Body, host: Mem, args: seq<Arg>)
    requires Computes(k, f, args) && |f(GatherHost(host, args))| == |args|
    ensures forall i :: 0 <= i < |args| && !args[i].ty.literal ==> |f(GatherHost(host, args))[i]| == args[i].size
  {
    var ins := GatherHost(host, args);
    assert forall i :: 0 <= i < |args| && !args[i].ty.literal ==> ins[i].Bytes? && |ins[i].s| == args[i].size;
  }

  lemma SentGranted(p: Plugin, s: Env, args: seq<Arg>)
    requires ArgsValid(args) && Fresh(s, args) && Honest(p) && DataBegin(p, s, args).1
    requires forall i :: 0 <= i < |args| && !args[i].ty.literal ==> args[i].ty.to
    ensures AllGranted(p, s, args)
  {
    hide Fresh, Honest, DataBegin, Tgt, StateAt, Sound;
    BeginSucceedsIff(p, s, args);
    forall j | 0 <= j < |args| && !args[j].ty.literal ensures Tgt(p, s, args, j) != 0 {
      assert SentWhole(p, s, args, j);
    }
  }
}
