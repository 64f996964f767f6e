/** What target_data_begin and target_data_end do to both memories. */
module RegionMemory {
  // For a list of by-value arguments and unmapped sections of their own: which block each
  // section gets, what it is loaded with when transfers may fail on the way, and what
  // comes back.

  import opened Memory
  import opened DeviceMap
  import opened DataEnvironment
  import opened MapInverse
  import opened DeviceBlocks
  import opened TransferRuns
  import opened TransferOnce

  // -------------------------------------------------------------------- the arguments

  // A by-value argument or a non-empty section of its own, neither of which asks for its
  // device pointer back.
  predicate PlainArg(a: Arg) {
    && a.ty.memberOf == -1 && a.ty.targetParam && !a.ty.returnParam
    && (a.ty.literal || (!a.ty.isPrivate && !a.ty.ptrAndObj && !a.ty.delete && a.size > 0))
  }

  predicate SectionsApart(a: Arg, b: Arg) {
    a.begin + a.size <= b.begin || b.begin + b.size <= a.begin
  }

  ghost predicate PlainArgs(args: seq<Arg>) {
    && (forall i :: 0 <= i < |args| ==> PlainArg(args[i]))
    && (forall i, j :: 0 <= i < j < |args| && !args[i].ty.literal && !args[j].ty.literal ==>
          SectionsApart(args[i], args[j]))
  }

  // The section is host memory that the map and the shadow pointers know nothing about.
  ghost predicate Unmapped(s: Env, a: Arg) {
    a.ty.literal ||
    (Allocated(s.host, a.begin, a.size) && !Found(s.entries, a.begin, a.size) &&
     InRange(s.shadows, a.begin, a.begin + a.size) == [])
  }

  ghost predicate Fresh(s: Env, args: seq<Arg>) {
    PlainArgs(args) && DeviceOk(s) && forall a :: a in args ==> Unmapped(s, a)
  }

  lemma PlainSection(args: seq<Arg>, i: nat)
    requires PlainArgs(args) && i < |args|
    ensures Begin(args, i) == args[i].begin && Size(args, i) == args[i].size
    ensures !Member(args[i]) && args[i].ty.memberOf < |args|
    ensures args[i].ty.literal || !UsesSlot(args, i)
    ensures Skipped(args[i]) <==> args[i].ty.literal
  {
    if i + 1 < |args| {
      assert PlainArg(args[i + 1]);
    }
    assert PlainArg(args[i]);
  }

  // --------------------------------------------------------------------- mapping them

  // The device address given to argument j; 0 when the allocation was refused.
  function Tgt(p: Plugin, s: Env, args: seq<Arg>, j: nat): int
    requires j < |args| && ArgsValid(args)
  {
    DataAlloc(p, StateAt(p, s, args, j), args[j].size).1
  }

  // The entries made for the first k arguments, newest first.
  function New(p: Plugin, s: Env, args: seq<Arg>, k: nat): (r: Entries)
    requires k <= |args| && ArgsValid(args)
    ensures forall e :: e in r ==>
              exists j :: 0 <= j < k && !args[j].ty.literal && e == NewEntry(p, s, args, j)
  {
    if k == 0 then []
    else if args[k - 1].ty.literal then New(p, s, args, k - 1)
    else [NewEntry(p, s, args, k - 1)] + New(p, s, args, k - 1)
  }

  function NewEntry(p: Plugin, s: Env, args: seq<Arg>, j: nat): Entry
    requires j < |args| && ArgsValid(args)
  {
    Entry(args[j].base, args[j].begin, args[j].begin + args[j].size, Tgt(p, s, args, j), 1)
  }

  lemma NewAbsent(p: Plugin, s: Env, args: seq<Arg>, k: nat)
    requires k < |args| && ArgsValid(args) && Fresh(s, args) && !args[k].ty.literal
    ensures !Found(New(p, s, args, k) + s.entries, args[k].begin, args[k].size)
  {
    hide NewEntry, New, DeviceOk;
    var a, es := args[k], New(p, s, args, k) + s.entries;
    assert Unmapped(s, a);
    forall i | 0 <= i < |es| ensures !Flagged(es[i], a.begin, a.size) {
      if i < |New(p, s, args, k)| {
        var e := es[i];
        assert e in New(p, s, args, k);
        var j :| 0 <= j < k && !args[j].ty.literal && e == NewEntry(p, s, args, j);
        NewEntryRange(p, s, args, j);
        assert SectionsApart(args[j], args[k]);
      } else {
        assert es[i] == s.entries[i - |New(p, s, args, k)|];
        assert Lookup(s.entries, a.begin, a.size) == |s.entries|;
      }
    }
    var i := Lookup(es, a.begin, a.size);
  }

  lemma NewEntryRange(p: Plugin, s: Env, args: seq<Arg>, j: nat)
    requires j < |args| && ArgsValid(args)
    ensures NewEntry(p, s, args, j).begin == args[j].begin
    ensures NewEntry(p, s, args, j).end == args[j].begin + args[j].size
    ensures NewEntry(p, s, args, j).tgt == Tgt(p, s, args, j) && NewEntry(p, s, args, j).count == 1
  {
  }

  // What mapping one absent section does.
  lemma BeginPlain(p: Plugin, s: Env, args: seq<Arg>, i: nat)
    requires i < |args| && PlainArgs(args) && args[i].ty.memberOf < |args| && !args[i].ty.literal
    requires !Found(s.entries, args[i].begin, args[i].size)
    ensures var a := args[i];
            var (s1, tp) := DataAlloc(p, s, a.size);
            var s2 := s1.(entries := [Entry(a.base, a.begin, a.begin + a.size, tp, 1)] + s.entries);
            var o := BeginStep(p, s, args, i);
            (o.env, o.ok) == if a.ty.to then DataSubmit(s2, tp, a.begin, a.size) else (s2, true)
  {
    assert PlainArg(args[i]);
    PlainSection(args, i);
    hide PlainArgs, DataAlloc, DataSubmit, Found, Lookup;
    assert Lookup(s.entries, args[i].begin, args[i].size) == |s.entries| by {
      AbsentLookup(s.entries, args[i].begin, args[i].size);
    }
  }

  lemma AbsentLookup(es: Entries, hp: int, n: nat)
    requires !Found(es, hp, n)
    ensures Lookup(es, hp, n) == |es|
  {
  }

  // The bytes the plugin left in the block of argument j.
  function Initial(p: Plugin, s: Env, args: seq<Arg>, j: nat): (r: seq<Byte>)
    requires j < |args| && ArgsValid(args)
    ensures |r| == args[j].size
  {
    Read(DataAlloc(p, StateAt(p, s, args, j), args[j].size).0.dev, Tgt(p, s, args, j), args[j].size)
  }

  // What a block holds after its section was mapped in state t: as much of the host's
  // section as was sent, then what the block held before.
  function Loading(t: Env, a: Arg, init: seq<Byte>): (r: seq<Byte>)
    requires |init| == a.size
    ensures |r| == a.size
  {
    if a.ty.to then Read(t.host, a.begin, Moved(t, a.size)) + init[Moved(t, a.size)..] else init
  }

  function Load(p: Plugin, s: Env, args: seq<Arg>, j: nat): (r: seq<Byte>)
    requires j < |args| && ArgsValid(args)
    ensures |r| == args[j].size
  {
    Loading(StateAt(p, s, args, j), args[j], Initial(p, s, args, j))
  }

  // Was argument j's section, if it is to be sent, sent in full?
  predicate SentWhole(p: Plugin, s: Env, args: seq<Arg>, j: nat)
    requires j < |args| && ArgsValid(args)
  {
    !args[j].ty.literal && args[j].ty.to ==> Tgt(p, s, args, j) != 0 && Sound(StateAt(p, s, args, j))
  }

  // Device contents of the sections mapped so far, and success so far.
  ghost predicate Loaded(p: Plugin, s: Env, args: seq<Arg>, k: nat, dev: Mem, ok: bool)
    requires k <= |args| && ArgsValid(args)
  {
    && (forall x :: x in s.dev ==> x in dev && dev[x] == s.dev[x])
    && (forall j :: 0 <= j < k && !args[j].ty.literal && Tgt(p, s, args, j) != 0 ==>
          Read(dev, Tgt(p, s, args, j), args[j].size) == Load(p, s, args, j))
    && (ok <==> forall j :: 0 <= j < k ==> SentWhole(p, s, args, j))
  }

  // Blocks of the first k arguments are live and clear of the memory there was before.
  ghost predicate Placed(p: Plugin, s: Env, args: seq<Arg>, k: nat, dev: Mem)
    requires k <= |args| && ArgsValid(args)
  {
    forall j :: 0 <= j < k && !args[j].ty.literal && Tgt(p, s, args, j) != 0 ==>
      Allocated(dev, Tgt(p, s, args, j), args[j].size) &&
      (forall x :: Tgt(p, s, args, j) <= x < Tgt(p, s, args, j) + args[j].size ==> x !in s.dev)
  }

  // How one argument changes device memory: a fresh block at tp, loaded if asked to.
  ghost predicate OneLoaded(t: Env, dev': Mem, a: Arg, tp: int, init: seq<Byte>, ok: bool)
    requires |init| == a.size
  {
    && (tp == 0 ==> dev' == t.dev)
    && (tp != 0 ==>
          && dev'.Keys == t.dev.Keys + Range(tp, a.size)
          && (forall x :: tp <= x < tp + a.size ==> x !in t.dev)
          && (forall x :: x in t.dev ==> dev'[x] == t.dev[x])
          && Read(dev', tp, a.size) == Loading(t, a, init))
    && (ok <==> (a.ty.to ==> tp != 0 && Sound(t)))
  }

  lemma BeginPlainLoads(p: Plugin, s: Env, args: seq<Arg>, i: nat)
    requires i < |args| && PlainArgs(args) && args[i].ty.memberOf < |args| && !args[i].ty.literal
    requires !Found(s.entries, args[i].begin, args[i].size) && Allocated(s.host, args[i].begin, args[i].size)
    requires Honest(p) && BlocksOk(s.dev, s.blocks)
    ensures var o, (s1, tp) := BeginStep(p, s, args, i), DataAlloc(p, s, args[i].size);
            && OneLoaded(s, o.env.dev, args[i], tp, Read(s1.dev, tp, args[i].size), o.ok)
            && o.env.entries == [Entry(args[i].base, args[i].begin, args[i].begin + args[i].size, tp, 1)] + s.entries
            && o.env.host == s.host && o.env.shadows == s.shadows && o.env.answers == s.answers
            && o.env.blocks == if tp == 0 then s.blocks else s.blocks[tp := args[i].size]
  {
    BeginPlain(p, s, args, i);
    var a := args[i];
    var o := BeginStep(p, s, args, i);
    hide BeginStep, Found, BlocksOk;
    var (s1, tp) := DataAlloc(p, s, a.size);
    AllocOutcome(p, s, a.size);
    assert PlainArg(a);
    hide DataAlloc, PlainArgs;
    if tp == 0 {
      assert 0 !in s.dev by { NullUnallocated(s.dev, s.blocks); }
      assert !Allocated(s1.dev, tp, a.size);
    } else if a.ty.to {
      ReadPartWritten(s1.dev, tp, Read(s.host, a.begin, Moved(s, a.size)), a.size);
    }
  }

  // A block whose first bytes were overwritten.
  lemma ReadPartWritten(m: Mem, a: int, s: seq<Byte>, n: nat)
    requires Allocated(m, a, n) && |s| <= n
    ensures Read(Write(m, a, s), a, n) == s + Read(m, a, n)[|s|..]
  {
  }

  lemma NullUnallocated(dev: Mem, blocks: map<int, nat>)
    requires BlocksOk(dev, blocks)
    ensures 0 !in dev
  {
  }

  lemma AllocOutcome(p: Plugin, s: Env, n: nat)
    requires Honest(p)
    ensures var (s1, tp) := DataAlloc(p, s, n);
            && s1 == s.(dev := s1.dev, blocks := s1.blocks, clock := s1.clock)
            && (tp == 0 ==> s1.dev == s.dev && s1.blocks == s.blocks)
            && (tp != 0 ==> s1.dev.Keys == s.dev.Keys + Range(tp, n) && s1.blocks == s.blocks[tp := n]
                            && (forall x :: tp <= x < tp + n ==> x !in s.dev)
                            && (forall x :: x in s.dev ==> s1.dev[x] == s.dev[x]))
  {
    var r := p.alloc(s.clock, s.dev, n);
    if r.Block? {
      var b := NewBlock(r.addr, r.contents);
      assert (s.dev + b).Keys == s.dev.Keys + b.Keys;
    }
  }

  lemma LoadedStep(p: Plugin, s: Env, args: seq<Arg>, k: nat, t: Env, ok: bool, dev': Mem, ok1: bool)
    requires k < |args| && ArgsValid(args) && !args[k].ty.literal && t == StateAt(p, s, args, k)
    requires Loaded(p, s, args, k, t.dev, ok) && Placed(p, s, args, k, t.dev)
    requires OneLoaded(t, dev', args[k], Tgt(p, s, args, k), Initial(p, s, args, k), ok1)
    ensures Loaded(p, s, args, k + 1, dev', ok && ok1) && Placed(p, s, args, k + 1, dev')
  {
    hide Tgt, Initial, StateAt, Loading, Sound;
    assert Load(p, s, args, k) == Loading(t, args[k], Initial(p, s, args, k));
    assert ok1 == SentWhole(p, s, args, k);
    hide Load, SentWhole;
    forall j | 0 <= j < k + 1 && !args[j].ty.literal && Tgt(p, s, args, j) != 0
      ensures Allocated(dev', Tgt(p, s, args, j), args[j].size)
      ensures forall x :: Tgt(p, s, args, j) <= x < Tgt(p, s, args, j) + args[j].size ==> x !in s.dev
      ensures Read(dev', Tgt(p, s, args, j), args[j].size) == Load(p, s, args, j)
    {
      if j < k {
        SameRead(t.dev, dev', Tgt(p, s, args, j), args[j].size);
      }
    }
  }

  lemma SameRead(m: Mem, m': Mem, a: int, n: nat)
    requires Allocated(m, a, n) && forall x :: x in m ==> x in m' && m'[x] == m[x]
    ensures Read(m', a, n) == Read(m, a, n)
  {
  }

  lemma LoadedSkip(p: Plugin, s: Env, args: seq<Arg>, k: nat, dev: Mem, ok: bool)
    requires k < |args| && ArgsValid(args) && args[k].ty.literal
    requires Loaded(p, s, args, k, dev, ok) && Placed(p, s, args, k, dev)
    ensures Loaded(p, s, args, k + 1, dev, ok) && Placed(p, s, args, k + 1, dev)
  {
    hide Tgt, Load, StateAt;
  }

  // The state after the first k arguments of a fresh list.
  ghost predicate Begun(p: Plugin, s: Env, args: seq<Arg>, k: nat, t: Env, ok: bool)
    requires k <= |args| && ArgsValid(args)
  {
    && t.entries == New(p, s, args, k) + s.entries && t.host == s.host && t.shadows == s.shadows
    && t.answers == s.answers && DeviceOk(t) && Loaded(p, s, args, k, t.dev, ok) && Placed(p, s, args, k, t.dev)
  }

  lemma {:induction false} BeginFresh(p: Plugin, s: Env, args: seq<Arg>, k: nat)
    requires k <= |args| && ArgsValid(args) && Fresh(s, args) && Honest(p)
    ensures Begun(p, s, args, k, StateAt(p, s, args, k), BeginFirst(p, s, args, k).1)
  {
    hide *;
    if k == 0 {
      BegunZero(p, s, args);
    } else {
      BeginFresh(p, s, args, k - 1);
      BeginFreshStep(p, s, args, k - 1);
    }
  }

  lemma BegunZero(p: Plugin, s: Env, args: seq<Arg>)
    requires ArgsValid(args) && Fresh(s, args)
    ensures Begun(p, s, args, 0, StateAt(p, s, args, 0), BeginFirst(p, s, args, 0).1)
  {
    hide DeviceOk, Unmapped, PlainArgs;
    assert [] + s.entries == s.entries;
  }

  lemma BeginFreshStep(p: Plugin, s: Env, args: seq<Arg>, k: nat)
    requires k < |args| && ArgsValid(args) && Fresh(s, args) && Honest(p)
    requires Begun(p, s, args, k, StateAt(p, s, args, k), BeginFirst(p, s, args, k).1)
    ensures Begun(p, s, args, k + 1, StateAt(p, s, args, k + 1), BeginFirst(p, s, args, k + 1).1)
  {
    hide *;
    var t, ok := StateAt(p, s, args, k), BeginFirst(p, s, args, k).1;
    AtNext(p, s, args, k);
    NextParts(p, s, args, k);
    var o := BeginStep(p, t, args, k);
    BegunParts(p, s, args, k, t, ok);
    BeginStepOk(p, t, args, k);
    FreshPlain(s, args, k);
    PlainSection(args, k);
    if args[k].ty.literal {
      SkippedBegin(p, t, args, k);
      LoadedSkip(p, s, args, k, t.dev, ok);
    } else {
      FreshSection(s, args, k);
      NewAbsent(p, s, args, k);
      DeviceOkBlocks(t);
      BeginPlainLoads(p, t, args, k);
      LoadedStep(p, s, args, k, t, ok, o.env.dev, o.ok);
      ConsAssoc(NewEntry(p, s, args, k), New(p, s, args, k), s.entries);
    }
    BegunIntro(p, s, args, k + 1, o.env, ok && o.ok);
  }

  lemma ConsAssoc<T>(e: T, a: seq<T>, b: seq<T>)
    ensures [e] + (a + b) == [e] + a + b
  {
  }

  // Definitions at the next argument.
  lemma NextParts(p: Plugin, s: Env, args: seq<Arg>, k: nat)
    requires k < |args| && ArgsValid(args)
    ensures args[k].ty.memberOf < |args|
    ensures BeginFirst(p, s, args, k + 1).1 ==
            (BeginFirst(p, s, args, k).1 && BeginStep(p, StateAt(p, s, args, k), args, k).ok)
    ensures New(p, s, args, k + 1) ==
            if args[k].ty.literal then New(p, s, args, k) else [NewEntry(p, s, args, k)] + New(p, s, args, k)
    ensures NewEntry(p, s, args, k) ==
            Entry(args[k].base, args[k].begin, args[k].begin + args[k].size, Tgt(p, s, args, k), 1)
    ensures Tgt(p, s, args, k) == DataAlloc(p, StateAt(p, s, args, k), args[k].size).1
    ensures Initial(p, s, args, k) ==
            Read(DataAlloc(p, StateAt(p, s, args, k), args[k].size).0.dev, Tgt(p, s, args, k), args[k].size)
  {
    hide BeginStep, DataAlloc;
    assert args[k] in args;
  }

  lemma BegunIntro(p: Plugin, s: Env, args: seq<Arg>, k: nat, t: Env, ok: bool)
    requires k <= |args| && ArgsValid(args)
    requires t.entries == New(p, s, args, k) + s.entries && t.host == s.host && t.shadows == s.shadows
    requires t.answers == s.answers && DeviceOk(t)
    requires Loaded(p, s, args, k, t.dev, ok) && Placed(p, s, args, k, t.dev)
    ensures Begun(p, s, args, k, t, ok)
  {
  }

  lemma SkippedBegin(p: Plugin, s: Env, args: seq<Arg>, i: nat)
    requires i < |args| && args[i].ty.memberOf < |args| && Skipped(args[i])
    ensures BeginStep(p, s, args, i).env == s && BeginStep(p, s, args, i).ok
  {
  }

  lemma FreshSection(s: Env, args: seq<Arg>, k: nat)
    requires Fresh(s, args) && k < |args| && !args[k].ty.literal
    ensures Allocated(s.host, args[k].begin, args[k].size) && !Found(s.entries, args[k].begin, args[k].size)
    ensures InRange(s.shadows, args[k].begin, args[k].begin + args[k].size) == [] && args[k].size > 0
    ensures PlainArgs(args)
  {
    hide DeviceOk;
    assert args[k] in args && PlainArg(args[k]);
    assert Unmapped(s, args[k]);
  }

  lemma FreshPlain(s: Env, args: seq<Arg>, k: nat)
    requires Fresh(s, args) && k < |args|
    ensures PlainArg(args[k]) && PlainArgs(args)
  {
    hide DeviceOk;
  }

  lemma DeviceOkBlocks(s: Env)
    requires DeviceOk(s)
    ensures BlocksOk(s.dev, s.blocks) && WellFormed(s.entries)
  {
    hide BlocksOk, WellFormed;
  }

  // ------------------------------------------------------------------- unmapping them

  lemma {:induction false} NothingDropped(sh: seq<Shadow>, lb: int, ub: int)
    requires InRange(sh, lb, ub) == []
    ensures OutOfRange(sh, lb, ub) == sh
  {
    if sh != [] {
      NothingDropped(sh[1..], lb, ub);
    }
  }

  // What unmapping a section does when its own entry is in front with count 1.
  lemma EndPlain(t: Env, args: seq<Arg>, i: nat, es: Entries, tp: int)
    requires i < |args| && PlainArgs(args) && args[i].ty.memberOf < |args| && !args[i].ty.literal
    requires var a := args[i]; t.entries == [Entry(a.base, a.begin, a.begin + a.size, tp, 1)] + es
    requires InRange(t.shadows, args[i].begin, args[i].begin + args[i].size) == []
    ensures var a := args[i];
            var (t1, ok) := if a.ty.from then DataRetrieve(t, a.begin, tp, a.size) else (t, true);
            EndStep(t, args, i) == (DataDelete(t1, tp).(entries := es), ok)
  {
    var a := args[i];
    assert PlainArg(a);
    PlainSection(args, i);
    hide PlainArgs;
    assert Lookup(t.entries, a.begin, a.size) == 0 by {
      assert Contained(t.entries[0], a.begin, a.size);
    }
    assert Remove(t.entries, 0) == es;
    NothingDropped(t.shadows, a.begin, a.begin + a.size);
    hide Lookup, InRange, OutOfRange, DataDelete, DataRetrieve;
    var (s1, tp1, isLast) := GetTgtPtr(t, a.begin, a.size, true);
    assert s1 == t && tp1 == tp && isLast;
    var s2 := CopyOut(t, args, i, tp, true);
    assert s2 == if a.ty.from then DataRetrieve(t, a.begin, tp, a.size) else (t, true);
  }

  // t has the shape of the state after k arguments; only contents may differ.
  ghost predicate Shaped(p: Plugin, s: Env, args: seq<Arg>, k: nat, t: Env)
    requires k <= |args| && ArgsValid(args)
  {
    && t.entries == New(p, s, args, k) + s.entries && t.shadows == s.shadows
    && t.blocks == StateAt(p, s, args, k).blocks && t.dev.Keys == StateAt(p, s, args, k).dev.Keys
    && t.host.Keys == s.host.Keys
  }

  // outs are the device contents of the granted sections.
  ghost predicate Contents(p: Plugin, s: Env, args: seq<Arg>, k: nat, dev: Mem, outs: seq<seq<Byte>>)
    requires k <= |args| && ArgsValid(args)
  {
    && |outs| == |args|
    && forall j :: 0 <= j < k && !args[j].ty.literal && Tgt(p, s, args, j) != 0 ==>
         outs[j] == Read(dev, Tgt(p, s, args, j), args[j].size)
  }

  predicate ToFetch(a: Arg) {
    !a.ty.literal && a.ty.from
  }

  // How many of the arguments from j on are fetched.
  function FetchCount(args: seq<Arg>, j: nat): (n: nat)
    requires j <= |args|
    decreases |args| - j
  {
    if j == |args| then 0 else FetchCount(args, j + 1) + if ToFetch(args[j]) then 1 else 0
  }

  // The plugin's answer to the retrieve of argument j when target_data_end starts in t;
  // the arguments after j are fetched before it.
  function FetchAnswer(t: Env, args: seq<Arg>, j: nat): Answer
    requires j < |args|
  {
    t.answers(|t.log| + FetchCount(args, j + 1))
  }

  // The part of out that the retrieve of argument j copies.
  function Got(t: Env, args: seq<Arg>, j: nat, out: seq<Byte>): (r: seq<Byte>)
    requires j < |args|
    ensures r <= out && (FetchAnswer(t, args, j).Whole? ==> r == out)
  {
    out[..Extent(FetchAnswer(t, args, j), |out|)]
  }

  // t, reached from t0 by unmapping arguments |args|-1 down to k, has made their retrieves.
  ghost predicate Ending(t0: Env, t: Env, args: seq<Arg>, k: nat)
    requires k <= |args|
  {
    t.answers == t0.answers && |t.log| == |t0.log| + FetchCount(args, k)
  }

  // The host after arguments k-1 down to 0 are fetched.
  function Fetched(p: Plugin, s: Env, args: seq<Arg>, host: Mem, outs: seq<seq<Byte>>, t0: Env, k: nat): Mem
    requires k <= |args| == |outs| && ArgsValid(args)
    decreases k
  {
    if k == 0 then host else
    Fetched(p, s, args,
            if ToFetch(args[k - 1]) && Tgt(p, s, args, k - 1) != 0
            then Write(host, args[k - 1].begin, Got(t0, args, k - 1, outs[k - 1])) else host,
            outs, t0, k - 1)
  }

  // Was argument j's section, if it is to be fetched, fetched in full?
  predicate FetchedWhole(p: Plugin, s: Env, args: seq<Arg>, t0: Env, j: nat)
    requires j < |args| && ArgsValid(args)
  {
    ToFetch(args[j]) ==> Tgt(p, s, args, j) != 0 && FetchAnswer(t0, args, j).Whole?
  }

  lemma LiveBlockAllocated(dev: Mem, blocks: map<int, nat>)
    requires BlocksOk(dev, blocks)
    ensures forall b :: b in blocks ==> b in dev
  {
  }

  // How releasing one block changes the allocation.
  lemma Released(p: Plugin, s: Env, args: seq<Arg>, k: nat, t: Env)
    requires k < |args| && ArgsValid(args) && Fresh(s, args) && Honest(p) && !args[k].ty.literal
    requires t.blocks == StateAt(p, s, args, k + 1).blocks && t.dev.Keys == StateAt(p, s, args, k + 1).dev.Keys
    ensures var tp := Tgt(p, s, args, k);
            var t' := DataDelete(t, tp);
            && t'.blocks == StateAt(p, s, args, k).blocks && t'.dev.Keys == StateAt(p, s, args, k).dev.Keys
            && (forall x :: x in t'.dev ==> t'.dev[x] == t.dev[x])
            && (tp != 0 ==> Allocated(t.dev, tp, args[k].size))
            && (tp == 0 ==> 0 !in t.dev)
  {
    var sk, tp := StateAt(p, s, args, k), Tgt(p, s, args, k);
    assert tp == DataAlloc(p, sk, args[k].size).1;
    hide *;
    assert args[k].ty.memberOf < |args| by { AtNext(p, s, args, k); }
    BeginFresh(p, s, args, k);
    BegunParts(p, s, args, k, sk, BeginFirst(p, s, args, k).1);
    FreshSection(s, args, k);
    NewAbsent(p, s, args, k);
    assert BlocksOk(sk.dev, sk.blocks) by { BegunBlocksOk(p, s, args, k, sk, BeginFirst(p, s, args, k).1); }
    BeginPlainLoads(p, sk, args, k);
    AtNext(p, s, args, k);
    var sn := StateAt(p, s, args, k + 1);
    LiveBlockAllocated(sk.dev, sk.blocks);
    NullUnallocated(sk.dev, sk.blocks);
    ReleasedBlock(sk, sn, t, args[k], tp, Read(DataAlloc(p, sk, args[k].size).0.dev, tp, args[k].size),
                  BeginStep(p, sk, args, k).ok);
  }

  lemma BegunBlocksOk(p: Plugin, s: Env, args: seq<Arg>, k: nat, t: Env, ok: bool)
    requires k <= |args| && ArgsValid(args) && Begun(p, s, args, k, t, ok)
    ensures BlocksOk(t.dev, t.blocks)
  {
    hide WellFormed, BlocksOk, Loaded, Placed, New;
  }

  lemma ReleasedBlock(sk: Env, sn: Env, t: Env, a: Arg, tp: int, init: seq<Byte>, ok: bool)
    requires |init| == a.size && OneLoaded(sk, sn.dev, a, tp, init, ok) && a.size > 0
    requires sn.blocks == if tp == 0 then sk.blocks else sk.blocks[tp := a.size]
    requires t.blocks == sn.blocks && t.dev.Keys == sn.dev.Keys
    requires 0 !in sk.dev && forall b :: b in sk.blocks ==> b in sk.dev
    ensures var t' := DataDelete(t, tp);
            && t'.blocks == sk.blocks && t'.dev.Keys == sk.dev.Keys
            && (forall x :: x in t'.dev ==> t'.dev[x] == t.dev[x])
            && (tp != 0 ==> Allocated(t.dev, tp, a.size))
            && (tp == 0 ==> 0 !in t.dev)
  {
    if tp != 0 {
      assert tp in Range(tp, a.size);
      assert tp !in sk.dev;
      assert t.blocks - {tp} == sk.blocks;
    } else {
      assert 0 !in sk.blocks;
    }
  }

  lemma ContentsShrink(p: Plugin, s: Env, args: seq<Arg>, k: nat, dev: Mem, dev': Mem, outs: seq<seq<Byte>>)
    requires k < |args| && ArgsValid(args) && Contents(p, s, args, k + 1, dev, outs)
    requires dev'.Keys == StateAt(p, s, args, k).dev.Keys && Placed(p, s, args, k, StateAt(p, s, args, k).dev)
    requires forall x :: x in dev' ==> x in dev && dev'[x] == dev[x]
    ensures Contents(p, s, args, k, dev', outs)
  {
    hide Tgt;
    forall j | 0 <= j < k && !args[j].ty.literal && Tgt(p, s, args, j) != 0
      ensures outs[j] == Read(dev', Tgt(p, s, args, j), args[j].size)
    {
      SameRead(dev', dev, Tgt(p, s, args, j), args[j].size);
    }
  }

  lemma BegunParts(p: Plugin, s: Env, args: seq<Arg>, k: nat, t: Env, ok: bool)
    requires k <= |args| && ArgsValid(args) && Begun(p, s, args, k, t, ok)
    ensures Placed(p, s, args, k, t.dev) && Loaded(p, s, args, k, t.dev, ok) && t.answers == s.answers && DeviceOk(t)
    ensures t.entries == New(p, s, args, k) + s.entries && t.host == s.host && t.shadows == s.shadows
  {
  }

  lemma EndFreshStep(p: Plugin, s: Env, args: seq<Arg>, k: nat, t: Env, outs: seq<seq<Byte>>, t0: Env)
    requires k < |args| && ArgsValid(args) && Fresh(s, args) && Honest(p) && Ending(t0, t, args, k + 1)
    requires Shaped(p, s, args, k + 1, t) && Contents(p, s, args, k + 1, t.dev, outs) && Sized(args, outs)
    ensures args[k].ty.memberOf < |args|
    ensures var (t', ok) := EndStep(t, args, k);
            && Shaped(p, s, args, k, t') && Contents(p, s, args, k, t'.dev, outs) && Ending(t0, t', args, k)
            && (forall x :: x in t'.dev ==> x in t.dev && t'.dev[x] == t.dev[x])
            && t'.host == (if ToFetch(args[k]) && Tgt(p, s, args, k) != 0
                           then Write(t.host, args[k].begin, Got(t0, args, k, outs[k])) else t.host)
            && ok == FetchedWhole(p, s, args, t0, k)
  {
    hide *;
    assert args[k].ty.memberOf < |args| by { AtNext(p, s, args, k); }
    BeginFresh(p, s, args, k);
    BegunParts(p, s, args, k, StateAt(p, s, args, k), BeginFirst(p, s, args, k).1);
    ShapedParts(p, s, args, k + 1, t);
    if args[k].ty.literal {
      EndFreshLiteral(p, s, args, k, t, outs, t0);
    } else {
      Released(p, s, args, k, t);
      EndFreshMapped(p, s, args, k, t, outs, t0);
    }
  }

  ghost predicate Sized(args: seq<Arg>, outs: seq<seq<Byte>>) {
    |outs| == |args| && forall i :: 0 <= i < |args| && !args[i].ty.literal ==> |outs[i]| == args[i].size
  }

  lemma ShapedParts(p: Plugin, s: Env, args: seq<Arg>, k: nat, t: Env)
    requires k <= |args| && ArgsValid(args) && Shaped(p, s, args, k, t)
    ensures t.entries == New(p, s, args, k) + s.entries && t.shadows == s.shadows
    ensures t.blocks == StateAt(p, s, args, k).blocks && t.dev.Keys == StateAt(p, s, args, k).dev.Keys
    ensures t.host.Keys == s.host.Keys
  {
    hide StateAt, New;
  }

  lemma ShapedIntro(p: Plugin, s: Env, args: seq<Arg>, k: nat, t: Env)
    requires k <= |args| && ArgsValid(args)
    requires t.entries == New(p, s, args, k) + s.entries && t.shadows == s.shadows
    requires t.blocks == StateAt(p, s, args, k).blocks && t.dev.Keys == StateAt(p, s, args, k).dev.Keys
    requires t.host.Keys == s.host.Keys
    ensures Shaped(p, s, args, k, t)
  {
    hide StateAt, New;
  }

  lemma EndFreshLiteral(p: Plugin, s: Env, args: seq<Arg>, k: nat, t: Env, outs: seq<seq<Byte>>, t0: Env)
    requires k < |args| && ArgsValid(args) && args[k].ty.literal && args[k].ty.memberOf < |args|
    requires Shaped(p, s, args, k + 1, t) && Contents(p, s, args, k + 1, t.dev, outs)
    requires Placed(p, s, args, k, StateAt(p, s, args, k).dev) && Ending(t0, t, args, k + 1)
    ensures EndStep(t, args, k) == (t, true) && Shaped(p, s, args, k, t) && Contents(p, s, args, k, t.dev, outs)
    ensures Ending(t0, t, args, k) && !ToFetch(args[k]) && FetchedWhole(p, s, args, t0, k)
  {
    EndStepLiteral(t, args, k);
    SkippedBegin(p, StateAt(p, s, args, k), args, k);
    AtNext(p, s, args, k);
    hide StateAt, EndStep, Placed, Tgt, FetchAnswer;
  }

  // Unmapping one argument whose block is at tp.
  lemma EndFreshMapped(p: Plugin, s: Env, args: seq<Arg>, k: nat, t: Env, outs: seq<seq<Byte>>, t0: Env)
    requires k < |args| && ArgsValid(args) && Fresh(s, args) && !args[k].ty.literal && args[k].ty.memberOf < |args|
    requires Shaped(p, s, args, k + 1, t) && Contents(p, s, args, k + 1, t.dev, outs) && Sized(args, outs)
    requires Placed(p, s, args, k, StateAt(p, s, args, k).dev) && Ending(t0, t, args, k + 1)
    requires var tp := Tgt(p, s, args, k);
             var t' := DataDelete(t, tp);
             && t'.blocks == StateAt(p, s, args, k).blocks && t'.dev.Keys == StateAt(p, s, args, k).dev.Keys
             && (forall x :: x in t'.dev ==> t'.dev[x] == t.dev[x])
             && (tp != 0 ==> Allocated(t.dev, tp, args[k].size))
             && (tp == 0 ==> 0 !in t.dev)
    ensures var (t', ok) := EndStep(t, args, k);
            && Shaped(p, s, args, k, t') && Contents(p, s, args, k, t'.dev, outs) && Ending(t0, t', args, k)
            && (forall x :: x in t'.dev ==> x in t.dev && t'.dev[x] == t.dev[x])
            && t'.host == (if ToFetch(args[k]) && Tgt(p, s, args, k) != 0
                           then Write(t.host, args[k].begin, Got(t0, args, k, outs[k])) else t.host)
            && ok == FetchedWhole(p, s, args, t0, k)
  {
    hide *;
    var a, tp, es := args[k], Tgt(p, s, args, k), New(p, s, args, k) + s.entries;
    NewHead(p, s, args, k);
    FreshSection(s, args, k);
    ShapedParts(p, s, args, k + 1, t);
    EndPlain(t, args, k, es, tp);
    var t1 := if a.ty.from then DataRetrieve(t, a.begin, tp, a.size).0 else t;
    assert Allocated(t.host, a.begin, a.size) by { SameAllocated(s.host, t.host, a.begin, a.size); }
    ContentsAt(p, s, args, k, t.dev, outs, tp);
    RetrieveHost(t, args, k, tp, t0, outs[k]);
    DeleteSame(t, t1, tp);
    var t' := EndStep(t, args, k).0;
    ShapedIntro(p, s, args, k, t');
    ContentsShrink(p, s, args, k, t.dev, t'.dev, outs);
    FetchedWholeIs(p, s, args, t0, k);
    assert Ending(t0, t', args, k) by { EndingKept(t0, t1, t', args, k); }
  }

  lemma EndingKept(t0: Env, t1: Env, t': Env, args: seq<Arg>, k: nat)
    requires k < |args| && Ending(t0, t1, args, k) && t'.answers == t1.answers && t'.log == t1.log
    ensures Ending(t0, t', args, k)
  {
  }

  lemma FetchedWholeIs(p: Plugin, s: Env, args: seq<Arg>, t0: Env, k: nat)
    requires k < |args| && ArgsValid(args) && !args[k].ty.literal
    ensures ToFetch(args[k]) <==> args[k].ty.from
    ensures FetchedWhole(p, s, args, t0, k) <==>
            (args[k].ty.from ==> Tgt(p, s, args, k) != 0 && FetchAnswer(t0, args, k).Whole?)
  {
    hide Tgt, FetchAnswer;
  }

  lemma ContentsAt(p: Plugin, s: Env, args: seq<Arg>, k: nat, dev: Mem, outs: seq<seq<Byte>>, tp: int)
    requires k < |args| && ArgsValid(args) && Contents(p, s, args, k + 1, dev, outs) && !args[k].ty.literal
    requires tp == Tgt(p, s, args, k) && Sized(args, outs)
    ensures |outs| == |args| && |outs[k]| == args[k].size
    ensures tp != 0 ==> outs[k] == Read(dev, tp, args[k].size)
  {
    hide Tgt;
  }

  lemma SameAllocated(m: Mem, m': Mem, a: int, n: nat)
    requires Allocated(m, a, n) && m.Keys == m'.Keys
    ensures Allocated(m', a, n)
  {
  }

  lemma NewHead(p: Plugin, s: Env, args: seq<Arg>, k: nat)
    requires k < |args| && ArgsValid(args) && !args[k].ty.literal
    ensures New(p, s, args, k + 1) + s.entries ==
            [Entry(args[k].base, args[k].begin, args[k].begin + args[k].size, Tgt(p, s, args, k), 1)] +
            (New(p, s, args, k) + s.entries)
  {
  }

  // The transfer back of argument k, if there is one.
  lemma RetrieveHost(t: Env, args: seq<Arg>, k: nat, tp: int, t0: Env, out: seq<Byte>)
    requires k < |args| && Ending(t0, t, args, k + 1) && !args[k].ty.literal && |out| == args[k].size > 0
    requires Allocated(t.host, args[k].begin, args[k].size)
    requires if tp == 0 then 0 !in t.dev else Allocated(t.dev, tp, args[k].size) && out == Read(t.dev, tp, args[k].size)
    ensures var a := args[k];
            var (t1, ok) := if a.ty.from then DataRetrieve(t, a.begin, tp, a.size) else (t, true);
            && t1.dev == t.dev && t1.blocks == t.blocks && t1.shadows == t.shadows && Ending(t0, t1, args, k)
            && t1.host == (if a.ty.from && tp != 0 then Write(t.host, a.begin, Got(t0, args, k, out)) else t.host)
            && (ok <==> (a.ty.from ==> tp != 0 && FetchAnswer(t0, args, k).Whole?))
            && t1.host.Keys == t.host.Keys
  {
    var a := args[k];
    if tp == 0 {
      assert !Allocated(t.dev, tp, a.size);
    } else {
      ReadPrefix(t.dev, tp, a.size, Moved(t, a.size));
    }
  }

  lemma ReadPrefix(m: Mem, a: int, n: nat, k: nat)
    requires k <= n
    ensures Read(m, a, n)[..k] == Read(m, a, k)
  {
  }

  lemma DeleteSame(t: Env, t1: Env, tp: int)
    requires t1.dev == t.dev && t1.blocks == t.blocks
    ensures DataDelete(t1, tp).dev == DataDelete(t, tp).dev && DataDelete(t1, tp).blocks == DataDelete(t, tp).blocks
    ensures DataDelete(t1, tp).host == t1.host && DataDelete(t1, tp).shadows == t1.shadows
    ensures DataDelete(t1, tp).log == t1.log && DataDelete(t1, tp).answers == t1.answers
    ensures DataDelete(t1, tp).dev.Keys <= t.dev.Keys
  {
  }

  lemma EndStepLiteral(t: Env, args: seq<Arg>, i: nat)
    requires i < |args| && args[i].ty.memberOf < |args| && args[i].ty.literal
    ensures EndStep(t, args, i) == (t, true)
  {
  }

  lemma {:induction false} EndFresh(p: Plugin, s: Env, args: seq<Arg>, k: nat, t: Env, outs: seq<seq<Byte>>, t0: Env)
    requires k <= |args| && ArgsValid(args) && Fresh(s, args) && Honest(p) && Ending(t0, t, args, k)
    requires Shaped(p, s, args, k, t) && Contents(p, s, args, k, t.dev, outs) && Sized(args, outs)
    ensures var (t', ok) := EndFirst(t, args, k);
            && Shaped(p, s, args, 0, t')
            && (forall x :: x in t'.dev ==> x in t.dev && t'.dev[x] == t.dev[x])
            && t'.host == Fetched(p, s, args, t.host, outs, t0, k)
            && (ok <==> forall j :: 0 <= j < k ==> FetchedWhole(p, s, args, t0, j))
    decreases k
  {
    hide Fresh, Shaped, Contents, EndStep, Honest, Tgt, Ending, FetchedWhole, ToFetch, FetchAnswer, Got, Write, Sized;
    if k > 0 {
      EndFreshStep(p, s, args, k - 1, t, outs, t0);
      EndNextBoth(t, args, k);
      EndFresh(p, s, args, k - 1, EndStep(t, args, k - 1).0, outs, t0);
    }
  }

  lemma EndNextBoth(t: Env, args: seq<Arg>, k: nat)
    requires 0 < k <= |args| && ArgsValid(args)
    ensures args[k - 1].ty.memberOf < |args|
    ensures var (t', ok) := EndStep(t, args, k - 1);
            var r := EndFirst(t', args, k - 1);
            EndFirst(t, args, k) == (r.0, ok && r.1)
  {
    hide EndStep;
    assert args[k - 1] in args;
  }
}
