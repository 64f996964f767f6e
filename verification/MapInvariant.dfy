/** What every reachable map satisfies. */
module MapInvariant {
  // Entries are disjoint and non-empty, counts positive, infinite counts recognisable.
  // A run is a sequence of the four operations that change the entry list; mapping an
  // argument is one or two of them, unmapping one is one of them; target() adds one for
  // each private copy and one for its forced release.

  import opened Memory
  import opened DeviceMap
  import opened DataEnvironment
  import opened MapInverse
  import opened TargetRegion

  datatype MapOp =
    | MapIt(hp: int, base: int, n: nat, tgt: int, implicit: bool, update: bool)
    | UnmapIt(hp: int, n: nat, plain: bool, force: bool)
    | AssociateIt(hp: int, tgt: int, n: nat)
    | DisassociateIt(hp: int)

  // Association compares begin addresses only, so a caller must not associate a range
  // that overlaps an entry with another begin address.
  predicate Legal(es: Entries, op: MapOp) {
    op.AssociateIt? ==> op.n > 0 && (FindBegin(es, op.hp) == |es| ==> !Found(es, op.hp, op.n))
  }

  function Apply(es: Entries, op: MapOp): Entries {
    match op
    case MapIt(hp, base, n, tgt, implicit, update) => MapSection(es, hp, base, n, tgt, implicit, update)
    case UnmapIt(hp, n, plain, force) => UnmapSection(es, hp, n, plain, force)
    case AssociateIt(hp, tgt, n) => Associate(es, hp, tgt, n).0
    case DisassociateIt(hp) => Disassociate(es, hp).0
  }

  function Begins(es: Entries): (b: set<int>)
    ensures forall x :: x in b <==> exists e :: e in es && e.begin == x
  {
    set e | e in es :: e.begin
  }

  // Which begin addresses belong to entries made by association.
  function Owned(es: Entries, owned: set<int>, op: MapOp): set<int> {
    var es' := Apply(es, op);
    match op
    case AssociateIt(hp, _, _) => if hp in Begins(es) then owned else owned + {hp}
    case _ => owned * Begins(es')
  }

  function Run(es: Entries, ops: seq<MapOp>): Entries
    decreases |ops|
  {
    if ops == [] then es else Apply(Run(es, ops[..|ops| - 1]), ops[|ops| - 1])
  }

  function RunOwned(es: Entries, ops: seq<MapOp>): set<int>
    decreases |ops|
  {
    if ops == [] then {}
    else Owned(Run(es, ops[..|ops| - 1]), RunOwned(es, ops[..|ops| - 1]), ops[|ops| - 1])
  }

  ghost predicate RunLegal(es: Entries, ops: seq<MapOp>)
    decreases |ops|
  {
    ops == [] || (RunLegal(es, ops[..|ops| - 1]) && Legal(Run(es, ops[..|ops| - 1]), ops[|ops| - 1]))
  }

  // After k operations a count is within k of where it started: INF_REF_CNT for an
  // associated entry, 1 for any other.
  ghost predicate Bounded(es: Entries, owned: set<int>, k: nat) {
    && owned <= Begins(es)
    && forall e :: e in es ==>
         if e.begin in owned then INF_REF_CNT - k <= e.count <= INF_REF_CNT + k
         else 1 <= e.count <= 1 + k
  }

  lemma RecountBounded(es: Entries, owned: set<int>, k: nat, i: nat, c: int)
    requires Bounded(es, owned, k) && i < |es| && -1 <= c - es[i].count <= 1 && c >= 1
    ensures Bounded(Recount(es, i, c), owned, k + 1)
    ensures Begins(Recount(es, i, c)) == Begins(es)
  {
    var r := Recount(es, i, c);
    forall f | f in es ensures f.begin in Begins(r) {
      var j :| 0 <= j < |es| && es[j] == f;
      assert r[j] in r && r[j].begin == f.begin;
    }
    forall e | e in r ensures e.begin in Begins(es) {
      var j :| 0 <= j < |r| && r[j] == e;
      assert es[j] in es && es[j].begin == e.begin;
    }
    forall e | e in r
      ensures if e.begin in owned then INF_REF_CNT - (k + 1) <= e.count <= INF_REF_CNT + k + 1
              else 1 <= e.count <= 1 + k + 1
    {
      var j :| 0 <= j < |r| && r[j] == e;
      assert es[j] in es;
    }
  }

  lemma RemoveBounded(es: Entries, owned: set<int>, k: nat, i: nat)
    requires Bounded(es, owned, k) && i < |es|
    ensures Bounded(Remove(es, i), owned * Begins(Remove(es, i)), k + 1)
  {
    var r := Remove(es, i);
    forall e | e in r ensures e in es {
      var j :| 0 <= j < |r| && r[j] == e;
    }
  }

  lemma PushBounded(es: Entries, owned: set<int>, k: nat, e: Entry)
    requires Bounded(es, owned, k) && e.count == 1 && e.begin < e.end
    requires WellFormed(es) && !Found(es, e.begin, e.end - e.begin)
    ensures Bounded([e] + es, owned, k + 1)
    ensures owned * Begins([e] + es) == owned
  {
    forall f | f in es ensures f.begin != e.begin {
      assert !Flagged(f, e.begin, e.end - e.begin);
    }
  }

  lemma ApplyMap(es: Entries, owned: set<int>, k: nat, op: MapOp)
    requires op.MapIt? && WellFormed(es) && Bounded(es, owned, k)
    ensures WellFormed(Apply(es, op)) && Bounded(Apply(es, op), Owned(es, owned, op), k + 1)
  {
    var i := Lookup(es, op.hp, op.n);
    if i < |es| {
      assert es[i] in es;
      RecountWellFormed(es, i, es[i].count + 1);
      RecountBounded(es, owned, k, i, es[i].count + 1);
    } else if op.n > 0 {
      var e := Entry(op.base, op.hp, op.hp + op.n, op.tgt, 1);
      PushWellFormed(es, e);
      PushBounded(es, owned, k, e);
    }
    assert Apply(es, op) == es ==> owned * Begins(es) == owned;
  }

  lemma ApplyUnmap(es: Entries, owned: set<int>, k: nat, op: MapOp)
    requires op.UnmapIt? && WellFormed(es) && Bounded(es, owned, k)
    ensures WellFormed(Apply(es, op)) && Bounded(Apply(es, op), Owned(es, owned, op), k + 1)
  {
    var i := Lookup(es, op.hp, op.n);
    if i < |es| && !op.plain {
      assert es[i] in es;
      if es[i].count > 1 && !op.force {
        RecountWellFormed(es, i, es[i].count - 1);
        RecountBounded(es, owned, k, i, es[i].count - 1);
      } else {
        RemoveWellFormed(es, i);
        RemoveBounded(es, owned, k, i);
      }
    }
    assert Apply(es, op) == es ==> owned * Begins(es) == owned;
  }

  lemma ApplyAssociate(es: Entries, owned: set<int>, k: nat, op: MapOp)
    requires op.AssociateIt? && WellFormed(es) && Bounded(es, owned, k) && Legal(es, op)
    ensures WellFormed(Apply(es, op)) && Bounded(Apply(es, op), Owned(es, owned, op), k + 1)
  {
    var i := FindBegin(es, op.hp);
    AssociateWellFormed(es, op.hp, op.tgt, op.n);
    if i < |es| {
      assert es[i] in es && es[i].begin == op.hp;
    } else {
      assert op.hp !in Begins(es);
    }
  }

  lemma ApplyDisassociate(es: Entries, owned: set<int>, k: nat, op: MapOp)
    requires op.DisassociateIt? && WellFormed(es) && Bounded(es, owned, k)
    ensures WellFormed(Apply(es, op)) && Bounded(Apply(es, op), Owned(es, owned, op), k + 1)
  {
    DisassociateWellFormed(es, op.hp);
    var i := FindBegin(es, op.hp);
    if i < |es| && ConsideredInf(es[i].count) {
      RemoveBounded(es, owned, k, i);
    }
    assert Apply(es, op) == es ==> owned * Begins(es) == owned;
  }

  // The invariant of every run from the empty map.
  lemma {:induction false} RunInvariant(ops: seq<MapOp>)
    requires RunLegal([], ops)
    ensures WellFormed(Run([], ops)) && Bounded(Run([], ops), RunOwned([], ops), |ops|)
    decreases |ops|
  {
    if ops == [] {
    } else {
      hide Apply, Owned, WellFormed, Bounded;
      var ops' := ops[..|ops| - 1];
      RunInvariant(ops');
      var es, owned, op := Run([], ops'), RunOwned([], ops'), ops[|ops| - 1];
      match op {
        case MapIt(_, _, _, _, _, _) => ApplyMap(es, owned, |ops'|, op);
        case UnmapIt(_, _, _, _) => ApplyUnmap(es, owned, |ops'|, op);
        case AssociateIt(_, _, _) => ApplyAssociate(es, owned, |ops'|, op);
        case DisassociateIt(_) => ApplyDisassociate(es, owned, |ops'|, op);
      }
    }
  }

  // An entry counts as infinite iff it was made by association, in any run shorter
  // than the margin INF_REF_CNT / 2; so exactly the associated ranges can be
  // disassociated.
  lemma InfinityRecognised(ops: seq<MapOp>, hp: int)
    requires RunLegal([], ops) && |ops| < INF_REF_CNT / 2
    ensures forall e :: e in Run([], ops) ==> (ConsideredInf(e.count) <==> e.begin in RunOwned([], ops))
    ensures Disassociate(Run([], ops), hp).1 <==> hp in RunOwned([], ops)
  {
    RunInvariant(ops);
    var es := Run([], ops);
    var i := FindBegin(es, hp);
    if i < |es| {
      assert es[i] in es;
    } else {
      assert forall e :: e in es ==> e.begin != hp;
    }
  }

  // ------------------------------------------------------- the calls of the library

  datatype Call =
    | BeginCall(args: seq<Arg>)
    | EndCall(args: seq<Arg>)
    | UpdateCall(args: seq<Arg>)
    | TargetCall(args: seq<Arg>, kernel: Kernel)
    | AssociateCall(hp: int, tgt: int, n: nat)
    | DisassociateCall(hp: int)
    | ComputeCall(host: Mem, dev: Mem)

  ghost predicate CallValid(c: Call) {
    (c.BeginCall? || c.EndCall? || c.TargetCall?) ==> ArgsValid(c.args)
  }

  ghost function Perform(p: Plugin, s: Env, c: Call): Env
    requires CallValid(c)
  {
    match c
    case BeginCall(args) => DataBegin(p, s, args).0
    case EndCall(args) => DataEnd(s, args).0
    case UpdateCall(args) => DataUpdate(s, args)
    case TargetCall(args, kernel) => Target(p, kernel, s, args).0
    case AssociateCall(hp, tgt, n) => s.(entries := Associate(s.entries, hp, tgt, n).0)
    case DisassociateCall(hp) => s.(entries := Disassociate(s.entries, hp).0)
    case ComputeCall(host, dev) => s.(host := host, dev := dev)
  }

  // The map operations of one argument of target_data_begin.
  function BeginOps(p: Plugin, s: Env, args: seq<Arg>, i: nat): (ops: seq<MapOp>)
    requires i < |args| && args[i].ty.memberOf < |args|
    ensures |ops| <= 2 && forall op :: op in ops ==> op.MapIt?
  {
    var a := args[i];
    if Skipped(a) then [] else
    var s1 := AfterSlot(p, s, args, i);
    (if UsesSlot(args, i)
     then [MapIt(a.base, a.base, PTR_BYTES, NewTgt(p, s, PTR_BYTES), a.ty.implicit, !Member(a))] else []) +
    [MapIt(Begin(args, i), PointeeBase(s.host, a), Size(args, i), NewTgt(p, s1, Size(args, i)),
           a.ty.implicit, !PlainMember(a))]
  }

  function EndOps(args: seq<Arg>, i: nat): (ops: seq<MapOp>)
    requires i < |args|
    ensures |ops| <= 1 && forall op :: op in ops ==> op.UnmapIt?
  {
    var a := args[i];
    if Skipped(a) then [] else [UnmapIt(Begin(args, i), Size(args, i), PlainMember(a), a.ty.delete)]
  }

  function BeginFirstOps(p: Plugin, s: Env, args: seq<Arg>, k: nat): (ops: seq<MapOp>)
    requires k <= |args| && ArgsValid(args)
    ensures |ops| <= 2 * k && forall op :: op in ops ==> op.MapIt?
  {
    if k == 0 then [] else
    BeginFirstOps(p, s, args, k - 1) + BeginOps(p, BeginFirst(p, s, args, k - 1).0, args, k - 1)
  }

  function EndFirstOps(args: seq<Arg>, k: nat): (ops: seq<MapOp>)
    requires k <= |args|
    ensures |ops| <= k && forall op :: op in ops ==> op.UnmapIt?
  {
    if k == 0 then [] else EndOps(args, k - 1) + EndFirstOps(args, k - 1)
  }

  // Those of the loop that collects the kernel's arguments: one for each private copy.
  function BuildOps(p: Plugin, s: Env, args: seq<Arg>, bases: seq<int>, k: nat): (ops: seq<MapOp>)
    requires k <= |args| == |bases| && ArgsValid(args)
    ensures |ops| <= k && forall op :: op in ops ==> op.MapIt?
  {
    if k == 0 then [] else
    assert args[k - 1] in args;
    var b := BuildFirst(p, s, args, bases, k - 1);
    BuildOps(p, s, args, bases, k - 1) +
    if b.ok && MakesPrivate(args, k - 1) then [CopyOp(p, b, args, bases, k - 1)] else []
  }

  function CopyOp(p: Plugin, b: Build, args: seq<Arg>, bases: seq<int>, i: nat): (op: MapOp)
    requires i < |args| == |bases|
  {
    MapIt(args[i].begin, bases[i], args[i].size, NewTgt(p, b.env, args[i].size), true, true)
  }

  function FreeOps(args: seq<Arg>, privates: seq<nat>): (ops: seq<MapOp>)
    requires forall i :: i in privates ==> i < |args|
    ensures |ops| == |privates| && forall j :: 0 <= j < |ops| ==> ops[j] == FreeOp(args, privates[j])
  {
    seq(|privates|, j requires 0 <= j < |privates| => assert privates[j] in privates; FreeOp(args, privates[j]))
  }

  function FreeOp(args: seq<Arg>, i: nat): MapOp {
    if i < |args| then UnmapIt(args[i].begin, args[i].size, false, true) else UnmapIt(0, 0, true, false)
  }

  function TargetOps(p: Plugin, s: Env, args: seq<Arg>): (ops: seq<MapOp>)
    requires ArgsValid(args)
    ensures |ops| <= 5 * |args|
  {
    var (s1, ok) := DataBegin(p, s, args);
    if !ok then BeginFirstOps(p, s, args, |args|) + EndFirstOps(args, |args|) else
    var bases := Bases(p, s, args);
    PrivatesInRange(p, s1, args, bases, |args|);
    PrivatesCount(p, s1, args, bases, |args|);
    BeginFirstOps(p, s, args, |args|) + BuildOps(p, s1, args, bases, |args|) +
    FreeOps(args, BuildFirst(p, s1, args, bases, |args|).privates) + EndFirstOps(args, |args|)
  }

  lemma {:induction false} PrivatesCount(p: Plugin, s: Env, args: seq<Arg>, bases: seq<int>, k: nat)
    requires k <= |args| == |bases| && ArgsValid(args)
    ensures |BuildFirst(p, s, args, bases, k).privates| <= k
  {
    hide GetOrAlloc, GetTgtPtr, DataSubmit, SubmitPointer;
    if k > 0 {
      PrivatesCount(p, s, args, bases, k - 1);
      assert args[k - 1] in args;
    }
  }

  function CallOps(p: Plugin, s: Env, c: Call): (ops: seq<MapOp>)
    requires CallValid(c)
    ensures |ops| <= if c.BeginCall? || c.EndCall? || c.TargetCall? then 5 * |c.args| else 1
  {
    match c
    case BeginCall(args) => BeginFirstOps(p, s, args, |args|)
    case EndCall(args) => EndFirstOps(args, |args|)
    case UpdateCall(_) => []
    case TargetCall(args, _) => TargetOps(p, s, args)
    case AssociateCall(hp, tgt, n) => [AssociateIt(hp, tgt, n)]
    case DisassociateCall(hp) => [DisassociateIt(hp)]
    case ComputeCall(_, _) => []
  }

  lemma {:induction false} RunAppend(es: Entries, a: seq<MapOp>, b: seq<MapOp>)
    ensures Run(es, a + b) == Run(Run(es, a), b)
    decreases |b|
  {
    if b == [] {
      assert a + b == a;
    } else {
      RunAppend(es, a, b[..|b| - 1]);
      assert (a + b)[..|a + b| - 1] == a + b[..|b| - 1];
    }
  }

  lemma RunOne(es: Entries, op: MapOp)
    ensures Run(es, [op]) == Apply(es, op)
  {
    assert [op][..0] == [];
    assert Run(es, []) == es;
  }

  lemma BeginStepIsRun(p: Plugin, s: Env, args: seq<Arg>, i: nat)
    requires i < |args| && args[i].ty.memberOf < |args|
    ensures BeginStep(p, s, args, i).env.entries == Run(s.entries, BeginOps(p, s, args, i))
  {
    var a := args[i];
    if !Skipped(a) {
      hide BeginStep, Run;
      BeginStepEntries(p, s, args, i);
      var ops := BeginOps(p, s, args, i);
      if UsesSlot(args, i) {
        GetOrAllocEntries(p, s, a.base, a.base, PTR_BYTES, a.ty.implicit, !Member(a));
        RunAppend(s.entries, [ops[0]], [ops[1]]);
        RunOne(s.entries, ops[0]);
        RunOne(AfterSlot(p, s, args, i).entries, ops[1]);
      } else {
        RunOne(s.entries, ops[0]);
      }
    }
  }

  lemma {:induction false} BeginIsRun(p: Plugin, s: Env, args: seq<Arg>, k: nat)
    requires k <= |args| && ArgsValid(args)
    ensures BeginFirst(p, s, args, k).0.entries == Run(s.entries, BeginFirstOps(p, s, args, k))
  {
    hide BeginStep, BeginOps;
    if k > 0 {
      var s' := BeginFirst(p, s, args, k - 1).0;
      BeginIsRun(p, s, args, k - 1);
      BeginStepIsRun(p, s', args, k - 1);
      RunAppend(s.entries, BeginFirstOps(p, s, args, k - 1), BeginOps(p, s', args, k - 1));
    }
  }

  lemma {:induction false} EndIsRun(s: Env, args: seq<Arg>, k: nat)
    requires k <= |args| && ArgsValid(args)
    ensures EndFirst(s, args, k).0.entries == Run(s.entries, EndFirstOps(args, k))
    decreases k
  {
    hide EndStep, EndOps, Run;
    if k == 0 {
      RunNone(s.entries);
    } else {
      var s' := EndStep(s, args, k - 1).0;
      EndStepIsRun(s, args, k - 1);
      EndIsRun(s', args, k - 1);
      RunAppend(s.entries, EndOps(args, k - 1), EndFirstOps(args, k - 1));
    }
  }

  lemma EndStepIsRun(s: Env, args: seq<Arg>, i: nat)
    requires i < |args| && args[i].ty.memberOf < |args|
    ensures EndStep(s, args, i).0.entries == Run(s.entries, EndOps(args, i))
  {
    hide EndStep, Run;
    if Skipped(args[i]) {
      EndStepSkipped(s, args, i);
      RunNone(s.entries);
    } else {
      EndStepEntries(s, args, i);
      RunOne(s.entries, EndOps(args, i)[0]);
    }
  }

  lemma EndStepSkipped(s: Env, args: seq<Arg>, i: nat)
    requires i < |args| && args[i].ty.memberOf < |args| && Skipped(args[i])
    ensures EndStep(s, args, i).0 == s
  {
  }

  lemma PrivateCopyEntries(p: Plugin, b: Build, args: seq<Arg>, bases: seq<int>, i: nat)
    requires i < |args| == |bases|
    ensures PrivateCopy(p, b, args, bases, i).env.entries == Apply(b.env.entries, CopyOp(p, b, args, bases, i))
  {
    hide GetOrAlloc, MapSection;
    GetOrAllocEntries(p, b.env, args[i].begin, bases[i], args[i].size, true, true);
  }

  lemma {:induction false} BuildIsRun(p: Plugin, s: Env, args: seq<Arg>, bases: seq<int>, k: nat)
    requires k <= |args| == |bases| && ArgsValid(args)
    ensures BuildFirst(p, s, args, bases, k).env.entries == Run(s.entries, BuildOps(p, s, args, bases, k))
  {
    hide BuildStep, PrivateCopy, MakesPrivate, CopyOp, Apply, Run;
    if k == 0 {
      RunNone(s.entries);
    } else {
      var b, ops := BuildFirst(p, s, args, bases, k - 1), BuildOps(p, s, args, bases, k - 1);
      BuildIsRun(p, s, args, bases, k - 1);
      NextBuild(p, s, args, bases, k);
      BuildStepEntries(p, b, args, bases, k - 1);
      if b.ok && MakesPrivate(args, k - 1) {
        PrivateCopyEntries(p, b, args, bases, k - 1);
        RunAppend(s.entries, ops, [CopyOp(p, b, args, bases, k - 1)]);
        RunOne(b.env.entries, CopyOp(p, b, args, bases, k - 1));
      } else {
        assert ops + [] == ops;
      }
    }
  }

  lemma DeallocEntries(s: Env, hp: int, n: nat)
    ensures Dealloc(s, hp, n, true).0.entries == UnmapSection(s.entries, hp, n, false, true)
  {
  }

  lemma {:induction false} FreeIsRun(s: Env, args: seq<Arg>, privates: seq<nat>)
    requires forall i :: i in privates ==> i < |args|
    ensures FreePrivates(s, args, privates).0.entries == Run(s.entries, FreeOps(args, privates))
    decreases |privates|
  {
    hide Dealloc, Run, UnmapSection;
    if privates == [] {
      RunNone(s.entries);
    } else {
      assert privates[0] in privates && forall i :: i in privates[1..] ==> i in privates;
      var a, ops := args[privates[0]], FreeOps(args, privates);
      DeallocEntries(s, a.begin, a.size);
      FreeIsRun(Dealloc(s, a.begin, a.size, true).0, args, privates[1..]);
      assert ops == [ops[0]] + FreeOps(args, privates[1..]);
      RunAppend(s.entries, [ops[0]], FreeOps(args, privates[1..]));
      RunOne(s.entries, ops[0]);
    }
  }

  // target() as the sequence of its four parts.
  lemma TargetEntries(p: Plugin, k: Kernel, s: Env, args: seq<Arg>)
    requires ArgsValid(args)
    ensures var (s1, ok1) := DataBegin(p, s, args);
            var bases := Bases(p, s, args);
            var b := BuildFirst(p, s1, args, bases, |args|);
            (forall i :: i in b.privates ==> i < |args|) &&
            Target(p, k, s, args).0 ==
            if !ok1 then DataEnd(s1, args).0
            else DataEnd(FreePrivates(Launch(k, b).0, args, b.privates).0, args).0
  {
    hide DataBegin, DataEnd, Bases, BuildFirst, Launch, FreePrivates;
    var (s1, ok1) := DataBegin(p, s, args);
    PrivatesInRange(p, s1, args, Bases(p, s, args), |args|);
  }

  lemma TargetIsRun(p: Plugin, k: Kernel, s: Env, args: seq<Arg>)
    requires ArgsValid(args)
    ensures Target(p, k, s, args).0.entries == Run(s.entries, TargetOps(p, s, args))
  {
    hide BeginFirst, EndFirst, Bases, BuildFirst, Launch, FreePrivates, Target, Run;
    var (s1, ok) := DataBegin(p, s, args);
    var es, ops1, ops4 := s.entries, BeginFirstOps(p, s, args, |args|), EndFirstOps(args, |args|);
    TargetEntries(p, k, s, args);
    BeginIsRun(p, s, args, |args|);
    if !ok {
      EndIsRun(s1, args, |args|);
      RunAppend(es, ops1, ops4);
    } else {
      var bases := Bases(p, s, args);
      var b := BuildFirst(p, s1, args, bases, |args|);
      var s2, ops2, ops3 := Launch(k, b).0, BuildOps(p, s1, args, bases, |args|), FreeOps(args, b.privates);
      BuildIsRun(p, s1, args, bases, |args|);
      LaunchEntries(k, b);
      FreeIsRun(s2, args, b.privates);
      EndIsRun(FreePrivates(s2, args, b.privates).0, args, |args|);
      RunAppend(es, ops1, ops2);
      RunAppend(es, ops1 + ops2, ops3);
      RunAppend(es, ops1 + ops2 + ops3, ops4);
    }
  }

  lemma PerformIsRun(p: Plugin, s: Env, c: Call)
    requires CallValid(c)
    ensures Perform(p, s, c).entries == Run(s.entries, CallOps(p, s, c))
  {
    hide BeginFirst, EndFirst, Run, Target, TargetOps;
    match c
    case BeginCall(args) => BeginIsRun(p, s, args, |args|);
    case TargetCall(args, kernel) => TargetIsRun(p, kernel, s, args);
    case EndCall(args) => EndIsRun(s, args, |args|);
    case UpdateCall(args) => UpdateEntries(s, args); RunNone(s.entries);
    case AssociateCall(hp, tgt, n) => RunOne(s.entries, AssociateIt(hp, tgt, n));
    case DisassociateCall(hp) => RunOne(s.entries, DisassociateIt(hp));
    case ComputeCall(_, _) => RunNone(s.entries);
  }

  lemma RunNone(es: Entries)
    ensures Run(es, []) == es
  {
  }

  ghost function PerformAll(p: Plugin, s: Env, cs: seq<Call>): Env
    requires forall c :: c in cs ==> CallValid(c)
    decreases |cs|
  {
    if cs == [] then s else Perform(p, PerformAll(p, s, cs[..|cs| - 1]), cs[|cs| - 1])
  }

  ghost function AllOps(p: Plugin, s: Env, cs: seq<Call>): seq<MapOp>
    requires forall c :: c in cs ==> CallValid(c)
    decreases |cs|
  {
    if cs == [] then []
    else AllOps(p, s, cs[..|cs| - 1]) + CallOps(p, PerformAll(p, s, cs[..|cs| - 1]), cs[|cs| - 1])
  }

  // The map after any sequence of calls is the map after its operations, so the
  // invariant and the recognition of infinite counts hold in every reachable state.
  lemma {:induction false} CallsAreRuns(p: Plugin, s: Env, cs: seq<Call>)
    requires forall c :: c in cs ==> CallValid(c)
    ensures PerformAll(p, s, cs).entries == Run(s.entries, AllOps(p, s, cs))
    decreases |cs|
  {
    hide Perform, CallOps;
    if cs != [] {
      var cs', c := cs[..|cs| - 1], cs[|cs| - 1];
      CallsAreRuns(p, s, cs');
      PerformIsRun(p, PerformAll(p, s, cs'), c);
      RunAppend(s.entries, AllOps(p, s, cs'), CallOps(p, PerformAll(p, s, cs'), c));
    }
  }

  lemma ReachableMap(p: Plugin, s: Env, cs: seq<Call>, hp: int)
    requires forall c :: c in cs ==> CallValid(c)
    requires s.entries == [] && RunLegal([], AllOps(p, s, cs))
    ensures WellFormed(PerformAll(p, s, cs).entries)
    ensures |AllOps(p, s, cs)| < INF_REF_CNT / 2 ==>
              (Disassociate(PerformAll(p, s, cs).entries, hp).1 <==> hp in RunOwned([], AllOps(p, s, cs)))
  {
    hide PerformAll, AllOps, Run, RunOwned, Disassociate;
    CallsAreRuns(p, s, cs);
    RunInvariant(AllOps(p, s, cs));
    if |AllOps(p, s, cs)| < INF_REF_CNT / 2 {
      InfinityRecognised(AllOps(p, s, cs), hp);
    }
  }
}
