/** A section that enters the device data environment in a region, on its own or as a
    member of a struct that enters, is submitted once at the region's start, fetched once
    at its end, and not copied by any other argument or by anything nested in it.

    The proof splits the log of the region at the section's own steps: what comes
    before, the argument itself, the rest of the region, and the same backwards. */
module TransferOnce {
  import opened Memory
  import opened DeviceMap
  import opened DataEnvironment
  import opened MapInverse
  import opened TransferRuns

  lemma QuietTouching(a: seq<Transfer>, b: seq<Transfer>, lo: int, hi: int)
    requires Quiet(a, b, lo, hi)
    ensures Touching(b, lo, hi) == Touching(a, lo, hi)
  {
    var more := b[|a|..];
    assert b == a + more;
    TouchingAppend(a, more, lo, hi);
    NoneTouching(more, lo, hi);
  }

  lemma {:induction false} NoneTouching(a: seq<Transfer>, lo: int, hi: int)
    requires forall t :: t in a ==> !Touches(t, lo, hi)
    ensures Touching(a, lo, hi) == []
  {
    if a != [] {
      NoneTouching(a[..|a| - 1], lo, hi);
    }
  }

  // The entries before argument k is mapped.
  function At(p: Plugin, s: Env, args: seq<Arg>, k: nat): Entries
    requires k <= |args| && ArgsValid(args)
  {
    BeginFirst(p, s, args, k).0.entries
  }

  lemma {:induction false} TidyAt(p: Plugin, s: Env, args: seq<Arg>, k: nat, j: nat)
    requires j < k <= |args| && ArgsValid(args) && AllTidy(p, s, args, k)
    ensures args[j].ty.memberOf < |args| && Tidy(At(p, s, args, j), args, j) && AllTidy(p, s, args, j)
  {
    hide Tidy, BeginFirst;
    assert args[j] in args;
    if j < k - 1 {
      TidyAt(p, s, args, k - 1, j);
    }
  }

  // One more argument only adds to the entries.
  lemma StepExtends(p: Plugin, s: Env, args: seq<Arg>, i: nat)
    requires i < |args| && args[i].ty.memberOf < |args|
    requires WellFormed(s.entries) && Tidy(s.entries, args, i)
    ensures var es' := BeginStep(p, s, args, i).env.entries;
            WellFormed(es') && Extends(es', s.entries)
  {
    var a := args[i];
    if !Skipped(a) {
      TidyStepEntries(p, s, args, i);
      hide BeginStep, Tidy, MapSection, WellFormed, Extends;
      MapSectionExtends(s.entries, Begin(args, i), PointeeBase(s.host, a), Size(args, i), StepTgt(p, s, args, i),
                        a.ty.implicit, !PlainMember(a));
    }
  }

  lemma {:induction false} BeginExtends(p: Plugin, s: Env, args: seq<Arg>, j: nat, k: nat)
    requires j <= k <= |args| && ArgsValid(args) && WellFormed(s.entries) && AllTidy(p, s, args, k)
    ensures WellFormed(At(p, s, args, k)) && WellFormed(At(p, s, args, j))
    ensures Extends(At(p, s, args, k), At(p, s, args, j))
    decreases k
  {
    hide BeginStep, Tidy, WellFormed;
    if k > 0 {
      assert args[k - 1] in args;
      BeginExtends(p, s, args, if j < k then j else k - 1, k - 1);
      StepExtends(p, BeginFirst(p, s, args, k - 1).0, args, k - 1);
      if j < k {
        ExtendsTrans(At(p, s, args, j), At(p, s, args, k - 1), At(p, s, args, k));
      }
    }
  }

  // The state before argument k; its entries are At(k).
  function StateAt(p: Plugin, s: Env, args: seq<Arg>, k: nat): Env
    requires k <= |args| && ArgsValid(args)
  {
    BeginFirst(p, s, args, k).0
  }

  lemma AtNext(p: Plugin, s: Env, args: seq<Arg>, k: nat)
    requires k < |args| && ArgsValid(args)
    ensures args[k].ty.memberOf < |args|
    ensures StateAt(p, s, args, k + 1) == BeginStep(p, StateAt(p, s, args, k), args, k).env
    ensures At(p, s, args, k) == StateAt(p, s, args, k).entries
    ensures At(p, s, args, k + 1) == StateAt(p, s, args, k + 1).entries
  {
    hide BeginStep;
    assert args[k] in args;
  }

  lemma StateZero(p: Plugin, s: Env, args: seq<Arg>)
    requires ArgsValid(args)
    ensures StateAt(p, s, args, 0) == s
  {
  }

  lemma EndZero(t: Env, args: seq<Arg>)
    requires ArgsValid(args)
    ensures EndFirst(t, args, 0).0 == t
  {
  }

  lemma EndNext(t: Env, args: seq<Arg>, k: nat)
    requires 0 < k <= |args| && ArgsValid(args)
    ensures args[k - 1].ty.memberOf < |args|
    ensures EndFirst(t, args, k).0 == EndFirst(EndStep(t, args, k - 1).0, args, k - 1).0
  {
    hide EndStep;
    assert args[k - 1] in args;
  }

  // Unmaps arguments k-1 down to i.
  function EndDown(t: Env, args: seq<Arg>, k: nat, i: nat): Env
    requires i <= k <= |args| && ArgsValid(args)
    decreases k
  {
    if k == i then t else EndDown(EndStep(t, args, k - 1).0, args, k - 1, i)
  }

  lemma {:induction false} EndSplit(t: Env, args: seq<Arg>, k: nat, i: nat)
    requires i <= k <= |args| && ArgsValid(args)
    ensures EndFirst(t, args, k).0 == EndFirst(EndDown(t, args, k, i), args, i).0
    decreases k
  {
    hide EndStep;
    if i < k {
      EndSplit(EndStep(t, args, k - 1).0, args, k - 1, i);
    }
  }

  // One argument's step in either direction stays clear of [lo, hi) if its transfer,
  // when it makes one, lies in an entry that is clear of [lo, hi).
  ghost predicate SoleClear(es: Entries, es': Entries, args: seq<Arg>, i: nat, lo: int, hi: int)
    requires i < |args| && args[i].ty.memberOf < |args|
  {
    SoleAfter(es, es', args, i) && !Skipped(args[i]) && Size(args, i) > 0 && (args[i].ty.to || args[i].ty.from) ==>
      Begin(args, i) + Size(args, i) <= lo || hi <= Begin(args, i)
  }

  lemma StepClear(p: Plugin, s: Env, args: seq<Arg>, i: nat, lo: int, hi: int)
    requires i < |args| && args[i].ty.memberOf < |args| && lo < hi
    requires WellFormed(s.entries) && Tidy(s.entries, args, i)
    requires SoleClear(s.entries, BeginStep(p, s, args, i).env.entries, args, i, lo, hi)
    ensures Quiet(s.log, BeginStep(p, s, args, i).env.log, lo, hi)
  {
    BeginStepLog(p, s, args, i);
    hide BeginStep, Tidy, WellFormed, Sends, Attaches, SoleAfter;
    SkippedSends(p, s, args, i);
    if !Skipped(args[i]) && Sends(p, s, args, i) != [] && Size(args, i) > 0 {
      SendsWithinSole(p, s, args, i);
    }
    var more := Sends(p, s, args, i) + Attaches(p, s, args, i);
    QuietAppend(s.log, more, lo, hi);
    assert s.log + more == s.log + Sends(p, s, args, i) + Attaches(p, s, args, i);
  }

  lemma SkippedSends(p: Plugin, s: Env, args: seq<Arg>, i: nat)
    requires i < |args| && args[i].ty.memberOf < |args|
    ensures Skipped(args[i]) || !args[i].ty.to ==> Sends(p, s, args, i) == []
  {
  }

  lemma EndStepClear(p: Plugin, s: Env, args: seq<Arg>, i: nat, t: Env, lo: int, hi: int)
    requires i < |args| && args[i].ty.memberOf < |args| && lo < hi
    requires WellFormed(s.entries) && Tidy(s.entries, args, i)
    requires t.entries == BeginStep(p, s, args, i).env.entries
    requires SoleClear(s.entries, t.entries, args, i, lo, hi)
    ensures Quiet(t.log, EndStep(t, args, i).0.log, lo, hi)
    ensures EndStep(t, args, i).0.entries == s.entries
  {
    EndStepLog(t, args, i);
    ConsequenceOfWellFormed(s.entries);
    assert SlotKept(s.entries, args, i) && RoundTrips(s.entries, args, i);
    ArgumentUndone(p, s, args, i, t);
    if !Skipped(args[i]) && Size(args, i) > 0 {
      TidyStepEntries(p, s, args, i);
      assert !args[i].ty.from ==> Fetches(t.entries, args, i) == [];
      hide BeginStep, EndStep, WellFormed, Tidy, Fetches, SoleAfter, MapSection;
      if Fetches(t.entries, args, i) != [] {
        FetchesWithinSole(s.entries, args, i, PointeeBase(s.host, args[i]), StepTgt(p, s, args, i));
      }
    }
    QuietAppend(t.log, Fetches(t.entries, args, i), lo, hi);
  }

  // ------------------------------------------------------- arguments before the section

  // An entry of es' clears a section that the larger list es does not know.
  lemma AbsentClear(es: Entries, es0: Entries, es': Entries, args: seq<Arg>, j: nat, lo: int, hi: int)
    requires j < |args| && args[j].ty.memberOf < |args| && lo < hi
    requires WellFormed(es) && Extends(es, es') && !Found(es, lo, hi - lo)
    ensures SoleClear(es0, es', args, j, lo, hi)
  {
    hide WellFormed, Begin, Size, Owner, RefCount, Lookup, Extends;
    if SoleAfter(es0, es', args, j) && Size(args, j) > 0 {
      var t := if PlainMember(args[j]) then Owner(es0, args[args[j].ty.memberOf].begin) else 0;
      AbsentWithin(es, es', t, Begin(args, j), Size(args, j), lo, hi);
    }
  }

  lemma AbsentWithin(es: Entries, es': Entries, t: nat, hp: int, n: nat, lo: int, hi: int)
    requires WellFormed(es) && Extends(es, es') && lo < hi && !Found(es, lo, hi - lo)
    requires t < |es'| && Within(es'[t], hp, n) && n > 0
    ensures hp + n <= lo || hi <= hp
  {
    var f := es[|es| - |es'| + t];
    assert Grew(f, es'[t]);
    assert !Flagged(f, lo, hi - lo);
    assert f in es;
  }

  lemma ClearBefore(p: Plugin, s: Env, args: seq<Arg>, k: nat, i: nat, lo: int, hi: int)
    requires k < i <= |args| && ArgsValid(args) && lo < hi
    requires WellFormed(s.entries) && AllTidy(p, s, args, i) && !Found(At(p, s, args, i), lo, hi - lo)
    ensures args[k].ty.memberOf < |args|
    ensures var s' := StateAt(p, s, args, k);
            && WellFormed(s'.entries) && Tidy(s'.entries, args, k)
            && At(p, s, args, k) == s'.entries
            && StateAt(p, s, args, k + 1) == BeginStep(p, s', args, k).env
            && At(p, s, args, k + 1) == BeginStep(p, s', args, k).env.entries
            && SoleClear(s'.entries, At(p, s, args, k + 1), args, k, lo, hi)
  {
    hide *;
    TidyAt(p, s, args, i, k);
    AtNext(p, s, args, k);
    BeginExtends(p, s, args, k, i);
    BeginExtends(p, s, args, k + 1, i);
    AbsentClear(At(p, s, args, i), At(p, s, args, k), At(p, s, args, k + 1), args, k, lo, hi);
  }

  lemma {:induction false} QuietBefore(p: Plugin, s: Env, args: seq<Arg>, k: nat, i: nat, lo: int, hi: int)
    requires k <= i <= |args| && ArgsValid(args) && lo < hi
    requires WellFormed(s.entries) && AllTidy(p, s, args, i) && !Found(At(p, s, args, i), lo, hi - lo)
    ensures Quiet(s.log, StateAt(p, s, args, k).log, lo, hi)
    decreases k
  {
    hide *;
    if k == 0 {
      QuietRefl(s.log, lo, hi);
      StateZero(p, s, args);
    } else {
      QuietBefore(p, s, args, k - 1, i, lo, hi);
      ClearBefore(p, s, args, k - 1, i, lo, hi);
      StepClear(p, StateAt(p, s, args, k - 1), args, k - 1, lo, hi);
      QuietTrans(s.log, StateAt(p, s, args, k - 1).log, StateAt(p, s, args, k).log, lo, hi);
    }
  }

  lemma EndStepBefore(p: Plugin, s: Env, args: seq<Arg>, k: nat, i: nat, t: Env, lo: int, hi: int)
    requires k < i <= |args| && ArgsValid(args) && lo < hi
    requires WellFormed(s.entries) && AllTidy(p, s, args, i) && !Found(At(p, s, args, i), lo, hi - lo)
    requires t.entries == At(p, s, args, k + 1)
    ensures args[k].ty.memberOf < |args|
    ensures Quiet(t.log, EndStep(t, args, k).0.log, lo, hi)
    ensures EndStep(t, args, k).0.entries == At(p, s, args, k)
  {
    hide *;
    ClearBefore(p, s, args, k, i, lo, hi);
    EndStepClear(p, StateAt(p, s, args, k), args, k, t, lo, hi);
  }

  lemma {:induction false} EndQuietBefore(p: Plugin, s: Env, args: seq<Arg>, k: nat, i: nat, t: Env, lo: int, hi: int)
    requires k <= i <= |args| && ArgsValid(args) && lo < hi
    requires WellFormed(s.entries) && AllTidy(p, s, args, i) && !Found(At(p, s, args, i), lo, hi - lo)
    requires t.entries == At(p, s, args, k)
    ensures Quiet(t.log, EndFirst(t, args, k).0.log, lo, hi)
    decreases k
  {
    hide *;
    if k == 0 {
      QuietRefl(t.log, lo, hi);
      EndZero(t, args);
    } else {
      EndStepBefore(p, s, args, k - 1, i, t, lo, hi);
      EndNext(t, args, k);
      var t1 := EndStep(t, args, k - 1).0;
      EndQuietBefore(p, s, args, k - 1, i, t1, lo, hi);
      QuietTrans(t.log, t1.log, EndFirst(t, args, k).0.log, lo, hi);
    }
  }

  // -------------------------------------------------------- arguments after the section

  // No parent's begin lies in entry u (counted from the end) unless u was counted twice.
  ghost predicate NotSole(es: Entries, m: nat, args: seq<Arg>, k: nat, i: nat)
    requires k <= |args| && 0 < m <= |es|
  {
    forall q | 0 <= q < k && q != i && IsParent(args, q) && !Skipped(args[q]) && !Member(args[q]) &&
               Holds(es[|es| - m], args[q].begin) :: es[|es| - m].count >= 2
  }

  lemma ParentCountedTwice(es: Entries, u: nat, args: seq<Arg>, k: nat, base: int, tgt: int)
    requires k < |args| && args[k].ty.memberOf < |args| && WellFormed(es) && u < |es|
    requires !Skipped(args[k]) && Tidy(es, args, k)
    requires IsParent(args, k) && !Member(args[k]) && Holds(es[u], args[k].begin)
    ensures var es' := MapSection(es, Begin(args, k), base, Size(args, k), tgt, args[k].ty.implicit, !PlainMember(args[k]));
            |es'| == |es| && es'[u].count >= 2
  {
    hide Lookup, SlotKept, RoundTrips, Owner, RefCount, WellFormed;
    var j := Lookup(es, Begin(args, k), Size(args, k));
    HolderFlagged(es[u], args, k);
    WellFormedCount(es, u);
    assert j < |es|;
    OwnerUniqueIndex(es, j, u, args[k].begin);
  }

  lemma NotSoleGrows(es: Entries, es': Entries, m: nat, args: seq<Arg>, k: nat, i: nat)
    requires k < |args| && 0 < m <= |es| && Extends(es', es) && NotSole(es, m, args, k, i)
    requires IsParent(args, k) && !Skipped(args[k]) && !Member(args[k]) && Holds(es[|es| - m], args[k].begin) ==>
               es'[|es'| - m].count >= 2
    ensures NotSole(es', m, args, k + 1, i)
  {
    hide IsParent;
    assert Grew(es'[|es'| - |es| + (|es| - m)], es[|es| - m]);
  }

  lemma NotSoleStep(es: Entries, m: nat, args: seq<Arg>, k: nat, i: nat, base: int, tgt: int)
    requires k < |args| && args[k].ty.memberOf < |args| && WellFormed(es) && 0 < m <= |es|
    requires !Skipped(args[k]) && Tidy(es, args, k) && NotSole(es, m, args, k, i)
    ensures var a := args[k];
            var es' := MapSection(es, Begin(args, k), base, Size(args, k), tgt, a.ty.implicit, !PlainMember(a));
            m <= |es'| && NotSole(es', m, args, k + 1, i)
  {
    hide *;
    var a := args[k];
    var es' := MapSection(es, Begin(args, k), base, Size(args, k), tgt, a.ty.implicit, !PlainMember(a));
    MapSectionExtends(es, Begin(args, k), base, Size(args, k), tgt, a.ty.implicit, !PlainMember(a));
    ExtendsLength(es', es);
    if IsParent(args, k) && !Member(a) && Holds(es[|es| - m], a.begin) {
      ParentCountedTwice(es, |es| - m, args, k, base, tgt);
    }
    NotSoleGrows(es, es', m, args, k, i);
  }

  // A part [lo, hi) of the entry made by argument q is not part of argument k's transfer,
  // if k is q or a plain member of it.
  ghost predicate ClearOf(args: seq<Arg>, k: nat, q: nat, lo: int, hi: int)
    requires k < |args|
  {
    k == q || (PlainMember(args[k]) && args[k].ty.memberOf == q) ==>
      (!args[k].ty.to && !args[k].ty.from) || Begin(args, k) + Size(args, k) <= lo || hi <= Begin(args, k)
  }

  // The entry in which any other later argument's transfer lies is another one.
  lemma LaterClear(es: Entries, es': Entries, m: nat, args: seq<Arg>, k: nat, q: nat, lo: int, hi: int)
    requires k < |args| && args[k].ty.memberOf < |args| && lo < hi && ClearOf(args, k, q, lo, hi)
    requires WellFormed(es') && 0 < m <= |es| <= |es'| && Tidy(es, args, k)
    requires NotSole(es', m, args, k + 1, q)
    requires es'[|es'| - m].begin <= lo && hi <= es'[|es'| - m].end
    ensures SoleClear(es, es', args, k, lo, hi)
  {
    hide SlotKept, RoundTrips, Usable, Found, Lookup, Begin, Size;
    if SoleAfter(es, es', args, k) && !Skipped(args[k]) && Size(args, k) > 0 && (args[k].ty.to || args[k].ty.from) {
      var u := |es'| - m;
      var t := 0;
      if PlainMember(args[k]) {
        t := Owner(es, args[args[k].ty.memberOf].begin);
        assert IsParent(args, args[k].ty.memberOf);
        assert Holds(es'[t], args[args[k].ty.memberOf].begin);
      }
      if !(PlainMember(args[k]) && args[k].ty.memberOf == q) {
        assert t != u;
        assert !Overlap(es'[if t < u then t else u], es'[if t < u then u else t]);
      }
    }
  }

  // The section's entry is still in es, m-th from the end, as argument k's turn comes.
  ghost predicate Later(es: Entries, m: nat, args: seq<Arg>, k: nat, i: nat, lo: int, hi: int)
    requires k <= |args|
  {
    && WellFormed(es) && 0 < m <= |es| && NotSole(es, m, args, k, i)
    && es[|es| - m].begin == lo && es[|es| - m].end == hi
  }

  // Established by argument i itself ...
  lemma LaterStarts(p: Plugin, s: Env, args: seq<Arg>, i: nat)
    requires i < |args| && ArgsValid(args) && WellFormed(s.entries) && AllTidy(p, s, args, i + 1)
    requires !Skipped(args[i]) && !PlainMember(args[i]) && Size(args, i) > 0
    requires !Found(At(p, s, args, i), Begin(args, i), Size(args, i))
    ensures var es' := At(p, s, args, i + 1);
            Later(es', |es'|, args, i + 1, i, Begin(args, i), Begin(args, i) + Size(args, i))
    ensures At(p, s, args, i + 1)[0].tgt == StepTgt(p, StateAt(p, s, args, i), args, i)
    ensures At(p, s, args, i + 1)[0].count == 1
  {
    var si, es' := StateAt(p, s, args, i), At(p, s, args, i + 1);
    hide *;
    TidyAt(p, s, args, i + 1, i);
    AtNext(p, s, args, i);
    BeginExtends(p, s, args, i, i + 1);
    PushedEntry(p, si, args, i);
    forall q | 0 <= q < i && IsParent(args, q) && !Skipped(args[q]) && !Member(args[q])
      ensures Owner(si.entries, args[q].begin) < |si.entries|
    {
      ParentHeld(p, s, args, q, i);
    }
    LaterFromParents(si.entries, es', args, i);
  }

  lemma PushedEntry(p: Plugin, s: Env, args: seq<Arg>, i: nat)
    requires i < |args| && args[i].ty.memberOf < |args| && Tidy(s.entries, args, i)
    requires !Skipped(args[i]) && !PlainMember(args[i]) && Size(args, i) > 0
    requires !Found(s.entries, Begin(args, i), Size(args, i))
    ensures BeginStep(p, s, args, i).env.entries ==
            [Entry(PointeeBase(s.host, args[i]), Begin(args, i), Begin(args, i) + Size(args, i),
                   StepTgt(p, s, args, i), 1)] + s.entries
  {
    hide BeginStep, Tidy;
    TidyStepEntries(p, s, args, i);
  }

  // The new entry holds no earlier parent's begin: that lies in an older entry.
  lemma LaterFromParents(es: Entries, es': Entries, args: seq<Arg>, i: nat)
    requires i < |args| && WellFormed(es') && |es'| == |es| + 1 && es' == [es'[0]] + es
    requires es'[0].begin == Begin(args, i) && es'[0].end == Begin(args, i) + Size(args, i)
    requires forall q | 0 <= q < i && IsParent(args, q) && !Skipped(args[q]) && !Member(args[q]) ::
               Owner(es, args[q].begin) < |es|
    ensures Later(es', |es'|, args, i + 1, i, Begin(args, i), Begin(args, i) + Size(args, i))
  {
    hide IsParent, RefCount, Begin, Size;
    forall q | 0 <= q < i && IsParent(args, q) && !Skipped(args[q]) && !Member(args[q])
      ensures !Holds(es'[0], args[q].begin)
    {
      var o := Owner(es, args[q].begin);
      assert Holds(es'[o + 1], args[q].begin);
      assert !Overlap(es'[0], es'[o + 1]);
    }
  }

  lemma ParentHeld(p: Plugin, s: Env, args: seq<Arg>, q: nat, k: nat)
    requires q < k <= |args| && ArgsValid(args) && WellFormed(s.entries) && AllTidy(p, s, args, k)
    requires IsParent(args, q) && !Skipped(args[q]) && !Member(args[q])
    ensures Owner(At(p, s, args, k), args[q].begin) < |At(p, s, args, k)|
  {
    hide *;
    TidyAt(p, s, args, k, q);
    AtNext(p, s, args, q);
    BeginExtends(p, s, args, q + 1, k);
    HeldAfterStep(p, StateAt(p, s, args, q), args, q);
    HeldGrows(At(p, s, args, k), At(p, s, args, q + 1), args[q].begin);
  }

  lemma HeldAfterStep(p: Plugin, s: Env, args: seq<Arg>, q: nat)
    requires q < |args| && args[q].ty.memberOf < |args| && Tidy(s.entries, args, q)
    requires IsParent(args, q) && !Skipped(args[q]) && !Member(args[q])
    ensures var es' := BeginStep(p, s, args, q).env.entries;
            Owner(es', args[q].begin) < |es'|
  {
    TidyStepEntries(p, s, args, q);
    hide BeginStep, Owner, RefCount, SlotKept, RoundTrips;
    var es, es' := s.entries, BeginStep(p, s, args, q).env.entries;
    var j := Lookup(es, Begin(args, q), Size(args, q));
    var t := if j < |es| then j else 0;
    assert Holds(es'[t], args[q].begin);
  }

  lemma HeldGrows(es': Entries, es: Entries, x: int)
    requires Extends(es', es) && Owner(es, x) < |es|
    ensures Owner(es', x) < |es'|
  {
    hide Owner, RefCount;
    var t := Owner(es, x);
    assert Grew(es'[|es'| - |es| + t], es[t]);
  }

  lemma LaterRange(es': Entries, es: Entries, m: nat)
    requires Extends(es', es) && 0 < m <= |es|
    ensures es'[|es'| - m].begin == es[|es| - m].begin && es'[|es'| - m].end == es[|es| - m].end
  {
    assert Grew(es'[|es'| - |es| + (|es| - m)], es[|es| - m]);
  }

  // ... and kept by the arguments after it.
  lemma LaterStep(p: Plugin, s: Env, args: seq<Arg>, m: nat, k: nat, q: nat, e: Entry, lo: int, hi: int)
    requires q < k < |args| && args[k].ty.memberOf < |args| && e.begin <= lo < hi <= e.end
    requires ClearOf(args, k, q, lo, hi) || Skipped(args[k])
    requires Later(s.entries, m, args, k, q, e.begin, e.end) && Tidy(s.entries, args, k)
    ensures var es' := BeginStep(p, s, args, k).env.entries;
            && Later(es', m, args, k + 1, q, e.begin, e.end)
            && SoleClear(s.entries, es', args, k, lo, hi)
  {
    hide *;
    LaterKept(p, s, args, m, k, q, e);
    if Skipped(args[k]) {
      LaterSkips(p, s, args, m, k, q, e, lo, hi);
    } else {
      var es' := BeginStep(p, s, args, k).env.entries;
      LaterParts(es', m, args, k + 1, q, e.begin, e.end);
      LaterParts(s.entries, m, args, k, q, e.begin, e.end);
      StepExtends(p, s, args, k);
      ExtendsLength(es', s.entries);
      LaterClear(s.entries, es', m, args, k, q, lo, hi);
    }
  }

  lemma LaterParts(es: Entries, m: nat, args: seq<Arg>, k: nat, i: nat, lo: int, hi: int)
    requires k <= |args| && Later(es, m, args, k, i, lo, hi)
    ensures WellFormed(es) && 0 < m <= |es| && NotSole(es, m, args, k, i)
    ensures es[|es| - m].begin == lo && es[|es| - m].end == hi
  {
    hide WellFormed;
  }

  lemma LaterIntro(es: Entries, m: nat, args: seq<Arg>, k: nat, i: nat, lo: int, hi: int)
    requires k <= |args| && WellFormed(es) && 0 < m <= |es| && NotSole(es, m, args, k, i)
    requires es[|es| - m].begin == lo && es[|es| - m].end == hi
    ensures Later(es, m, args, k, i, lo, hi)
  {
    hide WellFormed;
  }

  lemma LaterSkips(p: Plugin, s: Env, args: seq<Arg>, m: nat, k: nat, q: nat, e: Entry, lo: int, hi: int)
    requires k < |args| && args[k].ty.memberOf < |args| && Skipped(args[k])
    requires Later(s.entries, m, args, k, q, e.begin, e.end)
    ensures BeginStep(p, s, args, k).env == s
    ensures Later(s.entries, m, args, k + 1, q, e.begin, e.end)
    ensures SoleClear(s.entries, s.entries, args, k, lo, hi)
  {
    hide WellFormed;
  }

  lemma NotSoleAfter(p: Plugin, s: Env, args: seq<Arg>, m: nat, k: nat, i: nat)
    requires k < |args| && args[k].ty.memberOf < |args| && WellFormed(s.entries) && 0 < m <= |s.entries|
    requires !Skipped(args[k]) && Tidy(s.entries, args, k) && NotSole(s.entries, m, args, k, i)
    requires m <= |BeginStep(p, s, args, k).env.entries|
    ensures NotSole(BeginStep(p, s, args, k).env.entries, m, args, k + 1, i)
  {
    hide *;
    TidyStepEntries(p, s, args, k);
    NotSoleStep(s.entries, m, args, k, i, PointeeBase(s.host, args[k]), StepTgt(p, s, args, k));
  }

  lemma LaterKept(p: Plugin, s: Env, args: seq<Arg>, m: nat, k: nat, q: nat, e: Entry)
    requires q < k < |args| && args[k].ty.memberOf < |args|
    requires Later(s.entries, m, args, k, q, e.begin, e.end) && Tidy(s.entries, args, k)
    ensures Later(BeginStep(p, s, args, k).env.entries, m, args, k + 1, q, e.begin, e.end)
  {
    hide *;
    if Skipped(args[k]) {
      LaterSkips(p, s, args, m, k, q, e, 0, 1);
    } else {
      var es' := BeginStep(p, s, args, k).env.entries;
      LaterParts(s.entries, m, args, k, q, e.begin, e.end);
      StepExtends(p, s, args, k);
      ExtendsLength(es', s.entries);
      LaterRange(es', s.entries, m);
      NotSoleAfter(p, s, args, m, k, q);
      LaterIntro(es', m, args, k + 1, q, e.begin, e.end);
    }
  }

  // Arguments j to k-1 are clear of [lo, hi).
  ghost predicate AllClear(args: seq<Arg>, j: nat, k: nat, q: nat, lo: int, hi: int)
    requires k <= |args|
  {
    forall i :: j <= i < k && !Skipped(args[i]) ==> ClearOf(args, i, q, lo, hi)
  }

  lemma AllClearAt(args: seq<Arg>, j: nat, k: nat, q: nat, lo: int, hi: int)
    requires j < k <= |args| && AllClear(args, j, k, q, lo, hi)
    ensures AllClear(args, j, k - 1, q, lo, hi)
    ensures ClearOf(args, k - 1, q, lo, hi) || Skipped(args[k - 1])
  {
    hide ClearOf;
  }

  lemma ClearAtTurn(p: Plugin, s: Env, args: seq<Arg>, m: nat, k: nat, q: nat, e: Entry, lo: int, hi: int)
    requires q < k < |args| && ArgsValid(args) && e.begin <= lo < hi <= e.end
    requires AllTidy(p, s, args, k + 1) && (ClearOf(args, k, q, lo, hi) || Skipped(args[k]))
    requires Later(At(p, s, args, k), m, args, k, q, e.begin, e.end)
    ensures args[k].ty.memberOf < |args|
    ensures var s' := StateAt(p, s, args, k);
            && WellFormed(s'.entries) && Tidy(s'.entries, args, k) && At(p, s, args, k) == s'.entries
            && StateAt(p, s, args, k + 1) == BeginStep(p, s', args, k).env
            && At(p, s, args, k + 1) == BeginStep(p, s', args, k).env.entries
            && SoleClear(s'.entries, At(p, s, args, k + 1), args, k, lo, hi)
            && Later(At(p, s, args, k + 1), m, args, k + 1, q, e.begin, e.end)
  {
    hide *;
    TidyAt(p, s, args, k + 1, k);
    AtNext(p, s, args, k);
    LaterStep(p, StateAt(p, s, args, k), args, m, k, q, e, lo, hi);
    LaterParts(At(p, s, args, k), m, args, k, q, e.begin, e.end);
  }

  lemma {:induction false} QuietBetween(p: Plugin, s: Env, args: seq<Arg>, m: nat, j: nat, k: nat, q: nat, e: Entry,
                                        lo: int, hi: int)
    requires q < j <= k <= |args| && ArgsValid(args) && e.begin <= lo < hi <= e.end
    requires AllTidy(p, s, args, k) && AllClear(args, j, k, q, lo, hi)
    requires Later(At(p, s, args, j), m, args, j, q, e.begin, e.end)
    ensures Later(At(p, s, args, k), m, args, k, q, e.begin, e.end)
    ensures Quiet(StateAt(p, s, args, j).log, StateAt(p, s, args, k).log, lo, hi)
    decreases k
  {
    hide *;
    if k == j {
      QuietRefl(StateAt(p, s, args, j).log, lo, hi);
    } else {
      AllClearAt(args, j, k, q, lo, hi);
      TidyAt(p, s, args, k, k - 1);
      QuietBetween(p, s, args, m, j, k - 1, q, e, lo, hi);
      ClearAtTurn(p, s, args, m, k - 1, q, e, lo, hi);
      StepClear(p, StateAt(p, s, args, k - 1), args, k - 1, lo, hi);
      QuietTrans(StateAt(p, s, args, j).log, StateAt(p, s, args, k - 1).log, StateAt(p, s, args, k).log, lo, hi);
    }
  }

  lemma {:induction false} EndQuietBetween(p: Plugin, s: Env, args: seq<Arg>, m: nat, j: nat, k: nat, q: nat, e: Entry,
                                           t: Env, lo: int, hi: int)
    requires q < j <= k <= |args| && ArgsValid(args) && e.begin <= lo < hi <= e.end
    requires AllTidy(p, s, args, k) && AllClear(args, j, k, q, lo, hi) && t.entries == At(p, s, args, k)
    requires Later(At(p, s, args, j), m, args, j, q, e.begin, e.end)
    ensures Quiet(t.log, EndDown(t, args, k, j).log, lo, hi)
    ensures EndDown(t, args, k, j).entries == At(p, s, args, j)
    decreases k
  {
    hide *;
    if k == j {
      QuietRefl(t.log, lo, hi);
      EndDownZero(t, args, k);
    } else {
      AllClearAt(args, j, k, q, lo, hi);
      TidyAt(p, s, args, k, k - 1);
      QuietBetween(p, s, args, m, j, k - 1, q, e, lo, hi);
      ClearAtTurn(p, s, args, m, k - 1, q, e, lo, hi);
      EndStepClear(p, StateAt(p, s, args, k - 1), args, k - 1, t, lo, hi);
      var t1 := EndStep(t, args, k - 1).0;
      EndQuietBetween(p, s, args, m, j, k - 1, q, e, t1, lo, hi);
      EndDownNext(t, args, k, j);
      QuietTrans(t.log, t1.log, EndDown(t, args, k, j).log, lo, hi);
    }
  }

  lemma EndDownZero(t: Env, args: seq<Arg>, k: nat)
    requires k <= |args| && ArgsValid(args)
    ensures EndDown(t, args, k, k) == t
  {
  }

  lemma EndDownNext(t: Env, args: seq<Arg>, k: nat, i: nat)
    requires i < k <= |args| && ArgsValid(args)
    ensures args[k - 1].ty.memberOf < |args|
    ensures EndDown(t, args, k, i) == EndDown(EndStep(t, args, k - 1).0, args, k - 1, i)
  {
    hide EndStep;
    assert args[k - 1] in args;
  }

  lemma {:induction false} EndDownLast(t: Env, args: seq<Arg>, k: nat, i: nat)
    requires i < k <= |args| && ArgsValid(args)
    ensures args[i].ty.memberOf < |args|
    ensures EndDown(t, args, k, i) == EndStep(EndDown(t, args, k, i + 1), args, i).0
    decreases k
  {
    hide EndStep;
    assert args[i] in args;
    if i < k - 1 {
      EndDownLast(EndStep(t, args, k - 1).0, args, k - 1, i);
    }
  }

  lemma LaterCovers(es: Entries, m: nat, args: seq<Arg>, k: nat, q: nat, e: Entry, lo: int, hi: int)
    requires k <= |args| && Later(es, m, args, k, q, e.begin, e.end) && e.begin <= lo && hi <= e.end
    ensures WellFormed(es) && Covered(es, lo, hi)
  {
    hide Owner, RefCount;
    forall x | lo <= x < hi ensures Owner(es, x) < |es| {
      assert Holds(es[|es| - m], x);
    }
  }

  // ------------------------------------------------------------------ the section itself

  // Argument q, no member itself, makes an entry for its section.
  ghost predicate Enters(p: Plugin, s: Env, args: seq<Arg>, q: nat)
    requires q < |args| && ArgsValid(args)
  {
    && !Skipped(args[q]) && !Member(args[q]) && Size(args, q) > 0
    && !Found(At(p, s, args, q), Begin(args, q), Size(args, q))
  }

  // [lo, hi) is a part of the section of argument i, which is q or a plain member of q, and
  // no other argument among them transfers any of it.
  ghost predicate Alone(args: seq<Arg>, q: nat, i: nat, lo: int, hi: int)
    requires q < |args| && i < |args|
  {
    && (i == q || (PlainMember(args[i]) && args[i].ty.memberOf == q && q < i)) && !Skipped(args[i])
    && Begin(args, i) <= lo < hi <= Begin(args, i) + Size(args, i)
    && Begin(args, q) <= lo && hi <= Begin(args, q) + Size(args, q)
    && forall k :: q <= k < |args| && k != i && !Skipped(args[k]) ==> ClearOf(args, k, q, lo, hi)
  }

  lemma AloneParts(args: seq<Arg>, q: nat, i: nat, lo: int, hi: int)
    requires q < |args| && i < |args| && Alone(args, q, i, lo, hi)
    ensures (i == q || (PlainMember(args[i]) && args[i].ty.memberOf == q && q < i)) && !Skipped(args[i]) && q <= i
    ensures Begin(args, i) <= lo < hi <= Begin(args, i) + Size(args, i) && Size(args, i) > 0
    ensures Begin(args, q) <= lo && hi <= Begin(args, q) + Size(args, q)
    ensures AllClear(args, i + 1, |args|, q, lo, hi)
    ensures i != q ==> AllClear(args, q + 1, i, q, lo, hi)
    ensures i != q ==> ClearOf(args, q, q, lo, hi) || Skipped(args[q])
  {
    hide ClearOf, Begin, Size;
  }

  lemma EntersParts(p: Plugin, s: Env, args: seq<Arg>, q: nat)
    requires q < |args| && ArgsValid(args) && Enters(p, s, args, q)
    ensures !Skipped(args[q]) && !Member(args[q]) && !PlainMember(args[q]) && Size(args, q) > 0
    ensures !Found(At(p, s, args, q), Begin(args, q), Size(args, q)) && args[q].ty.memberOf < |args|
  {
    hide At, Found, Begin, Size;
    assert args[q] in args;
  }

  lemma AbsentPart(es: Entries, hp: int, n: nat, lo: int, hi: int)
    requires !Found(es, hp, n) && hp <= lo < hi <= hp + n && WellFormed(es)
    ensures !Found(es, lo, hi - lo)
  {
    forall i | 0 <= i < |es| ensures !Flagged(es[i], lo, hi - lo) {
      assert !Flagged(es[i], hp, n);
      assert es[i] in es;
    }
  }

  // What argument q has made when its turn is over, and what holds before it.
  lemma Entered(p: Plugin, s: Env, args: seq<Arg>, q: nat, lo: int, hi: int)
    requires q < |args| && ArgsValid(args) && WellFormed(s.entries) && AllTidy(p, s, args, |args|)
    requires Enters(p, s, args, q) && Begin(args, q) <= lo < hi <= Begin(args, q) + Size(args, q)
    ensures var es := At(p, s, args, q + 1);
            && |es| > 0 && es[0].count == 1
            && es[0].begin == Begin(args, q) && es[0].end == Begin(args, q) + Size(args, q)
            && es[0].tgt == StepTgt(p, StateAt(p, s, args, q), args, q)
            && Later(es, |es|, args, q + 1, q, es[0].begin, es[0].end)
    ensures AllTidy(p, s, args, q) && Tidy(At(p, s, args, q), args, q) && WellFormed(At(p, s, args, q))
    ensures !Found(At(p, s, args, q), lo, hi - lo)
  {
    hide *;
    EntersParts(p, s, args, q);
    AtNext(p, s, args, q);
    TidyAt(p, s, args, |args|, q);
    assert AllTidy(p, s, args, q + 1) by { TidyPrefix(p, s, args, q); }
    BeginExtends(p, s, args, q, q + 1);
    LaterStarts(p, s, args, q);
    LaterFirst(At(p, s, args, q + 1), args, q);
    AbsentPart(At(p, s, args, q), Begin(args, q), Size(args, q), lo, hi);
  }

  lemma TidyPrefix(p: Plugin, s: Env, args: seq<Arg>, q: nat)
    requires q < |args| && ArgsValid(args) && AllTidy(p, s, args, |args|)
    ensures AllTidy(p, s, args, q + 1)
  {
    hide Tidy, BeginFirst;
    if q + 1 < |args| {
      TidyAt(p, s, args, |args|, q + 1);
    }
  }

  lemma LaterFirst(es: Entries, args: seq<Arg>, q: nat)
    requires q < |args| && Later(es, |es|, args, q + 1, q, Begin(args, q), Begin(args, q) + Size(args, q))
    ensures |es| > 0 && es[0].begin == Begin(args, q) && es[0].end == Begin(args, q) + Size(args, q)
  {
    hide WellFormed, NotSole, Begin, Size;
  }

  // The entry of q is there when argument i's turn comes and when it is over, and the log
  // says nothing of [lo, hi) up to then.
  lemma UpToTurn(p: Plugin, s: Env, args: seq<Arg>, q: nat, i: nat, lo: int, hi: int)
    requires q <= i < |args| && ArgsValid(args) && WellFormed(s.entries) && AllTidy(p, s, args, |args|)
    requires Enters(p, s, args, q) && Alone(args, q, i, lo, hi)
    ensures Touching(StateAt(p, s, args, i).log, lo, hi) == Touching(s.log, lo, hi)
    ensures var es := At(p, s, args, q + 1); |es| > 0 && Later(At(p, s, args, i + 1), |es|, args, i + 1, q, es[0].begin, es[0].end)
    ensures var es := At(p, s, args, q + 1); es[0].begin <= lo && hi <= es[0].end
  {
    hide *;
    AloneParts(args, q, i, lo, hi);
    Entered(p, s, args, q, lo, hi);
    var si, sq, es := StateAt(p, s, args, i), StateAt(p, s, args, q), At(p, s, args, q + 1);
    QuietBefore(p, s, args, q, q, lo, hi);
    if i == q {
      QuietTouching(s.log, si.log, lo, hi);
    } else {
      var sq' := StateAt(p, s, args, q + 1);
      AtNext(p, s, args, q);
      EntersParts(p, s, args, q);
      ClearSole(At(p, s, args, q), es, args, q, lo, hi);
      StepClear(p, sq, args, q, lo, hi);
      TidyAt(p, s, args, |args|, i);
      QuietBetween(p, s, args, |es|, q + 1, i, q, es[0], lo, hi);
      QuietTrans(s.log, sq.log, sq'.log, lo, hi);
      QuietTrans(s.log, sq'.log, si.log, lo, hi);
      QuietTouching(s.log, si.log, lo, hi);
      AtNext(p, s, args, i);
      LaterKept(p, si, args, |es|, i, q, es[0]);
    }
  }

  lemma ClearSole(es: Entries, es': Entries, args: seq<Arg>, q: nat, lo: int, hi: int)
    requires q < |args| && args[q].ty.memberOf < |args| && (ClearOf(args, q, q, lo, hi) || Skipped(args[q]))
    ensures SoleClear(es, es', args, q, lo, hi)
  {
    hide SoleAfter, Begin, Size;
  }

  // Whatever argument i's own step adds to the log touches [lo, hi).
  lemma OwnBegin(p: Plugin, s: Env, args: seq<Arg>, i: nat, lo: int, hi: int)
    requires i < |args| && args[i].ty.memberOf < |args|
    requires Begin(args, i) <= lo < hi <= Begin(args, i) + Size(args, i)
    ensures Touching(BeginStep(p, s, args, i).env.log, lo, hi) == Touching(s.log, lo, hi) + Sends(p, s, args, i)
  {
    hide *;
    BeginStepLog(p, s, args, i);
    var send, ptr := Sends(p, s, args, i), Attaches(p, s, args, i);
    SendsShape(p, s, args, i);
    TouchingAppend(s.log + send, ptr, lo, hi);
    TouchingAppend(s.log, send, lo, hi);
    NoneTouching(ptr, lo, hi);
    AllTouching(send, lo, hi);
  }

  lemma SendsShape(p: Plugin, s: Env, args: seq<Arg>, i: nat)
    requires i < |args| && args[i].ty.memberOf < |args|
    ensures |Sends(p, s, args, i)| <= 1
    ensures forall t :: t in Sends(p, s, args, i) ==> t.Submit? && t.hst == Begin(args, i) && t.size == Size(args, i)
    ensures forall t :: t in Attaches(p, s, args, i) ==> !Touches(t, 0, 0) && forall lo, hi :: !Touches(t, lo, hi)
  {
    hide MapPointee, MapSlot, CopyIn, Begin, Size;
  }

  lemma AllTouching(ts: seq<Transfer>, lo: int, hi: int)
    requires |ts| <= 1 && lo < hi
    requires forall t :: t in ts ==> !t.SubmitPtr? && t.hst <= lo && hi <= t.hst + t.size
    ensures Touching(ts, lo, hi) == ts
  {
    if ts == [] {
      NoneTouching(ts, lo, hi);
    } else {
      assert ts == [ts[0]];
      TouchingOne(ts[0], lo, hi);
    }
  }

  lemma OwnEnd(t: Env, args: seq<Arg>, i: nat, lo: int, hi: int)
    requires i < |args| && args[i].ty.memberOf < |args|
    requires Begin(args, i) <= lo < hi <= Begin(args, i) + Size(args, i)
    ensures Touching(EndStep(t, args, i).0.log, lo, hi) == Touching(t.log, lo, hi) + Fetches(t.entries, args, i)
  {
    hide *;
    EndStepLog(t, args, i);
    var fetch := Fetches(t.entries, args, i);
    FetchesShape(t.entries, args, i);
    TouchingAppend(t.log, fetch, lo, hi);
    AllTouching(fetch, lo, hi);
  }

  lemma FetchesShape(es: Entries, args: seq<Arg>, i: nat)
    requires i < |args| && args[i].ty.memberOf < |args|
    ensures |Fetches(es, args, i)| <= 1
    ensures forall t :: t in Fetches(es, args, i) ==> t.Retrieve? && t.hst == Begin(args, i) && t.size == Size(args, i)
  {
    hide CopyMember, Begin, Size, Lookup;
  }

  lemma BeginPhase(p: Plugin, s: Env, args: seq<Arg>, q: nat, i: nat, lo: int, hi: int)
    requires q <= i < |args| && ArgsValid(args) && WellFormed(s.entries) && AllTidy(p, s, args, |args|)
    requires Enters(p, s, args, q) && Alone(args, q, i, lo, hi)
    ensures args[i].ty.memberOf < |args|
    ensures Touching(StateAt(p, s, args, |args|).log, lo, hi) ==
            Touching(s.log, lo, hi) + Sends(p, StateAt(p, s, args, i), args, i)
    ensures WellFormed(At(p, s, args, |args|)) && Covered(At(p, s, args, |args|), lo, hi)
  {
    hide *;
    var e := At(p, s, args, q + 1);
    AtNext(p, s, args, i);
    AloneParts(args, q, i, lo, hi);
    UpToTurn(p, s, args, q, i, lo, hi);
    OwnBegin(p, StateAt(p, s, args, i), args, i, lo, hi);
    QuietBetween(p, s, args, |e|, i + 1, |args|, q, e[0], lo, hi);
    QuietTouching(StateAt(p, s, args, i + 1).log, StateAt(p, s, args, |args|).log, lo, hi);
    LaterCovers(At(p, s, args, |args|), |e|, args, |args|, q, e[0], lo, hi);
  }

  lemma EndPhase(p: Plugin, s: Env, args: seq<Arg>, q: nat, i: nat, s1: Env, lo: int, hi: int)
    requires q <= i < |args| && ArgsValid(args) && WellFormed(s.entries) && AllTidy(p, s, args, |args|)
    requires Enters(p, s, args, q) && Alone(args, q, i, lo, hi) && s1.entries == At(p, s, args, |args|)
    ensures args[i].ty.memberOf < |args|
    ensures Touching(EndFirst(s1, args, |args|).0.log, lo, hi) ==
            Touching(s1.log, lo, hi) + Fetches(At(p, s, args, i + 1), args, i)
  {
    hide *;
    var e := At(p, s, args, q + 1);
    AtNext(p, s, args, i);
    AloneParts(args, q, i, lo, hi);
    UpToTurn(p, s, args, q, i, lo, hi);
    EndQuietBetween(p, s, args, |e|, i + 1, |args|, q, e[0], s1, lo, hi);
    var t := EndDown(s1, args, |args|, i + 1);
    QuietTouching(s1.log, t.log, lo, hi);
    OwnEnd(t, args, i, lo, hi);
    var t' := EndStep(t, args, i).0;
    TidyAt(p, s, args, |args|, i);
    BeginExtends(p, s, args, i, |args|);
    OwnUndone(p, StateAt(p, s, args, i), args, i, t);
    EndBelow(p, s, args, q, i, t', lo, hi);
    QuietTouching(t'.log, EndFirst(t', args, i).0.log, lo, hi);
    EndSplitAt(s1, args, i);
  }

  // The arguments unmapped after i.
  lemma EndBelow(p: Plugin, s: Env, args: seq<Arg>, q: nat, i: nat, t: Env, lo: int, hi: int)
    requires q <= i < |args| && ArgsValid(args) && WellFormed(s.entries) && AllTidy(p, s, args, |args|)
    requires Enters(p, s, args, q) && Alone(args, q, i, lo, hi) && t.entries == At(p, s, args, i)
    ensures Quiet(t.log, EndFirst(t, args, i).0.log, lo, hi)
  {
    hide *;
    var es := At(p, s, args, q + 1);
    AloneParts(args, q, i, lo, hi);
    Entered(p, s, args, q, lo, hi);
    if i == q {
      EndQuietBefore(p, s, args, q, q, t, lo, hi);
    } else {
      TidyAt(p, s, args, |args|, i);
      EndQuietBetween(p, s, args, |es|, q + 1, i, q, es[0], t, lo, hi);
      var u := EndDown(t, args, i, q + 1);
      AtNext(p, s, args, q);
      EntersParts(p, s, args, q);
      ClearSole(At(p, s, args, q), es, args, q, lo, hi);
      EndStepClear(p, StateAt(p, s, args, q), args, q, u, lo, hi);
      var u' := EndStep(u, args, q).0;
      EndQuietBefore(p, s, args, q, q, u', lo, hi);
      EndSplitBelow(t, args, i, q);
      QuietTrans(t.log, u.log, u'.log, lo, hi);
      QuietTrans(t.log, u'.log, EndFirst(u', args, q).0.log, lo, hi);
    }
  }

  lemma EndSplitBelow(t: Env, args: seq<Arg>, i: nat, q: nat)
    requires q < i <= |args| && ArgsValid(args)
    ensures args[q].ty.memberOf < |args|
    ensures EndFirst(t, args, i).0 == EndFirst(EndStep(EndDown(t, args, i, q + 1), args, q).0, args, q).0
  {
    hide EndStep;
    assert args[q] in args;
    EndSplit(t, args, i, q + 1);
  }

  lemma EndSplitAt(s1: Env, args: seq<Arg>, i: nat)
    requires i < |args| && ArgsValid(args)
    ensures args[i].ty.memberOf < |args|
    ensures EndFirst(s1, args, |args|).0 ==
            EndFirst(EndStep(EndDown(s1, args, |args|, i + 1), args, i).0, args, i).0
  {
    hide EndStep;
    EndSplitBelow(s1, args, |args|, i);
  }

  lemma MiddlePhase(p: Plugin, s: Env, args: seq<Arg>, inner: Run, lo: int, hi: int)
    requires ArgsValid(args) && RunValid(inner) && lo < hi
    requires WellFormed(At(p, s, args, |args|)) && Covered(At(p, s, args, |args|), lo, hi)
    requires RunTidy(p, StateAt(p, s, args, |args|), inner, lo, hi)
    ensures var s0 := StateAt(p, s, args, |args|);
            var s1 := Exec(p, s0, inner);
            Touching(s1.log, lo, hi) == Touching(s0.log, lo, hi) && s1.entries == At(p, s, args, |args|)
  {
    hide *;
    var s0 := StateAt(p, s, args, |args|);
    AtIsState(p, s, args, |args|);
    NoTransferWhileMapped(p, s0, inner, lo, hi);
    QuietTouching(s0.log, Exec(p, s0, inner).log, lo, hi);
  }

  // The whole region, with anything tidy nested in it, copies bytes of [lo, hi) only in
  // argument i's own steps.
  lemma OnlyOwnTransfers(p: Plugin, s: Env, args: seq<Arg>, q: nat, i: nat, inner: Run, lo: int, hi: int)
    requires q <= i < |args| && ArgsValid(args) && RunValid(inner) && args[i].ty.memberOf < |args|
    requires WellFormed(s.entries) && AllTidy(p, s, args, |args|)
    requires Enters(p, s, args, q) && Alone(args, q, i, lo, hi)
    requires RunTidy(p, DataBegin(p, s, args).0, inner, lo, hi)
    ensures Touching(DataEnd(Exec(p, DataBegin(p, s, args).0, inner), args).0.log, lo, hi) ==
            Touching(s.log, lo, hi) + Sends(p, StateAt(p, s, args, i), args, i) + Fetches(At(p, s, args, i + 1), args, i)
  {
    hide *;
    var s1 := Exec(p, StateAt(p, s, args, |args|), inner);
    RegionEnds(p, s, args, s1);
    AloneParts(args, q, i, lo, hi);
    BeginPhase(p, s, args, q, i, lo, hi);
    MiddlePhase(p, s, args, inner, lo, hi);
    EndPhase(p, s, args, q, i, s1, lo, hi);
  }

  lemma OwnSend(p: Plugin, s: Env, args: seq<Arg>, i: nat)
    requires i < |args| && args[i].ty.memberOf < |args| && !Skipped(args[i]) && !Member(args[i])
    requires WellFormed(s.entries) && Tidy(s.entries, args, i) && Size(args, i) > 0
    requires !Found(s.entries, Begin(args, i), Size(args, i))
    ensures Sends(p, s, args, i) ==
            if args[i].ty.to then [Submit(StepTgt(p, s, args, i), Begin(args, i), Size(args, i))] else []
  {
    SubmittedIff(p, s, args, i);
    SlotKeptIff(p, s, args, i);
    hide IsParent;
  }

  lemma OwnFetch(es: Entries, args: seq<Arg>, i: nat)
    requires i < |args| && args[i].ty.memberOf < |args| && !Skipped(args[i]) && !Member(args[i])
    requires Size(args, i) > 0 && !args[i].ty.always && !args[i].ty.delete
    requires |es| > 0 && es[0].begin == Begin(args, i) && es[0].end == Begin(args, i) + Size(args, i) && es[0].count == 1
    ensures Fetches(es, args, i) ==
            if args[i].ty.from then [Retrieve(Begin(args, i), es[0].tgt, Size(args, i))] else []
  {
    assert Flagged(es[0], Begin(args, i), Size(args, i));
  }

  // A section that enters on its own, struct or not, is transferred exactly once in each
  // of the directions its map type asks for, in every part that its members leave to it.
  lemma TransferredOnce(p: Plugin, s: Env, args: seq<Arg>, i: nat, inner: Run, lo: int, hi: int)
    requires i < |args| && ArgsValid(args) && RunValid(inner)
    requires WellFormed(s.entries) && AllTidy(p, s, args, |args|)
    requires Enters(p, s, args, i) && Alone(args, i, i, lo, hi)
    requires RunTidy(p, DataBegin(p, s, args).0, inner, lo, hi)
    ensures args[i].ty.memberOf < |args|
    ensures var hp, n, tp := Begin(args, i), Size(args, i), StepTgt(p, StateAt(p, s, args, i), args, i);
            Touching(DataEnd(Exec(p, DataBegin(p, s, args).0, inner), args).0.log, lo, hi) ==
            Touching(s.log, lo, hi)
            + (if args[i].ty.to then [Submit(tp, hp, n)] else [])
            + (if args[i].ty.from then [Retrieve(hp, tp, n)] else [])
  {
    hide *;
    AtNext(p, s, args, i);
    AloneParts(args, i, i, lo, hi);
    EntersParts(p, s, args, i);
    Entered(p, s, args, i, lo, hi);
    TidyParts(At(p, s, args, i), args, i);
    OwnSend(p, StateAt(p, s, args, i), args, i);
    OwnFetch(At(p, s, args, i + 1), args, i);
    OnlyOwnTransfers(p, s, args, i, i, inner, lo, hi);
  }

  // Members of a struct: where the member lies in the entry of its parent.
  lemma MemberTransfers(p: Plugin, s: Env, args: seq<Arg>, i: nat)
    requires i < |args| && args[i].ty.memberOf < |args| && !Skipped(args[i]) && PlainMember(args[i])
    requires WellFormed(s.entries) && Tidy(s.entries, args, i) && Size(args, i) > 0
    ensures BeginStep(p, s, args, i).env.entries == s.entries
    ensures var hp, n := Begin(args, i), Size(args, i);
            var j, sole := Lookup(s.entries, hp, n), RefCount(s.entries, args[args[i].ty.memberOf].begin) == 1;
            && j < |s.entries|
            && Sends(p, s, args, i) == (if args[i].ty.to && sole then [Submit(Translate(s.entries[j], hp), hp, n)] else [])
            && Fetches(s.entries, args, i) ==
               (if args[i].ty.from && sole then [Retrieve(hp, Translate(s.entries[j], hp), n)] else [])
  {
    hide IsParent, Owner, RefCount, WellFormed;
    TidyStepEntries(p, s, args, i);
    SlotKeptIff(p, s, args, i);
  }

  lemma MemberIndex(a: Arg)
    requires PlainMember(a)
    ensures a.ty.memberOf >= 0
  {
  }

  // A plain member of a struct that enters is transferred exactly once in each of the
  // directions its map type asks for if the struct is mapped by this region alone when the
  // member's turn comes, and not at all otherwise.
  lemma MemberTransferredOnce(p: Plugin, s: Env, args: seq<Arg>, i: nat, inner: Run, lo: int, hi: int)
    requires i < |args| && ArgsValid(args) && RunValid(inner) && PlainMember(args[i]) && args[i].ty.memberOf < i
    requires WellFormed(s.entries) && AllTidy(p, s, args, |args|)
    requires Enters(p, s, args, args[i].ty.memberOf) && Alone(args, args[i].ty.memberOf, i, lo, hi)
    requires RunTidy(p, DataBegin(p, s, args).0, inner, lo, hi)
    ensures var hp, n, es := Begin(args, i), Size(args, i), At(p, s, args, i);
            var j, sole := Lookup(es, hp, n), RefCount(es, args[args[i].ty.memberOf].begin) == 1;
            && j < |es|
            && Touching(DataEnd(Exec(p, DataBegin(p, s, args).0, inner), args).0.log, lo, hi) ==
               Touching(s.log, lo, hi)
               + (if args[i].ty.to && sole then [Submit(Translate(es[j], hp), hp, n)] else [])
               + (if args[i].ty.from && sole then [Retrieve(hp, Translate(es[j], hp), n)] else [])
  {
    hide *;
    MemberIndex(args[i]);
    var q := args[i].ty.memberOf;
    AtNext(p, s, args, i);
    AloneParts(args, q, i, lo, hi);
    TidyAt(p, s, args, |args|, i);
    BeginExtends(p, s, args, i, |args|);
    MemberTransfers(p, StateAt(p, s, args, i), args, i);
    OnlyOwnTransfers(p, s, args, q, i, inner, lo, hi);
  }

  lemma RegionEnds(p: Plugin, s: Env, args: seq<Arg>, s1: Env)
    requires ArgsValid(args)
    ensures DataBegin(p, s, args).0 == StateAt(p, s, args, |args|)
    ensures DataEnd(s1, args).0 == EndFirst(s1, args, |args|).0
  {
    hide BeginFirst, EndFirst;
  }

  lemma AtIsState(p: Plugin, s: Env, args: seq<Arg>, k: nat)
    requires k <= |args| && ArgsValid(args)
    ensures At(p, s, args, k) == StateAt(p, s, args, k).entries
  {
  }

  lemma TidyParts(es: Entries, args: seq<Arg>, i: nat)
    requires i < |args| && args[i].ty.memberOf < |args| && !Skipped(args[i]) && Tidy(es, args, i)
    ensures !args[i].ty.always && !args[i].ty.delete
  {
  }

  lemma OwnUndone(p: Plugin, s: Env, args: seq<Arg>, i: nat, t: Env)
    requires i < |args| && args[i].ty.memberOf < |args| && WellFormed(s.entries) && Tidy(s.entries, args, i)
    requires t.entries == BeginStep(p, s, args, i).env.entries
    ensures EndStep(t, args, i).0.entries == s.entries
  {
    hide BeginStep, EndStep;
    ArgumentUndone(p, s, args, i, t);
  }
}
