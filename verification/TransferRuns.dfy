/** Which transfers a well-bracketed run makes.

    A section is sent once when it enters the device data environment, fetched once
    when it leaves it, and left alone by everything that happens in between. */
module TransferRuns {
  import opened Memory
  import opened DeviceMap
  import opened DataEnvironment
  import opened MapInverse

  // ------------------------------------------------------------------------ the log

  // Does the transfer copy a byte of the host interval [lo, hi)?
  predicate Touches(t: Transfer, lo: int, hi: int) {
    match t
    case Submit(_, h, n) => n > 0 && h < hi && lo < h + n
    case Retrieve(h, _, n) => n > 0 && h < hi && lo < h + n
    case SubmitPtr(_, _) => false
  }

  // The transfers of the log that touch [lo, hi), in order.
  function Touching(log: seq<Transfer>, lo: int, hi: int): (r: seq<Transfer>)
    ensures forall t :: t in r ==> Touches(t, lo, hi)
  {
    if log == [] then []
    else
      var front := Touching(log[..|log| - 1], lo, hi);
      var t := log[|log| - 1];
      if Touches(t, lo, hi) then front + [t] else front
  }

  lemma {:induction false} TouchingAppend(a: seq<Transfer>, b: seq<Transfer>, lo: int, hi: int)
    ensures Touching(a + b, lo, hi) == Touching(a, lo, hi) + Touching(b, lo, hi)
  {
    if b == [] {
      assert a + b == a;
    } else {
      TouchingAppend(a, b[..|b| - 1], lo, hi);
      assert (a + b)[..|a + b| - 1] == a + b[..|b| - 1];
    }
  }

  lemma TouchingOne(t: Transfer, lo: int, hi: int)
    ensures Touching([t], lo, hi) == if Touches(t, lo, hi) then [t] else []
  {
    assert [t][..0] == [];
    assert Touching([], lo, hi) == [];
  }

  // The target addresses named by a submitted or retrieved section do not matter here.
  predicate Within(e: Entry, hp: int, n: nat) {
    e.begin <= hp && hp + n <= e.end
  }

  // ------------------------------------------------------- how entries evolve forward

  // es' is es with new entries in front and counts that did not go down.
  ghost predicate Extends(es': Entries, es: Entries) {
    && |es'| >= |es|
    && forall t :: 0 <= t < |es| ==> Grew(es'[|es'| - |es| + t], es[t])
  }

  predicate Grew(f: Entry, e: Entry) {
    f.begin == e.begin && f.end == e.end && f.tgt == e.tgt && f.count >= e.count
  }

  lemma ExtendsTrans(a: Entries, b: Entries, c: Entries)
    requires Extends(b, a) && Extends(c, b)
    ensures Extends(c, a)
  {
    forall t | 0 <= t < |a| ensures Grew(c[|c| - |a| + t], a[t]) {
      var u := |b| - |a| + t;
      assert Grew(b[u], a[t]);
      assert Grew(c[|c| - |b| + u], b[u]);
    }
  }

  lemma WellFormedCount(es: Entries, i: nat)
    requires WellFormed(es) && i < |es|
    ensures es[i].count >= 1 && es[i].begin < es[i].end
  {
    assert es[i] in es;
  }

  lemma RecountExtends(es: Entries, i: nat)
    requires WellFormed(es) && i < |es|
    ensures var es' := Recount(es, i, es[i].count + 1);
            WellFormed(es') && Extends(es', es)
  {
    hide WellFormed;
    WellFormedCount(es, i);
    RecountWellFormed(es, i, es[i].count + 1);
  }

  lemma PushExtends(es: Entries, e: Entry)
    requires WellFormed(es) && e.begin < e.end && e.count == 1 && !Found(es, e.begin, e.end - e.begin)
    ensures WellFormed([e] + es) && Extends([e] + es, es)
  {
    hide WellFormed, Found;
    PushWellFormed(es, e);
  }

  lemma MapSectionExtends(es: Entries, hp: int, base: int, n: nat, tgt: int, implicit: bool, update: bool)
    requires WellFormed(es)
    ensures var es' := MapSection(es, hp, base, n, tgt, implicit, update);
            WellFormed(es') && Extends(es', es)
  {
    hide WellFormed, Extends, Flagged;
    var i := Lookup(es, hp, n);
    assert Extends(es, es) by { ExtendsRefl(es); }
    if i < |es| {
      RecountExtends(es, i);
    } else if n > 0 {
      PushExtends(es, Entry(base, hp, hp + n, tgt, 1));
    }
  }

  lemma ExtendsRefl(es: Entries)
    ensures Extends(es, es)
  {
  }

  // ------------------------------------------------------------- well-behaved arguments

  ghost predicate IsParent(args: seq<Arg>, i: nat) {
    exists j :: 0 <= j < |args| && args[j].ty.memberOf == i
  }

  // Position of the entry holding address p.
  function Owner(es: Entries, p: int): (i: nat)
    ensures i <= |es|
    ensures i < |es| ==> Holds(es[i], p) && RefCount(es, p) == es[i].count
    ensures i == |es| ==> RefCount(es, p) == -1
    ensures forall j :: 0 <= j < i ==> !Holds(es[j], p)
  {
    if es == [] || Holds(es[0], p) then 0 else 1 + Owner(es[1..], p)
  }

  // Conditions on argument i when its turn comes and the entries are es: no ALWAYS or
  // DELETE, legal extensions only, a member comes after its parent and lies in the
  // parent's entry, a parent is not an extension, and a pointee that is already mapped
  // does not hang off a parent mapped only here (see AttachedPointeeIsResent).
  ghost predicate Tidy(es: Entries, args: seq<Arg>, i: nat)
    requires i < |args| && args[i].ty.memberOf < |args|
  {
    var a := args[i];
    var hp, n := Begin(args, i), Size(args, i);
    var j := Lookup(es, hp, n);
    Skipped(a) ||
    (&& SlotKept(es, args, i) && RoundTrips(es, args, i)
     && !a.ty.always && !a.ty.delete
     && (j < |es| ==> Usable(es[j], hp, n, a.ty.implicit))
     && (Member(a) ==> a.ty.memberOf < i && !Skipped(args[a.ty.memberOf]) && !Member(args[a.ty.memberOf]))
     && (PlainMember(a) && n > 0 ==>
           var o := Owner(es, args[a.ty.memberOf].begin);
           o < |es| && Within(es[o], hp, n))
     && (Member(a) && a.ty.ptrAndObj && a.ty.to && j < |es| ==>
           RefCount(es, args[a.ty.memberOf].begin) != 1)
     && (IsParent(args, i) ==> a.size > 0 && (j < |es| ==> Contained(es[j], hp, n))))
  }

  ghost predicate AllTidy(p: Plugin, s: Env, args: seq<Arg>, k: nat)
    requires k <= |args| && ArgsValid(args)
  {
    k == 0 || (AllTidy(p, s, args, k - 1) && Tidy(BeginFirst(p, s, args, k - 1).0.entries, args, k - 1))
  }

  lemma {:induction false} TidyRoundTrips(p: Plugin, s: Env, args: seq<Arg>, k: nat)
    requires k <= |args| && ArgsValid(args) && AllTidy(p, s, args, k)
    ensures ArgsRoundTrip(p, s, args, k)
  {
    hide BeginFirst, SectionRoundTrips, IsParent;
    if k > 0 {
      TidyRoundTrips(p, s, args, k - 1);
    }
  }

  // ------------------------------------------------------------- one argument at a time

  // The entry list after argument i, given the entries before it.
  function StepTgt(p: Plugin, s: Env, args: seq<Arg>, i: nat): int
    requires i < |args| && args[i].ty.memberOf < |args|
  {
    NewTgt(p, AfterSlot(p, s, args, i), Size(args, i))
  }

  lemma TidyStepEntries(p: Plugin, s: Env, args: seq<Arg>, i: nat)
    requires i < |args| && args[i].ty.memberOf < |args| && !Skipped(args[i])
    requires Tidy(s.entries, args, i)
    ensures var a := args[i];
            BeginStep(p, s, args, i).env.entries ==
            MapSection(s.entries, Begin(args, i), PointeeBase(s.host, a), Size(args, i),
                       StepTgt(p, s, args, i), a.ty.implicit, !PlainMember(a))
  {
    hide BeginStep, IsParent;
    SlotKeptIff(p, s, args, i);
    BeginStepEntries(p, s, args, i);
  }

  // The section argument i sends, if it sends one.
  function Sends(p: Plugin, s: Env, args: seq<Arg>, i: nat): (r: seq<Transfer>)
    requires i < |args| && args[i].ty.memberOf < |args|
    ensures |r| <= 1
    ensures forall t :: t in r ==> t.Submit? && t.hst == Begin(args, i) && t.size == Size(args, i)
  {
    var a := args[i];
    if Skipped(a) then [] else
    var (s2, tp, isNew) := MapPointee(p, s, args, i);
    if CopyIn(s2.entries, args, i, isNew) then [Submit(tp, Begin(args, i), Size(args, i))] else []
  }

  // The device pointer argument i attaches, if it attaches one.
  function Attaches(p: Plugin, s: Env, args: seq<Arg>, i: nat): (r: seq<Transfer>)
    requires i < |args| && args[i].ty.memberOf < |args|
    ensures |r| <= 1 && forall t :: t in r ==> t.SubmitPtr?
  {
    var a := args[i];
    if Skipped(a) then [] else
    var slot, tp := MapSlot(p, s, args, i).1, MapPointee(p, s, args, i).1;
    if slot == 0 then [] else [SubmitPtr(slot, tp - (Begin(args, i) - PointeeBase(s.host, a)))]
  }

  lemma BeginStepLog(p: Plugin, s: Env, args: seq<Arg>, i: nat)
    requires i < |args| && args[i].ty.memberOf < |args|
    ensures BeginStep(p, s, args, i).env.log == s.log + Sends(p, s, args, i) + Attaches(p, s, args, i)
  {
    hide *;
    if Skipped(args[i]) {
      SkippedLog(p, s, args, i);
    } else {
      var (s2, tp, isNew) := MapPointee(p, s, args, i);
      BeginStepParts(p, s, args, i);
      MapPointeeLog(p, s, args, i);
      SendArgumentLog(s2, args, i, MapSlot(p, s, args, i).1, PointeeBase(s.host, args[i]), tp, isNew);
    }
  }

  lemma SkippedLog(p: Plugin, s: Env, args: seq<Arg>, i: nat)
    requires i < |args| && args[i].ty.memberOf < |args| && Skipped(args[i])
    ensures BeginStep(p, s, args, i).env.log == s.log + Sends(p, s, args, i) + Attaches(p, s, args, i)
  {
  }

  lemma BeginStepParts(p: Plugin, s: Env, args: seq<Arg>, i: nat)
    requires i < |args| && args[i].ty.memberOf < |args| && !Skipped(args[i])
    ensures var (s2, tp, isNew) := MapPointee(p, s, args, i);
            var slot, base := MapSlot(p, s, args, i).1, PointeeBase(s.host, args[i]);
            && BeginStep(p, s, args, i).env == SendArgument(s2, args, i, slot, base, tp, isNew).0
            && Sends(p, s, args, i) ==
               (if CopyIn(s2.entries, args, i, isNew) then [Submit(tp, Begin(args, i), Size(args, i))] else [])
            && Attaches(p, s, args, i) == (if slot == 0 then [] else [SubmitPtr(slot, tp - (Begin(args, i) - base))])
  {
    hide CopyIn, MapSlot, MapPointee, SendArgument, Begin, Size, PointeeBase;
  }

  lemma MapPointeeLog(p: Plugin, s: Env, args: seq<Arg>, i: nat)
    requires i < |args| && args[i].ty.memberOf < |args|
    ensures MapPointee(p, s, args, i).0.log == s.log
  {
    var a := args[i];
    GetOrAllocLog(p, s, a.base, a.base, PTR_BYTES, a.ty.implicit, !Member(a));
    GetOrAllocLog(p, MapSlot(p, s, args, i).0, Begin(args, i), PointeeBase(s.host, a), Size(args, i),
                  a.ty.implicit, !PlainMember(a));
  }

  lemma GetOrAllocLog(p: Plugin, s: Env, hp: int, base: int, n: nat, implicit: bool, update: bool)
    ensures GetOrAlloc(p, s, hp, base, n, implicit, update).0.log == s.log
  {
  }

  lemma SendArgumentLog(s: Env, args: seq<Arg>, i: nat, slot: int, base: int, tp: int, isNew: bool)
    requires i < |args| && args[i].ty.memberOf < |args|
    ensures var send := if CopyIn(s.entries, args, i, isNew) then [Submit(tp, Begin(args, i), Size(args, i))] else [];
            var ptr := if slot == 0 then [] else [SubmitPtr(slot, tp - (Begin(args, i) - base))];
            SendArgument(s, args, i, slot, base, tp, isNew).0.log == s.log + send + ptr
  {
  }

  // The section argument i fetches when it is unmapped in a state with entries es.
  function Fetches(es: Entries, args: seq<Arg>, i: nat): (r: seq<Transfer>)
    requires i < |args| && args[i].ty.memberOf < |args|
    ensures |r| <= 1
    ensures forall t :: t in r ==> t.Retrieve? && t.hst == Begin(args, i) && t.size == Size(args, i)
  {
    var a := args[i];
    var hp, n := Begin(args, i), Size(args, i);
    if Skipped(a) || !a.ty.from then [] else
    var j := Lookup(es, hp, n);
    var last := j < |es| && es[j].count <= 1;
    var tp := if j < |es| then Translate(es[j], hp) else 0;
    if (!PlainMember(a) && (last || a.ty.delete)) || a.ty.always || CopyMember(es, args, i)
    then [Retrieve(hp, tp, n)] else []
  }

  lemma EndStepLog(s: Env, args: seq<Arg>, i: nat)
    requires i < |args| && args[i].ty.memberOf < |args|
    ensures EndStep(s, args, i).0.log == s.log + Fetches(s.entries, args, i)
  {
    var a := args[i];
    if !Skipped(a) {
      var hp, n := Begin(args, i), Size(args, i);
      var (s1, tp, isLast) := GetTgtPtr(s, hp, n, !PlainMember(a));
      var del := (isLast || a.ty.delete) && !PlainMember(a);
      var (s2, ok2) := if a.ty.from || del then CopyOut(s1, args, i, tp, del) else (s1, true);
      assert PlainMember(a) ==> s1 == s;
      CopyOutLog(s1, args, i, tp, del);
      assert s2.log == s.log + Fetches(s.entries, args, i);
      DeallocLog(s2, hp, n, a.ty.delete);
    }
  }

  lemma CopyOutLog(s: Env, args: seq<Arg>, i: nat, tp: int, del: bool)
    requires i < |args| && args[i].ty.memberOf < |args|
    ensures CopyOut(s, args, i, tp, del).0.log ==
            s.log + if args[i].ty.from && (del || args[i].ty.always || CopyMember(s.entries, args, i))
                    then [Retrieve(Begin(args, i), tp, Size(args, i))] else []
  {
  }

  lemma DeallocLog(s: Env, hp: int, n: nat, force: bool)
    ensures Dealloc(s, hp, n, force).0.log == s.log
  {
  }

  lemma IsNewIffAbsent(p: Plugin, s: Env, args: seq<Arg>, i: nat)
    requires i < |args| && args[i].ty.memberOf < |args| && !Skipped(args[i])
    requires Tidy(s.entries, args, i) && Size(args, i) > 0
    ensures MapPointee(p, s, args, i).2 <==> !Found(s.entries, Begin(args, i), Size(args, i))
    ensures MapPointee(p, s, args, i).0.entries ==
            MapSection(s.entries, Begin(args, i), PointeeBase(s.host, args[i]), Size(args, i),
                       StepTgt(p, s, args, i), args[i].ty.implicit, !PlainMember(args[i]))
  {
    hide IsParent, Owner;
    var a := args[i];
    SlotKeptIff(p, s, args, i);
    GetOrAllocEntries(p, AfterSlot(p, s, args, i), Begin(args, i), PointeeBase(s.host, a), Size(args, i),
                      a.ty.implicit, !PlainMember(a));
  }

  // A TO section is submitted exactly when it was absent from the map, or is a member
  // of a parent whose count is 1.
  lemma SubmittedIff(p: Plugin, s: Env, args: seq<Arg>, i: nat)
    requires i < |args| && args[i].ty.memberOf < |args| && WellFormed(s.entries) && !Skipped(args[i])
    requires Tidy(s.entries, args, i) && Size(args, i) > 0
    ensures Sends(p, s, args, i) != [] <==>
            args[i].ty.to &&
            (!Found(s.entries, Begin(args, i), Size(args, i)) ||
             (PlainMember(args[i]) && RefCount(s.entries, args[args[i].ty.memberOf].begin) == 1))
  {
    hide IsParent, MapPointee, WellFormed;
    var a := args[i];
    IsNewIffAbsent(p, s, args, i);
    var j := Lookup(s.entries, Begin(args, i), Size(args, i));
    if j < |s.entries| && !PlainMember(a) && Member(a) {
      RefCountRecount(s.entries, j, args[a.ty.memberOf].begin);
    }
  }

  // A tidy argument sends only a section that lies in one entry with count 1.
  lemma SendsWithinSole(p: Plugin, s: Env, args: seq<Arg>, i: nat)
    requires i < |args| && args[i].ty.memberOf < |args| && WellFormed(s.entries) && !Skipped(args[i])
    requires Tidy(s.entries, args, i) && Sends(p, s, args, i) != [] && Size(args, i) > 0
    ensures SoleAfter(s.entries, BeginStep(p, s, args, i).env.entries, args, i)
  {
    hide BeginStep, IsParent, Sends, SlotKept;
    SubmittedIff(p, s, args, i);
    TidyStepEntries(p, s, args, i);
  }

  // Either a new entry was made for exactly the section of argument i, or i is a plain
  // member inside its parent's entry, which has count 1.
  ghost predicate SoleAfter(es: Entries, es': Entries, args: seq<Arg>, i: nat)
    requires i < |args| && args[i].ty.memberOf < |args|
  {
    var hp, n := Begin(args, i), Size(args, i);
    if PlainMember(args[i])
    then es' == es && var o := Owner(es, args[args[i].ty.memberOf].begin);
         o < |es| && Within(es[o], hp, n) && es[o].count == 1
    else !Found(es, hp, n) && |es'| == |es| + 1 && es' == [es'[0]] + es &&
         es'[0].begin == hp && es'[0].end == hp + n && es'[0].count == 1
  }

  // Bumping a count never brings the count at an address down to one.
  lemma RefCountRecount(es: Entries, j: nat, p: int)
    requires WellFormed(es) && j < |es|
    ensures RefCount(Recount(es, j, es[j].count + 1), p) == 1 ==> RefCount(es, p) == 1
  {
    var r := Recount(es, j, es[j].count + 1);
    assert es[j] in es;
    assert forall k :: 0 <= k < |es| ==> (Holds(r[k], p) <==> Holds(es[k], p));
    var o, o' := Owner(es, p), Owner(r, p);
    assert o == o';
  }

  // The mirror image for target_data_end, in the state left by target_data_begin.
  lemma FetchedIff(es: Entries, args: seq<Arg>, i: nat, base: int, tgt: int)
    requires i < |args| && args[i].ty.memberOf < |args| && WellFormed(es) && !Skipped(args[i])
    requires Tidy(es, args, i) && Size(args, i) > 0
    ensures var hp, n, a := Begin(args, i), Size(args, i), args[i];
            var es' := MapSection(es, hp, base, n, tgt, a.ty.implicit, !PlainMember(a));
            Fetches(es', args, i) != [] <==>
            a.ty.from && (if PlainMember(a) then RefCount(es, args[a.ty.memberOf].begin) == 1
                          else !Found(es, hp, n))
  {
    hide IsParent, WellFormed, Owner, SlotKept;
    var hp, n, a := Begin(args, i), Size(args, i), args[i];
    var j := Lookup(es, hp, n);
    var es' := MapSection(es, hp, base, n, tgt, a.ty.implicit, !PlainMember(a));
    if j < |es| {
      WellFormedCount(es, j);
      if !PlainMember(a) {
        LookupRecount(es, j, es[j].count + 1, hp, n);
      }
    } else {
      assert Flagged(es'[0], hp, n) && Lookup(es', hp, n) == 0;
    }
  }

  lemma FetchesWithinSole(es: Entries, args: seq<Arg>, i: nat, base: int, tgt: int)
    requires i < |args| && args[i].ty.memberOf < |args| && WellFormed(es) && !Skipped(args[i])
    requires Tidy(es, args, i) && Size(args, i) > 0
    requires var a := args[i];
             Fetches(MapSection(es, Begin(args, i), base, Size(args, i), tgt, a.ty.implicit, !PlainMember(a)), args, i) != []
    ensures var a := args[i];
            SoleAfter(es, MapSection(es, Begin(args, i), base, Size(args, i), tgt, a.ty.implicit, !PlainMember(a)), args, i)
  {
    hide IsParent, Fetches, SlotKept, WellFormed;
    FetchedIff(es, args, i, base, tgt);
  }

  // ---------------------------------------------------------------- along a region

  // Entries beyond the last m are new since the list had length m.  A parent's entry
  // is either new or has been counted at least twice.
  ghost predicate ParentsCounted(es: Entries, m: nat, args: seq<Arg>, k: nat)
    requires k <= |args|
  {
    forall p, t | 0 <= p < k && IsParent(args, p) && !Skipped(args[p]) && !Member(args[p]) &&
                  0 <= t < |es| && Holds(es[t], args[p].begin) :: t + m < |es| || es[t].count >= 2
  }

  lemma ParentsCountedStep(es: Entries, m: nat, args: seq<Arg>, i: nat, base: int, tgt: int)
    requires i < |args| && args[i].ty.memberOf < |args| && WellFormed(es) && m <= |es|
    requires !Skipped(args[i]) && Tidy(es, args, i) && ParentsCounted(es, m, args, i)
    ensures var a := args[i];
            ParentsCounted(MapSection(es, Begin(args, i), base, Size(args, i), tgt, a.ty.implicit, !PlainMember(a)), m, args, i + 1)
  {
    var a, hp, n := args[i], Begin(args, i), Size(args, i);
    var es' := MapSection(es, hp, base, n, tgt, a.ty.implicit, !PlainMember(a));
    var j := Lookup(es, hp, n);
    hide Lookup, SlotKept, RoundTrips, Usable;
    var d := |es'| - |es|;
    forall p, t | 0 <= p < i + 1 && IsParent(args, p) && !Skipped(args[p]) && !Member(args[p]) &&
                  0 <= t < |es'| && Holds(es'[t], args[p].begin)
      ensures t + m < |es'| || es'[t].count >= 2
    {
      if t >= d {
        assert Holds(es[t - d], args[p].begin) && es'[t].count >= es[t - d].count;
        if p == i {
          HolderFlagged(es[t - d], args, i);
          assert es[t - d] in es;
          if j < |es| {
            assert es[j] in es && Contained(es[j], hp, n);
            OwnerUniqueIndex(es, j, t - d, args[i].begin);
          }
        }
      }
    }
  }

  // The entry holding the unpadded begin of a non-empty section is flagged by it.
  lemma HolderFlagged(e: Entry, args: seq<Arg>, i: nat)
    requires i < |args| && args[i].size > 0 && Holds(e, args[i].begin)
    ensures Flagged(e, Begin(args, i), Size(args, i))
    ensures Begin(args, i) <= args[i].begin < Begin(args, i) + Size(args, i)
  {
  }

  lemma OwnerUniqueIndex(es: Entries, i: nat, j: nat, p: int)
    requires WellFormed(es) && i < |es| && j < |es| && Holds(es[i], p) && Holds(es[j], p)
    ensures i == j
  {
    if i < j || j < i {
      assert false;
    }
  }

  // Every byte of [lo, hi) is mapped.
  ghost predicate Covered(es: Entries, lo: int, hi: int) {
    forall x {:trigger Owner(es, x)} :: lo <= x < hi ==> Owner(es, x) < |es|
  }

  lemma CoveredGrows(es': Entries, es: Entries, lo: int, hi: int)
    requires Covered(es, lo, hi) && Extends(es', es)
    ensures Covered(es', lo, hi)
  {
    forall x | lo <= x < hi ensures Owner(es', x) < |es'| {
      var t := Owner(es, x);
      assert Grew(es'[|es'| - |es| + t], es[t]);
    }
  }

  // A section inside an entry that is new since es0 touches no byte mapped in es0.
  lemma FreshIsApart(es: Entries, es0: Entries, t: nat, hp: int, n: nat, lo: int, hi: int)
    requires WellFormed(es) && Extends(es, es0) && Covered(es0, lo, hi)
    requires t + |es0| < |es| && Within(es[t], hp, n) && n > 0
    ensures !(hp < hi && lo < hp + n) || lo >= hi
  {
    forall x | lo <= x < hi ensures !Holds(es[t], x) {
      var u := Owner(es0, x);
      assert Grew(es[|es| - |es0| + u], es0[u]);
      assert Holds(es[|es| - |es0| + u], x);
    }
    assert !Holds(es[t], if hp < lo then lo else hp) || lo >= hi || hi <= hp;
  }

  // The position of the entry in which an argument's transfer lies.
  lemma SoleIsFresh(es: Entries, es': Entries, m: nat, args: seq<Arg>, i: nat) returns (t: nat)
    requires i < |args| && args[i].ty.memberOf < |args| && m <= |es| && !Skipped(args[i])
    requires Tidy(es, args, i) && SoleAfter(es, es', args, i) && ParentsCounted(es, m, args, i)
    ensures t < |es'| && t + m < |es'| && Within(es'[t], Begin(args, i), Size(args, i)) && es'[t].count == 1
  {
    hide SlotKept, RoundTrips, Usable, Lookup;
    if PlainMember(args[i]) {
      var p := args[i].ty.memberOf;
      t := Owner(es, args[p].begin);
      assert IsParent(args, p);
    } else {
      t := 0;
    }
  }

  // ---------------------------------------------------------- nothing touches [lo, hi)

  // log' is log with only transfers added that stay clear of [lo, hi).
  ghost predicate Quiet(log: seq<Transfer>, log': seq<Transfer>, lo: int, hi: int) {
    log <= log' && forall t :: t in log'[|log|..] ==> !Touches(t, lo, hi)
  }

  lemma QuietTrans(a: seq<Transfer>, b: seq<Transfer>, c: seq<Transfer>, lo: int, hi: int)
    requires Quiet(a, b, lo, hi) && Quiet(b, c, lo, hi)
    ensures Quiet(a, c, lo, hi)
  {
    assert c[|a|..] == b[|a|..] + c[|b|..];
  }

  lemma QuietAppend(log: seq<Transfer>, more: seq<Transfer>, lo: int, hi: int)
    requires forall t :: t in more ==> !Touches(t, lo, hi)
    ensures Quiet(log, log + more, lo, hi)
  {
    assert (log + more)[|log|..] == more;
  }

  lemma SendsApart(p: Plugin, s: Env, es0: Entries, args: seq<Arg>, i: nat, lo: int, hi: int)
    requires i < |args| && args[i].ty.memberOf < |args| && lo < hi && !Skipped(args[i])
    requires WellFormed(s.entries) && Extends(s.entries, es0) && Covered(es0, lo, hi)
    requires Tidy(s.entries, args, i) && ParentsCounted(s.entries, |es0|, args, i)
    requires var s' := BeginStep(p, s, args, i).env;
             WellFormed(s'.entries) && Extends(s'.entries, es0)
    ensures forall t :: t in Sends(p, s, args, i) + Attaches(p, s, args, i) ==> !Touches(t, lo, hi)
  {
    hide BeginStep, Tidy, ParentsCounted, Sends, Attaches, WellFormed, Extends, Covered, SoleAfter;
    var s' := BeginStep(p, s, args, i).env;
    var hp, n := Begin(args, i), Size(args, i);
    if Sends(p, s, args, i) != [] && n > 0 {
      SendsWithinSole(p, s, args, i);
      assert |es0| <= |s.entries| by { ExtendsLength(s.entries, es0); }
      var t := SoleIsFresh(s.entries, s'.entries, |es0|, args, i);
      FreshIsApart(s'.entries, es0, t, hp, n, lo, hi);
    }
  }

  lemma ExtendsLength(es': Entries, es: Entries)
    requires Extends(es', es)
    ensures |es'| >= |es|
  {
  }

  lemma BeginStepProgress(p: Plugin, s: Env, es0: Entries, args: seq<Arg>, i: nat)
    requires i < |args| && args[i].ty.memberOf < |args|
    requires WellFormed(s.entries) && Extends(s.entries, es0)
    requires Tidy(s.entries, args, i) && ParentsCounted(s.entries, |es0|, args, i)
    ensures var s' := BeginStep(p, s, args, i).env;
            WellFormed(s'.entries) && Extends(s'.entries, es0) && ParentsCounted(s'.entries, |es0|, args, i + 1)
  {
    var a, hp, n := args[i], Begin(args, i), Size(args, i);
    if !Skipped(a) {
      var s' := BeginStep(p, s, args, i).env;
      var base, tgt := PointeeBase(s.host, a), StepTgt(p, s, args, i);
      TidyStepEntries(p, s, args, i);
      ExtendsLength(s.entries, es0);
      hide BeginStep, Tidy, ParentsCounted, MapSection, WellFormed, Extends;
      MapSectionExtends(s.entries, hp, base, n, tgt, a.ty.implicit, !PlainMember(a));
      ExtendsTrans(es0, s.entries, s'.entries);
      ParentsCountedStep(s.entries, |es0|, args, i, base, tgt);
    }
  }

  lemma QuietRefl(log: seq<Transfer>, lo: int, hi: int)
    ensures Quiet(log, log, lo, hi)
  {
  }

  lemma BeginStepQuiet(p: Plugin, s: Env, es0: Entries, args: seq<Arg>, i: nat, lo: int, hi: int)
    requires i < |args| && args[i].ty.memberOf < |args| && lo < hi
    requires WellFormed(s.entries) && Extends(s.entries, es0) && Covered(es0, lo, hi)
    requires Tidy(s.entries, args, i) && ParentsCounted(s.entries, |es0|, args, i)
    ensures Quiet(s.log, BeginStep(p, s, args, i).env.log, lo, hi)
  {
    BeginStepLog(p, s, args, i);
    BeginStepProgress(p, s, es0, args, i);
    hide BeginStep, WellFormed, Extends, Tidy, ParentsCounted;
    if !Skipped(args[i]) {
      SendsApart(p, s, es0, args, i, lo, hi);
    }
    var more := Sends(p, s, args, i) + Attaches(p, s, args, i);
    QuietAppend(s.log, more, lo, hi);
    assert s.log + more == s.log + Sends(p, s, args, i) + Attaches(p, s, args, i);
  }

  lemma {:induction false} BeginQuiet(p: Plugin, s: Env, args: seq<Arg>, k: nat, lo: int, hi: int)
    requires k <= |args| && ArgsValid(args) && lo < hi
    requires WellFormed(s.entries) && Covered(s.entries, lo, hi) && AllTidy(p, s, args, k)
    ensures var s' := BeginFirst(p, s, args, k).0;
            && WellFormed(s'.entries) && Extends(s'.entries, s.entries)
            && ParentsCounted(s'.entries, |s.entries|, args, k)
            && Quiet(s.log, s'.log, lo, hi)
  {
    if k == 0 {
      QuietAppend(s.log, [], lo, hi);
    } else {
      hide BeginStep, WellFormed, Extends, Tidy, ParentsCounted, Quiet;
      var s1 := BeginFirst(p, s, args, k - 1).0;
      assert args[k - 1] in args;
      BeginQuiet(p, s, args, k - 1, lo, hi);
      BeginStepProgress(p, s1, s.entries, args, k - 1);
      BeginStepQuiet(p, s1, s.entries, args, k - 1, lo, hi);
      QuietTrans(s.log, s1.log, BeginFirst(p, s, args, k).0.log, lo, hi);
    }
  }

  lemma EndStepQuiet(p: Plugin, s: Env, es0: Entries, args: seq<Arg>, i: nat, t: Env, lo: int, hi: int)
    requires i < |args| && args[i].ty.memberOf < |args| && lo < hi
    requires WellFormed(s.entries) && Extends(s.entries, es0) && Covered(es0, lo, hi)
    requires Tidy(s.entries, args, i) && ParentsCounted(s.entries, |es0|, args, i)
    requires t.entries == BeginStep(p, s, args, i).env.entries
    ensures Quiet(t.log, EndStep(t, args, i).0.log, lo, hi)
  {
    EndStepLog(t, args, i);
    var hp, n := Begin(args, i), Size(args, i);
    if !Skipped(args[i]) && n > 0 {
      TidyStepEntries(p, s, args, i);
      BeginStepProgress(p, s, es0, args, i);
      hide BeginStep, EndStep, WellFormed, Extends, Tidy, ParentsCounted, Covered, Fetches, SoleAfter, MapSection;
      if Fetches(t.entries, args, i) != [] {
        FetchesWithinSole(s.entries, args, i, PointeeBase(s.host, args[i]), StepTgt(p, s, args, i));
        ExtendsLength(s.entries, es0);
        var u := SoleIsFresh(s.entries, t.entries, |es0|, args, i);
        FreshIsApart(t.entries, es0, u, hp, n, lo, hi);
      }
    }
    QuietAppend(t.log, Fetches(t.entries, args, i), lo, hi);
  }

  lemma {:induction false} EndQuiet(p: Plugin, s: Env, args: seq<Arg>, k: nat, t: Env, lo: int, hi: int)
    requires k <= |args| && ArgsValid(args) && lo < hi
    requires WellFormed(s.entries) && Covered(s.entries, lo, hi) && AllTidy(p, s, args, k)
    requires t.entries == BeginFirst(p, s, args, k).0.entries
    ensures Quiet(t.log, EndFirst(t, args, k).0.log, lo, hi)
    decreases k
  {
    if k == 0 {
      QuietAppend(t.log, [], lo, hi);
    } else {
      hide BeginStep, EndStep, Extends, Tidy, ParentsCounted, Quiet, Covered, SlotKept, RoundTrips;
      var s1 := BeginFirst(p, s, args, k - 1).0;
      assert args[k - 1] in args;
      BeginQuiet(p, s, args, k - 1, lo, hi);
      EndStepQuiet(p, s1, s.entries, args, k - 1, t, lo, hi);
      TidyRoundTrips(p, s, args, k);
      ArgumentUndone(p, s1, args, k - 1, t);
      var t1 := EndStep(t, args, k - 1).0;
      EndQuiet(p, s, args, k - 1, t1, lo, hi);
      QuietTrans(t.log, t1.log, EndFirst(t, args, k).0.log, lo, hi);
    }
  }

  // ------------------------------------------------------------------- whole runs

  // Every region of the run has tidy arguments, and no explicit update names [lo, hi).
  ghost predicate RunTidy(p: Plugin, s: Env, r: Run, lo: int, hi: int)
    requires RunValid(r)
    decreases r
  {
    match r
    case Done => true
    case Region(args, inner, rest) =>
      var s0 := DataBegin(p, s, args).0;
      var s1 := Exec(p, s0, inner);
      AllTidy(p, s, args, |args|) && RunTidy(p, s0, inner, lo, hi) &&
      RunTidy(p, DataEnd(s1, args).0, rest, lo, hi)
    case Update(uargs, rest) =>
      (forall a :: a in uargs ==> Skipped(a) || a.begin + a.size <= lo || hi <= a.begin) &&
      RunTidy(p, DataUpdate(s, uargs), rest, lo, hi)
    case Compute(host, dev, rest) => RunTidy(p, s.(host := host, dev := dev), rest, lo, hi)
  }

  lemma {:induction false} RunTidyRoundTrips(p: Plugin, s: Env, r: Run, lo: int, hi: int)
    requires RunValid(r) && RunTidy(p, s, r, lo, hi)
    ensures RunRoundTrips(p, s, r)
    decreases r
  {
    hide AllTidy, ArgsRoundTrip, BeginFirst, EndFirst, DataUpdate;
    match r
    case Done =>
    case Region(args, inner, rest) =>
      var s0 := DataBegin(p, s, args).0;
      TidyRoundTrips(p, s, args, |args|);
      RunTidyRoundTrips(p, s0, inner, lo, hi);
      RunTidyRoundTrips(p, DataEnd(Exec(p, s0, inner), args).0, rest, lo, hi);
    case Update(uargs, rest) => RunTidyRoundTrips(p, DataUpdate(s, uargs), rest, lo, hi);
    case Compute(host, dev, rest) => RunTidyRoundTrips(p, s.(host := host, dev := dev), rest, lo, hi);
  }

  lemma {:induction false} RestoreDeviceQuiet(s: Env, sh: seq<Shadow>, lo: int, hi: int)
    ensures Quiet(s.log, RestoreDevice(s, sh).log, lo, hi)
    decreases |sh|
  {
    if sh == [] {
      QuietAppend(s.log, [], lo, hi);
    } else {
      var t := SubmitPtr(sh[0].tgtAddr, sh[0].tgtVal);
      var s1 := SubmitPointer(s, sh[0].tgtAddr, sh[0].tgtVal).0;
      QuietAppend(s.log, [t], lo, hi);
      RestoreDeviceQuiet(s1, sh[1..], lo, hi);
      QuietTrans(s.log, s1.log, RestoreDevice(s1, sh[1..]).log, lo, hi);
    }
  }

  lemma UpdateStepQuiet(s: Env, a: Arg, lo: int, hi: int)
    requires Skipped(a) || a.begin + a.size <= lo || hi <= a.begin
    ensures Quiet(s.log, UpdateStep(s, a).log, lo, hi)
  {
    if Skipped(a) {
      QuietAppend(s.log, [], lo, hi);
    } else {
      var s1, tp, sh := AfterFrom(s, a), GetTgtPtr(s, a.begin, a.size, false).1, InRange(s.shadows, a.begin, a.begin + a.size);
      AfterFromQuiet(s, a, lo, hi);
      if a.ty.to {
        var s2 := DataSubmit(s1, tp, a.begin, a.size).0;
        QuietAppend(s1.log, [Submit(tp, a.begin, a.size)], lo, hi);
        hide Quiet, GetTgtPtr, RestoreDevice, InRange, AfterFrom;
        RestoreDeviceQuiet(s2, sh, lo, hi);
        QuietTrans(s.log, s1.log, s2.log, lo, hi);
        QuietTrans(s.log, s2.log, RestoreDevice(s2, sh).log, lo, hi);
      }
    }
  }

  lemma AfterFromQuiet(s: Env, a: Arg, lo: int, hi: int)
    requires a.begin + a.size <= lo || hi <= a.begin
    ensures Quiet(s.log, AfterFrom(s, a).log, lo, hi)
  {
    var tp := GetTgtPtr(s, a.begin, a.size, false).1;
    assert AfterFrom(s, a).log == s.log + if a.ty.from then [Retrieve(a.begin, tp, a.size)] else [];
    QuietAppend(s.log, if a.ty.from then [Retrieve(a.begin, tp, a.size)] else [], lo, hi);
  }

  lemma {:induction false} UpdateQuiet(s: Env, args: seq<Arg>, lo: int, hi: int)
    requires forall a :: a in args ==> Skipped(a) || a.begin + a.size <= lo || hi <= a.begin
    ensures Quiet(s.log, DataUpdate(s, args).log, lo, hi)
    decreases |args|
  {
    if args == [] {
      QuietAppend(s.log, [], lo, hi);
    } else {
      hide UpdateStep, Quiet;
      var s1 := UpdateStep(s, args[0]);
      UpdateStepQuiet(s, args[0], lo, hi);
      UpdateQuiet(s1, args[1..], lo, hi);
      QuietTrans(s.log, s1.log, DataUpdate(s1, args[1..]).log, lo, hi);
    }
  }

  lemma ConsequenceOfWellFormed(es: Entries)
    requires WellFormed(es)
    ensures Counted(es)
  {
  }

  // While [lo, hi) is mapped, no region entered or left copies any byte of it, whatever
  // the regions nested in the run map.
  lemma {:induction false} NoTransferWhileMapped(p: Plugin, s: Env, r: Run, lo: int, hi: int)
    requires RunValid(r) && lo < hi
    requires WellFormed(s.entries) && Covered(s.entries, lo, hi) && RunTidy(p, s, r, lo, hi)
    ensures Quiet(s.log, Exec(p, s, r).log, lo, hi)
    ensures Exec(p, s, r).entries == s.entries
    decreases r
  {
    RunTidyRoundTrips(p, s, r, lo, hi);
    ConsequenceOfWellFormed(s.entries);
    RunRestoresMap(p, s, r);
    hide WellFormed, Covered, Quiet, AllTidy, BeginFirst, EndFirst, DataUpdate, RunRoundTrips;
    match r
    case Done => QuietAppend(s.log, [], lo, hi);
                 assert s.log + [] == s.log;
    case Region(args, inner, rest) =>
      var s0 := DataBegin(p, s, args).0;
      var s1 := Exec(p, s0, inner);
      var s2 := DataEnd(s1, args).0;
      BeginQuiet(p, s, args, |args|, lo, hi);
      CoveredGrows(s0.entries, s.entries, lo, hi);
      NoTransferWhileMapped(p, s0, inner, lo, hi);
      EndQuiet(p, s, args, |args|, s1, lo, hi);
      TidyRoundTrips(p, s, args, |args|);
      EndUndoesBegin(p, s, args, |args|, s1);
      NoTransferWhileMapped(p, s2, rest, lo, hi);
      QuietTrans(s.log, s0.log, s1.log, lo, hi);
      QuietTrans(s.log, s1.log, s2.log, lo, hi);
      QuietTrans(s.log, s2.log, Exec(p, s, r).log, lo, hi);
    case Update(uargs, rest) =>
      var s1 := DataUpdate(s, uargs);
      UpdateQuiet(s, uargs, lo, hi);
      UpdateEntries(s, uargs);
      NoTransferWhileMapped(p, s1, rest, lo, hi);
      QuietTrans(s.log, s1.log, Exec(p, s, r).log, lo, hi);
    case Compute(host, dev, rest) =>
      NoTransferWhileMapped(p, s.(host := host, dev := dev), rest, lo, hi);
  }

  // -------------------------------------------------- where the exactness breaks down

  // target_data_begin treats a PTR_AND_OBJ member like a plain one: a pointee that is
  // already mapped, by whatever region, is sent again if the parent has count 1 (unless
  // both lie in one entry, which is then counted first).  target_data_end makes no such
  // exception.  Hence the last but one clause of Tidy.
  lemma AttachedPointeeIsResent(p: Plugin, s: Env, args: seq<Arg>, i: nat)
    requires i < |args| && args[i].ty.memberOf < |args| && WellFormed(s.entries) && !Skipped(args[i])
    requires Member(args[i]) && args[i].ty.ptrAndObj && args[i].ty.to && !args[i].ty.always
    requires SlotKept(s.entries, args, i)
    requires var j := Lookup(s.entries, Begin(args, i), Size(args, i));
             j < |s.entries| && Usable(s.entries[j], Begin(args, i), Size(args, i), args[i].ty.implicit)
    ensures var j := Lookup(s.entries, Begin(args, i), Size(args, i));
            var parent := args[args[i].ty.memberOf].begin;
            Sends(p, s, args, i) != [] <==> RefCount(s.entries, parent) == 1 && !Holds(s.entries[j], parent)
  {
    hide *;
    AttachedMember(args[i]);
    var j := Lookup(s.entries, Begin(args, i), Size(args, i));
    var parent := args[args[i].ty.memberOf].begin;
    SlotKeptIff(p, s, args, i);
    UsedPointee(p, s, args, i, j);
    UsedSends(p, s, args, i);
    if Holds(s.entries[j], parent) {
      RefCountOf(s.entries, j, parent);
    } else {
      RefCountElsewhere(s.entries, j, s.entries[j].count + 1, parent);
    }
  }

  lemma AttachedMember(a: Arg)
    requires Member(a) && a.ty.ptrAndObj
    ensures a.ty.memberOf >= 0 && !PlainMember(a)
  {
  }

  lemma UsedSends(p: Plugin, s: Env, args: seq<Arg>, i: nat)
    requires i < |args| && args[i].ty.memberOf < |args| && !Skipped(args[i]) && Member(args[i])
    requires args[i].ty.to && !args[i].ty.always && !MapPointee(p, s, args, i).2
    ensures Sends(p, s, args, i) != [] <==>
            RefCount(MapPointee(p, s, args, i).0.entries, args[args[i].ty.memberOf].begin) == 1
  {
    hide MapPointee, RefCount, Begin, Size;
  }

  // Counting the entry that holds x makes its count at least two.
  lemma RefCountOf(es: Entries, j: nat, x: int)
    requires WellFormed(es) && j < |es| && Holds(es[j], x)
    ensures RefCount(Recount(es, j, es[j].count + 1), x) >= 2
  {
    hide RefCount;
    var r := Recount(es, j, es[j].count + 1);
    WellFormedCount(es, j);
    RecountWellFormed(es, j, es[j].count + 1);
    RefCountOwner(r, r[j], x);
  }

  lemma UsedPointee(p: Plugin, s: Env, args: seq<Arg>, i: nat, j: nat)
    requires i < |args| && args[i].ty.memberOf < |args| && !PlainMember(args[i])
    requires AfterSlot(p, s, args, i).entries == s.entries && j < |s.entries|
    requires j == Lookup(s.entries, Begin(args, i), Size(args, i))
    requires Usable(s.entries[j], Begin(args, i), Size(args, i), args[i].ty.implicit)
    ensures MapPointee(p, s, args, i).0.entries == Recount(s.entries, j, s.entries[j].count + 1)
    ensures MapPointee(p, s, args, i).1 == Translate(s.entries[j], Begin(args, i))
    ensures !MapPointee(p, s, args, i).2
  {
    hide Usable, Lookup, MapSlot;
  }

  lemma {:induction false} RefCountElsewhere(es: Entries, j: nat, c: int, x: int)
    requires j < |es| && !Holds(es[j], x)
    ensures RefCount(Recount(es, j, c), x) == RefCount(es, x)
  {
    if !Holds(es[0], x) && j > 0 {
      RefCountElsewhere(es[1..], j - 1, c, x);
      assert Recount(es, j, c)[1..] == Recount(es[1..], j - 1, c);
    }
  }
}
