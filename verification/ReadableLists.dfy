/** Argument lists whose good behaviour can be read off before the call. */
module ReadableLists {
  // The hypotheses of the region theorems follow the execution of target_data_begin.
  // They hold for every list of sections that are contained in, or apart from, the
  // entries and one another, with members inside their parents.

  import opened Memory
  import opened DeviceMap
  import opened DataEnvironment
  import opened MapInverse
  import opened TransferRuns
  import opened TransferOnce

  // The section lies in the entry or meets no byte of it.
  predicate Fits(e: Entry, hp: int, n: nat) {
    Contained(e, hp, n) || !Flagged(e, hp, n)
  }

  // The range argument i occupies once it is mapped.
  function Section(args: seq<Arg>, i: nat): Entry
    requires i < |args|
  {
    Entry(0, Begin(args, i), Begin(args, i) + Size(args, i), 0, 1)
  }

  // Does argument i map a range of its own, rather than a part of its parent's?
  predicate Maps(args: seq<Arg>, i: nat)
    requires i < |args|
  {
    !Skipped(args[i]) && !PlainMember(args[i]) && Size(args, i) > 0
  }

  // [hp, hp + n) is a part of the parent of member i.
  predicate InParent(args: seq<Arg>, i: nat, hp: int, n: nat)
    requires i < |args|
  {
    var q := args[i].ty.memberOf;
    0 <= q < i && Maps(args, q) && Begin(args, q) <= hp && hp + n <= Begin(args, q) + Size(args, q)
  }

  predicate Looked(args: seq<Arg>, i: nat)
    requires i < |args|
  {
    !Skipped(args[i]) && !PlainMember(args[i])
  }

  // What can be checked of argument k against the entries es before the call.
  ghost predicate ReadableAt(es: Entries, args: seq<Arg>, k: nat)
    requires k < |args| && args[k].ty.memberOf < |args|
  {
    Skipped(args[k]) ||
    (&& !args[k].ty.delete
     && (!PlainMember(args[k]) ==>
           && (forall e :: e in es ==> Fits(e, Begin(args, k), Size(args, k)))
           && (forall i :: 0 <= i < k && Maps(args, i) ==> Fits(Section(args, i), Begin(args, k), Size(args, k))))
     && (PlainMember(args[k]) && Size(args, k) > 0 ==> InParent(args, k, Begin(args, k), Size(args, k)))
     && (UsesSlot(args, k) ==> Member(args[k]) && InParent(args, k, args[k].base, PTR_BYTES)))
  }

  ghost predicate Readable(es: Entries, args: seq<Arg>) {
    ArgsValid(args) && forall k :: 0 <= k < |args| && args[k].ty.memberOf < |args| ==> ReadableAt(es, args, k)
  }

  // ---------------------------------------------------------- the entries at each turn

  predicate SameRange(f: Entry, e: Entry) {
    f.begin == e.begin && f.end == e.end
  }

  // An entry of the list at turn k is an old one or the section of an earlier argument ...
  ghost predicate Known(f: Entry, es: Entries, args: seq<Arg>, k: nat)
    requires k <= |args|
  {
    (exists e :: e in es && SameRange(f, e)) || (exists i :: 0 <= i < k && Maps(args, i) && SameRange(f, Section(args, i)))
  }

  // ... and every section mapped so far lies in one of them.
  ghost predicate Held(esk: Entries, args: seq<Arg>, i: nat)
    requires i < |args|
  {
    exists f :: f in esk && f.begin <= Begin(args, i) && Begin(args, i) + Size(args, i) <= f.end
  }

  ghost predicate AtTurn(esk: Entries, es: Entries, args: seq<Arg>, k: nat)
    requires k <= |args|
  {
    && WellFormed(esk)
    && (forall f :: f in esk ==> Known(f, es, args, k))
    && (forall i :: 0 <= i < k && Maps(args, i) ==> Held(esk, args, i))
  }

  lemma FitsSameRange(f: Entry, e: Entry, hp: int, n: nat)
    requires SameRange(f, e)
    ensures Fits(f, hp, n) <==> Fits(e, hp, n)
  {
  }

  lemma AllFit(esk: Entries, es: Entries, args: seq<Arg>, k: nat)
    requires k < |args| && args[k].ty.memberOf < |args| && Looked(args, k)
    requires AtTurn(esk, es, args, k) && ReadableAt(es, args, k)
    ensures forall f :: f in esk ==> Fits(f, Begin(args, k), Size(args, k))
  {
    hide WellFormed, Fits, Begin, Size, Maps, UsesSlot, InParent, SameRange, Held;
    forall f | f in esk ensures Fits(f, Begin(args, k), Size(args, k)) {
      assert Known(f, es, args, k);
      if e :| e in es && SameRange(f, e) {
        FitsSameRange(f, e, Begin(args, k), Size(args, k));
      } else {
        var i :| 0 <= i < k && Maps(args, i) && SameRange(f, Section(args, i));
        FitsSameRange(f, Section(args, i), Begin(args, k), Size(args, k));
      }
    }
  }

  // The lookup of a part of a held section finds the entry that holds it.
  lemma HeldLookup(esk: Entries, args: seq<Arg>, q: nat, hp: int, n: nat)
    requires WellFormed(esk) && q < |args| && Held(esk, args, q) && n > 0
    requires Begin(args, q) <= hp && hp + n <= Begin(args, q) + Size(args, q)
    ensures var j := Lookup(esk, hp, n); j < |esk| && Contained(esk[j], hp, n)
    ensures forall x :: Begin(args, q) <= x < Begin(args, q) + Size(args, q) ==>
              Holds(esk[Lookup(esk, hp, n)], x)
  {
    hide Begin, Size, Lookup;
    var f :| f in esk && f.begin <= Begin(args, q) && Begin(args, q) + Size(args, q) <= f.end;
    ContainedLookup(esk, f, hp, n);
  }

  lemma ContainedLookup(es: Entries, f: Entry, hp: int, n: nat)
    requires WellFormed(es) && f in es && f.begin <= hp && hp + n <= f.end && n > 0
    ensures var j := Lookup(es, hp, n); j < |es| && es[j] == f
  {
    var i :| 0 <= i < |es| && es[i] == f;
    var j := Lookup(es, hp, n);
    assert Contained(es[i], hp, n);
    if j != i {
      assert Overlap(es[j], es[i]);
      assert false;
    }
  }

  // ------------------------------------------------------------------ one argument

  lemma ReadableRoundTrips(esk: Entries, es: Entries, args: seq<Arg>, k: nat)
    requires k < |args| && args[k].ty.memberOf < |args|
    requires AtTurn(esk, es, args, k) && ReadableAt(es, args, k)
    ensures SlotKept(esk, args, k) && RoundTrips(esk, args, k)
  {
    hide WellFormed, Known, Lookup, Fits, Held, UsesSlot;
    if !Skipped(args[k]) {
      var hp, n, q := Begin(args, k), Size(args, k), args[k].ty.memberOf;
      if UsesSlot(args, k) {
        HeldLookup(esk, args, q, args[k].base, PTR_BYTES);
      }
      if PlainMember(args[k]) {
        if n > 0 {
          HeldLookup(esk, args, q, hp, n);
        }
      } else {
        AllFit(esk, es, args, k);
        FoundFits(esk, hp, n);
      }
    }
  }

  lemma FoundFits(esk: Entries, hp: int, n: nat)
    requires forall f :: f in esk ==> Fits(f, hp, n)
    ensures var j := Lookup(esk, hp, n); j < |esk| ==> Contained(esk[j], hp, n)
  {
    var j := Lookup(esk, hp, n);
    if j < |esk| {
      assert Fits(esk[j], hp, n);
    }
  }

  // -------------------------------------------------------------------- the next turn

  lemma KnownLater(f: Entry, f': Entry, es: Entries, args: seq<Arg>, k: nat)
    requires k < |args| && Known(f, es, args, k) && SameRange(f', f)
    ensures Known(f', es, args, k + 1)
  {
    hide Maps, Begin, Size;
    if e :| e in es && SameRange(f, e) {
      assert SameRange(f', e);
    } else {
      var i :| 0 <= i < k && Maps(args, i) && SameRange(f, Section(args, i));
      assert SameRange(f', Section(args, i));
    }
  }

  lemma HeldLater(esk: Entries, esk': Entries, args: seq<Arg>, i: nat)
    requires i < |args| && Held(esk, args, i) && Extends(esk', esk)
    ensures Held(esk', args, i)
  {
    hide Begin, Size;
    var f :| f in esk && f.begin <= Begin(args, i) && Begin(args, i) + Size(args, i) <= f.end;
    var t :| 0 <= t < |esk| && esk[t] == f;
    var u := |esk'| - |esk| + t;
    assert Grew(esk'[u], esk[t]) && esk'[u] in esk';
  }

  // Nothing was added: ranges are as before.
  lemma SameTurn(esk: Entries, esk': Entries, es: Entries, args: seq<Arg>, k: nat)
    requires k < |args| && AtTurn(esk, es, args, k) && WellFormed(esk') && Extends(esk', esk) && |esk'| == |esk|
    requires Maps(args, k) ==> Held(esk, args, k)
    ensures AtTurn(esk', es, args, k + 1)
  {
    hide WellFormed, Known, Held, Maps, Begin, Size;
    forall f | f in esk' ensures Known(f, es, args, k + 1) {
      var t :| 0 <= t < |esk'| && esk'[t] == f;
      assert Grew(esk'[t], esk[t]) && esk[t] in esk;
      KnownLater(esk[t], f, es, args, k);
    }
    forall i | 0 <= i < k + 1 && Maps(args, i) ensures Held(esk', args, i) {
      HeldLater(esk, esk', args, i);
    }
  }

  // The section of argument k was added.
  lemma PushedTurn(esk: Entries, e: Entry, es: Entries, args: seq<Arg>, k: nat)
    requires k < |args| && AtTurn(esk, es, args, k) && WellFormed([e] + esk) && Extends([e] + esk, esk)
    requires Maps(args, k) && SameRange(e, Section(args, k))
    ensures AtTurn([e] + esk, es, args, k + 1)
  {
    hide WellFormed, Held, Maps, Begin, Size, Extends, Known, SameRange;
    forall f | f in [e] + esk ensures Known(f, es, args, k + 1) {
      if f == e {
        KnownNew(e, es, args, k);
      } else {
        assert f in esk && SameRange(f, f) by { RangeRefl(f); }
        KnownLater(f, f, es, args, k);
      }
    }
    forall i | 0 <= i < k + 1 && Maps(args, i) ensures Held([e] + esk, args, i) {
      if i == k {
        HeldNew(e, esk, args, k);
      } else {
        HeldLater(esk, [e] + esk, args, i);
      }
    }
  }

  lemma RangeRefl(f: Entry)
    ensures SameRange(f, f)
  {
  }

  lemma KnownNew(e: Entry, es: Entries, args: seq<Arg>, k: nat)
    requires k < |args| && Maps(args, k) && SameRange(e, Section(args, k))
    ensures Known(e, es, args, k + 1)
  {
  }

  lemma HeldNew(e: Entry, esk: Entries, args: seq<Arg>, k: nat)
    requires k < |args| && SameRange(e, Section(args, k))
    ensures Held([e] + esk, args, k)
  {
    assert ([e] + esk)[0] == e;
  }

  lemma MapSectionCases(es: Entries, hp: int, base: int, n: nat, tgt: int, implicit: bool, update: bool)
    ensures var es' := MapSection(es, hp, base, n, tgt, implicit, update);
            if Lookup(es, hp, n) < |es| || n == 0 then |es'| == |es|
            else es' == [Entry(base, hp, hp + n, tgt, 1)] + es
  {
    hide Lookup;
  }

  // A section that is mapped but not added was held already; an absent one is mapped.
  lemma HeldOrAbsent(esk: Entries, es: Entries, args: seq<Arg>, k: nat)
    requires k < |args| && args[k].ty.memberOf < |args| && !Skipped(args[k])
    requires AtTurn(esk, es, args, k) && ReadableAt(es, args, k)
    ensures var j, n := Lookup(esk, Begin(args, k), Size(args, k)), Size(args, k);
            if j < |esk| || n == 0 then Maps(args, k) ==> Held(esk, args, k) else Maps(args, k)
  {
    var hp, n := Begin(args, k), Size(args, k);
    hide WellFormed, Known, Lookup, Fits, UsesSlot, Begin, Size;
    var j := Lookup(esk, hp, n);
    if Maps(args, k) && j < |esk| {
      AllFit(esk, es, args, k);
      FoundFits(esk, hp, n);
      assert esk[j] in esk;
    } else if !Maps(args, k) && n > 0 {
      HeldLookup(esk, args, args[k].ty.memberOf, hp, n);
    }
  }

  lemma NextTurn(esk: Entries, es: Entries, args: seq<Arg>, k: nat, base: int, tgt: int)
    requires k < |args| && args[k].ty.memberOf < |args| && !Skipped(args[k])
    requires AtTurn(esk, es, args, k) && ReadableAt(es, args, k)
    ensures AtTurn(MapSection(esk, Begin(args, k), base, Size(args, k), tgt, args[k].ty.implicit, !PlainMember(args[k])),
                   es, args, k + 1)
  {
    hide *;
    var a, hp, n := args[k], Begin(args, k), Size(args, k);
    var esk' := MapSection(esk, hp, base, n, tgt, a.ty.implicit, !PlainMember(a));
    HeldOrAbsent(esk, es, args, k);
    assert WellFormed(esk) by { TurnWellFormed(esk, es, args, k); }
    MapSectionExtends(esk, hp, base, n, tgt, a.ty.implicit, !PlainMember(a));
    MapSectionCases(esk, hp, base, n, tgt, a.ty.implicit, !PlainMember(a));
    if Lookup(esk, hp, n) < |esk| || n == 0 {
      SameTurn(esk, esk', es, args, k);
    } else {
      SectionRange(args, k, base, tgt);
      LookupBound(esk, hp, n);
      PushedTurn(esk, Entry(base, hp, hp + n, tgt, 1), es, args, k);
    }
  }

  lemma TurnWellFormed(esk: Entries, es: Entries, args: seq<Arg>, k: nat)
    requires k <= |args| && AtTurn(esk, es, args, k)
    ensures WellFormed(esk)
  {
    hide WellFormed, Known, Held;
  }

  lemma SectionRange(args: seq<Arg>, k: nat, base: int, tgt: int)
    requires k < |args|
    ensures SameRange(Entry(base, Begin(args, k), Begin(args, k) + Size(args, k), tgt, 1), Section(args, k))
  {
  }

  lemma LookupBound(es: Entries, hp: int, n: nat)
    ensures Lookup(es, hp, n) <= |es|
  {
  }

  lemma StepTurn(p: Plugin, s: Env, es: Entries, args: seq<Arg>, k: nat)
    requires k < |args| && args[k].ty.memberOf < |args|
    requires AtTurn(s.entries, es, args, k) && ReadableAt(es, args, k)
    ensures AtTurn(BeginStep(p, s, args, k).env.entries, es, args, k + 1)
  {
    hide *;
    if Skipped(args[k]) {
      SkippedStep(p, s, args, k);
      SkippedTurn(s.entries, es, args, k);
    } else {
      ReadableRoundTrips(s.entries, es, args, k);
      SlotKeptIff(p, s, args, k);
      BeginStepEntries(p, s, args, k);
      NextTurn(s.entries, es, args, k, PointeeBase(s.host, args[k]), NewTgt(p, AfterSlot(p, s, args, k), Size(args, k)));
    }
  }

  lemma SkippedStep(p: Plugin, s: Env, args: seq<Arg>, k: nat)
    requires k < |args| && args[k].ty.memberOf < |args| && Skipped(args[k])
    ensures BeginStep(p, s, args, k).env == s
  {
  }

  lemma SkippedTurn(esk: Entries, es: Entries, args: seq<Arg>, k: nat)
    requires k < |args| && Skipped(args[k]) && AtTurn(esk, es, args, k)
    ensures AtTurn(esk, es, args, k + 1)
  {
    hide WellFormed, Known, Held;
    forall f | f in esk ensures Known(f, es, args, k + 1) {
      assert SameRange(f, f);
      KnownLater(f, f, es, args, k);
    }
  }

  // ------------------------------------------------------------------ the whole list

  lemma {:induction false} TurnReached(p: Plugin, s: Env, args: seq<Arg>, k: nat)
    requires k <= |args| && WellFormed(s.entries) && Readable(s.entries, args)
    ensures AtTurn(BeginFirst(p, s, args, k).0.entries, s.entries, args, k)
  {
    hide AtTurn, ReadableAt, BeginStep, WellFormed;
    if k == 0 {
      FirstTurn(s.entries, args);
    } else {
      assert args[k - 1] in args;
      TurnReached(p, s, args, k - 1);
      StepTurn(p, BeginFirst(p, s, args, k - 1).0, s.entries, args, k - 1);
    }
  }

  lemma FirstTurn(es: Entries, args: seq<Arg>)
    requires WellFormed(es)
    ensures AtTurn(es, es, args, 0)
  {
    hide WellFormed;
    assert forall f :: f in es ==> SameRange(f, f);
  }

  // A readable list round-trips: EndUndoesBegin and all that follows apply to it, whatever
  // the plugin does.
  lemma {:induction false} ReadableListRoundTrips(p: Plugin, s: Env, args: seq<Arg>, k: nat)
    requires k <= |args| && WellFormed(s.entries) && Readable(s.entries, args)
    ensures ArgsRoundTrip(p, s, args, k)
  {
    hide AtTurn, ReadableAt, BeginFirst, WellFormed, SlotKept, RoundTrips;
    if k > 0 {
      assert args[k - 1] in args;
      ReadableListRoundTrips(p, s, args, k - 1);
      TurnReached(p, s, args, k - 1);
      ReadableRoundTrips(BeginFirst(p, s, args, k - 1).0.entries, s.entries, args, k - 1);
    }
  }

  // So end undoes begin on any list that passes the check before the call.
  lemma ReadableUndone(p: Plugin, s: Env, args: seq<Arg>, t: Env)
    requires WellFormed(s.entries) && Readable(s.entries, args)
    requires t.entries == DataBegin(p, s, args).0.entries
    ensures DataEnd(t, args).0.entries == s.entries
  {
    hide BeginFirst, EndFirst, ArgsRoundTrip, ReadableAt;
    ReadableListRoundTrips(p, s, args, |args|);
    ConsequenceOfWellFormed(s.entries);
    EndUndoesBegin(p, s, args, |args|, t);
  }

  // ------------------------------------------------------------------- tidy lists

  // Further: no ALWAYS, members follow a parent that is no member itself, parents are not
  // empty, and a pointee that is sent is not mapped.
  ghost predicate RegularAt(es: Entries, args: seq<Arg>, k: nat)
    requires k < |args| && args[k].ty.memberOf < |args|
  {
    Skipped(args[k]) ||
    (&& ReadableAt(es, args, k) && !args[k].ty.always
     && (IsParent(args, k) ==> args[k].size > 0)
     && (Member(args[k]) ==>
           var q := args[k].ty.memberOf; q < k && !Skipped(args[q]) && !Member(args[q]))
     && (Member(args[k]) && args[k].ty.ptrAndObj && args[k].ty.to ==>
           && (forall e :: e in es ==> !Flagged(e, Begin(args, k), Size(args, k)))
           && (forall i :: 0 <= i < k && Maps(args, i) ==> !Flagged(Section(args, i), Begin(args, k), Size(args, k)))))
  }

  ghost predicate Regular(es: Entries, args: seq<Arg>) {
    Readable(es, args) && forall k :: 0 <= k < |args| && args[k].ty.memberOf < |args| ==> RegularAt(es, args, k)
  }

  lemma FlaggedSameRange(f: Entry, e: Entry, hp: int, n: nat)
    requires SameRange(f, e)
    ensures Flagged(f, hp, n) <==> Flagged(e, hp, n)
  {
  }

  lemma PointeeAbsent(esk: Entries, es: Entries, args: seq<Arg>, k: nat)
    requires k < |args| && args[k].ty.memberOf < |args| && !Skipped(args[k])
    requires AtTurn(esk, es, args, k) && RegularAt(es, args, k)
    requires Member(args[k]) && args[k].ty.ptrAndObj && args[k].ty.to
    ensures Lookup(esk, Begin(args, k), Size(args, k)) == |esk|
  {
    hide WellFormed, Begin, Size, Maps, Held, SameRange, Flagged, ReadableAt;
    forall f | f in esk ensures !Flagged(f, Begin(args, k), Size(args, k)) {
      assert Known(f, es, args, k);
      if e :| e in es && SameRange(f, e) {
        FlaggedSameRange(f, e, Begin(args, k), Size(args, k));
      } else {
        var i :| 0 <= i < k && Maps(args, i) && SameRange(f, Section(args, i));
        FlaggedSameRange(f, Section(args, i), Begin(args, k), Size(args, k));
      }
    }
  }

  // A plain member of positive size lies in the entry that holds its parent's begin.
  lemma MemberWithin(esk: Entries, es: Entries, args: seq<Arg>, k: nat)
    requires k < |args| && args[k].ty.memberOf < |args| && !Skipped(args[k])
    requires AtTurn(esk, es, args, k) && PlainMember(args[k]) && Size(args, k) > 0
    requires InParent(args, k, Begin(args, k), Size(args, k)) && args[args[k].ty.memberOf].size > 0
    ensures var o := Owner(esk, args[args[k].ty.memberOf].begin);
            o < |esk| && Within(esk[o], Begin(args, k), Size(args, k))
    ensures var j := Lookup(esk, Begin(args, k), Size(args, k)); j < |esk| && Contained(esk[j], Begin(args, k), Size(args, k))
  {
    var q := args[k].ty.memberOf;
    var hp, n := Begin(args, k), Size(args, k);
    assert Begin(args, q) <= args[q].begin < Begin(args, q) + Size(args, q);
    hide Known, Begin, Size, Lookup, Owner, RefCount;
    HeldLookup(esk, args, q, hp, n);
    var j := Lookup(esk, hp, n);
    assert Holds(esk[j], args[q].begin);
    OwnerUniqueIndex(esk, j, Owner(esk, args[q].begin), args[q].begin);
  }

  lemma RegularTidy(esk: Entries, es: Entries, args: seq<Arg>, k: nat)
    requires k < |args| && args[k].ty.memberOf < |args|
    requires Member(args[k]) ==> args[args[k].ty.memberOf].size > 0
    requires AtTurn(esk, es, args, k) && RegularAt(es, args, k)
    ensures Tidy(esk, args, k)
  {
    hide WellFormed, Known, Held, Lookup, Fits, Owner, RefCount, IsParent, SlotKept, RoundTrips, UsesSlot, Begin, Size,
         InParent, Maps, Flagged;
    if !Skipped(args[k]) {
      var hp, n := Begin(args, k), Size(args, k);
      ReadableRoundTrips(esk, es, args, k);
      if PlainMember(args[k]) {
        if n > 0 {
          MemberWithin(esk, es, args, k);
        } else {
          EmptyContained(esk, hp);
        }
      } else {
        AllFit(esk, es, args, k);
        FoundFits(esk, hp, n);
        if Member(args[k]) && args[k].ty.ptrAndObj && args[k].ty.to {
          PointeeAbsent(esk, es, args, k);
        }
      }
    }
  }

  lemma EmptyContained(esk: Entries, hp: int)
    ensures var j := Lookup(esk, hp, 0); j < |esk| ==> Contained(esk[j], hp, 0)
  {
  }

  // A regular list is tidy, so each of its sections is transferred exactly when it enters
  // and leaves.
  lemma {:induction false} RegularListTidy(p: Plugin, s: Env, args: seq<Arg>, k: nat)
    requires k <= |args| && WellFormed(s.entries) && Regular(s.entries, args)
    ensures AllTidy(p, s, args, k)
  {
    hide AtTurn, BeginFirst, WellFormed, Tidy, ReadableAt;
    if k > 0 {
      assert args[k - 1] in args;
      RegularListTidy(p, s, args, k - 1);
      TurnReached(p, s, args, k - 1);
      if !Skipped(args[k - 1]) && Member(args[k - 1]) {
        ParentSized(s.entries, args, k - 1);
      }
      RegularTidyOrSkipped(BeginFirst(p, s, args, k - 1).0.entries, s.entries, args, k - 1);
    }
  }

  lemma ParentSized(es: Entries, args: seq<Arg>, k: nat)
    requires k < |args| && args[k].ty.memberOf < |args| && !Skipped(args[k]) && Member(args[k]) && Regular(es, args)
    ensures args[args[k].ty.memberOf].size > 0
  {
    hide Readable, ReadableAt, Flagged;
    var q := args[k].ty.memberOf;
    assert RegularAt(es, args, k) && RegularAt(es, args, q);
    assert IsParent(args, q);
  }

  lemma RegularTidyOrSkipped(esk: Entries, es: Entries, args: seq<Arg>, k: nat)
    requires k < |args| && args[k].ty.memberOf < |args| && AtTurn(esk, es, args, k) && RegularAt(es, args, k)
    requires !Skipped(args[k]) && Member(args[k]) ==> args[args[k].ty.memberOf].size > 0
    ensures Tidy(esk, args, k)
  {
    hide AtTurn, RegularAt;
    if !Skipped(args[k]) {
      RegularTidy(esk, es, args, k);
    }
  }
}
