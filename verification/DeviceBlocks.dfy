/** How the entries sit in device memory. */
module DeviceBlocks {
  // Every entry of a granted allocation owns one live block and blocks never overlap,
  // so distinct mapped host bytes have distinct device addresses.

  import opened Memory
  import opened DeviceMap
  import opened DataEnvironment
  import opened MapInverse

  function Length(e: Entry): int {
    e.end - e.begin
  }

  ghost predicate Apart(a: int, n: int, b: int, m: int) {
    a + n <= b || b + m <= a
  }

  ghost predicate BlocksOk(dev: Mem, blocks: map<int, nat>) {
    && 0 !in dev
    && (forall b :: b in blocks ==> b > 0 && blocks[b] > 0 && Allocated(dev, b, blocks[b]))
    && (forall b, c :: b in blocks && c in blocks && b != c ==> Apart(b, blocks[b], c, blocks[c]))
  }

  // The entry's device range is its own block, or user memory outside every block, or
  // its allocation was refused.
  ghost predicate Backed(e: Entry, dev: Mem, blocks: map<int, nat>) {
    || e.tgt == 0
    || (e.tgt in blocks && blocks[e.tgt] == Length(e))
    || (Allocated(dev, e.tgt, Length(e)) &&
        forall b :: b in blocks ==> Apart(b, blocks[b], e.tgt, Length(e)))
  }

  ghost predicate TargetsApart(es: Entries) {
    forall i, j :: 0 <= i < j < |es| && es[i].tgt != 0 && es[j].tgt != 0 ==>
      Apart(es[i].tgt, Length(es[i]), es[j].tgt, Length(es[j]))
  }

  ghost predicate DeviceOk(s: Env) {
    && WellFormed(s.entries)
    && BlocksOk(s.dev, s.blocks)
    && (forall e :: e in s.entries ==> Backed(e, s.dev, s.blocks))
    && TargetsApart(s.entries)
  }

  // Translation is injective on mapped bytes of granted entries.
  lemma TranslationInjective(s: Env, e: Entry, f: Entry, x: int, y: int)
    requires DeviceOk(s) && e in s.entries && f in s.entries && e.tgt != 0 && f.tgt != 0
    requires Holds(e, x) && Holds(f, y) && Translate(e, x) == Translate(f, y)
    ensures x == y
  {
    var i :| 0 <= i < |s.entries| && s.entries[i] == e;
    var j :| 0 <= j < |s.entries| && s.entries[j] == f;
    if i < j || j < i {
      assert false;
    }
  }

  // A mapped byte's translation is allocated on the device.
  lemma TranslationAllocated(s: Env, e: Entry, x: int)
    requires DeviceOk(s) && e in s.entries && e.tgt != 0 && Holds(e, x)
    ensures Translate(e, x) in s.dev
  {
    if e.tgt in s.blocks && s.blocks[e.tgt] == Length(e) {
      assert Allocated(s.dev, e.tgt, s.blocks[e.tgt]);
    }
  }

  // ------------------------------------------------------- what each call preserves

  lemma DataAllocOk(p: Plugin, s: Env, n: nat)
    requires Honest(p) && DeviceOk(s) && n > 0
    ensures var (s', tp) := DataAlloc(p, s, n);
            && BlocksOk(s'.dev, s'.blocks)
            && (forall e :: e in s.entries ==> Backed(e, s'.dev, s'.blocks))
            && (tp != 0 ==> tp in s'.blocks && s'.blocks[tp] == n)
            && (tp != 0 ==> forall e :: e in s.entries && e.tgt != 0 ==> Apart(e.tgt, Length(e), tp, n))
  {
    var (s', tp) := DataAlloc(p, s, n);
    var r := p.alloc(s.clock, s.dev, n);
    if r.Block? {
      assert s'.dev.Keys == s.dev.Keys + Range(r.addr, n);
      assert r.addr in Range(r.addr, n);
      forall b | b in s.blocks ensures Apart(b, s.blocks[b], r.addr, n) && b != r.addr {
        FreshApart(s.dev, b, s.blocks[b], r.addr, n);
      }
      forall e | e in s.entries && e.tgt != 0 ensures Apart(e.tgt, Length(e), r.addr, n) {
        if e.tgt in s.blocks && s.blocks[e.tgt] == Length(e) {
          FreshApart(s.dev, e.tgt, s.blocks[e.tgt], r.addr, n);
        } else {
          FreshApart(s.dev, e.tgt, Length(e), r.addr, n);
        }
      }
    }
  }

  // A block of unallocated addresses is apart from an allocated one.
  lemma FreshApart(dev: Mem, b: int, m: int, a: int, n: nat)
    requires m > 0 && n > 0 && Allocated(dev, b, m) && forall x | a <= x < a + n :: x !in dev
    ensures Apart(b, m, a, n) && a != b
  {
    var x := if b < a then a else b;
    assert b <= x < b + m ==> x in dev;
    assert b in dev;
  }

  lemma PushOk(s: Env, es: Entries, e: Entry)
    requires BlocksOk(s.dev, s.blocks) && TargetsApart(es)
    requires WellFormed([e] + es) && s.entries == [e] + es
    requires forall f :: f in es ==> Backed(f, s.dev, s.blocks)
    requires Backed(e, s.dev, s.blocks)
    requires e.tgt != 0 ==> forall f :: f in es && f.tgt != 0 ==> Apart(f.tgt, Length(f), e.tgt, Length(e))
    ensures DeviceOk(s)
  {
    forall i, j | 0 <= i < j < |s.entries| && s.entries[i].tgt != 0 && s.entries[j].tgt != 0
      ensures Apart(s.entries[i].tgt, Length(s.entries[i]), s.entries[j].tgt, Length(s.entries[j]))
    {
      assert s.entries[j] == es[j - 1] && es[j - 1] in es;
      if i > 0 {
        assert s.entries[i] == es[i - 1];
      }
    }
  }

  lemma RecountOk(s: Env, i: nat, c: int)
    requires DeviceOk(s) && i < |s.entries| && c >= 1
    ensures DeviceOk(s.(entries := Recount(s.entries, i, c)))
  {
    RecountWellFormed(s.entries, i, c);
    var es := Recount(s.entries, i, c);
    forall e | e in es ensures Backed(e, s.dev, s.blocks) {
      var j :| 0 <= j < |es| && es[j] == e;
      assert s.entries[j] in s.entries;
    }
    forall a, b | 0 <= a < b < |es| && es[a].tgt != 0 && es[b].tgt != 0
      ensures Apart(es[a].tgt, Length(es[a]), es[b].tgt, Length(es[b]))
    {
      assert Apart(s.entries[a].tgt, Length(s.entries[a]), s.entries[b].tgt, Length(s.entries[b]));
    }
  }

  // A new entry for an absent section, on the block it was given (if it was given one).
  lemma AllocatedEntryOk(p: Plugin, s: Env, e: Entry)
    requires Honest(p) && DeviceOk(s) && e.begin < e.end && e.count == 1
    requires !Found(s.entries, e.begin, e.end - e.begin) && e.tgt == DataAlloc(p, s, e.end - e.begin).1
    ensures DeviceOk(DataAlloc(p, s, e.end - e.begin).0.(entries := [e] + s.entries))
  {
    var n := e.end - e.begin;
    DataAllocOk(p, s, n);
    assert WellFormed(s.entries) && TargetsApart(s.entries);
    hide DeviceOk, WellFormed, TargetsApart, BlocksOk, DataAlloc, Found, Honest;
    PushWellFormed(s.entries, e);
    assert Backed(e, DataAlloc(p, s, n).0.dev, DataAlloc(p, s, n).0.blocks);
    PushOk(DataAlloc(p, s, n).0.(entries := [e] + s.entries), s.entries, e);
  }

  lemma GetOrAllocOk(p: Plugin, s: Env, hp: int, base: int, n: nat, implicit: bool, update: bool)
    requires Honest(p) && DeviceOk(s)
    ensures DeviceOk(GetOrAlloc(p, s, hp, base, n, implicit, update).0)
  {
    var i, s0 := Lookup(s.entries, hp, n), s.(clock := s.clock + 1);
    SameKeysOk(s, s0);
    if i < |s.entries| {
      EntryCount(s, i);
      hide DeviceOk, Honest, Lookup, Usable;
      RecountOk(s0, i, s.entries[i].count + 1);
    } else if n > 0 {
      hide DeviceOk, Honest, Lookup, DataAlloc;
      AllocatedEntryOk(p, s, Entry(base, hp, hp + n, DataAlloc(p, s, n).1, 1));
    }
  }

  lemma EntryCount(s: Env, i: nat)
    requires DeviceOk(s) && i < |s.entries|
    ensures s.entries[i].count >= 1
  {
    assert s.entries[i] in s.entries;
  }

  lemma DeleteBlocksOk(s: Env, a: int)
    requires BlocksOk(s.dev, s.blocks)
    ensures BlocksOk(DataDelete(s, a).dev, DataDelete(s, a).blocks)
  {
    var s' := DataDelete(s, a);
    forall b | b in s'.blocks ensures Allocated(s'.dev, b, s'.blocks[b]) {
      assert a in s.blocks ==> Apart(b, s.blocks[b], a, s.blocks[a]);
    }
  }

  lemma DeleteKeepsBacked(s: Env, a: int, f: Entry)
    requires BlocksOk(s.dev, s.blocks) && Backed(f, s.dev, s.blocks)
    requires a in s.blocks && f.tgt != 0 ==> Apart(a, s.blocks[a], f.tgt, Length(f)) && Length(f) > 0
    ensures Backed(f, DataDelete(s, a).dev, DataDelete(s, a).blocks)
  {
  }

  lemma RemoveOk(s: Env, i: nat)
    requires DeviceOk(s) && i < |s.entries|
    ensures DeviceOk(DataDelete(s, s.entries[i].tgt).(entries := Remove(s.entries, i)))
  {
    var e := s.entries[i];
    var s' := DataDelete(s, e.tgt).(entries := Remove(s.entries, i));
    var es := Remove(s.entries, i);
    RemoveWellFormed(s.entries, i);
    DeleteBlocksOk(s, e.tgt);
    assert e in s.entries;
    forall f | f in es ensures Backed(f, s'.dev, s'.blocks) {
      var j :| 0 <= j < |es| && es[j] == f;
      var j' := if j < i then j else j + 1;
      assert s.entries[j'] == f && f in s.entries;
      DeleteKeepsBacked(s, e.tgt, f);
    }
    forall a, b | 0 <= a < b < |es| && es[a].tgt != 0 && es[b].tgt != 0
      ensures Apart(es[a].tgt, Length(es[a]), es[b].tgt, Length(es[b]))
    {
      var a', b' := if a < i then a else a + 1, if b < i then b else b + 1;
      assert Apart(s.entries[a'].tgt, Length(s.entries[a']), s.entries[b'].tgt, Length(s.entries[b']));
    }
  }

  lemma BeginStepOk(p: Plugin, s: Env, args: seq<Arg>, i: nat)
    requires Honest(p) && DeviceOk(s) && i < |args| && args[i].ty.memberOf < |args|
    ensures DeviceOk(BeginStep(p, s, args, i).env)
  {
    hide DeviceOk, GetOrAlloc, SendArgument;
    var a := args[i];
    if !Skipped(a) {
      GetOrAllocOk(p, s, a.base, a.base, PTR_BYTES, a.ty.implicit, !Member(a));
      var s1 := MapSlot(p, s, args, i).0;
      var base := PointeeBase(s.host, a);
      GetOrAllocOk(p, s1, Begin(args, i), base, Size(args, i), a.ty.implicit, !PlainMember(a));
      var (s2, tp, isNew) := MapPointee(p, s, args, i);
      SameKeysOk(s2, SendArgument(s2, args, i, MapSlot(p, s, args, i).1, base, tp, isNew).0);
    }
  }

  // DeviceOk does not depend on what is stored, only on what is allocated.
  lemma SameKeysOk(s: Env, t: Env)
    requires DeviceOk(s) && t.entries == s.entries && t.blocks == s.blocks && t.dev.Keys == s.dev.Keys
    ensures DeviceOk(t)
  {
    forall e | e in t.entries ensures Backed(e, t.dev, t.blocks) {
      assert Backed(e, s.dev, s.blocks);
    }
  }

  lemma EndStepOk(s: Env, args: seq<Arg>, i: nat)
    requires DeviceOk(s) && i < |args| && args[i].ty.memberOf < |args|
    ensures DeviceOk(EndStep(s, args, i).0)
  {
    hide DeviceOk;
    var a := args[i];
    if !Skipped(a) {
      var hp, n := Begin(args, i), Size(args, i);
      var (s1, tp, isLast) := GetTgtPtr(s, hp, n, !PlainMember(a));
      var del := (isLast || a.ty.delete) && !PlainMember(a);
      GetTgtPtrOk(s, hp, n, !PlainMember(a));
      var s2 := if a.ty.from || del then CopyOut(s1, args, i, tp, del).0 else s1;
      SameKeysOk(s1, s2);
      if del {
        DeallocOk(s2, hp, n, a.ty.delete);
      }
    }
  }

  lemma GetTgtPtrOk(s: Env, hp: int, n: nat, update: bool)
    requires DeviceOk(s)
    ensures DeviceOk(GetTgtPtr(s, hp, n, update).0)
  {
    var i := Lookup(s.entries, hp, n);
    if i < |s.entries| && s.entries[i].count > 1 {
      RecountOk(s, i, s.entries[i].count - 1);
    }
  }

  lemma DeallocOk(s: Env, hp: int, n: nat, force: bool)
    requires DeviceOk(s)
    ensures DeviceOk(Dealloc(s, hp, n, force).0)
  {
    var i := Lookup(s.entries, hp, n);
    if i < |s.entries| {
      RemoveOk(s, i);
      if s.entries[i].count > 1 {
        RecountOk(s, i, s.entries[i].count - 1);
      }
    }
  }

  lemma {:induction false} BeginOk(p: Plugin, s: Env, args: seq<Arg>, k: nat)
    requires Honest(p) && DeviceOk(s) && k <= |args| && ArgsValid(args)
    ensures DeviceOk(BeginFirst(p, s, args, k).0)
  {
    hide DeviceOk, BeginStep;
    if k > 0 {
      BeginOk(p, s, args, k - 1);
      BeginStepOk(p, BeginFirst(p, s, args, k - 1).0, args, k - 1);
    }
  }

  lemma {:induction false} EndOk(s: Env, args: seq<Arg>, k: nat)
    requires DeviceOk(s) && k <= |args| && ArgsValid(args)
    ensures DeviceOk(EndFirst(s, args, k).0)
    decreases k
  {
    hide DeviceOk, EndStep;
    if k > 0 {
      EndStepOk(s, args, k - 1);
      EndOk(EndStep(s, args, k - 1).0, args, k - 1);
    }
  }

  // Associating user memory keeps the invariant when that memory is allocated, outside
  // every block and every associated range.
  lemma AssociateOk(s: Env, hp: int, tgt: int, n: nat)
    requires DeviceOk(s) && n > 0 && tgt != 0
    requires FindBegin(s.entries, hp) == |s.entries| ==> !Found(s.entries, hp, n)
    requires Allocated(s.dev, tgt, n)
    requires forall b :: b in s.blocks ==> Apart(b, s.blocks[b], tgt, n)
    requires forall f :: f in s.entries && f.tgt != 0 ==> Apart(f.tgt, Length(f), tgt, n)
    ensures DeviceOk(s.(entries := Associate(s.entries, hp, tgt, n).0))
  {
    if FindBegin(s.entries, hp) == |s.entries| {
      var e := Entry(hp, hp, hp + n, tgt, INF_REF_CNT);
      PushWellFormed(s.entries, e);
      PushOk(s.(entries := [e] + s.entries), s.entries, e);
    }
  }
}
