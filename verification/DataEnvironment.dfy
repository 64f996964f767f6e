/** The device data environment as a state machine. */
module DataEnvironment {
  // target_data_begin, target_data_end and __tgt_target_data_update are functions on
  // the whole state: map, shadow pointers, both memories, the device allocator.

  import opened Memory
  import opened DeviceMap

  // ------------------------------------------------------------- the arguments

  // The bits of tgt_map_type; memberOf is the parent index, -1 for none.
  datatype MapType = MapType(
    to: bool, from: bool, always: bool, delete: bool, ptrAndObj: bool,
    targetParam: bool, returnParam: bool, isPrivate: bool, literal: bool,
    implicit: bool, memberOf: int)

  datatype Arg = Arg(base: int, begin: nat, size: nat, ty: MapType)

  // Every parent index names an argument of the list.
  ghost predicate ArgsValid(args: seq<Arg>) {
    forall a :: a in args ==> -1 <= a.ty.memberOf < |args|
  }

  predicate Skipped(a: Arg) {
    a.ty.literal || a.ty.isPrivate
  }

  predicate Member(a: Arg) {
    a.ty.memberOf >= 0
  }

  predicate PlainMember(a: Arg) {
    Member(a) && !a.ty.ptrAndObj
  }

  const ALIGNMENT: nat := 8

  // A combined entry (the next argument is a member of this one) is widened to an
  // aligned begin address.
  function Padding(args: seq<Arg>, i: nat): (p: nat)
    requires i < |args|
    ensures p < ALIGNMENT && p <= args[i].begin
  {
    if !Member(args[i]) && i + 1 < |args| && args[i + 1].ty.memberOf == i
    then args[i].begin % ALIGNMENT else 0
  }

  function Begin(args: seq<Arg>, i: nat): int
    requires i < |args|
  {
    args[i].begin - Padding(args, i)
  }

  function Size(args: seq<Arg>, i: nat): nat
    requires i < |args|
  {
    args[i].size + Padding(args, i)
  }

  // ------------------------------------------------------------------ the state

  // Host pointer slot at key: its host value, the device slot and its device value.
  datatype Shadow = Shadow(key: int, hstVal: int, tgtAddr: int, tgtVal: int)

  datatype Transfer =
    | Submit(tgt: int, hst: int, size: nat)
    | SubmitPtr(slot: int, val: int)
    | Retrieve(hst: int, tgt: int, size: nat)

  // answers(t) is the plugin's answer to transfer number t; the log records them all.
  datatype Env = Env(
    entries: Entries, shadows: seq<Shadow>, host: Mem, dev: Mem,
    blocks: map<int, nat>, clock: nat, log: seq<Transfer>, answers: nat -> Answer)

  // ----------------------------------------------------------------- the plugin

  datatype Reply = Block(addr: int, contents: seq<Byte>) | Refused

  // The allocator's answer to a request and the value read from an uninitialised
  // IsNew; both may depend on the time of the call, so they are unconstrained.
  datatype Plugin = Plugin(alloc: (nat, Mem, nat) -> Reply, stale: nat -> bool)

  // A granted block is non-null, of the requested size, and fresh.
  ghost predicate Honest(p: Plugin) {
    forall t: nat, dev: Mem, n: nat {:trigger p.alloc(t, dev, n)} ::
      p.alloc(t, dev, n).Block? ==>
        var b := p.alloc(t, dev, n);
        b.addr > 0 && |b.contents| == n && forall x | b.addr <= x < b.addr + n :: x !in dev
  }

  predicate InBlock(x: int, a: int, n: nat) {
    a <= x < a + n
  }

  function Range(a: int, n: nat): (r: set<int>)
    ensures forall x :: x in r <==> a <= x < a + n
  {
    set x | a <= x < a + n && InBlock(x, a, n)
  }

  function NewBlock(a: int, s: seq<Byte>): (m: Mem)
    ensures m.Keys == Range(a, |s|)
    ensures forall x :: x in m ==> m[x] == s[x - a]
  {
    map x | x in Range(a, |s|) :: s[x - a]
  }

  // data_alloc: the new state and the target address, 0 when refused.
  function DataAlloc(p: Plugin, s: Env, n: nat): (Env, int) {
    match p.alloc(s.clock, s.dev, n)
    case Refused => (s.(clock := s.clock + 1), 0)
    case Block(a, c) =>
      (s.(clock := s.clock + 1, dev := s.dev + NewBlock(a, c), blocks := s.blocks[a := |c|]), a)
  }

  // data_delete: a no-op on an address that starts no block, like free(NULL).
  function DataDelete(s: Env, a: int): Env {
    if a in s.blocks then s.(dev := s.dev - Range(a, s.blocks[a]), blocks := s.blocks - {a})
    else s
  }

  // Does the next transfer succeed, and how many of its n bytes are copied?
  predicate Sound(s: Env) {
    s.answers(|s.log|).Whole?
  }

  function Moved(s: Env, n: nat): (k: nat)
    ensures k <= n && (Sound(s) ==> k == n)
  {
    Extent(s.answers(|s.log|), n)
  }

  // data_submit and data_retrieve also fail, and copy nothing, when a range is not
  // allocated.
  function DataSubmit(s: Env, tgt: int, hst: int, n: nat): (r: (Env, bool))
    ensures r.0 == s.(dev := r.0.dev, log := r.0.log) && r.0.dev.Keys == s.dev.Keys
  {
    var s' := s.(log := s.log + [Submit(tgt, hst, n)]);
    if Allocated(s.dev, tgt, n) && Allocated(s.host, hst, n)
    then (s'.(dev := Write(s.dev, tgt, Read(s.host, hst, Moved(s, n)))), Sound(s)) else (s', false)
  }

  function DataRetrieve(s: Env, hst: int, tgt: int, n: nat): (r: (Env, bool))
    ensures r.0 == s.(host := r.0.host, log := r.0.log) && r.0.host.Keys == s.host.Keys
  {
    var s' := s.(log := s.log + [Retrieve(hst, tgt, n)]);
    if Allocated(s.dev, tgt, n) && Allocated(s.host, hst, n)
    then (s'.(host := Write(s.host, hst, Read(s.dev, tgt, Moved(s, n)))), Sound(s)) else (s', false)
  }

  function SubmitPointer(s: Env, slot: int, val: int): (r: (Env, bool))
    ensures r.0 == s.(dev := r.0.dev, log := r.0.log) && r.0.dev.Keys == s.dev.Keys
  {
    var s' := s.(log := s.log + [SubmitPtr(slot, val)]);
    if Allocated(s.dev, slot, PTR_BYTES)
    then (s'.(dev := Write(s.dev, slot, PtrBytes(val)[..Moved(s, PTR_BYTES)])), Sound(s)) else (s', false)
  }

  // --------------------------------------------------------- the map operations

  // getOrAllocTgtPtr: new state, target pointer, IsNew.
  function GetOrAlloc(p: Plugin, s: Env, hp: int, base: int, n: nat,
                      implicit: bool, update: bool): (Env, int, bool)
  {
    var i := Lookup(s.entries, hp, n);
    var s0 := s.(clock := s.clock + 1);
    if i < |s.entries| then
      var e := s.entries[i];
      if Usable(e, hp, n, implicit) then
        (if update then s0.(entries := Recount(s.entries, i, e.count + 1)) else s0, Translate(e, hp), false)
      else
        (s0, 0, p.stale(s.clock))
    else if n > 0 then
      var (s1, tp) := DataAlloc(p, s, n);
      (s1.(entries := [Entry(base, hp, hp + n, tp, 1)] + s.entries), tp, true)
    else
      (s0, 0, p.stale(s.clock))
  }

  // getTgtPtrBegin: new state, target pointer, IsLast.
  function GetTgtPtr(s: Env, hp: int, n: nat, update: bool): (Env, int, bool) {
    var i := Lookup(s.entries, hp, n);
    if i < |s.entries| then
      var e := s.entries[i];
      (if e.count > 1 && update then s.(entries := Recount(s.entries, i, e.count - 1)) else s,
       Translate(e, hp), !(e.count > 1))
    else
      (s, 0, false)
  }

  function Dealloc(s: Env, hp: int, n: nat, force: bool): (Env, bool) {
    var i := Lookup(s.entries, hp, n);
    if i < |s.entries| then
      var e := s.entries[i];
      var c := if force then 0 else e.count - 1;
      if c <= 0 then (DataDelete(s, e.tgt).(entries := Remove(s.entries, i)), true)
      else (s.(entries := Recount(s.entries, i, c)), true)
    else
      (s, false)
  }

  // ------------------------------------------------------------ shadow pointers

  function InsertShadow(sh: seq<Shadow>, x: Shadow): (r: seq<Shadow>)
    ensures |r| > 0
  {
    if sh == [] || x.key < sh[0].key then [x] + sh
    else if x.key == sh[0].key then [x] + sh[1..]
    else [sh[0]] + InsertShadow(sh[1..], x)
  }

  function InRange(sh: seq<Shadow>, lb: int, ub: int): (r: seq<Shadow>) {
    if sh == [] then []
    else if lb <= sh[0].key < ub then [sh[0]] + InRange(sh[1..], lb, ub)
    else InRange(sh[1..], lb, ub)
  }

  function OutOfRange(sh: seq<Shadow>, lb: int, ub: int): (r: seq<Shadow>) {
    if sh == [] then []
    else if lb <= sh[0].key < ub then OutOfRange(sh[1..], lb, ub)
    else [sh[0]] + OutOfRange(sh[1..], lb, ub)
  }

  // Writes the host values of the given slots, in order.
  function RestoreHost(m: Mem, sh: seq<Shadow>): (r: Mem)
    ensures r.Keys == m.Keys
  {
    if sh == [] then m else RestoreHost(Write(m, sh[0].key, PtrBytes(sh[0].hstVal)), sh[1..])
  }

  // Submits the device values of the given slots, in order.
  function RestoreDevice(s: Env, sh: seq<Shadow>): Env
    decreases |sh|
  {
    if sh == [] then s else RestoreDevice(SubmitPointer(s, sh[0].tgtAddr, sh[0].tgtVal).0, sh[1..])
  }

  // --------------------------------------------------------- target_data_begin

  // Is the pointer slot of argument i mapped along with its pointee?
  predicate UsesSlot(args: seq<Arg>, i: nat)
    requires i < |args|
    requires args[i].ty.memberOf < |args|
  {
    var a := args[i];
    a.ty.ptrAndObj && (!Member(a) || !args[a.ty.memberOf].ty.isPrivate)
  }

  function PointeeBase(host: Mem, a: Arg): int {
    if a.ty.ptrAndObj then LoadPtr(host, a.base) else a.base
  }

  predicate CopyIn(es: Entries, args: seq<Arg>, i: nat, isNew: bool)
    requires i < |args|
    requires args[i].ty.memberOf < |args|
  {
    var a := args[i];
    a.ty.to &&
    if isNew || a.ty.always then true
    else Member(a) && RefCount(es, args[a.ty.memberOf].begin) == 1
  }

  // Outcome of one argument: state, OFFLOAD_SUCCESS?, the value left in args_base[i].
  datatype Outcome = Outcome(env: Env, ok: bool, base: int)

  // The transfers of one argument once its target pointers are known: the section
  // itself, then the device slot pointing to it.
  function SendArgument(s: Env, args: seq<Arg>, i: nat, slot: int, base: int, tp: int, isNew: bool): (r: (Env, bool))
    requires i < |args|
    requires args[i].ty.memberOf < |args|
    ensures r.0.entries == s.entries && r.0.host == s.host && r.0.blocks == s.blocks && r.0.clock == s.clock
    ensures r.0.dev.Keys == s.dev.Keys
  {
    var hp := Begin(args, i);
    var (s1, ok1) :=
      if CopyIn(s.entries, args, i, isNew) then DataSubmit(s, tp, hp, Size(args, i)) else (s, true);
    if slot == 0 then (s1, ok1) else
    var tgtBase := tp - (hp - base);
    var (s2, ok2) := SubmitPointer(s1, slot, tgtBase);
    (s2.(shadows := InsertShadow(s2.shadows, Shadow(args[i].base, base, slot, tgtBase))), ok1 && ok2)
  }

  // First the pointer slot is mapped (its target address is 0 when there is none) ...
  function MapSlot(p: Plugin, s: Env, args: seq<Arg>, i: nat): (Env, int)
    requires i < |args|
    requires args[i].ty.memberOf < |args|
  {
    var a := args[i];
    if UsesSlot(args, i) then
      var (s', slot, _) := GetOrAlloc(p, s, a.base, a.base, PTR_BYTES, a.ty.implicit, !Member(a));
      (s', slot)
    else (s, 0)
  }

  // ... then the section itself, which is the pointee if there is a slot.
  function MapPointee(p: Plugin, s: Env, args: seq<Arg>, i: nat): (Env, int, bool)
    requires i < |args|
    requires args[i].ty.memberOf < |args|
  {
    var a := args[i];
    GetOrAlloc(p, MapSlot(p, s, args, i).0, Begin(args, i), PointeeBase(s.host, a), Size(args, i),
               a.ty.implicit, !PlainMember(a))
  }

  function BeginStep(p: Plugin, s: Env, args: seq<Arg>, i: nat): Outcome
    requires i < |args|
    requires args[i].ty.memberOf < |args|
  {
    var a := args[i];
    if Skipped(a) then Outcome(s, true, a.base) else
    var base := PointeeBase(s.host, a);
    var (s2, tp, isNew) := MapPointee(p, s, args, i);
    var (s3, ok) := SendArgument(s2, args, i, MapSlot(p, s, args, i).1, base, tp, isNew);
    Outcome(s3, ok, if a.ty.returnParam then tp - (Begin(args, i) - base) else a.base)
  }

  // The state after arguments 0..k-1 were mapped.
  function BeginFirst(p: Plugin, s: Env, args: seq<Arg>, k: nat): (Env, bool)
    requires k <= |args| && ArgsValid(args)
  {
    if k == 0 then (s, true) else
    var (s', ok) := BeginFirst(p, s, args, k - 1);
    var o := BeginStep(p, s', args, k - 1);
    (o.env, ok && o.ok)
  }

  function DataBegin(p: Plugin, s: Env, args: seq<Arg>): (Env, bool)
    requires ArgsValid(args)
  {
    BeginFirst(p, s, args, |args|)
  }

  // ----------------------------------------------------------- target_data_end

  predicate CopyMember(es: Entries, args: seq<Arg>, i: nat)
    requires i < |args|
    requires args[i].ty.memberOf < |args|
  {
    PlainMember(args[i]) && RefCount(es, args[args[i].ty.memberOf].begin) == 1
  }

  // Copies a section back if it is due, restores the host pointers in it, and drops
  // its shadow entries when it is about to be released.
  function CopyOut(s: Env, args: seq<Arg>, i: nat, tp: int, del: bool): (r: (Env, bool))
    requires i < |args|
    requires args[i].ty.memberOf < |args|
    ensures r.0.entries == s.entries && r.0.dev == s.dev && r.0.blocks == s.blocks && r.0.clock == s.clock
    ensures r.0.host.Keys == s.host.Keys
  {
    var ty := args[i].ty;
    var hp, n := Begin(args, i), Size(args, i);
    var (s2, ok) :=
      if ty.from && (del || ty.always || CopyMember(s.entries, args, i))
      then DataRetrieve(s, hp, tp, n) else (s, true);
    var s3 := if ty.from then s2.(host := RestoreHost(s2.host, InRange(s2.shadows, hp, hp + n))) else s2;
    (if del then s3.(shadows := OutOfRange(s3.shadows, hp, hp + n)) else s3, ok)
  }

  function EndStep(s: Env, args: seq<Arg>, i: nat): (Env, bool)
    requires i < |args|
    requires args[i].ty.memberOf < |args|
  {
    var a := args[i];
    if Skipped(a) then (s, true) else
    var hp, n := Begin(args, i), Size(args, i);
    var (s1, tp, isLast) := GetTgtPtr(s, hp, n, !PlainMember(a));
    var del := (isLast || a.ty.delete) && !PlainMember(a);
    var (s2, ok2) := if a.ty.from || del then CopyOut(s1, args, i, tp, del) else (s1, true);
    var (s3, ok3) := if del then Dealloc(s2, hp, n, a.ty.delete) else (s2, true);
    (s3, ok2 && ok3)
  }

  // Arguments k-1 down to 0 unmapped, the last first.
  function EndFirst(s: Env, args: seq<Arg>, k: nat): (Env, bool)
    requires k <= |args| && ArgsValid(args)
    decreases k
  {
    if k == 0 then (s, true) else
    var (s', ok) := EndStep(s, args, k - 1);
    var (s'', ok') := EndFirst(s', args, k - 1);
    (s'', ok && ok')
  }

  function DataEnd(s: Env, args: seq<Arg>): (Env, bool)
    requires ArgsValid(args)
  {
    EndFirst(s, args, |args|)
  }

  // ---------------------------------------------------- __tgt_target_data_update

  // The FROM part of an update: the section is fetched and its host pointers restored.
  function AfterFrom(s: Env, a: Arg): Env {
    if !a.ty.from then s else
    var tp := GetTgtPtr(s, a.begin, a.size, false).1;
    var r := DataRetrieve(s, a.begin, tp, a.size).0;
    r.(host := RestoreHost(r.host, InRange(r.shadows, a.begin, a.begin + a.size)))
  }

  // Then the TO part: the section is sent and its device pointers restored.
  function UpdateStep(s: Env, a: Arg): Env {
    if Skipped(a) then s else
    var s1 := AfterFrom(s, a);
    if !a.ty.to then s1 else
    var tp := GetTgtPtr(s, a.begin, a.size, false).1;
    RestoreDevice(DataSubmit(s1, tp, a.begin, a.size).0, InRange(s.shadows, a.begin, a.begin + a.size))
  }

  function DataUpdate(s: Env, args: seq<Arg>): Env
    decreases |args|
  {
    if args == [] then s else DataUpdate(UpdateStep(s, args[0]), args[1..])
  }
}
