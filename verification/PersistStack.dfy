/** The persistent stack buffers of a device: one per live frame that offloads, the
    innermost frame (lowest stack address) first.  Frames that were left give their
    buffers to the destruction queue of the offload that finds them. */
module PersistStack {
  import opened Wrappers

  // Stack address of a frame, the routine it runs and its device buffer.
  datatype Frame = Frame(stack: int, routine: int, buffer: nat)

  // The device's list as one offload sees it.  destroy: buffers the offload has queued for
  // destruction; length: bytes they add to its input data; current: its own buffer; next:
  // names of buffers not yet created.
  datatype State = State(persist: seq<Frame>, destroy: seq<nat>, length: nat, current: Option<nat>, next: nat)

  const ADDRESS_SIZE := 8

  ghost predicate Sorted(fs: seq<Frame>) {
    forall i, j :: 0 <= i < j < |fs| ==> fs[i].stack < fs[j].stack
  }

  // ------------------------------------------------------------ specification

  // A frame that was left before the call from routine at address begin.
  predicate Left(f: Frame, begin: int, routine: int) {
    f.stack < begin || (f.stack == begin && f.routine != routine)
  }

  function Dropped(fs: seq<Frame>, begin: int, routine: int): (n: nat)
    ensures n <= |fs|
  {
    if fs == [] || !Left(fs[0], begin, routine) then 0 else 1 + Dropped(fs[1..], begin, routine)
  }

  // Buffers of the frames, last one first.
  function Queued(fs: seq<Frame>): seq<nat> {
    if fs == [] then [] else Queued(fs[1..]) + [fs[0].buffer]
  }

  datatype Result = Result(ok: bool, isNew: bool)

  function Dropping(st: State, begin: int, routine: int): State {
    var n := Dropped(st.persist, begin, routine);
    st.(persist := st.persist[n..], destroy := Queued(st.persist[..n]) + st.destroy, length := st.length + n * ADDRESS_SIZE)
  }

  // One call; created: the device creates the buffer if one is needed.
  datatype Call = Call(begin: int, routine: int, created: bool)

  function Step(st: State, c: Call): (State, Result) {
    var s := Dropping(st, c.begin, c.routine);
    var kept := s.persist;
    if kept != [] && kept[0].stack == c.begin then
      (s.(current := Some(kept[0].buffer)), Result(true, false))
    else if c.created then
      (s.(persist := [Frame(c.begin, c.routine, st.next)] + kept, current := Some(st.next), next := st.next + 1),
       Result(true, true))
    else (s, Result(false, false))
  }

  // ------------------------------------------------------------ properties

  // The frames above an address.
  function Above(fs: seq<Frame>, begin: int): seq<Frame> {
    if fs == [] then [] else (if fs[0].stack > begin then [fs[0]] else []) + Above(fs[1..], begin)
  }

  // Of a sorted list exactly the frames that were left are dropped.
  lemma {:induction false} DroppedExactly(fs: seq<Frame>, begin: int, routine: int)
    requires Sorted(fs)
    ensures forall i :: 0 <= i < |fs| ==> (i < Dropped(fs, begin, routine) <==> Left(fs[i], begin, routine))
    decreases |fs|
  {
    if fs != [] && Left(fs[0], begin, routine) {
      DroppedExactly(fs[1..], begin, routine);
      forall i | 0 < i < |fs| ensures i < Dropped(fs, begin, routine) <==> Left(fs[i], begin, routine) {
        assert fs[1..][i - 1] == fs[i];
      }
    }
  }

  lemma {:induction false} AllAbove(fs: seq<Frame>, begin: int)
    requires forall i :: 0 <= i < |fs| ==> fs[i].stack > begin
    ensures Above(fs, begin) == fs
    decreases |fs|
  {
    if fs != [] {
      AllAbove(fs[1..], begin);
    }
  }

  lemma {:induction false} AboveSuffix(fs: seq<Frame>, begin: int, n: nat)
    requires n <= |fs| && forall i :: 0 <= i < n ==> fs[i].stack <= begin
    ensures Above(fs, begin) == Above(fs[n..], begin)
    decreases n
  {
    if n > 0 {
      AboveSuffix(fs[1..], begin, n - 1);
      assert fs[1..][n - 1..] == fs[n..];
    } else {
      assert fs[0..] == fs;
    }
  }

  // A successful call leaves its own frame in front of exactly the frames above it; it
  // is new exactly if the list did not hold this frame for this routine.
  lemma CallLeavesFrame(st: State, c: Call)
    requires Sorted(st.persist) && Step(st, c).1.ok
    ensures var fs := Step(st, c).0.persist;
      && fs != [] && fs[0].stack == c.begin && fs[0].routine == c.routine
      && Step(st, c).0.current == Some(fs[0].buffer) && fs[1..] == Above(st.persist, c.begin)
    ensures Step(st, c).1.isNew <==>
      forall f :: f in st.persist ==> f.stack != c.begin || f.routine != c.routine
  {
    hide Dropped, Queued, Above;
    var n := Dropped(st.persist, c.begin, c.routine);
    var kept := st.persist[n..];
    DroppedExactly(st.persist, c.begin, c.routine);
    AboveSuffix(st.persist, c.begin, n);
    if kept != [] && kept[0].stack == c.begin {
      assert kept[0] in st.persist;
      AllAbove(kept[1..], c.begin);
      AboveSuffix(kept, c.begin, 1);
    } else {
      AllAbove(kept, c.begin);
    }
  }

  // A call succeeds exactly if its frame is there or a buffer is created for it; one that
  // fails leaves exactly the frames above it and the buffer in use as it was.
  lemma CallSucceedsIff(st: State, c: Call)
    requires Sorted(st.persist)
    ensures var (s, r) := Step(st, c);
      && (r.ok <==> c.created || exists f :: f in st.persist && f.stack == c.begin && f.routine == c.routine)
      && (!r.ok ==> !r.isNew && s.persist == Above(st.persist, c.begin) && s.current == st.current && s.next == st.next)
  {
    hide Dropped, Queued, Above;
    var n := Dropped(st.persist, c.begin, c.routine);
    var kept := st.persist[n..];
    DroppedExactly(st.persist, c.begin, c.routine);
    AboveSuffix(st.persist, c.begin, n);
    if kept != [] && kept[0].stack == c.begin {
      assert kept[0] == st.persist[n] && kept[0] in st.persist;
    } else {
      AllAbove(kept, c.begin);
    }
  }

  // The buffers of the frames that were left go in front of the queue, that of the
  // innermost frame last.
  lemma QueueOrder(st: State, c: Call, k: nat)
    requires Sorted(st.persist)
    ensures var n, queue := Dropped(st.persist, c.begin, c.routine), Step(st, c).0.destroy;
      && |queue| == n + |st.destroy| && queue[n..] == st.destroy
      && (k < n ==> Left(st.persist[n - 1 - k], c.begin, c.routine) && queue[k] == st.persist[n - 1 - k].buffer)
  {
    var n := Dropped(st.persist, c.begin, c.routine);
    DroppedExactly(st.persist, c.begin, c.routine);
    QueuedTimes(st.persist[..n], 0);
    hide Dropped, Queued, Left;
    if k < n {
      QueuedAt(st.persist[..n], n - 1 - k);
    }
  }

  lemma {:induction false} QueuedAt(fs: seq<Frame>, i: nat)
    requires i < |fs|
    ensures |Queued(fs)| == |fs| && Queued(fs)[|fs| - 1 - i] == fs[i].buffer
    decreases |fs|
  {
    QueuedTimes(fs, 0);
    QueuedTimes(fs[1..], 0);
    if i > 0 {
      QueuedAt(fs[1..], i - 1);
    }
  }

  // How often a buffer occurs in the list and in the queue.
  function Held(fs: seq<Frame>, b: nat): nat {
    if fs == [] then 0 else (if fs[0].buffer == b then 1 else 0) + Held(fs[1..], b)
  }

  function Times(queue: seq<nat>, b: nat): nat {
    if queue == [] then 0 else (if queue[0] == b then 1 else 0) + Times(queue[1..], b)
  }

  lemma {:induction false} TimesConcat(q: seq<nat>, r: seq<nat>, b: nat)
    ensures Times(q + r, b) == Times(q, b) + Times(r, b)
    decreases |q|
  {
    if q == [] {
      assert q + r == r;
    } else {
      TimesConcat(q[1..], r, b);
      assert (q + r)[1..] == q[1..] + r;
    }
  }

  lemma {:induction false} QueuedTimes(fs: seq<Frame>, b: nat)
    ensures Times(Queued(fs), b) == Held(fs, b) && |Queued(fs)| == |fs|
    decreases |fs|
  {
    if fs != [] {
      QueuedTimes(fs[1..], b);
      TimesConcat(Queued(fs[1..]), [fs[0].buffer], b);
      assert Times([fs[0].buffer][1..], b) == 0;
    }
  }

  lemma {:induction false} HeldSplit(fs: seq<Frame>, n: nat, b: nat)
    requires n <= |fs|
    ensures Held(fs, b) == Held(fs[..n], b) + Held(fs[n..], b)
    decreases n
  {
    if n == 0 {
      assert fs[0..] == fs;
    } else {
      HeldSplit(fs[1..], n - 1, b);
      assert fs[..n][1..] == fs[1..][..n - 1] && fs[1..][n - 1..] == fs[n..];
    }
  }

  // From st to st': the list stays sorted, every buffer stays in the list or the queue as
  // often as it was there, a created one comes in once, and eight bytes of input data are
  // added per queued buffer.
  ghost predicate Conserved(st: State, st': State) {
    && Sorted(st'.persist) && st.next <= st'.next
    && (forall b: nat :: Held(st'.persist, b) + Times(st'.destroy, b) ==
          Held(st.persist, b) + Times(st.destroy, b) + if st.next <= b < st'.next then 1 else 0)
    && st'.length + ADDRESS_SIZE * |st.destroy| == st.length + ADDRESS_SIZE * |st'.destroy|
  }

  lemma StepConserves(st: State, c: Call)
    requires Sorted(st.persist)
    ensures Conserved(st, Step(st, c).0)
  {
    hide Conserved, Dropped, Queued;
    DropConserves(st, c.begin, c.routine);
    var s := Dropping(st, c.begin, c.routine);
    if !(s.persist != [] && s.persist[0].stack == c.begin) && c.created {
      NewConserves(st, s, Frame(c.begin, c.routine, st.next));
    }
  }

  lemma DropConserves(st: State, begin: int, routine: int)
    requires Sorted(st.persist)
    ensures var s := Dropping(st, begin, routine);
      && Conserved(st, s) && (forall b :: Conserved(st, s.(current := b)))
      && ((s.persist != [] && s.persist[0].stack == begin) || forall g :: g in s.persist ==> g.stack > begin)
      && s.next == st.next && Sorted(s.persist)
  {
    hide Queued, Dropped, Held, Times;
    DroppedExactly(st.persist, begin, routine);
    SplitBuffers(st.persist, Dropped(st.persist, begin, routine), st.destroy);
  }

  // Dropping frames moves their buffers to the queue.
  lemma SplitBuffers(fs: seq<Frame>, n: nat, queue: seq<nat>)
    requires n <= |fs|
    ensures forall b: nat :: Held(fs[n..], b) + Times(Queued(fs[..n]) + queue, b) == Held(fs, b) + Times(queue, b)
    ensures |Queued(fs[..n]) + queue| == n + |queue|
  {
    forall b: nat ensures Held(fs[n..], b) + Times(Queued(fs[..n]) + queue, b) == Held(fs, b) + Times(queue, b) {
      HeldSplit(fs, n, b);
      QueuedTimes(fs[..n], b);
      TimesConcat(Queued(fs[..n]), queue, b);
    }
    QueuedTimes(fs[..n], 0);
  }

  lemma NewConserves(st: State, s: State, f: Frame)
    requires Conserved(st, s) && s.next == st.next && f.buffer == st.next
    requires forall g :: g in s.persist ==> g.stack > f.stack
    ensures Conserved(st, s.(persist := [f] + s.persist, current := Some(st.next), next := st.next + 1))
  {
    var fs := [f] + s.persist;
    assert fs[1..] == s.persist;
    forall i, j | 0 <= i < j < |fs| ensures fs[i].stack < fs[j].stack {
      assert fs[j] == s.persist[j - 1];
      if i > 0 { assert fs[i] == s.persist[i - 1]; }
    }
  }

  // ------------------------------------------------------------ many offloads

  // What one offload holds; it is open from its set-up until it has finished or failed.
  datatype Offload = Offload(destroy: seq<nat>, length: nat, current: Option<nat>, open: bool)

  // destroyed: buffers handed over for destruction; lost: those an offload still had
  // queued when it failed.
  datatype Device = Device(persist: seq<Frame>, next: nat, offloads: seq<Offload>, destroyed: seq<nat>, lost: seq<nat>)

  // Offloads are set up, ask for their stack buffers, and finish or fail, in any order.
  datatype Event = Setup | Manage(d: nat, call: Call) | Finish(d: nat) | Fail(d: nat)

  predicate Open(dev: Device, d: nat) {
    d < |dev.offloads| && dev.offloads[d].open
  }

  function View(dev: Device, d: nat): State
    requires d < |dev.offloads|
  {
    var o := dev.offloads[d];
    State(dev.persist, o.destroy, o.length, o.current, dev.next)
  }

  function Happen(dev: Device, e: Event): Device {
    match e
    case Setup => dev.(offloads := dev.offloads + [Offload([], 0, None, true)])
    case Manage(d, call) =>
      if !Open(dev, d) then dev else
      var st := Step(View(dev, d), call).0;
      dev.(persist := st.persist, next := st.next,
           offloads := dev.offloads[d := Offload(st.destroy, st.length, st.current, true)])
    case Finish(d) =>
      if !Open(dev, d) then dev else
      dev.(destroyed := dev.destroyed + dev.offloads[d].destroy,
           offloads := dev.offloads[d := dev.offloads[d].(destroy := [], open := false)])
    case Fail(d) =>
      if !Open(dev, d) then dev else
      dev.(lost := dev.lost + dev.offloads[d].destroy,
           offloads := dev.offloads[d := dev.offloads[d].(destroy := [], open := false)])
  }

  function Run(es: seq<Event>): Device {
    if es == [] then Device([], 0, [], [], []) else Happen(Run(es[..|es| - 1]), es[|es| - 1])
  }

  // How often a buffer is in the queues of the offloads.
  function Queues(os: seq<Offload>, b: nat): nat {
    if os == [] then 0 else Times(os[0].destroy, b) + Queues(os[1..], b)
  }

  lemma {:induction false} QueuesUpdate(os: seq<Offload>, d: nat, o: Offload, b: nat)
    requires d < |os|
    ensures Queues(os[d := o], b) + Times(os[d].destroy, b) == Queues(os, b) + Times(o.destroy, b)
    decreases d
  {
    if d > 0 {
      QueuesUpdate(os[1..], d - 1, o, b);
      assert os[d := o][1..] == os[1..][d - 1 := o];
    } else {
      assert os[0 := o][1..] == os[1..];
    }
  }

  lemma {:induction false} QueuesAppend(os: seq<Offload>, o: Offload, b: nat)
    ensures Queues(os + [o], b) == Queues(os, b) + Times(o.destroy, b)
    decreases |os|
  {
    if os == [] {
      assert (os + [o])[1..] == [];
    } else {
      QueuesAppend(os[1..], o, b);
      assert (os + [o])[1..] == os[1..] + [o];
    }
  }

  // Where buffer b is, over the whole device.
  function Places(dev: Device, b: nat): nat {
    Held(dev.persist, b) + Queues(dev.offloads, b) + Times(dev.destroyed, b) + Times(dev.lost, b)
  }

  // Every buffer ever created is in exactly one place; an open offload has eight bytes of
  // input data per buffer it queued, another one has queued none.
  ghost predicate Accounted(dev: Device) {
    && Sorted(dev.persist)
    && (forall b: nat :: Places(dev, b) == if b < dev.next then 1 else 0)
    && forall o :: o in dev.offloads ==> if o.open then o.length == ADDRESS_SIZE * |o.destroy| else o.destroy == []
  }

  lemma EventAccounts(dev: Device, e: Event)
    requires Accounted(dev)
    ensures Accounted(Happen(dev, e))
  {
    hide Accounted, Step, Queues, Times, Held;
    match e {
      case Setup => SetupAccounts(dev);
      case Manage(d, call) =>
        if Open(dev, d) {
          ManageAccounts(dev, d, call);
        }
      case Finish(d) =>
        if Open(dev, d) {
          HandOver(dev, d, Happen(dev, e));
        }
      case Fail(d) =>
        if Open(dev, d) {
          HandOver(dev, d, Happen(dev, e));
        }
    }
  }

  lemma SetupAccounts(dev: Device)
    requires Accounted(dev)
    ensures Accounted(Happen(dev, Setup))
  {
    hide Queues, Held;
    var o := Offload([], 0, None, true);
    forall b: nat ensures Places(Happen(dev, Setup), b) == Places(dev, b) {
      QueuesAppend(dev.offloads, o, b);
    }
  }

  lemma ManageAccounts(dev: Device, d: nat, call: Call)
    requires Accounted(dev) && Open(dev, d)
    ensures Accounted(Happen(dev, Manage(d, call)))
  {
    hide Queues, Held, Times, Step;
    var st, dev' := Step(View(dev, d), call).0, Happen(dev, Manage(d, call));
    var o := Offload(st.destroy, st.length, st.current, true);
    assert dev.offloads[d] in dev.offloads;
    StepConserves(View(dev, d), call);
    forall b: nat ensures Places(dev', b) == Places(dev, b) + if dev.next <= b < dev'.next then 1 else 0 {
      QueuesUpdate(dev.offloads, d, o, b);
    }
    forall b: nat ensures Places(dev', b) == if b < dev'.next then 1 else 0 {
      assert Places(dev, b) == if b < dev.next then 1 else 0;
    }
  }

  // A queue is handed over as a whole.
  lemma HandOver(dev: Device, d: nat, dev': Device)
    requires Accounted(dev) && Open(dev, d)
    requires dev' == Happen(dev, Finish(d)) || dev' == Happen(dev, Fail(d))
    ensures Accounted(dev')
  {
    hide Queues, Held, Times;
    var q := dev.offloads[d].destroy;
    var o := dev.offloads[d].(destroy := [], open := false);
    assert Times([], 0) == 0 by { NoTimes(0); }
    forall b: nat ensures Places(dev', b) == Places(dev, b) {
      QueuesUpdate(dev.offloads, d, o, b);
      NoTimes(b);
      TimesConcat(dev.destroyed, q, b);
      TimesConcat(dev.lost, q, b);
    }
    forall b: nat ensures Places(dev', b) == if b < dev'.next then 1 else 0 {
      assert Places(dev, b) == if b < dev.next then 1 else 0;
    }
  }

  lemma NoTimes(b: nat)
    ensures Times([], b) == 0
  {
  }

  // In every run of every number of offloads each buffer ever created is in exactly one
  // place: no buffer is queued or destroyed twice, and none in use is queued.
  lemma {:induction false} RunAccounts(es: seq<Event>)
    ensures Accounted(Run(es))
    decreases |es|
  {
    hide Happen, Places;
    if es == [] {
      NothingYet();
    } else {
      RunAccounts(es[..|es| - 1]);
      EventAccounts(Run(es[..|es| - 1]), es[|es| - 1]);
    }
  }

  lemma NothingYet()
    ensures Accounted(Device([], 0, [], [], []))
  {
  }

  // ------------------------------------------------------------ lost buffers

  // Which offloads are open can be read off the events: set up, and neither finished nor
  // failed since.
  function Setups(es: seq<Event>): nat {
    if es == [] then 0 else Setups(es[..|es| - 1]) + if es[|es| - 1].Setup? then 1 else 0
  }

  ghost predicate Closes(es: seq<Event>, j: nat, d: nat)
    requires j < |es|
  {
    (es[j] == Finish(d) || es[j] == Fail(d)) && d < Setups(es[..j])
  }

  lemma PrefixAt(es: seq<Event>, j: nat)
    requires es != [] && j < |es| - 1
    ensures es[..|es| - 1][..j] == es[..j] && es[..|es| - 1][j] == es[j]
  {
  }

  lemma {:induction false} OpenIff(es: seq<Event>, d: nat)
    ensures |Run(es).offloads| == Setups(es)
    ensures Open(Run(es), d) <==> d < Setups(es) && forall j :: 0 <= j < |es| ==> !Closes(es, j, d)
    decreases |es|
  {
    hide Step;
    if es != [] {
      var front, e := es[..|es| - 1], es[|es| - 1];
      OpenIff(front, d);
      forall j | 0 <= j < |front| ensures Closes(front, j, d) <==> Closes(es, j, d) {
        PrefixAt(es, j);
      }
      if d == Setups(front) {
        forall j | 0 <= j < |front| ensures !Closes(es, j, d) {
          PrefixAt(es, j);
          SetupsGrow(front, j);
        }
      }
      assert Closes(es, |es| - 1, d) <==> (e == Finish(d) || e == Fail(d)) && d < Setups(front);
    }
  }

  lemma {:induction false} SetupsGrow(es: seq<Event>, j: nat)
    requires j <= |es|
    ensures Setups(es[..j]) <= Setups(es)
    decreases |es|
  {
    if j == |es| {
      assert es[..j] == es;
    } else {
      SetupsGrow(es[..|es| - 1], j);
      assert es[..|es| - 1][..j] == es[..j];
    }
  }

  ghost predicate SomeLeft(fs: seq<Frame>, c: Call) {
    exists f :: f in fs && Left(f, c.begin, c.routine)
  }

  // Event j is a call of offload d, while it is open, that finds a frame that was left.
  ghost predicate FindsLeft(es: seq<Event>, j: nat, d: nat)
    requires j < |es|
  {
    es[j].Manage? && es[j].d == d && Open(Run(es[..j]), d) && SomeLeft(Run(es[..j]).persist, es[j].call)
  }

  lemma StepQueue(st: State, c: Call)
    requires Sorted(st.persist)
    ensures Step(st, c).0.destroy != [] <==> st.destroy != [] || SomeLeft(st.persist, c)
  {
    var n := Dropped(st.persist, c.begin, c.routine);
    DroppedExactly(st.persist, c.begin, c.routine);
    QueuedTimes(st.persist[..n], 0);
    hide Dropped, Queued, Left;
    if f :| f in st.persist && Left(f, c.begin, c.routine) {
      var i :| 0 <= i < |st.persist| && st.persist[i] == f;
      assert i < n;
    }
    if n > 0 {
      assert Left(st.persist[0], c.begin, c.routine);
    }
  }

  // An open offload has buffers queued exactly if one of its calls found a frame that was
  // left.
  lemma {:induction false} QueuedIff(es: seq<Event>, d: nat)
    requires Open(Run(es), d)
    ensures Run(es).offloads[d].destroy != [] <==> exists j :: 0 <= j < |es| && FindsLeft(es, j, d)
    decreases |es|
  {
    hide *;
    assert es != [] by { OpenNonEmpty(es, d); }
    var front, e := es[..|es| - 1], es[|es| - 1];
    var k := |es| - 1;
    OpenBefore(es, d);
    forall j | 0 <= j < k ensures FindsLeft(front, j, d) <==> FindsLeft(es, j, d) {
      FindsSame(es, j, d);
    }
    if Open(Run(front), d) {
      QueuedIff(front, d);
      RunAccounts(front);
      LastQueue(es, d);
    } else {
      forall j | 0 <= j < |es| ensures !FindsLeft(es, j, d) {
        NotSetUp(es, j, d);
      }
    }
  }

  lemma OpenNonEmpty(es: seq<Event>, d: nat)
    requires Open(Run(es), d)
    ensures es != []
  {
  }

  // An offload that is open was open before the last event, or was set up by it.
  lemma OpenBefore(es: seq<Event>, d: nat)
    requires es != [] && Open(Run(es), d)
    ensures d < |Run(es).offloads|
    ensures Open(Run(es[..|es| - 1]), d) || (es[|es| - 1].Setup? && Run(es).offloads[d].destroy == [])
  {
    hide Happen, Open;
    OpenStep(Run(es[..|es| - 1]), es[|es| - 1], d);
  }

  lemma OpenStep(dev: Device, e: Event, d: nat)
    requires Open(Happen(dev, e), d)
    ensures d < |Happen(dev, e).offloads|
    ensures Open(dev, d) || (e.Setup? && Happen(dev, e).offloads[d].destroy == [])
  {
    hide Step;
  }

  lemma FindsSame(es: seq<Event>, j: nat, d: nat)
    requires es != [] && j < |es| - 1
    ensures FindsLeft(es[..|es| - 1], j, d) <==> FindsLeft(es, j, d)
  {
    hide Run, Open, SomeLeft;
    PrefixAt(es, j);
  }

  lemma LastQueue(es: seq<Event>, d: nat)
    requires es != [] && Open(Run(es[..|es| - 1]), d) && Open(Run(es), d) && Accounted(Run(es[..|es| - 1]))
    ensures d < |Run(es[..|es| - 1]).offloads| && d < |Run(es).offloads|
    ensures Run(es).offloads[d].destroy != [] <==>
            Run(es[..|es| - 1]).offloads[d].destroy != [] || FindsLeft(es, |es| - 1, d)
  {
    hide Step, SomeLeft, Sorted;
    var dev, e := Run(es[..|es| - 1]), es[|es| - 1];
    if e.Manage? && e.d == d {
      StepQueue(View(dev, d), e.call);
    }
  }

  // An offload that was not open before the last event has never been: nothing reopens.
  lemma NotSetUp(es: seq<Event>, j: nat, d: nat)
    requires es != [] && j < |es| && Open(Run(es), d) && !Open(Run(es[..|es| - 1]), d)
    ensures !FindsLeft(es, j, d)
  {
    hide Run, Open, SomeLeft;
    OpenIff(es, d);
    OpenIff(es[..|es| - 1], d);
    OpenIff(es[..j], d);
    var front := es[..|es| - 1];
    forall i | 0 <= i < |front| ensures !Closes(front, i, d) {
      PrefixAt(es, i);
      assert !Closes(es, i, d);
    }
    if j < |es| - 1 {
      SetupsGrow(front, j);
      PrefixAt(es, j);
    }
  }

  // Event k is the failure of an open offload one of whose calls found a frame that was
  // left.
  ghost predicate LosesAt(es: seq<Event>, k: nat)
    requires k < |es|
  {
    es[k].Fail? && Open(Run(es[..k]), es[k].d) && exists j :: 0 <= j < k && FindsLeft(es, j, es[k].d)
  }

  // A run loses a buffer exactly if some offload fails after one of its calls found a frame
  // that was left; otherwise every buffer dropped from the list is destroyed.
  lemma {:induction false} LostIff(es: seq<Event>)
    ensures Run(es).lost != [] <==> exists k :: 0 <= k < |es| && LosesAt(es, k)
    decreases |es|
  {
    hide *;
    if es == [] {
      assert Run(es).lost == [] by { LostNothing(es); }
    } else {
      var front, k := es[..|es| - 1], |es| - 1;
      LostIff(front);
      LostStep(es);
      forall i | 0 <= i < k ensures LosesAt(front, i) <==> LosesAt(es, i) {
        LosesSame(es, i);
      }
      if es[k].Fail? && Open(Run(front), es[k].d) {
        QueuedIff(front, es[k].d);
        forall j | 0 <= j < k ensures FindsLeft(front, j, es[k].d) <==> FindsLeft(es, j, es[k].d) {
          FindsSame(es, j, es[k].d);
        }
      }
      LosesLast(es);
    }
  }

  lemma LostNothing(es: seq<Event>)
    requires es == []
    ensures Run(es).lost == []
  {
  }

  lemma LostStep(es: seq<Event>)
    requires es != []
    ensures var front, e := es[..|es| - 1], es[|es| - 1];
      && (e.Fail? && Open(Run(front), e.d) ==> e.d < |Run(front).offloads|)
      && (Run(es).lost != [] <==>
            Run(front).lost != [] || (e.Fail? && Open(Run(front), e.d) && Run(front).offloads[e.d].destroy != []))
  {
    hide Step;
  }

  lemma LosesSame(es: seq<Event>, i: nat)
    requires es != [] && i < |es| - 1
    ensures LosesAt(es[..|es| - 1], i) <==> LosesAt(es, i)
  {
    hide Run, Open, FindsLeft;
    PrefixAt(es, i);
    if es[i].Fail? {
      var front, d := es[..|es| - 1], es[i].d;
      assert front[i] == es[i] && front[..i] == es[..i];
      forall j | 0 <= j < i ensures FindsLeft(front, j, d) <==> FindsLeft(es, j, d) {
        FindsSame(es, j, d);
      }
      assert (exists j :: 0 <= j < i && FindsLeft(front, j, d)) <==> exists j :: 0 <= j < i && FindsLeft(es, j, d);
    }
  }

  lemma LosesLast(es: seq<Event>)
    requires es != []
    ensures var k := |es| - 1;
      LosesAt(es, k) <==>
        es[k].Fail? && Open(Run(es[..k]), es[k].d) && exists j :: 0 <= j < k && FindsLeft(es, j, es[k].d)
  {
  }

  // A frame at 10 is left when an offload asks at 20; that offload fails, and the buffer of
  // the frame is neither in use nor destroyed.
  lemma BufferLost()
    ensures var es := [Setup, Manage(0, Call(10, 1, true)), Finish(0), Setup, Manage(1, Call(20, 1, true)), Fail(1)];
      Run(es).lost == [0] && Run(es).destroyed == [] && Run(es).persist == [Frame(20, 1, 1)]
  {
    var es := [Setup, Manage(0, Call(10, 1, true)), Finish(0), Setup, Manage(1, Call(20, 1, true)), Fail(1)];
    assert es[..5][..4] == es[..4] && es[..4][..3] == es[..3] && es[..3][..2] == es[..2] && es[..2][..1] == es[..1];
    assert es[..6] == es && es[..1][..0] == [];
    var d2 := Device([Frame(10, 1, 0)], 1, [Offload([], 0, Some(0), true)], [], []);
    assert Run(es[..1]) == Device([], 0, [Offload([], 0, None, true)], [], []);
    assert Run(es[..2]) == d2;
    assert Run(es[..3]) == d2.(offloads := [Offload([], 0, Some(0), false)]);
    assert Run(es[..4]) == d2.(offloads := [Offload([], 0, Some(0), false), Offload([], 0, None, true)]);
    SecondCall(Run(es[..4]));
  }

  lemma SecondCall(dev: Device)
    requires dev == Device([Frame(10, 1, 0)], 1, [Offload([], 0, Some(0), false), Offload([], 0, None, true)], [], [])
    ensures Happen(dev, Manage(1, Call(20, 1, true))) ==
      Device([Frame(20, 1, 1)], 2, [Offload([], 0, Some(0), false), Offload([0], 8, Some(1), true)], [], [])
  {
    var fs := [Frame(10, 1, 0)];
    assert fs[1..] == [] && fs[..1] == fs;
    assert Dropped(fs, 20, 1) == 1;
    assert Queued(fs[..1]) == [0];
    assert Dropping(View(dev, 1), 20, 1) == State([], [0], 8, None, 1);
    assert Step(View(dev, 1), Call(20, 1, true)).0 == State([Frame(20, 1, 1)], [0], 8, Some(1), 2);
  }

  // ------------------------------------------------------------ the manager

  class StackManager {
    var persist: seq<Frame>
    var destroy: seq<nat>
    var length: nat
    var current: Option<nat>
    var next: nat

    ghost function Current(): State
      reads this
    {
      State(persist, destroy, length, current, next)
    }

    method OffloadStackMemoryManager(begin: int, routine: int, created: bool) returns (ok: bool, isNew: bool)
      requires Sorted(persist)
      modifies this
      ensures Current() == Step(old(Current()), Call(begin, routine, created)).0
      ensures Result(ok, isNew) == Step(old(Current()), Call(begin, routine, created)).1
    {
      hide Dropped, Queued, Left, Sorted;
      isNew := false;
      var erase, reused := QueueLeft(begin, routine);
      if reused {
        current := Some(persist[erase].buffer);
      }
      if erase > 0 {
        persist := persist[erase..];
        length := length + erase * ADDRESS_SIZE;
      }
      if reused {
        return true, false;
      }
      if !created {
        return false, false;
      }
      current := Some(next);
      persist := [Frame(begin, routine, next)] + persist;
      next := next + 1;
      return true, true;
    }

    // The loop over the list: queues the buffers of the frames that were left.
    method QueueLeft(begin: int, routine: int) returns (erase: nat, reused: bool)
      requires Sorted(persist)
      modifies this`destroy
      ensures erase == Dropped(persist, begin, routine) && destroy == Queued(persist[..erase]) + old(destroy)
      ensures reused <==> erase < |persist| && persist[erase].stack == begin
    {
      hide Dropped, Queued;
      DroppedExactly(persist, begin, routine);
      NothingQueued(persist);
      var it := 0;
      erase, reused := 0, false;
      while it < |persist|
        invariant 0 <= it <= Dropped(persist, begin, routine) <= |persist| && erase == it
        invariant destroy == Queued(persist[..it]) + old(destroy)
      {
        var cur := persist[it];
        if begin > cur.stack {
          QueueOne(persist, it, old(destroy));
          destroy := [cur.buffer] + destroy;
          erase := erase + 1;
        } else if begin == cur.stack {
          if routine != cur.routine {
            QueueOne(persist, it, old(destroy));
            destroy := [cur.buffer] + destroy;
            erase := erase + 1;
            assert erase < |persist| ==> persist[erase].stack > begin;
            return;
          } else {
            return erase, true;
          }
        } else if begin < cur.stack {
          break;
        }
        it := it + 1;
      }
    }
  }

  lemma NothingQueued(fs: seq<Frame>)
    ensures Queued(fs[..0]) == []
  {
  }

  lemma QueueOne(fs: seq<Frame>, i: nat, rest: seq<nat>)
    requires i < |fs|
    ensures Queued(fs[..i + 1]) + rest == [fs[i].buffer] + (Queued(fs[..i]) + rest)
  {
    QueuedLast(fs, i);
  }

  lemma {:induction false} QueuedLast(fs: seq<Frame>, i: nat)
    requires i < |fs|
    ensures Queued(fs[..i + 1]) == [fs[i].buffer] + Queued(fs[..i])
    decreases |fs|
  {
    if i == 0 {
      assert fs[..1][1..] == [];
    } else {
      QueuedLast(fs[1..], i - 1);
      assert fs[..i + 1][1..] == fs[1..][..i] && fs[..i][1..] == fs[1..][..i - 1];
    }
  }
}
