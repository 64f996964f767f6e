/** Copies between device memories: of a block, and of a box in multi-dimensional
    arrays. */
module MemcpyRect {
  import opened Memory
  import opened ArraySections
  import opened StreamCopy
  import opened SectionHull

  const SUCCESS := 0
  const FAIL := -1
  const MAX_DIMENSIONS := 2147483647
  const INITIAL_DEVICE := -10

  // ------------------------------------------------------------ boxes

  // Bytes of one slice of an array with the given inner dimensions.
  function Slice(dims: seq<nat>, e: nat): nat {
    if dims == [] then e else dims[0] * Slice(dims[1..], e)
  }

  // A box as an array section: unit strides, offsets and volumes per dimension.
  function Box(dims: seq<nat>, offsets: seq<nat>, volume: seq<nat>, e: nat): seq<Dim>
    requires |dims| == |offsets| == |volume|
  {
    if dims == [] then []
    else
      var first: int, count: int := offsets[0], volume[0];
      [Dim(Slice(dims[1..], e), 0, first, first + count - 1, 1)] + Box(dims[1..], offsets[1..], volume[1..], e)
  }

  ghost predicate InBounds(dims: seq<nat>, offsets: seq<nat>, volume: seq<nat>) {
    |dims| == |offsets| == |volume| && forall k :: 0 <= k < |dims| ==> offsets[k] + volume[k] <= dims[k]
  }

  ghost predicate Positive(volume: seq<nat>) {
    forall k :: 0 <= k < |volume| ==> volume[k] > 0
  }

  lemma {:induction false} SlicePositive(dims: seq<nat>, e: nat)
    requires e >= 1 && Positive(dims)
    ensures Slice(dims, e) >= 1
    decreases |dims|
  {
    if dims != [] {
      SlicePositive(dims[1..], e);
      MulMono(1, 1, dims[0], Slice(dims[1..], e));
    }
  }

  // A box within its array is a well-formed section.
  lemma {:induction false} BoxOk(dims: seq<nat>, offsets: seq<nat>, volume: seq<nat>, e: nat)
    requires InBounds(dims, offsets, volume) && Positive(volume) && e >= 1
    ensures |Box(dims, offsets, volume, e)| == |dims| && DescOk(Box(dims, offsets, volume, e))
    ensures dims != [] ==> Box(dims, offsets, volume, e)[|dims| - 1].size == e
    decreases |dims|
  {
    if dims != [] {
      BoxOk(dims[1..], offsets[1..], volume[1..], e);
      SlicePositive(dims[1..], e);
      var b, rest := Box(dims, offsets, volume, e), Box(dims[1..], offsets[1..], volume[1..], e);
      if |dims| > 1 {
        Scaled(offsets[1] + volume[1], dims[1], Slice(dims[1..][1..], e));
        assert Fits(b[0], rest[0]);
      }
      assert forall i :: 1 <= i < |b| ==> b[i] == rest[i - 1];
    }
  }

  // Address of cell v of a box.
  function Cell(dims: seq<nat>, offsets: seq<nat>, v: seq<nat>, e: nat, b: int): int
    requires |dims| == |offsets| == |v|
  {
    if dims == [] then b
    else Cell(dims[1..], offsets[1..], v[1..], e, b + (offsets[0] + v[0]) * Slice(dims[1..], e))
  }

  // Where cell v's bytes begin among those of a box.
  function Position(volume: seq<nat>, v: seq<nat>, e: nat): nat
    requires |volume| == |v|
    decreases |v|
  {
    if v == [] then 0 else v[0] * Slice(volume[1..], e) + Position(volume[1..], v[1..], e)
  }

  ghost predicate Below(v: seq<nat>, volume: seq<nat>) {
    |v| == |volume| && forall k :: 0 <= k < |v| ==> v[k] < volume[k]
  }

  lemma {:induction false} BoxSize(dims: seq<nat>, offsets: seq<nat>, volume: seq<nat>, e: nat, b: int)
    requires InBounds(dims, offsets, volume) && Positive(volume) && e >= 1
    ensures AllOk(Box(dims, offsets, volume, e)) && |Section(Box(dims, offsets, volume, e), e, b)| == Slice(volume, e)
    decreases |dims|
  {
    BoxOk(dims, offsets, volume, e);
    if dims != [] {
      var d := Box(dims, offsets, volume, e);
      assert d[1..] == Box(dims[1..], offsets[1..], volume[1..], e);
      CountUnitStride(d[0]);
      RowsSize(d, e, b, volume[0]);
      BoxSize(dims[1..], offsets[1..], volume[1..], e, b);
    }
  }

  lemma {:induction false} RowAt(d: seq<Dim>, e: nat, b: int, n: nat, x: nat, y: nat)
    requires d != [] && AllOk(d) && x < n && y < |Section(d[1..], e, b)|
    ensures |Section(d[1..], e, At(d[0], b, x))| == |Section(d[1..], e, b)|
    ensures 0 <= x * |Section(d[1..], e, b)| + y < |Rows(d, e, b, n)|
    ensures Rows(d, e, b, n)[x * |Section(d[1..], e, b)| + y] == Section(d[1..], e, At(d[0], b, x))[y]
    decreases n
  {
    var m := |Section(d[1..], e, b)|;
    RowsSize(d, e, b, n);
    RowsSize(d, e, b, n - 1);
    SameSize(d[1..], e, b, At(d[0], b, x));
    SameSize(d[1..], e, b, At(d[0], b, n - 1));
    Scaled(0, x, m);
    if x < n - 1 {
      RowAt(d, e, b, n - 1, x, y);
    }
  }

  // The bytes of a box are those of its cells, in index order.
  lemma {:induction false} BoxAt(dims: seq<nat>, offsets: seq<nat>, volume: seq<nat>, v: seq<nat>, e: nat, b: int, t: nat)
    requires InBounds(dims, offsets, volume) && Positive(volume) && e >= 1 && Below(v, volume) && t < e
    ensures AllOk(Box(dims, offsets, volume, e))
    ensures Position(volume, v, e) + t < |Section(Box(dims, offsets, volume, e), e, b)|
    ensures Section(Box(dims, offsets, volume, e), e, b)[Position(volume, v, e) + t] == Cell(dims, offsets, v, e, b) + t
    decreases |dims|
  {
    BoxOk(dims, offsets, volume, e);
    if dims != [] {
      var d := Box(dims, offsets, volume, e);
      var c := b + (offsets[0] + v[0]) * Slice(dims[1..], e);
      assert d[1..] == Box(dims[1..], offsets[1..], volume[1..], e);
      assert c == At(d[0], b, v[0]);
      BoxAt(dims[1..], offsets[1..], volume[1..], v[1..], e, c, t);
      BoxSize(dims[1..], offsets[1..], volume[1..], e, b);
      BoxSize(dims[1..], offsets[1..], volume[1..], e, c);
      CountUnitStride(d[0]);
      RowAt(d, e, b, volume[0], v[0], Position(volume[1..], v[1..], e) + t);
    }
  }

  // ------------------------------------------------------------ copies between memories

  type Memories = map<int, Mem>

  ghost predicate Apart(a: seq<int>, b: seq<int>) {
    forall x :: x in a ==> x !in b
  }

  // From m0 to m, the bytes at from in sd's memory went to the addresses to in dd's.
  ghost predicate BytesCopied(m0: Memories, m: Memories, dd: int, sd: int, to: seq<int>, from: seq<int>) {
    && dd in m0 && sd in m0 && |to| == |from|
    && m == m0[dd := Deliver(m0[dd], m0[sd], to, from)]
  }

  lemma NoBytesCopied(m: Memories, dd: int, sd: int)
    requires dd in m && sd in m
    ensures BytesCopied(m, m, dd, sd, [], [])
  {
    assert m[dd := m[dd]] == m;
  }

  // Delivering reads only the source addresses.
  lemma {:induction false} DeliverReads(dst: Mem, src: Mem, src': Mem, to: seq<int>, from: seq<int>)
    requires |to| == |from|
    requires forall x :: x in from ==> (x in src <==> x in src') && (x in src ==> src[x] == src'[x])
    ensures Deliver(dst, src, to, from) == Deliver(dst, src', to, from)
    decreases |to|
  {
    if to != [] {
      var k := |to| - 1;
      DeliverReads(dst, src, src', to[..k], from[..k]);
      assert from[k] in from;
      assert Read(src, from[k], 1) == Read(src', from[k], 1);
    }
  }

  lemma {:induction false} DeliverElsewhere(dst: Mem, src: Mem, to: seq<int>, from: seq<int>, x: int)
    requires |to| == |from| && x !in to
    ensures x in Deliver(dst, src, to, from) <==> x in dst
    ensures x in dst ==> Deliver(dst, src, to, from)[x] == dst[x]
    decreases |to|
  {
    if to != [] {
      var k := |to| - 1;
      DeliverElsewhere(dst, src, to[..k], from[..k], x);
      assert to[k] in to;
    }
  }

  lemma {:induction false} DeliverConcat(dst: Mem, src: Mem, to: seq<int>, from: seq<int>, to': seq<int>, from': seq<int>)
    requires |to| == |from| && |to'| == |from'|
    ensures Deliver(Deliver(dst, src, to, from), src, to', from') == Deliver(dst, src, to + to', from + from')
    decreases |to'|
  {
    hide Deliver, Write, Read;
    var T, F := to + to', from + from';
    if to' == [] {
      assert T == to && F == from;
      DeliverNothing(Deliver(dst, src, to, from), src, to', from');
    } else {
      var k, q := |to'| - 1, |T| - 1;
      DeliverConcat(dst, src, to, from, to'[..k], from'[..k]);
      assert T[..q] == to + to'[..k] && F[..q] == from + from'[..k];
      DeliverLast(dst, src, T, F);
      DeliverLast(Deliver(dst, src, to, from), src, to', from');
    }
  }

  lemma DeliverNothing(dst: Mem, src: Mem, to: seq<int>, from: seq<int>)
    requires to == [] && from == []
    ensures Deliver(dst, src, to, from) == dst
  {
  }

  lemma DeliverLast(dst: Mem, src: Mem, to: seq<int>, from: seq<int>)
    requires |to| == |from| > 0
    ensures Deliver(dst, src, to, from)
         == Write(Deliver(dst, src, to[..|to| - 1], from[..|from| - 1]), to[|to| - 1], Read(src, from[|from| - 1], 1))
  {
  }

  // The same for a copy that may have stopped on the way.
  ghost predicate PartCopied(m0: Memories, m: Memories, dd: int, sd: int, to: seq<int>, from: seq<int>) {
    |to| == |from| && exists n :: CopiedUpTo(m0, m, dd, sd, to, from, n)
  }

  ghost predicate CopiedUpTo(m0: Memories, m: Memories, dd: int, sd: int, to: seq<int>, from: seq<int>, n: int) {
    0 <= n <= |to| && n <= |from| && BytesCopied(m0, m, dd, sd, to[..n], from[..n])
  }

  lemma CopiedIsPart(m0: Memories, m: Memories, dd: int, sd: int, to: seq<int>, from: seq<int>)
    requires BytesCopied(m0, m, dd, sd, to, from)
    ensures PartCopied(m0, m, dd, sd, to, from)
  {
    assert to[..|to|] == to && from[..|to|] == from;
    assert CopiedUpTo(m0, m, dd, sd, to, from, |to|);
  }

  // Two copies in a row, the first of which does not write what the second reads.
  lemma CopiedTwice(m0: Memories, m1: Memories, m2: Memories, dd: int, sd: int, to: seq<int>, from: seq<int>,
                    to': seq<int>, from': seq<int>)
    requires BytesCopied(m0, m1, dd, sd, to, from) && BytesCopied(m1, m2, dd, sd, to', from')
    requires dd == sd ==> Apart(to, from')
    ensures BytesCopied(m0, m2, dd, sd, to + to', from + from')
  {
    var d1 := Deliver(m0[dd], m0[sd], to, from);
    assert Deliver(d1, m1[sd], to', from') == Deliver(d1, m0[sd], to', from') by {
      forall x | x in from' ensures (x in m1[sd] <==> x in m0[sd]) && (x in m1[sd] ==> m1[sd][x] == m0[sd][x]) {
        if dd == sd {
          assert x !in to;
          DeliverElsewhere(m0[dd], m0[sd], to, from, x);
        }
      }
      DeliverReads(d1, m1[sd], m0[sd], to', from');
    }
    DeliverConcat(m0[dd], m0[sd], to, from, to', from');
    assert m0[dd := d1][dd := Deliver(d1, m0[sd], to', from')] == m0[dd := Deliver(d1, m0[sd], to', from')];
  }

  // A whole copy and a part of the next one are a part of both.
  lemma CopiedThenPart(m0: Memories, m1: Memories, m2: Memories, dd: int, sd: int, to: seq<int>, from: seq<int>,
                       to': seq<int>, from': seq<int>, all: seq<int>, allFrom: seq<int>)
    requires BytesCopied(m0, m1, dd, sd, to, from) && PartCopied(m1, m2, dd, sd, to', from')
    requires dd == sd ==> Apart(to, from')
    requires to + to' <= all && from + from' <= allFrom && |all| == |allFrom|
    ensures PartCopied(m0, m2, dd, sd, all, allFrom)
  {
    hide Deliver;
    assert |to| == |from|;
    var n :| CopiedUpTo(m1, m2, dd, sd, to', from', n);
    hide BytesCopied;
    CopiedTwice(m0, m1, m2, dd, sd, to, from, to'[..n], from'[..n]);
    assert all[..|to| + n] == to + to'[..n] && allFrom[..|to| + n] == from + from'[..n];
    assert CopiedUpTo(m0, m2, dd, sd, all, allFrom, |to| + n);
  }

  // ------------------------------------------------------------ the box of one call

  // The arrays of a call, num_dims elements each.
  datatype Shape = Shape(volume: seq<nat>, dstOffsets: seq<nat>, srcOffsets: seq<nat>, dstDims: seq<nat>, srcDims: seq<nat>)

  // Both boxes lie within their arrays; only the innermost volume may be zero.
  ghost predicate ShapeOk(s: Shape) {
    && InBounds(s.dstDims, s.dstOffsets, s.volume) && InBounds(s.srcDims, s.srcOffsets, s.volume)
    && forall k :: 0 <= k < |s.volume| - 1 ==> s.volume[k] > 0
  }

  function Inner(s: Shape): Shape
    requires ShapeOk(s) && s.volume != []
  {
    Shape(s.volume[1..], s.dstOffsets[1..], s.srcOffsets[1..], s.dstDims[1..], s.srcDims[1..])
  }

  ghost predicate NonEmpty(s: Shape) {
    ShapeOk(s) && s.volume != [] && s.volume[|s.volume| - 1] > 0
  }

  ghost function To(s: Shape, e: nat, dst: int): seq<int>
    requires NonEmpty(s) && e >= 1
  {
    BoxOk(s.dstDims, s.dstOffsets, s.volume, e);
    Section(Box(s.dstDims, s.dstOffsets, s.volume, e), e, dst)
  }

  ghost function From(s: Shape, e: nat, src: int): seq<int>
    requires NonEmpty(s) && e >= 1
  {
    BoxOk(s.srcDims, s.srcOffsets, s.volume, e);
    Section(Box(s.srcDims, s.srcOffsets, s.volume, e), e, src)
  }

  // Row i: where its boxes begin.
  function RowTo(s: Shape, e: nat, dst: int, i: nat): int
    requires ShapeOk(s) && s.volume != []
  {
    dst + (s.dstOffsets[0] + i) * Slice(s.dstDims[1..], e)
  }

  function RowFrom(s: Shape, e: nat, src: int, i: nat): int
    requires ShapeOk(s) && s.volume != []
  {
    src + (s.srcOffsets[0] + i) * Slice(s.srcDims[1..], e)
  }

  // The first n rows.
  ghost function RowsTo(s: Shape, e: nat, dst: int, n: nat): seq<int>
    requires NonEmpty(s) && e >= 1
  {
    BoxOk(s.dstDims, s.dstOffsets, s.volume, e);
    Rows(Box(s.dstDims, s.dstOffsets, s.volume, e), e, dst, n)
  }

  ghost function RowsFrom(s: Shape, e: nat, src: int, n: nat): seq<int>
    requires NonEmpty(s) && e >= 1
  {
    BoxOk(s.srcDims, s.srcOffsets, s.volume, e);
    Rows(Box(s.srcDims, s.srcOffsets, s.volume, e), e, src, n)
  }

  lemma RowsOfBox(s: Shape, e: nat, dst: int, src: int, n: nat)
    requires NonEmpty(s) && e >= 1 && |s.volume| > 1
    ensures NonEmpty(Inner(s))
    ensures RowsTo(s, e, dst, 0) == [] && RowsFrom(s, e, src, 0) == []
    ensures RowsTo(s, e, dst, s.volume[0]) == To(s, e, dst) && RowsFrom(s, e, src, s.volume[0]) == From(s, e, src)
    ensures RowsTo(s, e, dst, n + 1) == RowsTo(s, e, dst, n) + To(Inner(s), e, RowTo(s, e, dst, n))
    ensures RowsFrom(s, e, src, n + 1) == RowsFrom(s, e, src, n) + From(Inner(s), e, RowFrom(s, e, src, n))
  {
    var i := Inner(s);
    BoxOk(s.dstDims, s.dstOffsets, s.volume, e);
    BoxOk(s.srcDims, s.srcOffsets, s.volume, e);
    var d, c := Box(s.dstDims, s.dstOffsets, s.volume, e), Box(s.srcDims, s.srcOffsets, s.volume, e);
    assert d[1..] == Box(i.dstDims, i.dstOffsets, i.volume, e);
    assert c[1..] == Box(i.srcDims, i.srcOffsets, i.volume, e);
    CountUnitStride(d[0]);
    CountUnitStride(c[0]);
  }

  lemma {:induction false} RowsPrefix(d: seq<Dim>, e: nat, b: int, m: nat, n: nat)
    requires d != [] && AllOk(d) && m <= n
    ensures Rows(d, e, b, m) <= Rows(d, e, b, n)
    decreases n
  {
    if m < n {
      RowsPrefix(d, e, b, m, n - 1);
    }
  }

  // Rows of boxes that are apart are apart.
  lemma RowsApart(s: Shape, e: nat, dst: int, src: int, n: nat)
    requires NonEmpty(s) && e >= 1 && |s.volume| > 1 && n < s.volume[0] && Apart(To(s, e, dst), From(s, e, src))
    ensures NonEmpty(Inner(s))
    ensures Apart(RowsTo(s, e, dst, n), From(Inner(s), e, RowFrom(s, e, src, n)))
    ensures Apart(To(Inner(s), e, RowTo(s, e, dst, n)), From(Inner(s), e, RowFrom(s, e, src, n)))
  {
    RowsOfBox(s, e, dst, src, n);
    BoxOk(s.dstDims, s.dstOffsets, s.volume, e);
    BoxOk(s.srcDims, s.srcOffsets, s.volume, e);
    RowsPrefix(Box(s.dstDims, s.dstOffsets, s.volume, e), e, dst, n + 1, s.volume[0]);
    RowsPrefix(Box(s.srcDims, s.srcOffsets, s.volume, e), e, src, n + 1, s.volume[0]);
    PartsApart(RowsTo(s, e, dst, n), To(Inner(s), e, RowTo(s, e, dst, n)), To(s, e, dst),
               RowsFrom(s, e, src, n), From(Inner(s), e, RowFrom(s, e, src, n)), From(s, e, src));
  }

  lemma PartsApart(a: seq<int>, b: seq<int>, ab: seq<int>, c: seq<int>, d: seq<int>, cd: seq<int>)
    requires a + b <= ab && c + d <= cd && Apart(ab, cd)
    ensures Apart(a, d) && Apart(b, d)
  {
    PartsOf(a, b, ab);
    PartsOf(c, d, cd);
  }

  lemma PartsOf(a: seq<int>, b: seq<int>, ab: seq<int>)
    requires a + b <= ab
    ensures forall x :: x in a || x in b ==> x in ab
  {
    forall x | x in a || x in b ensures x in ab {
      assert x in a + b;
    }
  }

  // One row is a block, of which n bytes are copied.
  lemma BlockCopied(m: Memories, s: Shape, e: nat, dst: int, src: int, dd: int, sd: int, n: nat)
    requires NonEmpty(s) && e >= 1 && |s.volume| == 1 && dd in m && sd in m && n <= e * s.volume[0]
    ensures |To(s, e, dst)| == |From(s, e, src)| == e * s.volume[0]
    ensures CopiedUpTo(m, m[dd := BufferCopy(m[dd], dst + e * s.dstOffsets[0], m[sd], src + e * s.srcOffsets[0], n)],
                       dd, sd, To(s, e, dst), From(s, e, src), n)
  {
    UnitBox(s.dstDims, s.dstOffsets, s.volume, e, dst);
    UnitBox(s.srcDims, s.srcOffsets, s.volume, e, src);
    var a, b := dst + e * s.dstOffsets[0], src + e * s.srcOffsets[0];
    SpanPrefix(a, e * s.volume[0], n);
    SpanPrefix(b, e * s.volume[0], n);
    DeliverAll(m[dd], m[sd], To(s, e, dst)[..n], From(s, e, src)[..n], a, b, n);
    hide Deliver, BufferCopy, Section, Box, Span;
  }

  lemma SpanPrefix(a: int, m: nat, n: nat)
    requires n <= m
    ensures |Span(a, m)| == m && Span(a, m)[..n] == Span(a, n)
  {
  }

  lemma DeliverAll(dst: Mem, src: Mem, to: seq<int>, from: seq<int>, a: int, b: int, n: nat)
    requires to == Span(a, n) && from == Span(b, n)
    ensures Deliver(dst, src, to, from) == BufferCopy(dst, a, src, b, n)
  {
    assert to[0..n] == to && from[0..n] == from && to[..n] == to && from[..n] == from;
    DeliverNothing(dst, src, to[..0], from[..0]);
    DeliverBlock(dst, src, to, from, 0, n, a, b);
  }

  lemma UnitBox(dims: seq<nat>, offsets: seq<nat>, volume: seq<nat>, e: nat, b: int)
    requires InBounds(dims, offsets, volume) && Positive(volume) && e >= 1 && |dims| == 1
    ensures AllOk(Box(dims, offsets, volume, e))
    ensures Section(Box(dims, offsets, volume, e), e, b) == Span(b + e * offsets[0], e * volume[0])
  {
    BoxOk(dims, offsets, volume, e);
    var d := Box(dims, offsets, volume, e);
    assert d[1..] == [];
    CountUnitStride(d[0]);
    RowsContiguous(d, e, b, volume[0]);
  }

  // ------------------------------------------------------------ the calls

  class Devices {
    var memories: Memories
    var ready: set<int>

    // The plugins' answers to the copies they are asked for, and how many there were.
    const answers: nat -> Answer
    var copies: nat

    ghost predicate Valid()
      reads this
    {
      INITIAL_DEVICE in memories && forall d :: d in ready ==> d in memories
    }

    ghost predicate Usable(device: int)
      reads this`ready
    {
      device == INITIAL_DEVICE || device in ready
    }

    // Did all copies from number i up to j succeed?
    ghost predicate AllWhole(i: nat, j: nat)
    {
      forall t :: i <= t < j ==> answers(t).Whole?
    }

    // One copy by a plugin.
    method PluginCopy(dst: Mem, a: int, src: Mem, b: int, n: nat) returns (m: Mem, rc: int)
      modifies this`copies
      ensures copies == old(copies) + 1
      ensures m == BufferCopy(dst, a, src, b, Extent(answers(old(copies)), n))
      ensures rc == if answers(old(copies)).Whole? then SUCCESS else FAIL
    {
      m := BufferCopy(dst, a, src, b, Extent(answers(copies), n));
      rc := if answers(copies).Whole? then SUCCESS else FAIL;
      copies := copies + 1;
    }

    method OmpTargetMemcpy(dst: nat, src: nat, length: nat, dstOffset: nat, srcOffset: nat, dstDevice: int, srcDevice: int)
      returns (rc: int, ghost n: nat)
      requires Valid()
      modifies this`memories, this`copies
      ensures Valid() && copies >= old(copies) && n <= length
      ensures rc == if dst == 0 || src == 0 || length == 0 || !Usable(srcDevice) || !Usable(dstDevice) ||
                       !AllWhole(old(copies), copies) then FAIL else SUCCESS
      ensures rc == SUCCESS ==> n == length
      ensures memories == old(memories) ||
              (Usable(srcDevice) && Usable(dstDevice) && dst > 0 && src > 0)
      ensures Usable(srcDevice) && Usable(dstDevice) && dst > 0 && src > 0 ==>
        dstDevice in old(memories) && srcDevice in old(memories) &&
        memories == old(memories)[dstDevice := BufferCopy(old(memories)[dstDevice], dst + dstOffset,
                                                          old(memories)[srcDevice], src + srcOffset, n)]
    {
      hide BufferCopy;
      n := 0;
      if dst == 0 || src == 0 || length <= 0 {
        NothingCopied(memories, dstDevice, srcDevice, dst + dstOffset, src + srcOffset);
        return FAIL, 0;
      }
      if srcDevice != INITIAL_DEVICE && srcDevice !in ready {
        return FAIL, 0;
      }
      if dstDevice != INITIAL_DEVICE && dstDevice !in ready {
        return FAIL, 0;
      }
      var srcAddr, dstAddr := src + srcOffset, dst + dstOffset;
      NothingCopied(memories, dstDevice, srcDevice, dstAddr, srcAddr);
      var m;
      if srcDevice == INITIAL_DEVICE && dstDevice == INITIAL_DEVICE {
        memories := memories[dstDevice := BufferCopy(memories[dstDevice], dstAddr, memories[srcDevice], srcAddr, length)];
        rc, n := SUCCESS, length;
      } else if srcDevice == INITIAL_DEVICE || dstDevice == INITIAL_DEVICE {
        n := Extent(answers(copies), length);
        m, rc := PluginCopy(memories[dstDevice], dstAddr, memories[srcDevice], srcAddr, length);
        memories := memories[dstDevice := m];
      } else {
        // From device to device through a buffer on the host.
        var buffer := HostBuffer(length);
        m, rc := PluginCopy(buffer, 0, memories[srcDevice], srcAddr, length);
        if rc == SUCCESS {
          BufferedCopy(memories[dstDevice], dstAddr, buffer, memories[srcDevice], srcAddr, length,
                       Extent(answers(copies), length));
          n := Extent(answers(copies), length);
          m, rc := PluginCopy(memories[dstDevice], dstAddr, m, 0, length);
          memories := memories[dstDevice := m];
        }
      }
    }

    // absent: one of the array arguments is null.
    method OmpTargetMemcpyRect(dst: nat, src: nat, elementSize: nat, s: Shape, absent: bool, dstDevice: int, srcDevice: int)
      returns (rc: int)
      requires Valid() && ShapeOk(s)
      requires dstDevice == srcDevice && NonEmpty(s) && elementSize >= 1 ==>
        Apart(To(s, elementSize, dst), From(s, elementSize, src))
      modifies this`memories, this`copies
      ensures Valid() && copies >= old(copies)
      ensures var rc' := Outcome(dst, src, elementSize, s, absent, Usable(dstDevice) && Usable(srcDevice));
              rc == if rc' == SUCCESS && !AllWhole(old(copies), copies) then FAIL else rc'
      ensures rc == MAX_DIMENSIONS <==> dst == 0 && src == 0
      ensures rc == SUCCESS <==>
        dst > 0 && src > 0 && elementSize >= 1 && |s.volume| >= 1 && !absent &&
        Usable(dstDevice) && Usable(srcDevice) && NonEmpty(s) && AllWhole(old(copies), copies)
      ensures rc == MAX_DIMENSIONS || rc == SUCCESS || rc == FAIL
      ensures Outcome(dst, src, elementSize, s, absent, Usable(dstDevice) && Usable(srcDevice)) != SUCCESS ==>
        memories == old(memories)
      ensures Outcome(dst, src, elementSize, s, absent, Usable(dstDevice) && Usable(srcDevice)) == SUCCESS ==>
        PartCopied(old(memories), memories, dstDevice, srcDevice, To(s, elementSize, dst), From(s, elementSize, src))
      ensures rc == SUCCESS ==> BytesCopied(old(memories), memories, dstDevice, srcDevice,
                                            To(s, elementSize, dst), From(s, elementSize, src))
      decreases |s.volume|, 1
    {
      hide Apart, NonEmpty, ShapeOk, Usable, Valid, To, From, BytesCopied, BufferCopy, Deliver, Section, Rows, Slice,
           AllWhole, PartCopied;
      if dst == 0 && src == 0 {
        return MAX_DIMENSIONS;
      }
      if dst == 0 || src == 0 || elementSize < 1 || |s.volume| < 1 || absent {
        return FAIL;
      }
      ShapeLengths(s);
      if |s.volume| == 1 {
        UsableDevices(dstDevice, srcDevice);
        BlockNonEmpty(s, elementSize);
        NothingCopied(memories, dstDevice, srcDevice, dst + elementSize * s.dstOffsets[0], src + elementSize * s.srcOffsets[0]);
        ghost var n;
        rc, n := OmpTargetMemcpy(dst, src, elementSize * s.volume[0], elementSize * s.dstOffsets[0],
                                 elementSize * s.srcOffsets[0], dstDevice, srcDevice);
        if Usable(dstDevice) && Usable(srcDevice) && NonEmpty(s) {
          BlockCopied(old(memories), s, elementSize, dst, src, dstDevice, srcDevice, n);
          UpToIsPart(old(memories), memories, dstDevice, srcDevice, To(s, elementSize, dst), From(s, elementSize, src), n);
        }
      } else {
        rc := CopyRows(dst, src, elementSize, s, dstDevice, srcDevice);
      }
    }

    // The rows of a box of two or more dimensions.
    method CopyRows(dst: nat, src: nat, elementSize: nat, s: Shape, dstDevice: int, srcDevice: int)
      returns (rc: int)
      requires Valid() && ShapeOk(s) && dst > 0 && src > 0 && elementSize >= 1 && |s.volume| > 1
      requires dstDevice == srcDevice && NonEmpty(s) ==> Apart(To(s, elementSize, dst), From(s, elementSize, src))
      modifies this`memories, this`copies
      ensures Valid() && copies >= old(copies)
      ensures rc == if Usable(dstDevice) && Usable(srcDevice) && NonEmpty(s) && AllWhole(old(copies), copies)
                    then SUCCESS else FAIL
      ensures !(Usable(dstDevice) && Usable(srcDevice) && NonEmpty(s)) ==> memories == old(memories)
      ensures Usable(dstDevice) && Usable(srcDevice) && NonEmpty(s) ==>
        PartCopied(old(memories), memories, dstDevice, srcDevice, To(s, elementSize, dst), From(s, elementSize, src))
      ensures rc == SUCCESS ==> BytesCopied(old(memories), memories, dstDevice, srcDevice,
                                            To(s, elementSize, dst), From(s, elementSize, src))
      decreases |s.volume|, 0
    {
      hide Apart, NonEmpty, ShapeOk, Usable, Valid, To, From, BytesCopied, BufferCopy, Deliver, Section, Rows, Slice;
      hide RowsTo, RowsFrom, RowTo, RowFrom, Outcome, Inner, Box, AllWhole, PartCopied;
      ShapeLengths(s);
      UsableDevices(dstDevice, srcDevice);
      var dstSlice, srcSlice := SliceSizes(s, elementSize);
      var dstOff, srcOff := s.dstOffsets[0] * dstSlice, s.srcOffsets[0] * srcSlice;
      ghost var works := Usable(dstDevice) && Usable(srcDevice) && NonEmpty(s);
      WholeNothing(copies);
      if works {
        NoBytesCopied(memories, dstDevice, srcDevice);
        RowsOfBox(s, elementSize, dst, src, 0);
      }
      rc := FAIL;
      var i := 0;
      while i < s.volume[0]
        invariant i <= s.volume[0] && Valid() && (i > 0 ==> works && rc == SUCCESS)
        invariant copies >= old(copies) && AllWhole(old(copies), copies)
        invariant !works ==> memories == old(memories)
        invariant works ==> BytesCopied(old(memories), memories, dstDevice, srcDevice,
                                        RowsTo(s, elementSize, dst, i), RowsFrom(s, elementSize, src, i))
      {
        ghost var sofar, made := memories, copies;
        var to, from := dst + dstOff + dstSlice * i, src + srcOff + srcSlice * i;
        RowCall(s, elementSize, dst, src, i, to, from, dstDevice, srcDevice, Usable(dstDevice) && Usable(srcDevice));
        rc := OmpTargetMemcpyRect(to, from, elementSize, Inner(s), false, dstDevice, srcDevice);
        WholeJoined(old(copies), made, copies);
        if rc != 0 {
          if works {
            RowsOfBox(s, elementSize, dst, src, i);
            RowsWithin(s, elementSize, dst, src, i);
            CopiedThenPart(old(memories), sofar, memories, dstDevice, srcDevice,
                           RowsTo(s, elementSize, dst, i), RowsFrom(s, elementSize, src, i),
                           To(Inner(s), elementSize, to), From(Inner(s), elementSize, from),
                           To(s, elementSize, dst), From(s, elementSize, src));
          }
          return;
        }
        RowsOfBox(s, elementSize, dst, src, i);
        CopiedTwice(old(memories), sofar, memories, dstDevice, srcDevice,
                    RowsTo(s, elementSize, dst, i), RowsFrom(s, elementSize, src, i),
                    To(Inner(s), elementSize, to), From(Inner(s), elementSize, from));
        i := i + 1;
      }
      if works {
        RowsOfBox(s, elementSize, dst, src, 0);
        CopiedIsPart(old(memories), memories, dstDevice, srcDevice, To(s, elementSize, dst), From(s, elementSize, src));
      }
    }

    lemma WholeNothing(i: nat)
      ensures AllWhole(i, i)
    {
    }

    lemma WholeJoined(i: nat, j: nat, k: nat)
      requires i <= j <= k && AllWhole(i, j)
      ensures AllWhole(i, k) <==> AllWhole(j, k)
    {
    }

    lemma UsableDevices(dd: int, sd: int)
      requires Valid()
      ensures Usable(dd) && Usable(sd) ==> dd in memories && sd in memories
    {
    }
  }

  lemma ShapeLengths(s: Shape)
    requires ShapeOk(s)
    ensures |s.volume| == |s.dstOffsets| == |s.srcOffsets| == |s.dstDims| == |s.srcDims|
    ensures |s.volume| > 1 ==> s.volume[0] > 0
  {
  }

  lemma BlockNonEmpty(s: Shape, e: nat)
    requires ShapeOk(s) && |s.volume| == 1 && e >= 1
    ensures NonEmpty(s) <==> e * s.volume[0] != 0
  {
    if s.volume[0] > 0 {
      MulMono(1, 1, e, s.volume[0]);
    }
  }

  // The call for row i: its arguments and what it returns.
  lemma RowCall(s: Shape, e: nat, dst: nat, src: nat, i: nat, to: int, from: int, dd: int, sd: int, usable: bool)
    requires ShapeOk(s) && |s.volume| > 1 && e >= 1 && i < s.volume[0] && dst > 0 && src > 0
    requires to == dst + s.dstOffsets[0] * Slice(s.dstDims[1..], e) + Slice(s.dstDims[1..], e) * i
    requires from == src + s.srcOffsets[0] * Slice(s.srcDims[1..], e) + Slice(s.srcDims[1..], e) * i
    requires dd == sd && NonEmpty(s) ==> Apart(To(s, e, dst), From(s, e, src))
    ensures to > 0 && from > 0 && ShapeOk(Inner(s)) && |Inner(s).volume| < |s.volume|
    ensures to == RowTo(s, e, dst, i) && from == RowFrom(s, e, src, i)
    ensures NonEmpty(Inner(s)) <==> NonEmpty(s)
    ensures dd == sd && NonEmpty(Inner(s)) ==>
      && Apart(To(Inner(s), e, to), From(Inner(s), e, from))
      && Apart(RowsTo(s, e, dst, i), From(Inner(s), e, from))
    ensures Outcome(to, from, e, Inner(s), false, usable) == if usable && NonEmpty(s) then SUCCESS else FAIL
  {
    hide Apart, To, From, RowsTo, RowsFrom, Slice, RowTo, RowFrom;
    RowAddress(dst, s.dstOffsets[0], i, Slice(s.dstDims[1..], e), to);
    RowAddress(src, s.srcOffsets[0], i, Slice(s.srcDims[1..], e), from);
    RowStarts(s, e, dst, src, i);
    if NonEmpty(s) && dd == sd {
      RowsApart(s, e, dst, src, i);
    }
  }

  lemma RowAddress(a: nat, offset: nat, i: nat, slice: nat, row: int)
    requires row == a + offset * slice + slice * i
    ensures row == a + (offset + i) * slice && row >= a
  {
    Distribute(offset, i, slice);
  }

  lemma RowStarts(s: Shape, e: nat, dst: int, src: int, i: nat)
    requires ShapeOk(s) && s.volume != []
    ensures RowTo(s, e, dst, i) == dst + (s.dstOffsets[0] + i) * Slice(s.dstDims[1..], e)
    ensures RowFrom(s, e, src, i) == src + (s.srcOffsets[0] + i) * Slice(s.srcDims[1..], e)
  {
  }

  lemma NothingCopied(m: Memories, dd: int, sd: int, a: int, b: int)
    ensures dd in m && sd in m ==> m[dd := BufferCopy(m[dd], a, m[sd], b, 0)] == m
  {
    if dd in m && sd in m {
      SameMemory(BufferCopy(m[dd], a, m[sd], b, 0), m[dd]);
    }
  }

  // malloc: a fresh buffer at address 0 of a memory of its own.
  function HostBuffer(n: nat): (m: Mem)
    ensures forall x :: x in m <==> 0 <= x < n
  {
    map x | 0 <= x < n && InBuffer(x, n) :: 0
  }

  predicate InBuffer(x: int, n: nat) {
    0 <= x < n
  }

  // Copying through a buffer is copying.
  lemma BufferedCopy(dst: Mem, a: int, buffer: Mem, src: Mem, b: int, n: nat, k: nat)
    requires k <= n && forall x :: x in buffer <==> 0 <= x < n
    ensures BufferCopy(dst, a, BufferCopy(buffer, 0, src, b, n), 0, k) == BufferCopy(dst, a, src, b, k)
  {
    assert Read(BufferCopy(buffer, 0, src, b, n), 0, k) == Read(src, b, k);
  }

  lemma UpToIsPart(m0: Memories, m: Memories, dd: int, sd: int, to: seq<int>, from: seq<int>, n: nat)
    requires |to| == |from| && CopiedUpTo(m0, m, dd, sd, to, from, n)
    ensures PartCopied(m0, m, dd, sd, to, from)
    ensures n == |to| ==> BytesCopied(m0, m, dd, sd, to, from)
  {
    hide BytesCopied;
    assert to[..|to|] == to && from[..|to|] == from;
  }

  // Rows 0 to i are the first bytes of the box.
  lemma RowsWithin(s: Shape, e: nat, dst: int, src: int, i: nat)
    requires NonEmpty(s) && e >= 1 && |s.volume| > 1 && i < s.volume[0]
    ensures NonEmpty(Inner(s)) && |To(s, e, dst)| == |From(s, e, src)|
    ensures RowsTo(s, e, dst, i) + To(Inner(s), e, RowTo(s, e, dst, i)) <= To(s, e, dst)
    ensures RowsFrom(s, e, src, i) + From(Inner(s), e, RowFrom(s, e, src, i)) <= From(s, e, src)
  {
    RowsOfBox(s, e, dst, src, i);
    BoxOk(s.dstDims, s.dstOffsets, s.volume, e);
    BoxOk(s.srcDims, s.srcOffsets, s.volume, e);
    BoxSize(s.dstDims, s.dstOffsets, s.volume, e, dst);
    BoxSize(s.srcDims, s.srcOffsets, s.volume, e, src);
    RowsPrefix(Box(s.dstDims, s.dstOffsets, s.volume, e), e, dst, i + 1, s.volume[0]);
    RowsPrefix(Box(s.srcDims, s.srcOffsets, s.volume, e), e, src, i + 1, s.volume[0]);
    hide Box, Section, Rows, Slice;
  }

  // Return code of a call whose copies all succeed.
  ghost function Outcome(dst: nat, src: nat, e: nat, s: Shape, absent: bool, usable: bool): int {
    if dst == 0 && src == 0 then MAX_DIMENSIONS
    else if dst == 0 || src == 0 || e < 1 || |s.volume| < 1 || absent then FAIL
    else if usable && NonEmpty(s) then SUCCESS else FAIL
  }

  method SliceSizes(s: Shape, e: nat) returns (dstSlice: nat, srcSlice: nat)
    requires ShapeOk(s) && s.volume != []
    ensures dstSlice == Slice(s.dstDims[1..], e) && srcSlice == Slice(s.srcDims[1..], e)
  {
    hide *;
    ShapeLengths(s);
    NoSlice(s.dstDims[1..1], e);
    NoSlice(s.srcDims[1..1], e);
    dstSlice, srcSlice := e, e;
    for i := 1 to |s.volume|
      invariant dstSlice == Slice(s.dstDims[1..i], e) && srcSlice == Slice(s.srcDims[1..i], e)
    {
      SliceAppend(s.dstDims[1..i], s.dstDims[i], e);
      SliceAppend(s.srcDims[1..i], s.srcDims[i], e);
      assert s.dstDims[1..i] + [s.dstDims[i]] == s.dstDims[1..i + 1];
      assert s.srcDims[1..i] + [s.srcDims[i]] == s.srcDims[1..i + 1];
      dstSlice := dstSlice * s.dstDims[i];
      srcSlice := srcSlice * s.srcDims[i];
    }
    assert s.dstDims[1..|s.volume|] == s.dstDims[1..] && s.srcDims[1..|s.volume|] == s.srcDims[1..];
  }

  lemma NoSlice(dims: seq<nat>, e: nat)
    requires dims == []
    ensures Slice(dims, e) == e
  {
  }

  lemma {:induction false} SliceAppend(dims: seq<nat>, x: nat, e: nat)
    ensures Slice(dims + [x], e) == Slice(dims, e) * x
    decreases |dims|
  {
    if dims == [] {
      assert (dims + [x])[1..] == [];
    } else {
      SliceAppend(dims[1..], x, e);
      assert (dims + [x])[1..] == dims[1..] + [x];
      assert dims[0] * (Slice(dims[1..], e) * x) == dims[0] * Slice(dims[1..], e) * x;
    }
  }

  // ------------------------------------------------------------ cell by cell

  // Every byte of a box belongs to one of its cells.
  lemma {:induction false} CellOf(dims: seq<nat>, offsets: seq<nat>, volume: seq<nat>, e: nat, b: int, i: nat)
    returns (v: seq<nat>, t: nat)
    requires InBounds(dims, offsets, volume) && Positive(volume) && e >= 1
    requires AllOk(Box(dims, offsets, volume, e)) && i < |Section(Box(dims, offsets, volume, e), e, b)|
    ensures Below(v, volume) && t < e
    ensures Section(Box(dims, offsets, volume, e), e, b)[i] == Cell(dims, offsets, v, e, b) + t
    decreases |dims|
  {
    if dims == [] {
      v, t := [], i;
    } else {
      var d := Box(dims, offsets, volume, e);
      assert d[1..] == Box(dims[1..], offsets[1..], volume[1..], e);
      BoxOk(dims, offsets, volume, e);
      BoxSize(dims, offsets, volume, e, b);
      BoxSize(dims[1..], offsets[1..], volume[1..], e, b);
      var m := Slice(volume[1..], e);
      SlicePositive(volume[1..], e);
      var x, y := RowOf(i, m, volume[0]);
      var c := At(d[0], b, x);
      BoxSize(dims[1..], offsets[1..], volume[1..], e, c);
      CountUnitStride(d[0]);
      RowAt(d, e, b, volume[0], x, y);
      var v';
      v', t := CellOf(dims[1..], offsets[1..], volume[1..], e, c, y);
      v := [x] + v';
      assert v[1..] == v';
      assert c == b + (offsets[0] + v[0]) * Slice(dims[1..], e);
      hide Section, Rows, Box, Slice, AllOk, InBounds, Positive;
    }
  }

  lemma RowOf(i: nat, m: nat, n: nat) returns (x: nat, y: nat)
    requires m >= 1 && i < n * m
    ensures x < n && y < m && i == x * m + y
  {
    x, y := i / m, i % m;
    if x >= n {
      Scaled(n, x, m);
    }
  }

  // Byte t of cell v.
  ghost predicate InBox(v: seq<nat>, t: int, volume: seq<nat>, e: nat) {
    Below(v, volume) && 0 <= t < e
  }

  // What a successful call leaves in the destination's memory.
  lemma BoxDelivered(m0: Memories, m: Memories, dd: int, sd: int, s: Shape, e: nat, dst: int, src: int)
    requires NonEmpty(s) && e >= 1 && BytesCopied(m0, m, dd, sd, To(s, e, dst), From(s, e, src))
    ensures dd in m0 && sd in m0 && m.Keys == m0.Keys && m[dd].Keys == m0[dd].Keys && |To(s, e, dst)| == |From(s, e, src)|
    ensures forall k :: 0 <= k < |To(s, e, dst)| && To(s, e, dst)[k] in m0[dd] && From(s, e, src)[k] in m0[sd] ==>
      m[dd][To(s, e, dst)[k]] == m0[sd][From(s, e, src)[k]]
    ensures forall x :: x in m0[dd] && x !in To(s, e, dst) ==> m[dd][x] == m0[dd][x]
    ensures forall d :: d in m0 && d != dd ==> m[d] == m0[d]
  {
    BoxOk(s.dstDims, s.dstOffsets, s.volume, e);
    SectionIncreasing(Box(s.dstDims, s.dstOffsets, s.volume, e), e, dst);
    DeliveredOnce(m0[dd], m0[sd], To(s, e, dst), From(s, e, src));
    hide Box, Section, Deliver;
  }

  // A successful call puts every cell of the source box into the same cell of the
  // destination box.
  lemma CellCopied(m0: Memories, m: Memories, dd: int, sd: int, s: Shape, e: nat, dst: int, src: int, v: seq<nat>, t: int)
    requires NonEmpty(s) && e >= 1 && BytesCopied(m0, m, dd, sd, To(s, e, dst), From(s, e, src))
    requires InBox(v, t, s.volume, e)
    requires Cell(s.dstDims, s.dstOffsets, v, e, dst) + t in m0[dd]
    requires Cell(s.srcDims, s.srcOffsets, v, e, src) + t in m0[sd]
    ensures dd in m && Cell(s.dstDims, s.dstOffsets, v, e, dst) + t in m[dd]
    ensures m[dd][Cell(s.dstDims, s.dstOffsets, v, e, dst) + t] == m0[sd][Cell(s.srcDims, s.srcOffsets, v, e, src) + t]
  {
    hide Box, Section, Deliver, Position, Cell, To, From, BytesCopied;
    BoxDelivered(m0, m, dd, sd, s, e, dst, src);
    CellsAt(s, e, dst, src, v, t);
  }

  lemma CellsAt(s: Shape, e: nat, dst: int, src: int, v: seq<nat>, t: nat)
    requires NonEmpty(s) && e >= 1 && InBox(v, t, s.volume, e)
    ensures Position(s.volume, v, e) + t < |To(s, e, dst)| && Position(s.volume, v, e) + t < |From(s, e, src)|
    ensures To(s, e, dst)[Position(s.volume, v, e) + t] == Cell(s.dstDims, s.dstOffsets, v, e, dst) + t
    ensures From(s, e, src)[Position(s.volume, v, e) + t] == Cell(s.srcDims, s.srcOffsets, v, e, src) + t
  {
    BoxAt(s.dstDims, s.dstOffsets, s.volume, v, e, dst, t);
    BoxAt(s.srcDims, s.srcOffsets, s.volume, v, e, src, t);
    hide Box, Section, Position, Cell;
  }

  // What a call that may have failed leaves: the box's bytes are the old or the copied ones.
  lemma BoxPart(m0: Memories, m: Memories, dd: int, sd: int, s: Shape, e: nat, dst: int, src: int, k: nat)
    requires NonEmpty(s) && e >= 1 && PartCopied(m0, m, dd, sd, To(s, e, dst), From(s, e, src))
    requires k < |To(s, e, dst)| && To(s, e, dst)[k] in m0[dd] && From(s, e, src)[k] in m0[sd]
    ensures dd in m && To(s, e, dst)[k] in m[dd]
    ensures m[dd][To(s, e, dst)[k]] == m0[dd][To(s, e, dst)[k]] || m[dd][To(s, e, dst)[k]] == m0[sd][From(s, e, src)[k]]
  {
    BoxOk(s.dstDims, s.dstOffsets, s.volume, e);
    SectionIncreasing(Box(s.dstDims, s.dstOffsets, s.volume, e), e, dst);
    var to, from := To(s, e, dst), From(s, e, src);
    hide Box, Section, Deliver, To, From, NonEmpty, ShapeOk;
    var n :| CopiedUpTo(m0, m, dd, sd, to, from, n);
    DeliveredOnce(m0[dd], m0[sd], to[..n], from[..n]);
    if k < n {
      assert to[..n][k] == to[k] && from[..n][k] == from[k];
    }
  }

  lemma PartElsewhere(m0: Memories, m: Memories, dd: int, sd: int, to: seq<int>, from: seq<int>, x: int)
    requires PartCopied(m0, m, dd, sd, to, from) && x !in to
    ensures dd in m0 && m.Keys == m0.Keys && (forall d :: d in m0 && d != dd ==> m[d] == m0[d])
    ensures (x in m[dd] <==> x in m0[dd]) && (x in m0[dd] ==> m[dd][x] == m0[dd][x])
  {
    var n :| CopiedUpTo(m0, m, dd, sd, to, from, n);
    DeliverElsewhere(m0[dd], m0[sd], to[..n], from[..n], x);
  }

  // A call that fails on the way leaves every byte of every cell as it was or copied ...
  lemma CellOldOrCopied(m0: Memories, m: Memories, dd: int, sd: int, s: Shape, e: nat, dst: int, src: int,
                        v: seq<nat>, t: int)
    requires NonEmpty(s) && e >= 1 && PartCopied(m0, m, dd, sd, To(s, e, dst), From(s, e, src))
    requires InBox(v, t, s.volume, e)
    requires dd in m0 && Cell(s.dstDims, s.dstOffsets, v, e, dst) + t in m0[dd]
    requires sd in m0 && Cell(s.srcDims, s.srcOffsets, v, e, src) + t in m0[sd]
    ensures var x, y := Cell(s.dstDims, s.dstOffsets, v, e, dst) + t, Cell(s.srcDims, s.srcOffsets, v, e, src) + t;
            dd in m && x in m[dd] && (m[dd][x] == m0[dd][x] || m[dd][x] == m0[sd][y])
  {
    hide Box, Section, Deliver, Position, Cell, To, From, PartCopied, NonEmpty;
    CellsAt(s, e, dst, src, v, t);
    BoxPart(m0, m, dd, sd, s, e, dst, src, Position(s.volume, v, e) + t);
  }

  // ... and no call, failed or not, changes another byte of the destination device, or
  // another device.
  lemma OtherBytesKept(m0: Memories, m: Memories, dd: int, sd: int, s: Shape, e: nat, dst: int, src: int, x: int)
    requires NonEmpty(s) && e >= 1 && PartCopied(m0, m, dd, sd, To(s, e, dst), From(s, e, src))
    requires forall v: seq<nat>, t: nat :: InBox(v, t, s.volume, e) ==> x != Cell(s.dstDims, s.dstOffsets, v, e, dst) + t
    ensures dd in m0 && m.Keys == m0.Keys && (forall d :: d in m0 && d != dd ==> m[d] == m0[d])
    ensures (x in m[dd] <==> x in m0[dd]) && (x in m0[dd] ==> m[dd][x] == m0[dd][x])
  {
    hide Box, Section, Deliver, To, From, PartCopied, NonEmpty, Cell;
    if x in To(s, e, dst) {
      CellFound(s, e, dst, x);
    }
    PartElsewhere(m0, m, dd, sd, To(s, e, dst), From(s, e, src), x);
  }

  lemma CellFound(s: Shape, e: nat, dst: int, x: int)
    requires NonEmpty(s) && e >= 1 && x in To(s, e, dst)
    ensures exists v: seq<nat>, t: nat :: InBox(v, t, s.volume, e) && x == Cell(s.dstDims, s.dstOffsets, v, e, dst) + t
  {
    BoxOk(s.dstDims, s.dstOffsets, s.volume, e);
    var i :| 0 <= i < |To(s, e, dst)| && To(s, e, dst)[i] == x;
    var v, t := CellOf(s.dstDims, s.dstOffsets, s.volume, e, dst, i);
    assert InBox(v, t, s.volume, e);
  }
}