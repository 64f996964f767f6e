/** Readers of non-contiguous data: a section is cut into equally long runs whose
    displacements are decoded from the run's number. */
module ReadRanges {
  import opened ArraySections

  // Of one dimension of a reader: how many runs one step spans, and its bytes.
  datatype ReadDim = ReadDim(count: int, size: int)

  predicate Counted(dims: seq<ReadDim>) {
    forall i :: 0 <= i < |dims| ==> dims[i].count >= 1
  }

  // Mixed-radix digits of a run's number, weighted with the dimensions' sizes.
  function Decode(dims: seq<ReadDim>, num: int): int
    requires Counted(dims)
  {
    if dims == [] then 0
    else
      var t := dims[0];
      num / t.count * t.size + Decode(dims[1..], num % t.count)
  }

  // The first n runs, each len bytes long.
  function Runs(dims: seq<ReadDim>, len: nat, b: int, n: int): seq<int>
    requires n > 0 ==> Counted(dims)
    decreases if n < 0 then 0 else n
  {
    if n <= 0 then [] else Runs(dims, len, b, n - 1) + Span(b + Decode(dims, n - 1), len)
  }

  // ------------------------------------------------------------ what the reader holds

  // Dimensions 0..l are enumerated, the rest is inside a run; a unit-stride dimension l
  // is inside too.
  function Factor(t: Dim, l: int): int
    requires DimOk(t)
  {
    if l == 0 && t.stride == 1 then 1 else Count(t)
  }

  function Total(d: seq<Dim>, l: int): int
    requires AllOk(d) && l < |d|
    decreases |d|
  {
    if l < 0 then 1 else assert DimOk(d[0]); Factor(d[0], l) * Total(d[1..], l - 1)
  }

  function Init(d: seq<Dim>, l: int): int
    requires l < |d|
    decreases |d|
  {
    if l < 0 then 0 else (d[0].lower - d[0].lindex) * d[0].size + Init(d[1..], l - 1)
  }

  function ReadDims(d: seq<Dim>, l: int): seq<ReadDim>
    requires AllOk(d) && l < |d|
    decreases |d|
  {
    if l < 0 then [] else [ReadDim(Total(d[1..], l - 1), d[0].stride * d[0].size)] + ReadDims(d[1..], l - 1)
  }

  lemma {:induction false} TotalPositive(d: seq<Dim>, l: int)
    requires AllOk(d) && l < |d|
    ensures Total(d, l) >= 1 && Counted(ReadDims(d, l)) && |ReadDims(d, l)| == if l < 0 then 0 else l + 1
    decreases |d|
  {
    if l >= 0 {
      CountPositive(d[0]);
      TotalPositive(d[1..], l - 1);
    }
  }

  // Where the runs are cut: dimension 0 of d is part of a run when its stride is one,
  // and otherwise everything inside it is.
  ghost predicate Cut(d: seq<Dim>, e: nat, len: nat)
    requires d != [] && AllOk(d)
  {
    if d[0].stride == 1
    then forall c :: Section(d, e, c) == Span(At(d[0], c, 0), len)
    else forall c :: Section(d[1..], e, c) == Span(c, len)
  }

  // ------------------------------------------------------------ the reader is exact

  lemma DigitSplit(x: int, y: int, m: int)
    requires 0 <= y < m
    ensures (x * m + y) / m == x && (x * m + y) % m == y
  {
    var q, r := (x * m + y) / m, (x * m + y) % m;
    assert q * m + r == x * m + y && 0 <= r < m;
    if q < x { Scaled(q + 1, x, m); Distribute(q, 1, m); }
    if q > x { Scaled(x + 1, q, m); Distribute(x, 1, m); }
  }

  // One step of the outermost digit is a full turn of the rest.
  lemma {:induction false} RunsOfRow(dims: seq<ReadDim>, len: nat, b: int, x: nat, y: nat)
    requires dims != [] && Counted(dims) && y <= dims[0].count
    ensures x * dims[0].count >= 0
    ensures Runs(dims, len, b, x * dims[0].count + y)
         == Runs(dims, len, b, x * dims[0].count) + Runs(dims[1..], len, b + x * dims[0].size, y)
    decreases y
  {
    hide Runs, Decode;
    var m := x * dims[0].count;
    Scaled(0, x, dims[0].count);
    if y == 0 {
      NoRuns(dims[1..], len, b + x * dims[0].size);
    } else {
      RunsOfRow(dims, len, b, x, y - 1);
      DecodeRow(dims, x, y - 1);
      RunsStep(dims, len, b, m + y);
      RunsStep(dims[1..], len, b + x * dims[0].size, y);
    }
  }

  lemma DecodeRow(dims: seq<ReadDim>, x: nat, y: nat)
    requires dims != [] && Counted(dims) && y < dims[0].count
    ensures Decode(dims, x * dims[0].count + y) == x * dims[0].size + Decode(dims[1..], y)
  {
    DigitSplit(x, y, dims[0].count);
  }

  lemma RunsStep(dims: seq<ReadDim>, len: nat, b: int, n: int)
    requires Counted(dims) && n > 0
    ensures Runs(dims, len, b, n) == Runs(dims, len, b, n - 1) + Span(b + Decode(dims, n - 1), len)
  {
  }

  ghost predicate ExactAt(d: seq<Dim>, l: int, e: nat, len: nat, b: int)
    requires AllOk(d) && l < |d|
  {
    Counted(ReadDims(d, l)) && Runs(ReadDims(d, l), len, b + Init(d, l), Total(d, l)) == Section(d, e, b)
  }

  // What lies within one row.
  ghost predicate InnerExact(d: seq<Dim>, l: nat, e: nat, len: nat, c: int)
    requires AllOk(d) && l < |d|
  {
    if l > 0 then ExactAt(d[1..], l - 1, e, len, c) else Section(d[1..], e, c) == Span(c, len)
  }

  lemma {:induction false} RowsAreRuns(d: seq<Dim>, l: nat, e: nat, len: nat, b: int, n: nat)
    requires AllOk(d) && l < |d|
    requires forall c :: InnerExact(d, l, e, len, c)
    ensures Counted(ReadDims(d, l)) && ReadDims(d, l)[0].count == Total(d[1..], l - 1)
    ensures Rows(d, e, b, n) == Runs(ReadDims(d, l), len, b + Init(d, l), n * Total(d[1..], l - 1))
    decreases n
  {
    hide ReadDims, Total, Init, Decode, Section, ExactAt, Counted, At, Runs;
    var dims, m := ReadDims(d, l), Total(d[1..], l - 1);
    ReadDimsHead(d, l);
    Scaled(0, n, m);
    if n == 0 {
      NoRuns(dims, len, b + Init(d, l));
    } else {
      RowsAreRuns(d, l, e, len, b, n - 1);
      var c := At(d[0], b, n - 1);
      RunsOfRow(dims, len, b + Init(d, l), n - 1, m);
      Distribute(n - 1, 1, m);
      RowStart(d, l, b, n - 1);
      assert InnerExact(d, l, e, len, c);
      RowIsRuns(d, l, e, len, c);
    }
  }

  lemma NoRuns(dims: seq<ReadDim>, len: nat, b: int)
    requires Counted(dims)
    ensures Runs(dims, len, b, 0) == []
  {
  }

  lemma ReadDimsHead(d: seq<Dim>, l: nat)
    requires AllOk(d) && l < |d|
    ensures Counted(ReadDims(d, l)) && ReadDims(d, l)[1..] == ReadDims(d[1..], l - 1)
    ensures ReadDims(d, l) != [] && ReadDims(d, l)[0] == ReadDim(Total(d[1..], l - 1), d[0].stride * d[0].size)
    ensures Total(d[1..], l - 1) >= 1
  {
    TotalPositive(d, l);
    TotalPositive(d[1..], l - 1);
  }

  lemma RowIsRuns(d: seq<Dim>, l: nat, e: nat, len: nat, c: int)
    requires AllOk(d) && l < |d| && InnerExact(d, l, e, len, c)
    ensures Counted(ReadDims(d[1..], l - 1))
    ensures Section(d[1..], e, c) == Runs(ReadDims(d[1..], l - 1), len, c + Init(d[1..], l - 1), Total(d[1..], l - 1))
  {
    if l == 0 {
      SingleRun(ReadDims(d[1..], l - 1), len, c);
    }
  }

  lemma SingleRun(dims: seq<ReadDim>, len: nat, c: int)
    requires Counted(dims) && Decode(dims, 0) == 0
    ensures Runs(dims, len, c, 1) == Span(c, len)
  {
    assert Runs(dims, len, c, 0) == [];
    assert Span(c + Decode(dims, 0), len) == Span(c, len);
  }

  lemma RowStart(d: seq<Dim>, l: nat, b: int, x: int)
    requires AllOk(d) && l < |d|
    ensures b + Init(d, l) + x * (d[0].stride * d[0].size) == At(d[0], b, x) + Init(d[1..], l - 1)
  {
    Distribute(d[0].lower - d[0].lindex, x * d[0].stride, d[0].size);
    assert x * d[0].stride * d[0].size == x * (d[0].stride * d[0].size);
  }

  // The runs of a reader are the bytes of the section, each once, in index order.
  lemma {:induction false} ReaderIsExact(d: seq<Dim>, l: int, e: nat, len: nat)
    requires AllOk(d) && 0 <= l < |d| && Cut(d[l..], e, len)
    ensures forall b :: ExactAt(d, l, e, len, b)
    decreases |d|
  {
    if l > 0 {
      assert d[1..][l - 1..] == d[l..];
      ReaderIsExact(d[1..], l - 1, e, len);
    } else {
      assert d[l..] == d;
    }
    forall b ensures ExactAt(d, l, e, len, b) {
      TotalPositive(d, l);
      if l == 0 && d[0].stride == 1 {
        assert Total(d, l) == 1 * Total(d[1..], -1) == 1;
        assert Init(d[1..], -1) == 0 && ReadDims(d[1..], -1) == [];
        assert ReadDims(d, l) == [ReadDim(1, d[0].stride * d[0].size)];
        SingleRun(ReadDims(d, l), len, b + Init(d, l));
      } else {
        assert forall c :: InnerExact(d, l, e, len, c);
        RowsAreRuns(d, l, e, len, b, Count(d[0]));
      }
    }
  }

  lemma {:induction false} RunsLength(dims: seq<ReadDim>, len: nat, b: int, n: nat)
    requires n > 0 ==> Counted(dims)
    ensures |Runs(dims, len, b, n)| == n * len
    decreases n
  {
    if n > 0 {
      RunsLength(dims, len, b, n - 1);
      Distribute(n - 1, 1, len);
    }
  }

  // ------------------------------------------------------------ finding the cut

  predicate Full(d: seq<Dim>, k: int)
    requires 0 <= k < |d|
  {
    d[k].stride == 1 && (k > 0 ==> (d[k].upper - d[k].lower + 1) * d[k].size == d[k - 1].size)
  }

  ghost predicate Whole(d: seq<Dim>, e: nat, len: int)
    requires AllOk(d)
  {
    len >= 0 && forall c :: Section(d, e, c) == Span(c, len)
  }

  // A unit-stride dimension over whole elements is one run.
  lemma UnitStride(d: seq<Dim>, e: nat, len: int)
    requires d != [] && AllOk(d) && d[0].stride == 1 && Whole(d[1..], e, len) && len == d[0].size
    ensures len * (d[0].upper - d[0].lower + 1) >= 0
    ensures Cut(d, e, len * (d[0].upper - d[0].lower + 1))
  {
    var n := d[0].upper - d[0].lower + 1;
    CountUnitStride(d[0]);
    Scaled(0, n, len);
    forall c ensures Section(d, e, c) == Span(At(d[0], c, 0), len * n) {
      RowsContiguous(d, e, c, n);
    }
  }

  // If the run fills an element of the next dimension it starts where the dimension does.
  lemma FullIsWhole(d: seq<Dim>, e: nat, len: int, outer: Dim)
    requires d != [] && AllOk(d) && d[0].stride == 1 && DimOk(outer) && Fits(outer, d[0])
    requires len == (d[0].upper - d[0].lower + 1) * d[0].size == outer.size && Cut(d, e, len)
    ensures Whole(d, e, len)
  {
    if d[0].lindex < d[0].lower {
      Scaled(d[0].upper - d[0].lower + 2, d[0].upper - d[0].lindex + 1, d[0].size);
      Distribute(d[0].upper - d[0].lower + 1, 1, d[0].size);
    }
    assert forall c :: At(d[0], c, 0) == c;
  }

  // The loop has passed the dimensions after rank: they are full, and length bytes are one
  // element of dimension rank.
  ghost predicate Passed(d: seq<Dim>, e: nat, rank: int, length: int) {
    && d != [] && AllOk(d) && -1 <= rank < |d| && length >= 1
    && (rank >= 0 ==> length == d[rank].size && Whole(d[rank + 1..], e, length))
    && (rank < 0 ==> Cut(d, e, length))
    && forall k :: rank < k < |d| ==> Full(d, k)
  }

  lemma PassStart(d: seq<Dim>)
    requires d != [] && AllOk(d)
    ensures DimOk(d[|d| - 1]) && Passed(d, d[|d| - 1].size, |d| - 1, d[|d| - 1].size)
  {
    assert DimOk(d[|d| - 1]);
    assert Section(d[|d|..], d[|d| - 1].size, 0) == Span(0, d[|d| - 1].size);
  }

  // The run over dimension rank, if its stride is one.
  lemma PassUnit(d: seq<Dim>, e: nat, rank: nat, length: int)
    requires d != [] && DescOk(d) && rank < |d| && Passed(d, e, rank, length) && d[rank].stride == 1
    ensures var n := length * (d[rank].upper - d[rank].lower + 1);
      && n >= 1 && Cut(d[rank..], e, n)
      && (rank == 0 || n == d[rank - 1].size ==> Passed(d, e, rank - 1, n))
      && (rank > 0 && n != d[rank - 1].size ==> !Full(d, rank))
  {
    hide Section, Rows, Span;
    var suffix, n := d[rank..], length * (d[rank].upper - d[rank].lower + 1);
    assert suffix[0] == d[rank] && suffix[1..] == d[rank + 1..] && AllOk(suffix) && DimOk(d[rank]);
    hide Cut, Whole;
    UnitStride(suffix, e, length);
    Scaled(1, d[rank].upper - d[rank].lower + 1, length);
    if rank == 0 {
      assert suffix == d;
    } else if n == d[rank - 1].size {
      assert Fits(d[rank - 1], d[rank]) && DimOk(d[rank - 1]);
      FullIsWhole(suffix, e, n, d[rank - 1]);
    }
  }

  lemma PassStride(d: seq<Dim>, e: nat, rank: nat, length: int)
    requires d != [] && AllOk(d) && rank < |d| && Passed(d, e, rank, length) && d[rank].stride != 1
    ensures length >= 1 && Cut(d[rank..], e, length) && !Full(d, rank)
  {
    hide Section;
    assert d[rank..][0] == d[rank] && d[rank..][1..] == d[rank + 1..];
  }

  // The first loop: from the innermost dimension to the one where runs are cut.
  method FindCut(d: seq<Dim>) returns (rank: int, length: int)
    requires d != [] && DescOk(d)
    ensures -1 <= rank < |d| && length >= 1
    ensures rank >= 0 ==> !Full(d, rank) && Cut(d[rank..], d[|d| - 1].size, length)
    ensures rank < 0 ==> Cut(d, d[|d| - 1].size, length)
    ensures forall k :: rank < k < |d| ==> Full(d, k)
  {
    hide Section, Rows, Cut, Whole, Span, Full, Fits;
    ghost var e := d[|d| - 1].size;
    PassStart(d);
    rank, length := |d| - 1, d[|d| - 1].size;
    while rank >= 0
      invariant Passed(d, e, rank, length)
    {
      if d[rank].stride == 1 {
        PassUnit(d, e, rank, length);
        length := length * (d[rank].upper - d[rank].lower + 1);
        if rank > 0 && length != d[rank - 1].size {
          break;
        }
      } else {
        PassStride(d, e, rank, length);
        break;
      }
      rank := rank - 1;
    }
  }

  // What the two loops together establish.
  lemma ReaderFacts(d: seq<Dim>, last: int, e: nat, length: nat)
    requires d != [] && AllOk(d) && -1 <= last < |d|
    requires last >= 0 ==> !Full(d, last) && Cut(d[last..], e, length)
    requires last < 0 ==> Cut(d, e, length)
    requires forall k :: last < k < |d| ==> Full(d, k)
    ensures Total(d, last) >= 1 && Counted(ReadDims(d, last))
    ensures ReadDims(d, last) == [] <==> forall k :: 0 <= k < |d| ==> Full(d, k)
    ensures ReadDims(d, last) != [] ==>
      forall b :: Runs(ReadDims(d, last), length, b + Init(d, last), Total(d, last)) == Section(d, e, b)
    ensures ReadDims(d, last) == [] ==>
      forall b :: Runs(ReadDims(d, last), length, b + Init(d, last), Total(d, last)) == Span(b, length) &&
                  Section(d, e, b) == Span(b + Front(d), length)
  {
    hide Section, Rows, Runs, Total, Init, Cut, ReadDims, Full, Front, Span;
    TotalPositive(d, last);
    if last < 0 {
      assert Full(d, 0);
      FullFacts(d, e, length);
    } else {
      ReaderIsExact(d, last, e, length);
      forall b ensures Runs(ReadDims(d, last), length, b + Init(d, last), Total(d, last)) == Section(d, e, b) {
        assert ExactAt(d, last, e, length, b);
      }
    }
  }

  // Displacement of the outermost dimension's first index.
  function Front(d: seq<Dim>): int
    requires d != []
  {
    (d[0].lower - d[0].lindex) * d[0].size
  }

  // A reader of a descriptor whose dimensions are all full has one run, at displacement 0.
  lemma FullFacts(d: seq<Dim>, e: nat, length: nat)
    requires d != [] && AllOk(d) && Full(d, 0) && Cut(d, e, length)
    ensures ReadDims(d, -1) == [] && Total(d, -1) == 1 && Init(d, -1) == 0
    ensures forall b :: Runs(ReadDims(d, -1), length, b + Init(d, -1), Total(d, -1)) == Span(b, length) &&
                        Section(d, e, b) == Span(b + Front(d), length)
  {
    hide Section, Rows, Runs, Span, Cut, Full, ReadDims, Total, Init;
    FullRun(d, e, length, 0);
    forall b ensures Runs(ReadDims(d, -1), length, b + Init(d, -1), Total(d, -1)) == Span(b, length) &&
                     Section(d, e, b) == Span(b + Front(d), length) {
      FullRun(d, e, length, b);
      assert b + Init(d, -1) == b;
    }
  }

  lemma FullRun(d: seq<Dim>, e: nat, length: nat, b: int)
    requires d != [] && AllOk(d) && Full(d, 0) && Cut(d, e, length)
    ensures ReadDims(d, -1) == [] && Total(d, -1) == 1 && Init(d, -1) == 0
    ensures Runs([], length, b, 1) == Span(b, length)
    ensures Section(d, e, b) == Span(b + Front(d), length)
  {
    hide Section, Rows, Runs, Span;
    SingleRun([], length, b);
    assert At(d[0], b, 0) == b + Front(d);
  }

  // Two runs of one byte or more are the same only if they start at one address.
  lemma SameStart(d: seq<Dim>, length: nat, b: int)
    requires d != [] && DimOk(d[0]) && length >= 1
    ensures Span(b, length) == Span(b + Front(d), length) <==> Front(d) == 0
    ensures Front(d) == 0 <==> d[0].lower == d[0].lindex
  {
    assert Span(b, length)[0] == b && Span(b + Front(d), length)[0] == b + Front(d);
    if d[0].lower > d[0].lindex {
      Scaled(1, d[0].lower - d[0].lindex, d[0].size);
    }
  }

  // All runs of a reader of the first last + 1 dimensions are the bytes of the section.
  ghost predicate Exact(d: seq<Dim>, last: int, e: nat, length: nat)
    requires AllOk(d) && last < |d|
  {
    Counted(ReadDims(d, last)) &&
    forall b :: Runs(ReadDims(d, last), length, b + Init(d, last), Total(d, last)) == Section(d, e, b)
  }

  // So the reader is exact if a dimension is enumerated or the outermost one starts at its
  // first index, and only then.
  lemma ReaderExactIff(d: seq<Dim>, last: int, e: nat, length: nat)
    requires d != [] && AllOk(d) && -1 <= last < |d| && length >= 1
    requires last >= 0 ==> !Full(d, last) && Cut(d[last..], e, length)
    requires last < 0 ==> Cut(d, e, length)
    requires forall k :: last < k < |d| ==> Full(d, k)
    ensures Exact(d, last, e, length) <==> ReadDims(d, last) != [] || d[0].lower == d[0].lindex
  {
    hide Section, Rows, Runs, Total, Init, Cut, ReadDims, Full, Span, Front;
    ReaderFacts(d, last, e, length);
    assert DimOk(d[0]);
    SameStart(d, length, 0);
    if ReadDims(d, last) == [] {
      if d[0].lower != d[0].lindex {
        assert Runs(ReadDims(d, last), length, 0 + Init(d, last), Total(d, last)) != Section(d, e, 0);
      } else {
        forall b ensures Runs(ReadDims(d, last), length, b + Init(d, last), Total(d, last)) == Section(d, e, b) {
          SameStart(d, length, b);
          assert Section(d, e, b) == Span(b, length);
        }
      }
    }
  }

  // The section of a full descriptor that starts at the second byte: its reader starts at
  // the first.
  lemma StartDropped()
    ensures var d := [Dim(1, 0, 1, 4, 1)];
      && DescOk(d) && Full(d, 0) && Runs(ReadDims(d, -1), 4, Init(d, -1), Total(d, -1)) == Span(0, 4)
      && ArrayBytes(d, 0) == Span(1, 4)
  {
    var d := [Dim(1, 0, 1, 4, 1)];
    assert DimOk(d[0]) && d[1..] == [];
    assert Whole(d[1..], 1, 1);
    UnitStride(d, 1, 1);
    FullFacts(d, 1, 4);
    assert 0 + Init(d, -1) == Init(d, -1);
  }

  lemma CountBase(d: seq<Dim>, last: int)
    requires AllOk(d) && -1 <= last < |d|
    ensures ReadDims(d[last + 1..], -1) == [] && Total(d[last + 1..], -1) == 1 && Init(d[last + 1..], -1) == 0
  {
  }

  // One round of the second loop.
  lemma CountStep(d: seq<Dim>, rank: nat, l: nat)
    requires AllOk(d) && rank < |d| && rank + l < |d|
    ensures ReadDims(d[rank..], l)
         == [ReadDim(Total(d[rank + 1..], l - 1), d[rank].stride * d[rank].size)] + ReadDims(d[rank + 1..], l - 1)
    ensures Total(d[rank..], l) == Total(d[rank + 1..], l - 1) * Factor(d[rank], l)
    ensures Init(d[rank..], l) == Init(d[rank + 1..], l - 1) + (d[rank].lower - d[rank].lindex) * d[rank].size
  {
    var suffix := d[rank..];
    assert suffix[0] == d[rank] && suffix[1..] == d[rank + 1..] && AllOk(suffix);
  }

  // The second loop: digits, their sizes and the first displacement, from dimension
  // last outwards.
  method CountRuns(d: seq<Dim>, last: int) returns (count: int, offset: int, slots: seq<ReadDim>)
    requires AllOk(d) && -1 <= last < |d|
    ensures count == Total(d, last) && offset == Init(d, last) && slots == ReadDims(d, last)
  {
    hide ReadDims, Total, Init;
    CountBase(d, last);
    var rank, prevIsCont := last, true;
    count, offset, slots := 1, 0, [];
    while rank >= 0
      invariant -1 <= rank <= last
      invariant slots == ReadDims(d[rank + 1..], last - rank - 1)
      invariant count == Total(d[rank + 1..], last - rank - 1)
      invariant offset == Init(d[rank + 1..], last - rank - 1)
      invariant prevIsCont <==> rank == last
    {
      CountStep(d, rank, last - rank);
      slots := [ReadDim(count, d[rank].stride * d[rank].size)] + slots;
      var factor := if prevIsCont && d[rank].stride == 1 then 1
                    else (d[rank].upper - d[rank].lower + d[rank].stride) / d[rank].stride;
      assert factor == Factor(d[rank], last - rank);
      count := count * factor;
      prevIsCont := false;
      offset := offset + (d[rank].lower - d[rank].lindex) * d[rank].size;
      rank := rank - 1;
    }
    assert d[0..] == d;
  }

  lemma LastDim(d: seq<Dim>)
    requires d != [] && DescOk(d)
    ensures AllOk(d) && d[|d| - 1].size >= 1
  {
    assert DimOk(d[|d| - 1]);
  }

  class CeanReadRanges {
    var ptr: int
    var currentNumber: int
    var rangeMaxNumber: int
    var rangeSize: int
    var initOffset: int
    var dims: seq<ReadDim>

    ghost predicate Valid()
      reads this
    {
      (rangeMaxNumber > 0 ==> Counted(dims)) && rangeSize >= 0 && 0 <= currentNumber <= rangeMaxNumber
    }

    // Displacement of run number k.
    ghost function Start(k: int): int
      requires Valid() && 0 <= k < rangeMaxNumber
      reads this
    {
      initOffset + Decode(dims, k)
    }

    // Does one pass read exactly the section, wherever the data lies?
    ghost predicate Reads(d: seq<Dim>)
      requires Valid() && d != [] && AllOk(d)
      reads this
    {
      forall b :: Bytes(b) == ArrayBytes(d, b)
    }

    // Everything one pass reads from data at address b.
    ghost function Bytes(b: int): seq<int>
      requires Valid()
      reads this
    {
      Runs(dims, rangeSize, b + initOffset, rangeMaxNumber)
    }

    constructor ArrDesc(d: seq<Dim>, base: int)
      requires d != [] && DescOk(d)
      ensures Valid() && ptr == base && currentNumber == 0 && rangeMaxNumber >= 1
      ensures dims == [] <==> forall k :: 0 <= k < |d| ==> Full(d, k)
      ensures rangeSize >= 1
      ensures dims == [] ==>
        forall b :: Bytes(b) == Span(b, rangeSize) &&
                    ArrayBytes(d, b) == Span(b + Front(d), rangeSize)
      ensures Reads(d) <==> dims != [] || d[0].lower == d[0].lindex
    {
      hide *;
      LastDim(d);
      ghost var e := d[|d| - 1].size;
      var last, length := FindCut(d);
      var count, offset, slots := CountRuns(d, last);
      ReaderFacts(d, last, e, length);
      ReaderExactIff(d, last, e, length);
      ptr, currentNumber, rangeMaxNumber, rangeSize := base, 0, count, length;
      initOffset, dims := offset, slots;
      new;
      BuiltReads(d, last, e, length);
    }

    lemma BuiltReads(d: seq<Dim>, last: int, e: nat, length: nat)
      requires d != [] && AllOk(d) && -1 <= last < |d| && e == d[|d| - 1].size && Total(d, last) >= 1
      requires Counted(ReadDims(d, last)) && dims == ReadDims(d, last) && initOffset == Init(d, last)
      requires rangeMaxNumber == Total(d, last) && rangeSize == length && currentNumber == 0
      ensures Valid() && (Reads(d) <==> Exact(d, last, e, length))
      ensures forall b :: Bytes(b) == Runs(ReadDims(d, last), length, b + Init(d, last), Total(d, last))
      ensures forall b :: ArrayBytes(d, b) == Section(d, e, b)
    {
      hide Section, Runs, ReadDims, Init, Total, Counted;
      if Exact(d, last, e, length) {
        forall b ensures Bytes(b) == ArrayBytes(d, b) {
          assert Section(d, e, b) == Runs(ReadDims(d, last), length, b + Init(d, last), Total(d, last));
        }
      }
      if Reads(d) {
        forall b ensures Runs(ReadDims(d, last), length, b + Init(d, last), Total(d, last)) == Section(d, e, b) {
          assert Bytes(b) == ArrayBytes(d, b);
        }
      }
    }

    constructor Of(base: int, max: nat, size: nat, offset: int, slots: seq<ReadDim>)
      requires max > 0 ==> Counted(slots)
      ensures Valid() && ptr == base && currentNumber == 0 && rangeMaxNumber == max
      ensures rangeSize == size && initOffset == offset && dims == slots
    {
      ptr, currentNumber, rangeMaxNumber, rangeSize := base, 0, max, size;
      initOffset, dims := offset, slots;
    }

    // The next run, or false once, which also starts the next pass.
    method GetNextRange() returns (more: bool, offset: int)
      requires Valid()
      modifies this`currentNumber
      ensures Valid()
      ensures more <==> old(currentNumber) < rangeMaxNumber
      ensures more ==> currentNumber == old(currentNumber) + 1 && offset == Start(old(currentNumber))
      ensures !more ==> currentNumber == 0
    {
      currentNumber := currentNumber + 1;
      if currentNumber > rangeMaxNumber {
        currentNumber := 0;
        return false, 0;
      }
      var rank, num, cur := 0, currentNumber - 1, 0;
      while rank < |dims|
        invariant 0 <= rank <= |dims| && num >= 0
        invariant cur + Decode(dims[rank..], num) == Decode(dims, currentNumber - 1)
      {
        assert dims[rank..][0] == dims[rank] && dims[rank..][1..] == dims[rank + 1..];
        var numLoc := num / dims[rank].count;
        cur := cur + numLoc * dims[rank].size;
        num := num % dims[rank].count;
        rank := rank + 1;
      }
      return true, cur + initOffset;
    }

    // The number of bytes a pass transfers.
    method TransferSize() returns (n: int)
      requires Valid()
      ensures forall b :: n == |Bytes(b)|
    {
      n := rangeMaxNumber * rangeSize;
      forall b ensures n == |Bytes(b)| {
        RunsLength(dims, rangeSize, b + initOffset, rangeMaxNumber);
      }
    }
  }
}
