/** Fortran dope vectors: dimension 0 varies fastest, and every dimension has a byte
    multiplier of its own. */
module DopeVectors {
  import opened ArraySections
  import opened ReadRanges

  datatype DimDesc = DimDesc(extent: nat, mult: int)

  datatype ArrDesc = ArrDesc(base: int, len: nat, contiguousFlag: bool, dims: seq<DimDesc>)

  // The bytes of the first k dimensions, in index order.
  function Elements(dims: seq<DimDesc>, len: nat, k: nat, b: int): seq<int>
    requires k <= |dims|
    decreases k, 1, 0
  {
    if k == 0 then Span(b, len) else Slices(dims, len, k - 1, b, dims[k - 1].extent)
  }

  // The first n slices of dimension k.
  function Slices(dims: seq<DimDesc>, len: nat, k: nat, b: int, n: nat): seq<int>
    requires k < |dims|
    decreases k + 1, 0, n
  {
    if n == 0 then [] else Slices(dims, len, k, b, n - 1) + Elements(dims, len, k, b + (n - 1) * dims[k].mult)
  }

  // Product of the extents of dimensions i..k-1.
  function Product(dims: seq<DimDesc>, i: nat, k: nat): nat
    requires i <= k <= |dims|
    decreases k
  {
    if k == i then 1 else Product(dims, i, k - 1) * dims[k - 1].extent
  }

  // Every dimension steps over what is inside it.
  ghost predicate Packed(dims: seq<DimDesc>, len: nat, k: nat)
    requires k <= |dims|
  {
    forall i :: 0 <= i < k ==> dims[i].mult == len * Product(dims, 0, i)
  }

  // ------------------------------------------------------------ contiguous vectors

  // Every dimension that is stepped through does; the multiplier of a single index does
  // not matter.
  ghost predicate Stepping(dims: seq<DimDesc>, len: nat, k: nat)
    requires k <= |dims|
  {
    forall i :: 0 <= i < k && dims[i].extent >= 2 ==> dims[i].mult == len * Product(dims, 0, i)
  }

  lemma {:induction false} SteppingSlices(dims: seq<DimDesc>, len: nat, k: nat, b: int, n: nat)
    requires k < |dims| && (n >= 2 ==> dims[k].mult == len * Product(dims, 0, k))
    requires forall c :: Elements(dims, len, k, c) == Span(c, len * Product(dims, 0, k))
    ensures Slices(dims, len, k, b, n) == Span(b, n * (len * Product(dims, 0, k)))
    decreases n
  {
    hide Product, Elements;
    var m := len * Product(dims, 0, k);
    if n == 0 {
      assert n * m == 0;
    } else {
      SteppingSlices(dims, len, k, b, n - 1);
      SlicesStep(dims, len, k, b, n);
      JoinRuns(b, m, n, dims[k].mult);
      hide Slices, Span;
    }
  }

  lemma JoinRuns(b: int, m: nat, n: nat, mult: int)
    requires n >= 1 && (n >= 2 ==> mult == m)
    ensures (n - 1) * m >= 0 && n * m >= 0
    ensures Span(b, (n - 1) * m) + Span(b + (n - 1) * mult, m) == Span(b, n * m)
  {
    Scaled(0, n - 1, m);
    Distribute(n - 1, 1, m);
    SpanSplit(b, (n - 1) * m, m);
    assert (n - 1) * mult == (n - 1) * m;
  }

  // Dimensions that step over what is inside them are one run.
  lemma {:induction false} SteppingIsSpan(dims: seq<DimDesc>, len: nat, k: nat)
    requires k <= |dims| && Stepping(dims, len, k)
    ensures forall b :: Elements(dims, len, k, b) == Span(b, len * Product(dims, 0, k))
    decreases k
  {
    if k > 0 {
      SteppingIsSpan(dims, len, k - 1);
      var m, n := Product(dims, 0, k - 1), dims[k - 1].extent;
      Regroup(n, len, m);
      forall b ensures Elements(dims, len, k, b) == Span(b, len * Product(dims, 0, k)) {
        SteppingSlices(dims, len, k - 1, b, n);
      }
    }
  }

  // In particular packed dimensions are.
  lemma PackedIsSpan(dims: seq<DimDesc>, len: nat, k: nat)
    requires k <= |dims| && Packed(dims, len, k)
    ensures forall b :: Elements(dims, len, k, b) == Span(b, len * Product(dims, 0, k))
  {
    hide Product;
    SteppingIsSpan(dims, len, k);
  }

  // And of a vector with elements, nothing else is.
  lemma {:induction false} SpanIsStepping(dims: seq<DimDesc>, len: nat, k: nat, b: int, n: nat)
    requires k <= |dims| && len >= 1 && (forall i :: 0 <= i < k ==> dims[i].extent >= 1)
    requires Elements(dims, len, k, b) == Span(b, n)
    ensures Stepping(dims, len, k)
    decreases k
  {
    hide Elements, Slices, Product;
    if k > 0 {
      var row := Elements(dims, len, k - 1, b);
      ElementsRows(dims, len, k, b);
      SpanStart(row, b, n);
      SpanIsStepping(dims, len, k - 1, b, |row|);
      if dims[k - 1].extent >= 2 {
        var next := Elements(dims, len, k - 1, b + dims[k - 1].mult);
        SteppingIsSpan(dims, len, k - 1);
        ElementsFirst(dims, len, k - 1, b + dims[k - 1].mult);
        SecondStart(row, next, b, n);
      }
    }
  }

  // The rows the elements of k dimensions begin with.
  lemma ElementsRows(dims: seq<DimDesc>, len: nat, k: nat, b: int)
    requires 0 < k <= |dims| && dims[k - 1].extent >= 1
    ensures Elements(dims, len, k - 1, b) <= Elements(dims, len, k, b)
    ensures dims[k - 1].extent >= 2 ==>
      Elements(dims, len, k - 1, b) + Elements(dims, len, k - 1, b + dims[k - 1].mult) <= Elements(dims, len, k, b)
  {
    SlicesFirst(dims, len, k - 1, b, dims[k - 1].extent);
    if dims[k - 1].extent >= 2 {
      SlicesPrefix(dims, len, k - 1, b, dims[k - 1].extent);
    }
  }

  lemma SpanStart(row: seq<int>, b: int, n: nat)
    requires row <= Span(b, n)
    ensures row == Span(b, |row|)
  {
    forall i | 0 <= i < |row| ensures row[i] == b + i {
      assert Span(b, n)[i] == row[i];
    }
  }

  lemma SecondStart(row: seq<int>, next: seq<int>, b: int, n: nat)
    requires row + next <= Span(b, n) && next != []
    ensures next[0] == b + |row|
  {
    assert (row + next)[|row|] == next[0] && Span(b, n)[|row|] == (row + next)[|row|];
  }

  lemma {:induction false} SlicesFirst(dims: seq<DimDesc>, len: nat, k: nat, b: int, n: nat)
    requires k < |dims| && n >= 1
    ensures Elements(dims, len, k, b) <= Slices(dims, len, k, b, n)
    decreases n
  {
    SlicesStep(dims, len, k, b, n);
    if n == 1 {
      assert Slices(dims, len, k, b, 0) == [];
      assert b + (n - 1) * dims[k].mult == b;
    } else {
      SlicesFirst(dims, len, k, b, n - 1);
    }
  }

  lemma {:induction false} SlicesPrefix(dims: seq<DimDesc>, len: nat, k: nat, b: int, n: nat)
    requires k < |dims| && n >= 2
    ensures Elements(dims, len, k, b) + Elements(dims, len, k, b + dims[k].mult) <= Slices(dims, len, k, b, n)
    decreases n
  {
    if n == 2 {
      assert Slices(dims, len, k, b, 0) == [];
      assert Slices(dims, len, k, b, 1) == Elements(dims, len, k, b + 0 * dims[k].mult);
    } else {
      SlicesPrefix(dims, len, k, b, n - 1);
    }
  }

  lemma {:induction false} ElementsFirst(dims: seq<DimDesc>, len: nat, k: nat, b: int)
    requires k <= |dims| && len >= 1 && (forall i :: 0 <= i < k ==> dims[i].extent >= 1)
    ensures Elements(dims, len, k, b) != [] && Elements(dims, len, k, b)[0] == b
    decreases k
  {
    if k > 0 {
      ElementsFirst(dims, len, k - 1, b);
      SlicesFirst(dims, len, k - 1, b, dims[k - 1].extent);
    }
  }

  lemma {:induction false} ExtentsPositive(dims: seq<DimDesc>, i: nat, k: nat)
    requires i <= k <= |dims|
    ensures Product(dims, i, k) > 0 <==> forall j :: i <= j < k ==> dims[j].extent >= 1
    decreases k
  {
    if k > i {
      ExtentsPositive(dims, i, k - 1);
      if dims[k - 1].extent >= 1 && Product(dims, i, k - 1) >= 1 {
        MulMono(1, 1, Product(dims, i, k - 1), dims[k - 1].extent);
      }
    }
  }

  lemma {:induction false} NoBytes(dims: seq<DimDesc>, k: nat, b: int)
    requires k <= |dims|
    ensures Elements(dims, 0, k, b) == []
    decreases k, 1, 0
  {
    if k > 0 {
      NoByteSlices(dims, k - 1, b, dims[k - 1].extent);
    }
  }

  lemma {:induction false} NoByteSlices(dims: seq<DimDesc>, k: nat, b: int, n: nat)
    requires k < |dims|
    ensures Slices(dims, 0, k, b, n) == []
    decreases k + 1, 0, n
  {
    if n > 0 {
      NoByteSlices(dims, k, b, n - 1);
      NoBytes(dims, k, b + (n - 1) * dims[k].mult);
    }
  }

  // Without bytes, or with steps that fit wherever a dimension is stepped through.
  ghost predicate Gapless(dims: seq<DimDesc>, len: nat) {
    len == 0 || Product(dims, 0, |dims|) == 0 || Stepping(dims, len, |dims|)
  }

  // The data of a vector is an interval exactly in these cases.
  lemma GaplessIff(dims: seq<DimDesc>, len: nat, b: int)
    ensures IsInterval(Elements(dims, len, |dims|, b)) <==> Gapless(dims, len)
  {
    hide Elements, Slices, Product, Stepping;
    var k := |dims|;
    if len == 0 {
      NoBytes(dims, k, b);
      assert Elements(dims, len, k, b) == Span(b, 0);
    } else if Product(dims, 0, k) == 0 {
      NoElements(dims, len, 0, k, b);
      assert Elements(dims, len, k, b) == Span(b, 0);
    } else if Stepping(dims, len, k) {
      SteppingIsSpan(dims, len, k);
      assert Elements(dims, len, k, b) == Span(b, len * Product(dims, 0, k));
    } else if IsInterval(Elements(dims, len, k, b)) {
      var c, n: nat :| Elements(dims, len, k, b) == Span(c, n);
      ExtentsPositive(dims, 0, k);
      ElementsFirst(dims, len, k, b);
      assert Span(c, n)[0] == c;
      SpanIsStepping(dims, len, k, b, n);
    }
  }

  // One index with a multiplier of its own: an interval that the test calls
  // non-contiguous.
  lemma SingleElementMissed()
    ensures var dims := [DimDesc(1, 8)];
      !Packed(dims, 4, 1) && Gapless(dims, 4) && IsInterval(Elements(dims, 4, 1, 0))
  {
    var dims := [DimDesc(1, 8)];
    assert Product(dims, 0, 0) == 1;
    GaplessIff(dims, 4, 0);
  }

  // The test looks at the flag first and then compares neighbouring dimensions.  Without
  // the flag a yes is always right, and a no is wrong exactly for gapless vectors.
  method IsContiguous(dv: ArrDesc) returns (contiguous: bool)
    ensures contiguous <==> dv.contiguousFlag || Packed(dv.dims, dv.len, |dv.dims|)
    ensures contiguous && !dv.contiguousFlag ==> forall b ::
      Elements(dv.dims, dv.len, |dv.dims|, b) == Span(b, dv.len * Product(dv.dims, 0, |dv.dims|))
    ensures forall b :: IsInterval(Elements(dv.dims, dv.len, |dv.dims|, b)) <==> Gapless(dv.dims, dv.len)
    ensures !dv.contiguousFlag ==> forall b ::
      (contiguous <==> IsInterval(Elements(dv.dims, dv.len, |dv.dims|, b))) <==> contiguous || !Gapless(dv.dims, dv.len)
  {
    hide Elements, Product, Gapless;
    contiguous := FlagOrPacked(dv);
    if contiguous && !dv.contiguousFlag {
      PackedIsSpan(dv.dims, dv.len, |dv.dims|);
    }
    forall b ensures IsInterval(Elements(dv.dims, dv.len, |dv.dims|, b)) <==> Gapless(dv.dims, dv.len) {
      GaplessIff(dv.dims, dv.len, b);
    }
    if Packed(dv.dims, dv.len, |dv.dims|) {
      PackedGapless(dv.dims, dv.len);
    }
  }

  lemma PackedGapless(dims: seq<DimDesc>, len: nat)
    requires Packed(dims, len, |dims|)
    ensures Gapless(dims, len)
  {
    hide Product;
  }

  method FlagOrPacked(dv: ArrDesc) returns (contiguous: bool)
    ensures contiguous <==> dv.contiguousFlag || Packed(dv.dims, dv.len, |dv.dims|)
  {
    if dv.contiguousFlag {
      return true;
    }
    if |dv.dims| != 0 {
      if dv.dims[0].mult != dv.len {
        assert Product(dv.dims, 0, 0) == 1;
        return false;
      }
      for i := 1 to |dv.dims|
        invariant Packed(dv.dims, dv.len, i)
      {
        NextMult(dv.dims, dv.len, i);
        if dv.dims[i].mult != dv.dims[i - 1].extent * dv.dims[i - 1].mult {
          return false;
        }
      }
    }
    return true;
  }

  lemma NextMult(dims: seq<DimDesc>, len: nat, i: nat)
    requires 1 <= i <= |dims| && Packed(dims, len, i)
    ensures dims[i - 1].extent * dims[i - 1].mult == len * Product(dims, 0, i)
  {
    var m, n := Product(dims, 0, i - 1), dims[i - 1].extent;
    assert Product(dims, 0, i) == m * n;
    assert dims[i - 1].mult == len * m;
    hide Product, Packed;
    Regroup(n, len, m);
  }

  // ------------------------------------------------------------ data length

  // Length of the first k dimensions' data.
  function DataLength(dims: seq<DimDesc>, len: nat, k: nat): int
    requires k <= |dims|
  {
    if k == 0 then len else DataLength(dims, len, k - 1) + (dims[k - 1].extent - 1) * dims[k - 1].mult
  }

  lemma {:induction false} PackedLength(dims: seq<DimDesc>, len: nat, k: nat)
    requires k <= |dims| && Packed(dims, len, k)
    ensures DataLength(dims, len, k) == len * Product(dims, 0, k)
    decreases k
  {
    if k > 0 {
      PackedLength(dims, len, k - 1);
      NextMult(dims, len, k);
      Distribute(dims[k - 1].extent, -1, dims[k - 1].mult);
    }
  }

  // Wherever a dimension is stepped through, it is stepped through upwards.
  ghost predicate Upwards(dims: seq<DimDesc>, k: nat)
    requires k <= |dims|
  {
    forall i :: 0 <= i < k && dims[i].extent >= 2 ==> dims[i].mult >= 0
  }

  // Then the data lies within its length.
  lemma {:induction false} WithinLength(dims: seq<DimDesc>, len: nat, k: nat, b: int)
    requires k <= |dims| && Upwards(dims, k)
    ensures Inside(Elements(dims, len, k, b), b, b + DataLength(dims, len, k))
    decreases k, 1, 0
  {
    if k > 0 {
      SlicesWithin(dims, len, k - 1, b, dims[k - 1].extent);
    }
  }

  lemma {:induction false} SlicesWithin(dims: seq<DimDesc>, len: nat, k: nat, b: int, n: nat)
    requires k < |dims| && Upwards(dims, k) && (n >= 2 ==> dims[k].mult >= 0)
    ensures Inside(Slices(dims, len, k, b, n), b, b + DataLength(dims, len, k) + (n - 1) * dims[k].mult)
    decreases k + 1, 0, n
  {
    if n > 0 {
      SlicesWithin(dims, len, k, b, n - 1);
      WithinLength(dims, len, k, b + (n - 1) * dims[k].mult);
      if n >= 2 {
        Scaled(0, n - 1, dims[k].mult);
        Scaled(n - 2, n - 1, dims[k].mult);
      } else {
        assert (n - 1) * dims[k].mult == 0;
      }
    }
  }

  // How far below its address a vector reaches.
  function Lowest(dims: seq<DimDesc>, k: nat): (x: int)
    requires k <= |dims|
    ensures x <= 0
  {
    if k == 0 then 0
    else
      var y := (dims[k - 1].extent - 1) * dims[k - 1].mult;
      Lowest(dims, k - 1) + if y < 0 then y else 0
  }

  lemma {:induction false} LowestIn(dims: seq<DimDesc>, len: nat, k: nat, b: int)
    requires k <= |dims| && len >= 1 && forall i :: 0 <= i < k ==> dims[i].extent >= 1
    ensures b + Lowest(dims, k) in Elements(dims, len, k, b)
    decreases k
  {
    if k == 0 {
      assert Span(b, len)[0] == b;
    } else {
      var n := dims[k - 1].extent;
      var y := (n - 1) * dims[k - 1].mult;
      if y < 0 {
        LowestIn(dims, len, k - 1, b + y);
        SlicesStep(dims, len, k - 1, b, n);
      } else {
        LowestIn(dims, len, k - 1, b);
        SlicesFirst(dims, len, k - 1, b, n);
      }
    }
  }

  lemma {:induction false} LowestNegative(dims: seq<DimDesc>, k: nat)
    requires k <= |dims| && !Upwards(dims, k)
    ensures Lowest(dims, k) < 0
    decreases k
  {
    var y := (dims[k - 1].extent - 1) * dims[k - 1].mult;
    if Upwards(dims, k - 1) {
      assert dims[k - 1].extent >= 2 && dims[k - 1].mult < 0;
      Scaled(1, dims[k - 1].extent - 1, -dims[k - 1].mult);
      assert y == -((dims[k - 1].extent - 1) * -dims[k - 1].mult);
    } else {
      LowestNegative(dims, k - 1);
    }
  }

  // The data of a vector lies within its length exactly if it has no bytes or is stepped
  // through upwards.
  lemma WithinLengthIff(dims: seq<DimDesc>, len: nat, b: int)
    ensures Inside(Elements(dims, len, |dims|, b), b, b + DataLength(dims, len, |dims|)) <==>
            len == 0 || Product(dims, 0, |dims|) == 0 || Upwards(dims, |dims|)
  {
    hide Elements, Product, DataLength, Upwards;
    var k := |dims|;
    if len == 0 {
      NoBytes(dims, k, b);
    } else if Product(dims, 0, k) == 0 {
      NoElements(dims, len, 0, k, b);
    } else if Upwards(dims, k) {
      WithinLength(dims, len, k, b);
    } else {
      ExtentsPositive(dims, 0, k);
      LowestIn(dims, len, k, b);
      LowestNegative(dims, k);
      var i :| 0 <= i < |Elements(dims, len, k, b)| && Elements(dims, len, k, b)[i] == b + Lowest(dims, k);
    }
  }

  method DvDataLength(dv: ArrDesc) returns (size: int)
    ensures Packed(dv.dims, dv.len, |dv.dims|) ==> size == dv.len * Product(dv.dims, 0, |dv.dims|)
    ensures forall b :: Inside(Elements(dv.dims, dv.len, |dv.dims|, b), b, b + size) <==>
      dv.len == 0 || Product(dv.dims, 0, |dv.dims|) == 0 || Upwards(dv.dims, |dv.dims|)
  {
    size := dv.len;
    for i := 0 to |dv.dims|
      invariant size == DataLength(dv.dims, dv.len, i)
    {
      size := size + (dv.dims[i].extent - 1) * dv.dims[i].mult;
    }
    hide Elements, Product, DataLength, Upwards;
    if Packed(dv.dims, dv.len, |dv.dims|) {
      PackedLength(dv.dims, dv.len, |dv.dims|);
    }
    forall b ensures Inside(Elements(dv.dims, dv.len, |dv.dims|, b), b, b + size) <==>
      dv.len == 0 || Product(dv.dims, 0, |dv.dims|) == 0 || Upwards(dv.dims, |dv.dims|) {
      WithinLengthIff(dv.dims, dv.len, b);
    }
  }

  // ------------------------------------------------------------ the reader

  // Digits for dimensions i..k-1, outermost first.
  function ReadSlots(dims: seq<DimDesc>, i: nat, k: nat): seq<ReadDim>
    requires i <= k <= |dims|
    decreases k
  {
    if k == i then [] else [ReadDim(Product(dims, i, k - 1), dims[k - 1].mult)] + ReadSlots(dims, i, k - 1)
  }

  lemma {:induction false} SlotsCounted(dims: seq<DimDesc>, i: nat, k: nat)
    requires i <= k <= |dims| && Product(dims, i, k) > 0
    ensures Counted(ReadSlots(dims, i, k))
    decreases k
  {
    if k > i {
      assert Product(dims, i, k - 1) > 0;
      SlotsCounted(dims, i, k - 1);
    }
  }

  // Dimensions 0..i-1 are inside a run of len bytes.
  ghost predicate Inner(dims: seq<DimDesc>, size: nat, i: nat, len: nat)
    requires i <= |dims|
  {
    forall c :: Elements(dims, size, i, c) == Span(c, len)
  }

  lemma {:induction false} NoElements(dims: seq<DimDesc>, size: nat, i: nat, k: nat, b: int)
    requires i <= k <= |dims| && Product(dims, i, k) == 0
    ensures Elements(dims, size, k, b) == []
    decreases k, 1, 0
  {
    if dims[k - 1].extent > 0 {
      assert Product(dims, i, k - 1) == 0;
      NoSlices(dims, size, i, k - 1, b, dims[k - 1].extent);
    }
  }

  lemma {:induction false} NoSlices(dims: seq<DimDesc>, size: nat, i: nat, k: nat, b: int, n: nat)
    requires i <= k < |dims| && Product(dims, i, k) == 0
    ensures Slices(dims, size, k, b, n) == []
    decreases k + 1, 0, n
  {
    if n > 0 {
      NoSlices(dims, size, i, k, b, n - 1);
      NoElements(dims, size, i, k, b + (n - 1) * dims[k].mult);
    }
  }

  // The runs of the reader are the vector's elements, each once, in index order.
  lemma {:induction false} DvReaderIsExact(dims: seq<DimDesc>, size: nat, i: nat, k: nat, len: nat, b: int)
    requires i <= k <= |dims| && Inner(dims, size, i, len)
    ensures Product(dims, i, k) > 0 ==> Counted(ReadSlots(dims, i, k))
    ensures Runs(ReadSlots(dims, i, k), len, b, Product(dims, i, k)) == Elements(dims, size, k, b)
    decreases k, 1, 0
  {
    if Product(dims, i, k) == 0 {
      NoElements(dims, size, i, k, b);
    } else {
      SlotsCounted(dims, i, k);
      if k == i {
        SingleRun(ReadSlots(dims, i, k), len, b);
      } else {
        assert Product(dims, i, k - 1) > 0;
        SlicesAreRuns(dims, size, i, k - 1, len, b, dims[k - 1].extent);
        assert Product(dims, i, k) == dims[k - 1].extent * Product(dims, i, k - 1);
        hide Runs, Inner, ReadSlots, Counted;
      }
    }
  }

  lemma {:induction false} SlicesAreRuns(dims: seq<DimDesc>, size: nat, i: nat, k: nat, len: nat, b: int, n: nat)
    requires i <= k < |dims| && Inner(dims, size, i, len) && Product(dims, i, k) > 0
    ensures Counted(ReadSlots(dims, i, k + 1))
    ensures Runs(ReadSlots(dims, i, k + 1), len, b, n * Product(dims, i, k)) == Slices(dims, size, k, b, n)
    decreases k + 1, 0, n
  {
    var m, slots := Product(dims, i, k), ReadSlots(dims, i, k + 1);
    SlotsCounted(dims, i, k);
    assert slots[1..] == ReadSlots(dims, i, k) && slots[0] == ReadDim(m, dims[k].mult);
    hide ReadSlots, Product, Inner, Runs, Decode, Elements;
    Scaled(0, n, m);
    if n == 0 {
      NoRuns(slots, len, b);
    } else {
      var c := b + (n - 1) * dims[k].mult;
      SlicesAreRuns(dims, size, i, k, len, b, n - 1);
      DvReaderIsExact(dims, size, i, k, len, c);
      RunsOfRow(slots, len, b, n - 1, m);
      assert n * m == (n - 1) * m + m by { Distribute(n - 1, 1, m); }
      SlicesStep(dims, size, k, b, n);
      hide Slices;
    }
  }

  lemma SlicesStep(dims: seq<DimDesc>, len: nat, k: nat, b: int, n: nat)
    requires k < |dims| && n > 0
    ensures Slices(dims, len, k, b, n)
         == Slices(dims, len, k, b, n - 1) + Elements(dims, len, k, b + (n - 1) * dims[k].mult)
  {
  }

  method InitReadRangesDv(dv: ArrDesc) returns (r: CeanReadRanges?)
    ensures r == null <==> |dv.dims| == 0
    ensures r != null ==> fresh(r) && r.Valid() && r.ptr == dv.base && r.currentNumber == 0
    ensures r != null && Packed(dv.dims, dv.len, |dv.dims|) ==>
      dv.dims[|dv.dims| - 1].mult >= 0 && forall b :: r.Bytes(b) == Span(b, dv.dims[|dv.dims| - 1].mult)
    ensures r != null ==>
      ((forall b :: r.Bytes(b) == Elements(dv.dims, dv.len, |dv.dims|, b)) <==>
       !Packed(dv.dims, dv.len, |dv.dims|) || dv.dims[|dv.dims| - 1].extent == 1 || dv.dims[|dv.dims| - 1].mult == 0)
  {
    hide Elements, Packed, Inner, Runs, Product, ReadSlots, Counted;
    var rank := |dv.dims|;
    r := null;
    if rank != 0 {
      var i, len := FindInner(dv);
      var first := i;
      var count, slots := 1, [];
      NoSlots(dv.dims, first);
      while i < rank
        invariant first <= i <= rank && slots == ReadSlots(dv.dims, first, i) && count == Product(dv.dims, first, i)
      {
        NextSlot(dv.dims, first, i);
        slots := [ReadDim(count, dv.dims[i].mult)] + slots;
        count := count * dv.dims[i].extent;
        i := i + 1;
      }
      if count > 0 {
        SlotsCounted(dv.dims, first, rank);
      }
      r := new CeanReadRanges.Of(dv.base, count, len, 0, slots);
      DvBuilt(r, dv.dims, dv.len, first, len);
    }
  }

  lemma NoSlots(dims: seq<DimDesc>, i: nat)
    requires i <= |dims|
    ensures ReadSlots(dims, i, i) == [] && Product(dims, i, i) == 1
  {
  }

  lemma NextSlot(dims: seq<DimDesc>, i: nat, k: nat)
    requires i <= k < |dims|
    ensures ReadSlots(dims, i, k + 1) == [ReadDim(Product(dims, i, k), dims[k].mult)] + ReadSlots(dims, i, k)
    ensures Product(dims, i, k + 1) == Product(dims, i, k) * dims[k].extent
  {
  }

  // What the reader reads, packed or not.
  lemma DvBuilt(r: CeanReadRanges, dims: seq<DimDesc>, size: nat, first: nat, len: nat)
    requires dims != [] && first <= |dims| && r.Valid() && r.initOffset == 0 && r.rangeSize == len
    requires r.dims == ReadSlots(dims, first, |dims|) && r.rangeMaxNumber == Product(dims, first, |dims|)
    requires !Packed(dims, size, |dims|) ==> Inner(dims, size, first, len)
    requires Packed(dims, size, |dims|) ==> first == |dims| && len == dims[|dims| - 1].mult
    ensures Packed(dims, size, |dims|) ==> forall b :: r.Bytes(b) == Span(b, len)
    ensures (forall b :: r.Bytes(b) == Elements(dims, size, |dims|, b)) <==>
            !Packed(dims, size, |dims|) || dims[|dims| - 1].extent == 1 || dims[|dims| - 1].mult == 0
  {
    hide Elements, Packed, Inner, Runs, Product, ReadSlots, Counted;
    if !Packed(dims, size, |dims|) {
      forall b ensures r.Bytes(b) == Elements(dims, size, |dims|, b) {
        DvReaderIsExact(dims, size, first, |dims|, len, b);
      }
    } else {
      NoSlots(dims, first);
      forall b ensures r.Bytes(b) == Span(b, len) {
        EmptyDigits(len, b);
      }
      PackedReader(dims, size, 0);
      if dims[|dims| - 1].extent == 1 || dims[|dims| - 1].mult == 0 {
        forall b ensures r.Bytes(b) == Elements(dims, size, |dims|, b) {
          PackedReader(dims, size, b);
        }
      } else {
        assert r.Bytes(0) != Elements(dims, size, |dims|, 0);
      }
    }
  }

  lemma EmptyDigits(len: nat, b: int)
    ensures Counted([]) && Runs([], len, b + 0, 1) == Span(b, len)
  {
    SingleRun([], len, b);
    assert b + 0 == b;
  }

  // The reader of a packed vector takes one index of the outermost dimension for all of
  // them.
  lemma PackedReader(dims: seq<DimDesc>, len: nat, b: int)
    requires dims != [] && Packed(dims, len, |dims|)
    ensures var last := dims[|dims| - 1];
      && last.mult >= 0
      && (Span(b, last.mult) == Elements(dims, len, |dims|, b) <==> last.extent == 1 || last.mult == 0)
  {
    var last := dims[|dims| - 1];
    hide Elements;
    PackedIsSpan(dims, len, |dims|);
    NextMult(dims, len, |dims|);
    if last.extent == 0 {
      assert last.extent * last.mult == 0;
    } else if last.extent >= 2 {
      Distribute(last.extent - 1, 1, last.mult);
      if last.mult >= 1 { MulMono(1, 1, last.extent - 1, last.mult); }
    }
    assert |Span(b, last.mult)| == last.mult && |Elements(dims, len, |dims|, b)| == last.extent * last.mult;
  }

  // Three elements of four bytes: the reader reads the first only.
  lemma PackedReaderShort()
    ensures var dims := [DimDesc(3, 4)];
      Packed(dims, 4, 1) && Elements(dims, 4, 1, 0) == Span(0, 12) && Runs([], 4, 0, 1) == Span(0, 4)
  {
    var dims := [DimDesc(3, 4)];
    assert Product(dims, 0, 0) == 1 && Product(dims, 0, 1) == 3;
    PackedIsSpan(dims, 4, 1);
    SingleRun([], 4, 0);
  }

  // The first loop: the first dimension that does not step over what is inside it.
  method FindInner(dv: ArrDesc) returns (i: nat, len: nat)
    requires |dv.dims| > 0
    ensures i <= |dv.dims|
    ensures !Packed(dv.dims, dv.len, |dv.dims|) ==> Inner(dv.dims, dv.len, i, len)
    ensures Packed(dv.dims, dv.len, |dv.dims|) ==> i == |dv.dims| && len == dv.dims[|dv.dims| - 1].mult
  {
    i, len := 0, dv.len;
    NothingInside(dv.dims, dv.len);
    hide *;
    if dv.dims[0].mult == len {
      i := 1;
      while i < |dv.dims|
        invariant 1 <= i <= |dv.dims| && Packed(dv.dims, dv.len, i) && len == dv.dims[i - 1].mult
      {
        NextMult(dv.dims, dv.len, i);
        len := len * dv.dims[i - 1].extent;
        if dv.dims[i].mult != len {
          InnerIsSpan(dv.dims, dv.len, i, len);
          break;
        }
        NextPacked(dv.dims, dv.len, i);
        i := i + 1;
      }
    }
  }

  lemma NothingInside(dims: seq<DimDesc>, len: nat)
    requires |dims| > 0
    ensures Inner(dims, len, 0, len) && (dims[0].mult == len <==> Packed(dims, len, 1))
  {
    assert Product(dims, 0, 0) == 1;
    PackedIsSpan(dims, len, 0);
  }

  lemma InnerIsSpan(dims: seq<DimDesc>, len: nat, i: nat, size: nat)
    requires i <= |dims| && Packed(dims, len, i) && size == len * Product(dims, 0, i)
    ensures Inner(dims, len, i, size)
  {
    PackedIsSpan(dims, len, i);
  }

  lemma NextPacked(dims: seq<DimDesc>, len: nat, i: nat)
    requires i < |dims| && Packed(dims, len, i) && dims[i].mult == len * Product(dims, 0, i)
    ensures Packed(dims, len, i + 1)
  {
  }
}
