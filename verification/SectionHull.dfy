/** The interval a section lies in, when the section is all of it, and the loops that
    compute the one and decide the other. */
module SectionHull {
  import opened ArraySections
  import opened ReadRanges

  // Displacement of the first byte.
  function First(d: seq<Dim>): int {
    if d == [] then 0 else (d[0].lower - d[0].lindex) * d[0].size + First(d[1..])
  }

  // Bytes from the first to the last index bounds, elements being e bytes long.
  function HullLength(d: seq<Dim>, e: nat): int {
    if d == [] then e else (d[0].upper - d[0].lower) * d[0].size + HullLength(d[1..], e)
  }

  // Every stride reaches its upper bound.
  ghost predicate Dividing(d: seq<Dim>)
    requires AllOk(d)
  {
    forall i :: 0 <= i < |d| ==> d[i].lower + (Count(d[i]) - 1) * d[i].stride == d[i].upper
  }

  // Elements fill the innermost dimension's size.
  ghost predicate Sized(d: seq<Dim>, e: nat) {
    DescOk(d) && e >= 1 && (d != [] ==> e == d[|d| - 1].size)
  }

  lemma SizedTail(d: seq<Dim>, e: nat)
    requires Sized(d, e) && d != []
    ensures |d| > 1 ==> Sized(d[1..], e)
    ensures |d| == 1 ==> d[1..] == []
  {
  }

  // The hull of what is inside a dimension's element does not exceed the element.
  lemma {:induction false} HullFits(d: seq<Dim>, e: nat)
    requires Sized(d, e)
    ensures HullLength(d, e) >= 1 && First(d) >= 0
    ensures d != [] ==> First(d[1..]) + HullLength(d[1..], e) <= d[0].size
    ensures d != [] ==> First(d) + HullLength(d, e) <= (d[0].upper - d[0].lindex + 1) * d[0].size
    decreases |d|
  {
    if d != [] {
      if |d| > 1 {
        SizedTail(d, e);
        HullFits(d[1..], e);
        assert Fits(d[0], d[1]);
      } else {
        assert d[1..] == [];
      }
      Scaled(0, d[0].upper - d[0].lower, d[0].size);
      Scaled(0, d[0].lower - d[0].lindex, d[0].size);
      Distribute(d[0].upper - d[0].lower, d[0].lower - d[0].lindex, d[0].size);
      Distribute(d[0].upper - d[0].lindex, 1, d[0].size);
    }
  }

  // ------------------------------------------------------------ the hull

  ghost predicate InHull(d: seq<Dim>, e: nat, b: int, s: seq<int>) {
    s != [] && s[0] == b + First(d) && Inside(s, b + First(d), b + First(d) + HullLength(d, e))
  }

  // The hull holds every byte of the section and starts with its first; it ends with
  // its last when every stride reaches its bound.
  lemma {:induction false} HullHolds(d: seq<Dim>, e: nat, b: int)
    requires AllOk(d) && e >= 1
    ensures InHull(d, e, b, Section(d, e, b))
    ensures Dividing(d) ==> Section(d, e, b)[|Section(d, e, b)| - 1] == b + First(d) + HullLength(d, e) - 1
    decreases |d|, 1, 0
  {
    if d != [] {
      CountPositive(d[0]);
      RowsHull(d, e, b, Count(d[0]));
      var x := (Count(d[0]) - 1) * d[0].stride;
      Scaled(x, d[0].upper - d[0].lower, d[0].size);
    }
  }

  // From row 0 to row n - 1.
  function Step(t: Dim, n: int): int {
    (n - 1) * t.stride * t.size
  }

  // Of the first n rows: bounds with the last index reached in place of the upper bound.
  lemma {:induction false} RowsHull(d: seq<Dim>, e: nat, b: int, n: int)
    requires d != [] && AllOk(d) && e >= 1 && 1 <= n <= Count(d[0])
    ensures Rows(d, e, b, n) != [] && Rows(d, e, b, n)[0] == b + First(d)
    ensures Inside(Rows(d, e, b, n), b + First(d), b + First(d) + Step(d[0], n) + HullLength(d[1..], e))
    ensures Dividing(d) ==>
      Rows(d, e, b, n)[|Rows(d, e, b, n)| - 1] == b + First(d) + Step(d[0], n) + HullLength(d[1..], e) - 1
    decreases |d|, 0, n
  {
    hide Step, Rows, Section, First, HullLength, Dividing, Count, DimOk, At;
    var row := At(d[0], b, n - 1);
    TailDividing(d);
    HullHolds(d[1..], e, row);
    RowFirst(d, b, n);
    RowsUnfold(d, e, b, n);
    if n > 1 {
      RowsHull(d, e, b, n - 1);
      HullConcat(Rows(d, e, b, n - 1), Section(d[1..], e, row), b + First(d),
                 b + First(d) + Step(d[0], n - 1) + HullLength(d[1..], e), b + First(d) + Step(d[0], n),
                 HullLength(d[1..], e));
    }
  }

  lemma RowFirst(d: seq<Dim>, b: int, n: int)
    requires d != [] && DimOk(d[0]) && n >= 1
    ensures At(d[0], b, n - 1) + First(d[1..]) == b + First(d) + Step(d[0], n)
    ensures Step(d[0], 1) == 0 && (n > 1 ==> 0 <= Step(d[0], n - 1) <= Step(d[0], n))
  {
    Distribute(d[0].lower - d[0].lindex, (n - 1) * d[0].stride, d[0].size);
    if n > 1 {
      StepsGrow(n, d[0]);
    }
  }

  lemma StepsGrow(n: int, t: Dim)
    requires n >= 2 && DimOk(t)
    ensures 0 <= (n - 2) * t.stride * t.size <= (n - 1) * t.stride * t.size
  {
    MulMono(n - 2, t.stride, n - 1, t.stride);
    MulMono((n - 2) * t.stride, t.size, (n - 1) * t.stride, t.size);
    MulMono(0, 0, n - 2, t.stride);
    MulMono(0, 0, (n - 2) * t.stride, t.size);
  }

  lemma HullConcat(a: seq<int>, b: seq<int>, lo: int, end: int, row: int, h: int)
    requires a != [] && a[0] == lo && Inside(a, lo, end)
    requires b != [] && Inside(b, row, row + h) && lo <= row && end <= row + h
    ensures (a + b)[0] == lo && Inside(a + b, lo, row + h) && (a + b)[|a + b| - 1] == b[|b| - 1]
  {
  }

  lemma RowsUnfold(d: seq<Dim>, e: nat, b: int, n: int)
    requires d != [] && AllOk(d) && n >= 1
    ensures Rows(d, e, b, n) == Rows(d, e, b, n - 1) + Section(d[1..], e, At(d[0], b, n - 1))
    ensures n == 1 ==> Rows(d, e, b, n) == Section(d[1..], e, At(d[0], b, 0))
  {
    assert n == 1 ==> Rows(d, e, b, n - 1) == [];
  }

  lemma TailDividing(d: seq<Dim>)
    requires d != [] && AllOk(d)
    ensures AllOk(d[1..]) && (Dividing(d) ==> Dividing(d[1..]))
  {
  }

  lemma EmptyHull(d: seq<Dim>, e: nat)
    requires d == []
    ensures First(d) == 0 && HullLength(d, e) == e
  {
  }

  lemma SuffixSteps(d: seq<Dim>, k: nat, e: nat)
    requires k < |d|
    ensures First(d[k..]) == (d[k].lower - d[k].lindex) * d[k].size + First(d[k + 1..])
    ensures HullLength(d[k..], e) == (d[k].upper - d[k].lower) * d[k].size + HullLength(d[k + 1..], e)
    ensures (d[k].upper - d[k].lindex + 1) * d[k].size
         == (d[k].upper - d[k].lower) * d[k].size + (d[k].lower - d[k].lindex) * d[k].size + d[k].size
  {
    Distribute(d[k].upper - d[k].lindex, 1, d[k].size);
    Distribute(d[k].upper - d[k].lower, d[k].lower - d[k].lindex, d[k].size);
    assert d[k..][0] == d[k] && d[k..][1..] == d[k + 1..];
  }

  // A dimension whose section fills an outer element starts at the element's start.
  lemma FullStep(d: seq<Dim>, k: nat, e: nat)
    requires DescOk(d) && 0 < k < |d|
    requires First(d[k + 1..]) == 0 && HullLength(d[k + 1..], e) == d[k].size
    requires d[k].size * (d[k].upper - d[k].lower + 1) == d[k - 1].size
    ensures First(d[k..]) == 0 && HullLength(d[k..], e) == d[k - 1].size
  {
    var t := d[k];
    assert Fits(d[k - 1], t) && DimOk(t);
    SuffixSteps(d, k, e);
    if t.lindex < t.lower {
      Scaled(t.upper - t.lower + 2, t.upper - t.lindex + 1, t.size);
      Distribute(t.upper - t.lower + 1, 1, t.size);
    }
    Distribute(t.upper - t.lower, 1, t.size);
  }

  // ------------------------------------------------------------ contiguity

  // Dimension by dimension: a single index, or unit steps over filled elements.
  ghost predicate Solid(d: seq<Dim>, e: nat) {
    d == [] || (Solid(d[1..], e)
                && (d[0].upper == d[0].lower || (d[0].stride == 1 && HullLength(d[1..], e) == d[0].size)))
  }

  // A solid section is all of its hull.
  lemma {:induction false} SolidSection(d: seq<Dim>, e: nat, b: int)
    requires Sized(d, e) && Solid(d, e)
    ensures HullLength(d, e) >= 0 && Section(d, e, b) == Span(b + First(d), HullLength(d, e))
    decreases |d|
  {
    hide Count, Section, Rows, Span, Sized, HullLength, First, Solid;
    assert AllOk(d) by { SizedOk(d, e); }
    HullFits(d, e);
    if d == [] {
      EmptySection(d, e, b);
    } else {
      TailSized(d, e);
      HullFits(d[1..], e);
      SolidParts(d, e);
      assert DimOk(d[0]);
      forall c ensures Section(d[1..], e, c) == Span(c + First(d[1..]), HullLength(d[1..], e)) {
        SolidSection(d[1..], e, c);
      }
      if d[0].upper == d[0].lower {
        SingleRow(d, e, b);
        SingleHull(d, e, b);
      } else {
        SolidRows(d, e, b);
      }
    }
  }

  lemma EmptySection(d: seq<Dim>, e: nat, b: int)
    requires d == []
    ensures Section(d, e, b) == Span(b + First(d), HullLength(d, e))
  {
  }

  lemma SolidParts(d: seq<Dim>, e: nat)
    requires d != [] && Solid(d, e)
    ensures Solid(d[1..], e)
    ensures d[0].upper == d[0].lower || (d[0].stride == 1 && HullLength(d[1..], e) == d[0].size)
  {
  }

  // A single index moves the hull of what is inside it.
  lemma SingleHull(d: seq<Dim>, e: nat, b: int)
    requires d != [] && d[0].upper == d[0].lower
    ensures HullLength(d, e) == HullLength(d[1..], e)
    ensures b + (d[0].lower - d[0].lindex) * d[0].size + First(d[1..]) == b + First(d)
  {
  }

  // Unit steps over filled elements.
  lemma SolidRows(d: seq<Dim>, e: nat, b: int)
    requires Sized(d, e) && d != [] && d[0].stride == 1 && HullLength(d[1..], e) == d[0].size
    requires First(d[1..]) + HullLength(d[1..], e) <= d[0].size && First(d[1..]) >= 0 && d[0].size >= 1
    requires forall c :: Section(d[1..], e, c) == Span(c + First(d[1..]), d[0].size)
    ensures HullLength(d, e) >= 0 && Section(d, e, b) == Span(b + First(d), HullLength(d, e))
  {
    var n := d[0].upper - d[0].lower;
    CountUnitStride(d[0]);
    assert DimOk(d[0]);
    assert forall c :: Section(d[1..], e, c) == Span(c, d[0].size);
    RowsContiguous(d, e, b, n + 1);
    assert (n + 1) * d[0].size == n * d[0].size + d[0].size by { Distribute(n, 1, d[0].size); }
    hide Rows, Span, Sized, AllOk;
  }

  lemma TailSized(d: seq<Dim>, e: nat)
    requires Sized(d, e) && d != []
    ensures Sized(d[1..], e)
  {
  }

  lemma SingleRow(d: seq<Dim>, e: nat, b: int)
    requires AllOk(d) && d != [] && d[0].upper == d[0].lower
    ensures Section(d, e, b) == Section(d[1..], e, b + (d[0].lower - d[0].lindex) * d[0].size)
  {
    SingleCount(d[0]);
    assert Rows(d, e, b, 0) == [];
    assert Rows(d, e, b, 1) == Section(d[1..], e, At(d[0], b, 0));
  }

  lemma SingleCount(t: Dim)
    requires DimOk(t)
    ensures t.upper == t.lower ==> Count(t) == 1
    ensures t.stride == 1 ==> Count(t) == t.upper - t.lower + 1
  {
    if t.upper == t.lower {
      CountPositive(t);
      Distribute(Count(t) - 2, 1, t.stride);
      if Count(t) > 1 {
        Scaled(1, Count(t) - 1, t.stride);
      }
    }
  }

  // Bytes of a section: never more than its hull, and fewer when it is not solid.
  lemma {:induction false} SectionSize(d: seq<Dim>, e: nat, b: int)
    requires Sized(d, e) && Dividing(d)
    ensures |Section(d, e, b)| <= HullLength(d, e)
    ensures !Solid(d, e) ==> |Section(d, e, b)| < HullLength(d, e)
    decreases |d|
  {
    if d != [] {
      TailSized(d, e);
      TailDividing(d);
      HullFits(d, e);
      HullFits(d[1..], e);
      SectionSize(d[1..], e, b);
      SingleCount(d[0]);
      CountPositive(d[0]);
      RowsSize(d, e, b, Count(d[0]));
      SizeStep(Count(d[0]), |Section(d[1..], e, b)|, HullLength(d[1..], e), d[0].size, d[0].stride,
               d[0].upper - d[0].lower);
      hide Section, Rows, Count, Sized, AllOk;
    }
  }

  lemma {:induction false} RowsSize(d: seq<Dim>, e: nat, b: int, n: nat)
    requires AllOk(d) && d != []
    ensures |Rows(d, e, b, n)| == n * |Section(d[1..], e, b)|
    decreases |d|, 0, n
  {
    if n > 0 {
      RowsSize(d, e, b, n - 1);
      Distribute(n - 1, 1, |Section(d[1..], e, b)|);
      SameSize(d[1..], e, b, At(d[0], b, n - 1));
    }
  }

  lemma {:induction false} SameSize(d: seq<Dim>, e: nat, b: int, c: int)
    requires AllOk(d)
    ensures |Section(d, e, b)| == |Section(d, e, c)|
    decreases |d|, 1, 0
  {
    if d != [] {
      CountPositive(d[0]);
      RowsSize(d, e, b, Count(d[0]));
      RowsSize(d, e, c, Count(d[0]));
      SameSize(d[1..], e, b, c);
    }
  }

  // n rows of m bytes in a hull of h, rows of s-byte elements with stride t over x.
  lemma SizeStep(n: int, m: int, h: int, s: int, t: int, x: int)
    requires n >= 1 && 0 <= m <= h <= s && h >= 1 && t >= 1 && (n - 1) * t == x
    ensures n * m <= x * s + h
    ensures m < h || (n > 1 && (t > 1 || h < s)) ==> n * m < x * s + h
  {
    var k, p, q, r := n - 1, (n - 1) * m, (n - 1) * s, x * s;
    assert n * m == p + m by { Distribute(k, 1, m); }
    assert k <= x by { MulMono(k, 1, k, t); }
    assert p <= q by { MulMono(k, m, k, s); }
    assert q <= r by { MulMono(k, s, x, s); }
    if k >= 1 && t > 1 {
      assert n <= x by { MulMono(k, 2, k, t); }
      assert n * m <= r by { MulMono(n, m, x, s); }
    }
    if k >= 1 && h < s {
      assert p + k <= q by { assert p + k == k * (m + 1); MulMono(k, m + 1, k, s); }
    }
  }

  // A section that is not solid leaves a hole, so it is no interval.
  lemma HoleyIsNoInterval(d: seq<Dim>, e: nat, b: int, c: int, n: nat)
    requires Sized(d, e) && Dividing(d) && !Solid(d, e)
    ensures Section(d, e, b) != Span(c, n)
  {
    var s := Section(d, e, b);
    HullHolds(d, e, b);
    SectionSize(d, e, b);
    assert s[|s| - 1] - s[0] >= |s|;
  }

  // ------------------------------------------------------------ bounds that are reached

  // The dimension with the last selected index as its upper bound.
  function NormDim(t: Dim): Dim
    requires DimOk(t)
  {
    t.(upper := t.lower + (Count(t) - 1) * t.stride)
  }

  function Norm(d: seq<Dim>): (r: seq<Dim>)
    requires AllOk(d)
    ensures |r| == |d|
  {
    if d == [] then [] else assert DimOk(d[0]); [NormDim(d[0])] + Norm(d[1..])
  }

  lemma NormDimOk(t: Dim)
    requires DimOk(t)
    ensures DimOk(NormDim(t)) && Count(NormDim(t)) == Count(t) && t.lower <= NormDim(t).upper <= t.upper
  {
    CountPositive(t);
    Scaled(0, Count(t) - 1, t.stride);
    ExactCount(Count(t) - 1, t.stride);
  }

  lemma ExactCount(n: nat, m: nat)
    requires m >= 1
    ensures (n * m + m) / m == n + 1
  {
    Distribute(n, 1, m);
    DigitSplit(n + 1, 0, m);
  }

  lemma {:induction false} NormAt(d: seq<Dim>, i: nat)
    requires AllOk(d) && i < |d|
    ensures DimOk(d[i]) && Norm(d)[i] == NormDim(d[i])
    decreases i
  {
    if i > 0 {
      NormAt(d[1..], i - 1);
    }
  }

  // The same indices, so the same section; and every stride reaches its bound.
  lemma NormOk(d: seq<Dim>, e: nat)
    requires Sized(d, e)
    ensures Sized(Norm(d), e) && Dividing(Norm(d))
  {
    forall i | 0 <= i < |d| ensures DimOk(Norm(d)[i])
      && Norm(d)[i].lower + (Count(Norm(d)[i]) - 1) * Norm(d)[i].stride == Norm(d)[i].upper
      && Norm(d)[i].size == d[i].size && (i > 0 ==> Fits(Norm(d)[i - 1], Norm(d)[i])) {
      NormAt(d, i);
      NormDimOk(d[i]);
      if i > 0 {
        NormAt(d, i - 1);
        NormFits(d[i - 1], d[i]);
      }
    }
  }

  lemma NormFits(outer: Dim, inner: Dim)
    requires DimOk(outer) && DimOk(inner) && Fits(outer, inner)
    ensures Fits(NormDim(outer), NormDim(inner))
  {
    NormDimOk(inner);
    Scaled(NormDim(inner).upper - inner.lindex + 1, inner.upper - inner.lindex + 1, inner.size);
  }

  lemma {:induction false} NormSection(d: seq<Dim>, e: nat, b: int)
    requires AllOk(d)
    ensures AllOk(Norm(d)) && Section(Norm(d), e, b) == Section(d, e, b)
    decreases |d|, 1, 0
  {
    if d != [] {
      NormDimOk(d[0]);
      assert Norm(d)[1..] == Norm(d[1..]);
      NormSection(d[1..], e, b);
      NormRows(d, e, b, Count(d[0]));
    }
  }

  lemma {:induction false} NormRows(d: seq<Dim>, e: nat, b: int, n: nat)
    requires AllOk(d) && d != [] && AllOk(Norm(d))
    ensures Rows(Norm(d), e, b, n) == Rows(d, e, b, n)
    decreases |d|, 0, n
  {
    assert Norm(d)[1..] == Norm(d[1..]);
    if n > 0 {
      NormRows(d, e, b, n - 1);
      NormSection(d[1..], e, At(d[0], b, n - 1));
    }
  }

  // Cutting bounds off shortens the hull exactly if one was not reached.
  lemma {:induction false} NormHull(d: seq<Dim>, e: nat)
    requires AllOk(d)
    ensures AllOk(Norm(d)) && First(Norm(d)) == First(d) && HullLength(Norm(d), e) <= HullLength(d, e)
    ensures HullLength(Norm(d), e) == HullLength(d, e) <==> Dividing(d)
    decreases |d|
  {
    if d != [] {
      NormSection(d, e, 0);
      NormDimOk(d[0]);
      NormHull(d[1..], e);
      assert Norm(d)[1..] == Norm(d[1..]);
      TailDividing(d);
      var x, y := NormDim(d[0]).upper - d[0].lower, d[0].upper - d[0].lower;
      Scaled(x, y, d[0].size);
      if x < y {
        Scaled(x + 1, y, d[0].size);
        Distribute(x, 1, d[0].size);
      }
      DividingHead(d);
    }
  }

  lemma DividingHead(d: seq<Dim>)
    requires d != [] && AllOk(d)
    ensures DimOk(d[0]) && AllOk(d[1..])
    ensures Dividing(d) <==> Dividing(d[1..]) && NormDim(d[0]).upper == d[0].upper
  {
    assert DimOk(d[0]);
    if Dividing(d[1..]) && NormDim(d[0]).upper == d[0].upper {
      forall i | 0 <= i < |d| ensures d[i].lower + (Count(d[i]) - 1) * d[i].stride == d[i].upper {
        if i > 0 {
          assert d[i] == d[1..][i - 1];
        }
      }
    }
  }

  // The hull's last byte belongs to the section exactly if every stride reaches its bound.
  lemma LastByteIff(d: seq<Dim>, e: nat, b: int)
    requires Sized(d, e)
    ensures b + First(d) + HullLength(d, e) - 1 in Section(d, e, b) <==> Dividing(d)
  {
    hide Section, Norm, First, HullLength, Dividing, Sized;
    assert AllOk(d) && e >= 1 by { SizedOk(d, e); }
    NormSection(d, e, b);
    NormHull(d, e);
    HullHolds(d, e, b);
    HullHolds(Norm(d), e, b);
  }

  // A section is an interval exactly if it is solid once unreached bounds are cut off.
  lemma IntervalIff(d: seq<Dim>, e: nat, b: int)
    requires Sized(d, e)
    ensures IsInterval(Section(d, e, b)) <==> AllOk(Norm(d)) && Solid(Norm(d), e)
  {
    hide Solid, Norm, Section, Sized, Dividing, HullLength, First;
    assert AllOk(d) by { SizedOk(d, e); }
    NormOk(d, e);
    NormSection(d, e, b);
    if Solid(Norm(d), e) {
      SolidSection(Norm(d), e, b);
      assert Section(d, e, b) == Span(b + First(Norm(d)), HullLength(Norm(d), e));
    } else {
      forall c, n: nat ensures Section(d, e, b) != Span(c, n) {
        HoleyIsNoInterval(Norm(d), e, b, c, n);
      }
    }
  }

  lemma SizedOk(d: seq<Dim>, e: nat)
    requires Sized(d, e)
    ensures AllOk(d) && e >= 1
  {
  }

  // A descriptor the test calls contiguous is an interval; so its answers are right exactly
  // if it says yes or a cut bound would not make it say yes.
  lemma TestExactIff(d: seq<Dim>, e: nat, b: int)
    requires Sized(d, e)
    ensures AllOk(Norm(d)) && (Solid(d, e) ==> Solid(Norm(d), e))
    ensures (Solid(d, e) <==> IsInterval(Section(d, e, b))) <==> Solid(d, e) || !Solid(Norm(d), e)
  {
    hide Solid, Norm, Section, Sized, HullLength, First;
    assert AllOk(d) by { SizedOk(d, e); }
    NormSection(d, e, b);
    IntervalIff(d, e, b);
    if Solid(d, e) {
      SolidSection(d, e, b);
    }
  }

  // A dimension whose stride steps over its upper bound at once.
  lemma SingleIndex(t: Dim, b: int)
    requires DimOk(t) && t.upper != t.lower && Count(t) == 1
    ensures DescOk([t]) && !Solid([t], t.size) && ArrayBytes([t], b) == Span(At(t, b, 0), t.size)
  {
    hide Rows, At, Span, HullLength;
    var d := [t];
    assert DescOk(d) && d[1..] == [];
    RowsUnfold(d, t.size, b, 1);
    CountUnit(t);
  }

  lemma CountUnit(t: Dim)
    requires DimOk(t) && t.upper != t.lower && Count(t) == 1
    ensures t.stride != 1
  {
  }

  // One byte selected with stride 2 below an upper bound of 1: an interval that the test
  // calls non-contiguous.
  lemma SingleIndexMissed()
    ensures var d := [Dim(1, 0, 0, 1, 2)];
      DescOk(d) && !Solid(d, 1) && ArrayBytes(d, 0) == Span(0, 1)
  {
    hide DescOk, Solid, Section, Rows, Span;
    SingleIndex(Dim(1, 0, 0, 1, 2), 0);
  }

  // The offset and length of the interval to transfer.
  method ArrDataOffsetAndLength(d: seq<Dim>) returns (offset: int, length: int)
    requires d != [] && DescOk(d)
    ensures offset >= 0 && length >= 1
    ensures offset == First(d) && length == HullLength(d, d[|d| - 1].size)
    ensures forall b :: Inside(ArrayBytes(d, b), b + offset, b + offset + length)
    ensures forall b :: b + offset in ArrayBytes(d, b)
    ensures forall b :: b + offset + length - 1 in ArrayBytes(d, b) <==> Dividing(d)
  {
    hide Fits, Full, First, HullLength, Section, Dividing, Inside;
    ghost var e := d[|d| - 1].size;
    var rank := |d| - 1;
    var size, rOff := d[rank].size, 0;
    EmptyHull(d[rank + 1..], e);
    while rank > 0
      invariant 0 <= rank < |d| && size == d[rank].size
      invariant First(d[rank + 1..]) == 0 && HullLength(d[rank + 1..], e) == size
    {
      size := size * (d[rank].upper - d[rank].lower + 1);
      if size != d[rank - 1].size {
        break;
      }
      FullStep(d, rank, e);
      rank := rank - 1;
    }
    offset := (d[rank].lower - d[rank].lindex) * d[rank].size;
    SuffixSteps(d, rank, e);
    ghost var room := (d[rank].upper - d[rank].lindex + 1) * d[rank].size;
    rank := rank - 1;
    while rank >= 0
      invariant -1 <= rank < |d| - 1 && offset == First(d[rank + 1..])
      invariant room == (d[rank + 1].upper - d[rank + 1].lindex + 1) * d[rank + 1].size
      invariant room - rOff == offset + HullLength(d[rank + 1..], e)
    {
      SuffixSteps(d, rank, e);
      offset := offset + (d[rank].lower - d[rank].lindex) * d[rank].size;
      rOff := rOff + d[rank].size
            - (d[rank + 1].upper - d[rank + 1].lindex + 1) * d[rank + 1].size;
      room := (d[rank].upper - d[rank].lindex + 1) * d[rank].size;
      rank := rank - 1;
    }
    assert d[0..] == d;
    length := (d[0].upper - d[0].lindex + 1) * d[0].size - offset - rOff;
    HullFits(d, e);
    HullBytes(d);
  }

  // Where the bytes of a section lie in its hull.
  lemma HullBytes(d: seq<Dim>)
    requires d != [] && DescOk(d)
    ensures d[|d| - 1].size >= 1
    ensures var offset, length := First(d), HullLength(d, d[|d| - 1].size);
      && (forall b :: Inside(ArrayBytes(d, b), b + offset, b + offset + length))
      && (forall b :: b + offset in ArrayBytes(d, b))
      && (forall b :: b + offset + length - 1 in ArrayBytes(d, b) <==> Dividing(d))
  {
    hide Section, First, HullLength, Dividing, Fits;
    LastDim(d);
    var e := d[|d| - 1].size;
    forall b ensures Inside(ArrayBytes(d, b), b + First(d), b + First(d) + HullLength(d, e))
      && b + First(d) in ArrayBytes(d, b)
      && (b + First(d) + HullLength(d, e) - 1 in ArrayBytes(d, b) <==> Dividing(d)) {
      HullHolds(d, e, b);
      LastByteIff(d, e, b);
    }
  }

  lemma {:induction false} SolidSuffix(d: seq<Dim>, e: nat, k: nat)
    requires Solid(d, e) && k <= |d|
    ensures Solid(d[k..], e)
    decreases k
  {
    if k == 0 {
      assert d[0..] == d;
    } else {
      SolidSuffix(d[1..], e, k - 1);
      assert d[1..][k - 1..] == d[k..];
    }
  }

  // Full dimensions are solid.
  lemma {:induction false} FullIsSolid(d: seq<Dim>, e: nat, k: nat)
    requires d != [] && Sized(d, e) && k <= |d| && forall i :: k <= i < |d| ==> Full(d, i)
    ensures Solid(d[k..], e) && (k > 0 ==> HullLength(d[k..], e) == d[k - 1].size)
    decreases |d| - k
  {
    if k < |d| {
      FullIsSolid(d, e, k + 1);
      assert d[k..][0] == d[k] && d[k..][1..] == d[k + 1..];
      Distribute(d[k].upper - d[k].lower, 1, d[k].size);
      assert Full(d, k);
    } else {
      assert d[k..] == [];
    }
  }

  // The descriptor test: a section judged contiguous is exactly its hull; one judged
  // not contiguous is read by runs, and is an interval only if cutting unreached bounds
  // off would have changed the answer.
  method IsArrDescContiguous(d: seq<Dim>) returns (contiguous: bool)
    requires d != [] && DescOk(d)
    ensures contiguous <==> Solid(d, d[|d| - 1].size)
    ensures contiguous ==> HullLength(d, d[|d| - 1].size) >= 0
    ensures contiguous ==> forall b ::
      ArrayBytes(d, b) == Span(b + First(d), HullLength(d, d[|d| - 1].size))
    ensures AllOk(Norm(d))
    ensures forall b :: IsInterval(ArrayBytes(d, b)) <==> Solid(Norm(d), d[|d| - 1].size)
    ensures forall b :: (contiguous <==> IsInterval(ArrayBytes(d, b))) <==> contiguous || !Solid(Norm(d), d[|d| - 1].size)
    ensures !contiguous ==> exists k :: 0 <= k < |d| && !Full(d, k)
  {
    ghost var e := d[|d| - 1].size;
    contiguous := IsSolid(d);
    HullFits(d, e);
    forall b ensures IsInterval(ArrayBytes(d, b)) <==> AllOk(Norm(d)) && Solid(Norm(d), e) {
      IntervalIff(d, e, b);
    }
    TestExactIff(d, e, 0);
    if contiguous {
      forall b ensures ArrayBytes(d, b) == Span(b + First(d), HullLength(d, e)) {
        SolidSection(d, e, b);
      }
    } else {
      assert d[0..] == d;
      if forall k :: 0 <= k < |d| ==> Full(d, k) {
        FullIsSolid(d, e, 0);
      }
    }
  }

  // The outer loop of the test.
  method IsSolid(d: seq<Dim>) returns (contiguous: bool)
    requires d != [] && DescOk(d)
    ensures contiguous <==> Solid(d, d[|d| - 1].size)
  {
    ghost var e := d[|d| - 1].size;
    var rank, length := |d| - 1, d[|d| - 1].size;
    EmptySolid(d[rank + 1..], e);
    assert Sized(d, e);
    hide *;
    while rank >= 0
      invariant -1 <= rank < |d|
      invariant Solid(d[rank + 1..], e) && length == HullLength(d[rank + 1..], e)
    {
      SolidStep(d, rank, e);
      if d[rank].stride > 1 && d[rank].upper - d[rank].lower != 0 {
        return false;
      } else if length != d[rank].size {
        contiguous := SinglesOnly(d, rank, e);
        return;
      }
      LengthStep(d, rank, e);
      length := length * (d[rank].upper - d[rank].lower + 1);
      rank := rank - 1;
    }
    AllOfIt(d, e);
    return true;
  }

  // The inner loop: outside an unfilled element there may be single indices only.
  method SinglesOnly(d: seq<Dim>, from: nat, ghost e: nat) returns (contiguous: bool)
    requires from < |d| && Sized(d, e)
    requires Solid(d[from + 1..], e) && HullLength(d[from + 1..], e) < d[from].size
    ensures contiguous <==> Solid(d, e)
  {
    hide *;
    var rank: int := from;
    while rank >= 0
      invariant -1 <= rank < |d|
      invariant Solid(d[rank + 1..], e) && (rank >= 0 ==> HullLength(d[rank + 1..], e) < d[rank].size)
    {
      SolidStep(d, rank, e);
      if d[rank].upper - d[rank].lower != 0 {
        return false;
      }
      rank := rank - 1;
    }
    AllOfIt(d, e);
    return true;
  }

  lemma AllOfIt(d: seq<Dim>, e: nat)
    ensures Solid(d[0..], e) <==> Solid(d, e)
  {
    assert d[0..] == d;
  }

  lemma EmptySolid(d: seq<Dim>, e: nat)
    requires d == []
    ensures Solid(d, e) && HullLength(d, e) == e
  {
  }

  // What dimension k adds to the test.
  lemma SolidStep(d: seq<Dim>, k: nat, e: nat)
    requires d != [] && Sized(d, e) && k < |d| && Solid(d[k + 1..], e)
    ensures 1 <= HullLength(d[k + 1..], e) <= d[k].size && d[k].stride >= 1
    ensures Solid(d[k..], e) <==>
      d[k].upper == d[k].lower || (d[k].stride == 1 && HullLength(d[k + 1..], e) == d[k].size)
    ensures !Solid(d[k..], e) ==> !Solid(d, e)
    ensures d[k].upper == d[k].lower ==> HullLength(d[k..], e) == HullLength(d[k + 1..], e)
    ensures k > 0 ==> d[k].size <= d[k - 1].size
  {
    assert d[k..][0] == d[k] && d[k..][1..] == d[k + 1..];
    assert Sized(d[k..], e) by { hide Solid, HullLength, First; }
    TailSized(d[k..], e);
    SolidHead(d[k..], e);
    if Solid(d, e) { SolidSuffix(d, e, k); }
    if k > 0 {
      assert Fits(d[k - 1], d[k]);
      Scaled(1, d[k].upper - d[k].lindex + 1, d[k].size);
    }
  }

  lemma LengthStep(d: seq<Dim>, k: nat, e: nat)
    requires k < |d| && HullLength(d[k + 1..], e) == d[k].size
    ensures HullLength(d[k..], e) == HullLength(d[k + 1..], e) * (d[k].upper - d[k].lower + 1)
  {
    assert d[k..][0] == d[k] && d[k..][1..] == d[k + 1..];
    Distribute(d[k].upper - d[k].lower, 1, d[k].size);
  }

  lemma SolidHead(d: seq<Dim>, e: nat)
    requires Sized(d, e) && d != [] && Sized(d[1..], e)
    ensures 1 <= HullLength(d[1..], e) <= d[0].size
    ensures d[0].upper == d[0].lower ==> HullLength(d, e) == HullLength(d[1..], e)
  {
    hide Sized, First;
    HullFits(d, e);
    HullFits(d[1..], e);
    assert d[0].upper == d[0].lower ==> (d[0].upper - d[0].lower) * d[0].size == 0;
  }
}
