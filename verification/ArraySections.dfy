/** Strided sections of multi-dimensional arrays: which bytes a descriptor denotes, in
    index order. */
module ArraySections {

  // One dimension: bytes per index step, first index of the array, section bounds and
  // stride.  Dimension 0 is the outermost.
  datatype Dim = Dim(size: int, lindex: int, lower: int, upper: int, stride: int)

  // Number of section elements in a dimension.
  function Count(t: Dim): int
    requires t.stride >= 1
  {
    (t.upper - t.lower + t.stride) / t.stride
  }

  // A dimension as the compiler builds it.
  predicate DimOk(t: Dim) {
    t.size >= 1 && t.stride >= 1 && t.lindex <= t.lower <= t.upper
  }

  // The section part of an inner dimension fits into one element of the outer one.
  predicate Fits(outer: Dim, inner: Dim) {
    (inner.upper - inner.lindex + 1) * inner.size <= outer.size
  }

  ghost predicate DescOk(d: seq<Dim>) {
    && AllOk(d)
    && (forall i :: 0 <= i < |d| - 1 ==> Fits(d[i], d[i + 1]))
  }

  lemma DescTail(d: seq<Dim>)
    requires DescOk(d) && d != []
    ensures DescOk(d[1..])
  {
  }

  // The addresses b, b+1, ..., b+n-1.
  function Span(b: int, n: nat): (r: seq<int>)
    ensures |r| == n && forall i :: 0 <= i < n ==> r[i] == b + i
  {
    seq(n, i requires 0 <= i < n => b + i)
  }

  lemma SpanSplit(b: int, m: nat, n: nat)
    ensures Span(b, m + n) == Span(b, m) + Span(b + m, n)
  {
  }

  // Addresses without a hole, in order.
  ghost predicate IsInterval(s: seq<int>) {
    exists c, n: nat :: s == Span(c, n)
  }

  // Where index number x of dimension t lies.
  function At(t: Dim, b: int, x: int): int {
    b + (t.lower - t.lindex + x * t.stride) * t.size
  }

  ghost predicate AllOk(d: seq<Dim>) {
    forall i :: 0 <= i < |d| ==> DimOk(d[i])
  }

  // The bytes of a section in index order, elements being e bytes long.
  function Section(d: seq<Dim>, e: nat, b: int): seq<int>
    requires AllOk(d)
    decreases |d|, 1, 0
  {
    if d == [] then Span(b, e) else assert DimOk(d[0]); Rows(d, e, b, Count(d[0]))
  }

  // The first n rows of the outermost dimension.
  function Rows(d: seq<Dim>, e: nat, b: int, n: int): seq<int>
    requires d != [] && AllOk(d)
    decreases |d|, 0, if n < 0 then 0 else n
  {
    if n <= 0 then [] else Rows(d, e, b, n - 1) + Section(d[1..], e, At(d[0], b, n - 1))
  }

  // The bytes of an array section: the innermost size is the element's.
  function ArrayBytes(d: seq<Dim>, b: int): seq<int>
    requires d != [] && AllOk(d)
  {
    assert DimOk(d[|d| - 1]);
    Section(d, d[|d| - 1].size, b)
  }

  lemma CountPositive(t: Dim)
    requires DimOk(t)
    ensures Count(t) >= 1
    ensures t.lower + (Count(t) - 1) * t.stride <= t.upper < t.lower + Count(t) * t.stride
  {
    var q := (t.upper - t.lower + t.stride) / t.stride;
    assert q * t.stride <= t.upper - t.lower + t.stride < (q + 1) * t.stride;
    assert (q - 1) * t.stride == q * t.stride - t.stride && (q + 1) * t.stride == q * t.stride + t.stride;
  }

  lemma CountUnitStride(t: Dim)
    requires t.stride == 1
    ensures Count(t) == t.upper - t.lower + 1
  {
  }

  // ------------------------------------------------------------ order and extent

  ghost predicate Increasing(s: seq<int>) {
    forall i, j :: 0 <= i < j < |s| ==> s[i] < s[j]
  }

  ghost predicate Inside(s: seq<int>, lo: int, hi: int) {
    forall i :: 0 <= i < |s| ==> lo <= s[i] < hi
  }

  lemma IncreasingConcat(a: seq<int>, b: seq<int>, lo: int, mid: int, hi: int)
    requires Increasing(a) && Increasing(b) && Inside(a, lo, mid) && Inside(b, mid, hi) && lo <= mid <= hi
    ensures Increasing(a + b) && Inside(a + b, lo, hi)
  {
  }

  // Upper end of dimension t's bytes, exclusive.
  function Top(t: Dim, b: int): int {
    b + (t.upper - t.lindex + 1) * t.size
  }

  // End of the first n rows' room.
  function RowEnd(t: Dim, b: int, n: int): int {
    if n <= 0 then b else At(t, b, n - 1) + t.size
  }

  lemma Scaled(x: int, y: int, m: nat)
    requires x <= y
    ensures x * m <= y * m
  {
  }

  lemma Regroup(a: int, b: int, c: int)
    ensures a * (b * c) == b * (c * a)
  {
  }

  lemma MulMono(a: nat, b: nat, c: nat, d: nat)
    requires a <= c && b <= d
    ensures a * b <= c * d
  {
    Scaled(a, c, b);
    Scaled(b, d, c);
  }

  // The row before index x ends below row x, and every row lies within the dimension.
  lemma RowEndSteps(t: Dim, b: int, n: int)
    requires DimOk(t) && 0 < n <= Count(t)
    ensures b <= RowEnd(t, b, n - 1) <= At(t, b, n - 1) && RowEnd(t, b, n) <= Top(t, b)
  {
    CountPositive(t);
    Scaled(n - 1, Count(t) - 1, t.stride);
    Scaled(0, n - 1, t.stride);
    var x := t.lower - t.lindex + (n - 1) * t.stride;
    Scaled(0, x, t.size);
    Scaled(x + 1, t.upper - t.lindex + 1, t.size);
    Distribute(x, 1, t.size);
    if n > 1 {
      var y := t.lower - t.lindex + (n - 2) * t.stride;
      Distribute(n - 2, 1, t.stride);
      Scaled(0, n - 2, t.stride);
      Scaled(0, y, t.size);
      Scaled(y + 1, x, t.size);
      Distribute(y, 1, t.size);
    }
  }

  lemma Distribute(x: int, y: int, m: int)
    ensures (x + y) * m == x * m + y * m
  {
  }

  // The bytes of a section are listed in strictly increasing order, so each occurs
  // once, and they stay within the outermost dimension's room.
  lemma {:induction false} SectionIncreasing(d: seq<Dim>, e: nat, b: int)
    requires DescOk(d) && (d != [] ==> e <= d[|d| - 1].size)
    ensures Increasing(Section(d, e, b))
    ensures Inside(Section(d, e, b), b, if d == [] then b + e else Top(d[0], b))
    decreases |d|, 1, 0
  {
    if d != [] {
      CountPositive(d[0]);
      RowsIncreasing(d, e, b, Count(d[0]));
      RowEndSteps(d[0], b, Count(d[0]));
    }
  }

  lemma {:induction false} RowsIncreasing(d: seq<Dim>, e: nat, b: int, n: int)
    requires DescOk(d) && d != [] && e <= d[|d| - 1].size && 0 <= n <= Count(d[0])
    ensures Increasing(Rows(d, e, b, n)) && Inside(Rows(d, e, b, n), b, RowEnd(d[0], b, n))
    decreases |d|, 0, n
  {
    if n > 0 {
      var row := At(d[0], b, n - 1);
      RowsIncreasing(d, e, b, n - 1);
      RowEndSteps(d[0], b, n);
      DescTail(d);
      SectionIncreasing(d[1..], e, row);
      assert Inside(Section(d[1..], e, row), row, row + d[0].size) by {
        assert |d| > 1 ==> Fits(d[0], d[1]) && Top(d[1], row) <= row + d[0].size;
      }
      IncreasingConcat(Rows(d, e, b, n - 1), Section(d[1..], e, row), b, row, row + d[0].size);
    }
  }

  // ------------------------------------------------------------ contiguous dimensions

  // Unit stride over contiguous rows is one run.
  lemma {:induction false} RowsContiguous(d: seq<Dim>, e: nat, b: int, n: int)
    requires d != [] && AllOk(d) && n >= 0
    requires d[0].stride == 1 && d[0].size >= 1
    requires forall c :: Section(d[1..], e, c) == Span(c, d[0].size)
    ensures n * d[0].size >= 0
    ensures Rows(d, e, b, n) == Span(At(d[0], b, 0), n * d[0].size)
    decreases n
  {
    if n > 0 {
      RowsContiguous(d, e, b, n - 1);
      var s := d[0].size;
      assert At(d[0], b, n - 1) == At(d[0], b, 0) + (n - 1) * s by {
        assert (d[0].lower - d[0].lindex + (n - 1)) * s == (d[0].lower - d[0].lindex) * s + (n - 1) * s;
      }
      assert n * s == (n - 1) * s + s;
      SpanSplit(At(d[0], b, 0), (n - 1) * s, s);
    }
  }
}
