/** The recursive enumerator of a section's address ranges, which joins ranges that
    touch. */
module RangeGenerator {
  import opened ArraySections
  import opened ReadRanges

  // First and last address.
  datatype Range = Range(left: int, right: int)

  function Size(r: Range): nat {
    if r.right < r.left then 0 else r.right - r.left + 1
  }

  // The addresses of the ranges, in order.
  function Cover(rs: seq<Range>): seq<int> {
    if rs == [] then [] else Span(rs[0].left, Size(rs[0])) + Cover(rs[1..])
  }

  // Non-empty ranges in increasing order, a gap between any two.
  ghost predicate Maximal(rs: seq<Range>) {
    && (forall i :: 0 <= i < |rs| ==> 0 <= rs[i].left <= rs[i].right)
    && (forall i :: 0 <= i < |rs| - 1 ==> rs[i].right + 1 < rs[i + 1].left)
  }

  // Appending a range, joined to the last one when they touch.
  function Add(rs: seq<Range>, left: int, right: int): seq<Range> {
    if rs != [] && left == rs[|rs| - 1].right + 1
    then rs[..|rs| - 1] + [Range(rs[|rs| - 1].left, right)]
    else rs + [Range(left, right)]
  }

  ghost predicate EndsBefore(rs: seq<Range>, a: int) {
    rs == [] || rs[|rs| - 1].right < a
  }

  lemma {:induction false} CoverLast(rs: seq<Range>, r: Range)
    ensures Cover(rs + [r]) == Cover(rs) + Span(r.left, Size(r))
    decreases |rs|
  {
    hide Span, Size;
    if rs == [] {
      assert rs + [r] == [r];
      assert Cover([r][1..]) == [];
    } else {
      CoverLast(rs[1..], r);
      assert (rs + [r])[1..] == rs[1..] + [r];
    }
  }

  lemma AddKeeps(rs: seq<Range>, left: int, right: int)
    requires Maximal(rs) && 0 <= left <= right && EndsBefore(rs, left)
    ensures Maximal(Add(rs, left, right)) && EndsBefore(Add(rs, left, right), right + 1)
    ensures Cover(Add(rs, left, right)) == Cover(rs) + Span(left, right - left + 1)
  {
    hide Cover, Span, Maximal;
    if rs != [] && left == rs[|rs| - 1].right + 1 {
      var front, l := rs[..|rs| - 1], rs[|rs| - 1];
      assert rs == front + [l];
      JoinKeeps(front, l, right);
    } else {
      AppendKeeps(rs, left, right);
      CoverLast(rs, Range(left, right));
    }
  }

  lemma AppendKeeps(rs: seq<Range>, left: int, right: int)
    requires Maximal(rs) && 0 <= left <= right && (rs != [] ==> rs[|rs| - 1].right + 1 < left)
    ensures Maximal(rs + [Range(left, right)])
  {
    var all := rs + [Range(left, right)];
    forall i | 0 <= i < |all| - 1 ensures all[i].right + 1 < all[i + 1].left {
      if i < |rs| - 1 { assert all[i] == rs[i] && all[i + 1] == rs[i + 1]; }
    }
  }

  lemma JoinKeeps(front: seq<Range>, l: Range, right: int)
    requires Maximal(front + [l]) && l.right < right
    ensures Maximal(front + [Range(l.left, right)]) && l.left <= l.right
    ensures Cover(front + [Range(l.left, right)]) == Cover(front + [l]) + Span(l.right + 1, right - l.right)
  {
    hide Cover, Span;
    var was, all := front + [l], front + [Range(l.left, right)];
    assert was[|front|] == l;
    JoinCovers(front, l.left, l.right, right);
    forall i | 0 <= i < |all| - 1 ensures all[i].right + 1 < all[i + 1].left {
      assert all[i] == was[i] && all[i + 1].left == was[i + 1].left;
    }
    forall i | 0 <= i < |all| ensures 0 <= all[i].left <= all[i].right {
      assert all[i].left == was[i].left && all[i].right >= was[i].right;
    }
  }

  // A range joined to the last one.
  lemma JoinCovers(front: seq<Range>, left: int, mid: int, right: int)
    requires left <= mid < right
    ensures Cover(front + [Range(left, right)]) == Cover(front + [Range(left, mid)]) + Span(mid + 1, right - mid)
  {
    CoverLast(front, Range(left, mid));
    CoverLast(front, Range(left, right));
    SpanSplit(left, mid - left + 1, right - mid);
    Associate(Cover(front), Span(left, mid - left + 1), Span(mid + 1, right - mid));
    hide Cover, Span;
  }

  lemma Associate(a: seq<int>, b: seq<int>, c: seq<int>)
    ensures a + b + c == a + (b + c)
  {
  }

  class Generator {
    var lastLeft: int
    var lastRight: int
    var printed: seq<Range>

    // What has been generated; the last range is still open.
    ghost function Ranges(): seq<Range>
      reads this
    {
      if lastLeft == -1 then printed else printed + [Range(lastLeft, lastRight)]
    }

    ghost predicate Valid()
      reads this
    {
      Maximal(Ranges()) && (lastLeft == -1 ==> printed == [] && lastRight == -2)
    }

    method GenerateOneRange(left: int, right: int)
      requires Valid() && 0 <= left <= right && EndsBefore(Ranges(), left)
      modifies this
      ensures Valid() && Ranges() != [] && EndsBefore(Ranges(), right + 1)
      ensures Ranges() == Add(old(Ranges()), left, right)
      ensures Cover(Ranges()) == old(Cover(Ranges())) + Span(left, right - left + 1)
    {
      hide Cover;
      AddKeeps(Ranges(), left, right);
      if lastLeft == -1 {
        lastLeft := left;
      } else {
        if left == lastRight + 1 {
        } else {
          printed := printed + [Range(lastLeft, lastRight)];
          lastLeft := left;
        }
      }
      lastRight := right;
    }

    // The rows of one dimension; d's innermost dimension is the last.
    method GenerateMemRangesOneRank(d: seq<Dim>, base: int)
      requires d != [] && DescOk(d) && Valid() && EndsBefore(Ranges(), base) && base >= 0
      modifies this
      ensures Valid() && Ranges() != [] && EndsBefore(Ranges(), Top(d[0], base))
      ensures Cover(Ranges()) == old(Cover(Ranges())) + ArrayBytes(d, base)
      decreases |d|, 1
    {
      var t := d[0];
      ghost var was, n := Cover(Ranges()), 0;
      NoRowsYet(d, base);
      hide *;
      if |d| == 1 && t.stride == 1 {
        GenerateUnitRow(d, base);
      } else {
        var i := t.lower - t.lindex;
        while i <= t.upper - t.lindex
          invariant Progress(d, base, was, n, i)
          decreases Count(t) - n
        {
          ghost var sofar := Cover(Ranges());
          var row := base + i * t.size;
          RowReady(d, base, was, n, i, row);
          GenerateRow(d, row);
          RowAdded(d, base, was, n, i, row, sofar);
          n := n + 1;
          i := i + t.stride;
        }
        RowsAdded(d, base, was, n, i);
      }
    }

    // The first n rows are generated; i is the next index.
    ghost predicate Progress(d: seq<Dim>, base: int, was: seq<int>, n: int, i: int)
      requires d != [] && DescOk(d)
      reads this
    {
      && Valid() && 0 <= n <= Count(d[0]) && i == Index(d[0], n)
      && EndsBefore(Ranges(), RowEnd(d[0], base, n)) && (n > 0 ==> Ranges() != [])
      && Cover(Ranges()) == was + Rows(d, ElementSize(d), base, n)
    }

    lemma NoRowsYet(d: seq<Dim>, base: int)
      requires d != [] && DescOk(d) && Valid() && EndsBefore(Ranges(), base)
      ensures Progress(d, base, Cover(Ranges()), 0, d[0].lower - d[0].lindex)
    {
      RankFacts(d, base);
    }

    lemma RowReady(d: seq<Dim>, base: int, was: seq<int>, n: int, i: int, row: int)
      requires d != [] && DescOk(d) && base >= 0 && Progress(d, base, was, n, i) && i <= d[0].upper - d[0].lindex
      requires row == base + i * d[0].size
      ensures Valid() && row >= 0 && EndsBefore(Ranges(), row)
      ensures 0 <= n < Count(d[0]) && Cover(Ranges()) == was + Rows(d, ElementSize(d), base, n)
      ensures i == Index(d[0], n)
    {
      RowStep(d, base, i, n);
    }

    lemma RowAdded(d: seq<Dim>, base: int, was: seq<int>, n: int, i: int, row: int, sofar: seq<int>)
      requires d != [] && DescOk(d) && Valid() && Ranges() != []
      requires 0 <= n < Count(d[0]) && i == Index(d[0], n) && i <= d[0].upper - d[0].lindex
      requires row == base + i * d[0].size && EndsBefore(Ranges(), row + d[0].size)
      requires sofar == was + Rows(d, ElementSize(d), base, n)
      requires Cover(Ranges()) == sofar + RowBytes(d, row)
      ensures Progress(d, base, was, n + 1, i + d[0].stride)
    {
      hide Cover, Valid, Ranges, Rows, RowEnd, Index, RowBytes, DescOk;
      RowStep(d, base, i, n);
    }

    lemma RowsAdded(d: seq<Dim>, base: int, was: seq<int>, n: int, i: int)
      requires d != [] && DescOk(d) && Progress(d, base, was, n, i) && i > d[0].upper - d[0].lindex
      ensures Valid() && Ranges() != [] && EndsBefore(Ranges(), Top(d[0], base))
      ensures Cover(Ranges()) == was + ArrayBytes(d, base)
    {
      RowsDone(d, base, i, n);
    }

    // A unit-stride innermost dimension.
    method GenerateUnitRow(d: seq<Dim>, base: int)
      requires |d| == 1 && DescOk(d) && d[0].stride == 1
      requires Valid() && EndsBefore(Ranges(), base) && base >= 0
      modifies this
      ensures Valid() && Ranges() != [] && EndsBefore(Ranges(), Top(d[0], base))
      ensures Cover(Ranges()) == old(Cover(Ranges())) + ArrayBytes(d, base)
    {
      var t := d[0];
      var left := base + (t.lower - t.lindex) * t.size;
      var right := left + (t.upper - t.lower + 1) * t.size - 1;
      UnitRow(d, base, left, right);
      hide *;
      Later(Ranges(), base, left);
      GenerateOneRange(left, right);
      Later(Ranges(), right + 1, Top(t, base));
    }

    // One index of dimension 0, whose element is at address row.
    method GenerateRow(d: seq<Dim>, row: int)
      requires d != [] && DescOk(d) && Valid() && EndsBefore(Ranges(), row) && row >= 0
      modifies this
      ensures Valid() && Ranges() != [] && EndsBefore(Ranges(), row + d[0].size)
      ensures Cover(Ranges()) == old(Cover(Ranges())) + RowBytes(d, row)
      decreases |d|, 0
    {
      RowFacts(d, row);
      hide *;
      if |d| == 1 {
        var left := row;
        var right := left + d[0].size - 1;
        GenerateOneRange(left, right);
      } else {
        GenerateMemRangesOneRank(d[1..], row);
        Later(Ranges(), Top(d[1], row), row + d[0].size);
      }
    }

    method GenerateMemRanges(d: seq<Dim>, base: int)
      requires d != [] && DescOk(d) && base >= 0
      modifies this
      ensures Maximal(printed) && Cover(printed) == ArrayBytes(d, base)
    {
      lastLeft, lastRight, printed := -1, -2, [];
      GenerateMemRangesOneRank(d, base);
      printed := printed + [Range(lastLeft, lastRight)];
    }
  }

  function ElementSize(d: seq<Dim>): nat
    requires d != [] && DescOk(d)
  {
    assert DimOk(d[|d| - 1]);
    d[|d| - 1].size
  }

  // Zero-based index of the section's n-th element in a dimension.
  function Index(t: Dim, n: int): int {
    t.lower - t.lindex + n * t.stride
  }

  lemma Later(rs: seq<Range>, a: int, b: int)
    requires EndsBefore(rs, a) && a <= b
    ensures EndsBefore(rs, b)
  {
  }

  lemma RankFacts(d: seq<Dim>, base: int)
    requires d != [] && DescOk(d)
    ensures Count(d[0]) >= 1 && d[0].stride >= 1 && d[0].size >= 1 && AllOk(d) && RowEnd(d[0], base, 0) == base
    ensures Index(d[0], 0) == d[0].lower - d[0].lindex
    ensures Rows(d, ElementSize(d), base, 0) == []
  {
    CountPositive(d[0]);
  }

  // A unit-stride innermost dimension is one range.
  lemma UnitRow(d: seq<Dim>, base: int, left: int, right: int)
    requires |d| == 1 && DescOk(d) && d[0].stride == 1
    requires left == base + (d[0].lower - d[0].lindex) * d[0].size
    requires right == left + (d[0].upper - d[0].lower + 1) * d[0].size - 1
    ensures base <= left <= right && right + 1 == Top(d[0], base)
    ensures ArrayBytes(d, base) == Span(left, right - left + 1)
  {
    var n := d[0].upper - d[0].lower + 1;
    CountUnitStride(d[0]);
    assert d[1..] == [];
    Scaled(1, n, d[0].size);
    Scaled(0, d[0].lower - d[0].lindex, d[0].size);
    Distribute(n, d[0].lower - d[0].lindex, d[0].size);
    RowsContiguous(d, d[0].size, base, n);
  }

  // The bytes of the row at address a.
  ghost function RowBytes(d: seq<Dim>, a: int): seq<int>
    requires d != [] && DescOk(d)
  {
    if |d| == 1 then Span(a, ElementSize(d)) else assert DescOk(d[1..]); ArrayBytes(d[1..], a)
  }

  // Row n lies behind the rows before it and holds the bytes of its own section.
  lemma RowStep(d: seq<Dim>, base: int, i: int, n: int)
    requires d != [] && DescOk(d) && 0 <= n <= Count(d[0])
    requires i == Index(d[0], n) && i <= d[0].upper - d[0].lindex
    ensures n < Count(d[0]) && i + d[0].stride == Index(d[0], n + 1)
    ensures base <= RowEnd(d[0], base, n) <= base + i * d[0].size
    ensures RowEnd(d[0], base, n + 1) == base + i * d[0].size + d[0].size
    ensures Rows(d, ElementSize(d), base, n + 1)
         == Rows(d, ElementSize(d), base, n) + RowBytes(d, base + i * d[0].size)
  {
    CountPositive(d[0]);
    Distribute(n, 1, d[0].stride);
    if n == Count(d[0]) {
      assert false;
    }
    RowEndSteps(d[0], base, n + 1);
  }

  lemma RowFacts(d: seq<Dim>, a: int)
    requires d != [] && DescOk(d)
    ensures d[0].size >= 1
    ensures |d| > 1 ==> DescOk(d[1..]) && AllOk(d[1..]) && Top(d[1], a) <= a + d[0].size
    ensures RowBytes(d, a) == if |d| == 1 then Span(a, d[0].size) else ArrayBytes(d[1..], a)
  {
    assert |d| > 1 ==> Fits(d[0], d[1]);
  }


  lemma RowsDone(d: seq<Dim>, base: int, i: int, n: int)
    requires d != [] && DescOk(d) && 0 <= n <= Count(d[0])
    requires i == Index(d[0], n) && i > d[0].upper - d[0].lindex
    ensures n == Count(d[0]) && n > 0 && RowEnd(d[0], base, n) <= Top(d[0], base)
    ensures Rows(d, ElementSize(d), base, n) == ArrayBytes(d, base)
  {
    CountPositive(d[0]);
    if n < Count(d[0]) {
      Scaled(n, Count(d[0]) - 1, d[0].stride);
    }
    RowEndSteps(d[0], base, n);
  }

  // ------------------------------------------------------------ maximal ranges are unique

  // Two lists of separated ranges over the same addresses are the same list.
  lemma {:induction false} MaximalIsUnique(a: seq<Range>, b: seq<Range>)
    requires Maximal(a) && Maximal(b) && Cover(a) == Cover(b)
    ensures a == b
    decreases |a| + |b|
  {
    if a != [] && b != [] {
      NotLonger(a, b);
      NotLonger(b, a);
      assert Cover(a[1..]) == Cover(a)[Size(a[0])..];
      assert Cover(b[1..]) == Cover(b)[Size(b[0])..];
      MaximalIsUnique(a[1..], b[1..]);
      assert a == [a[0]] + a[1..] && b == [b[0]] + b[1..];
    }
  }

  lemma NotLonger(a: seq<Range>, b: seq<Range>)
    requires Maximal(a) && Maximal(b) && Cover(a) == Cover(b) && a != [] && b != []
    ensures a[0].left == b[0].left && b[0].right <= a[0].right
  {
    InFirst(a, 0);
    InFirst(b, 0);
    if a[0].right < b[0].right {
      InFirst(b, Size(a[0]));
      BehindFirst(a);
    }
  }

  lemma InFirst(a: seq<Range>, i: nat)
    requires Maximal(a) && a != [] && i < Size(a[0])
    ensures |Cover(a)| > i && Cover(a)[i] == a[0].left + i
  {
  }

  // Behind the first range there is a gap.
  lemma BehindFirst(a: seq<Range>)
    requires Maximal(a) && a != []
    ensures |Cover(a)| > Size(a[0]) ==> Cover(a)[Size(a[0])] > a[0].left + Size(a[0])
  {
    if |a| > 1 {
      InFirst(a[1..], 0);
    }
  }

  // ------------------------------------------------------------ both enumerators

  // A reader's runs, joined where they touch.
  function Joined(dims: seq<ReadDim>, len: nat, b: int, n: int): seq<Range>
    requires n > 0 ==> Counted(dims)
    decreases if n < 0 then 0 else n
  {
    if n <= 0 then []
    else
      var left := b + Decode(dims, n - 1);
      Add(Joined(dims, len, b, n - 1), left, left + len - 1)
  }

  // Increasing addresses.
  ghost predicate Ascends(s: seq<int>) {
    Increasing(s) && forall i :: 0 <= i < |s| ==> s[i] >= 0
  }

  // Separated ranges over the addresses of s, ending with the last of them.
  ghost predicate Covers(rs: seq<Range>, s: seq<int>) {
    Maximal(rs) && Cover(rs) == s && EndsBefore(rs, if s == [] then 0 else s[|s| - 1] + 1)
  }

  lemma {:induction false} JoinedCovers(dims: seq<ReadDim>, len: nat, b: int, n: nat)
    requires Counted(dims) && len >= 1 && Ascends(Runs(dims, len, b, n))
    ensures Covers(Joined(dims, len, b, n), Runs(dims, len, b, n))
    decreases n
  {
    hide Decode, Covers, Add, Runs, Ascends;
    if n == 0 {
      NoRuns(dims, len, b);
      NothingCovered();
    } else {
      RunsStep(dims, len, b, n);
      RunsPrefix(Runs(dims, len, b, n - 1), b + Decode(dims, n - 1), len);
      JoinedCovers(dims, len, b, n - 1);
      AddRun(Joined(dims, len, b, n - 1), Runs(dims, len, b, n - 1), b + Decode(dims, n - 1), len);
    }
  }

  lemma NothingCovered()
    ensures Covers([], [])
  {
  }

  lemma RunsPrefix(a: seq<int>, left: int, len: nat)
    requires Ascends(a + Span(left, len)) && len >= 1
    ensures Ascends(a) && left >= 0 && (a != [] ==> a[|a| - 1] < left)
  {
    var s := a + Span(left, len);
    assert s[|a|] == left;
    assert forall i :: 0 <= i < |a| ==> s[i] == a[i];
  }

  lemma AddRun(rs: seq<Range>, a: seq<int>, left: int, len: nat)
    requires Covers(rs, a) && left >= 0 && len >= 1 && (a != [] ==> a[|a| - 1] < left)
    ensures Covers(Add(rs, left, left + len - 1), a + Span(left, len))
  {
    hide Cover, Maximal, Add, Span;
    Later(rs, if a == [] then 0 else a[|a| - 1] + 1, left);
    AddKeeps(rs, left, left + len - 1);
  }

  // The two enumerators of a section agree: joining the runs of a reader whose pass is the
  // section gives exactly the ranges that a generator has printed for it.
  lemma EnumeratorsAgree(d: seq<Dim>, base: int, r: CeanReadRanges, g: Generator)
    requires d != [] && DescOk(d) && base >= 0
    requires r.Valid() && r.rangeSize >= 1 && r.rangeMaxNumber >= 1 && r.Bytes(base) == ArrayBytes(d, base)
    requires Maximal(g.printed) && Cover(g.printed) == ArrayBytes(d, base)
    ensures g.printed == Joined(r.dims, r.rangeSize, base + r.initOffset, r.rangeMaxNumber)
  {
    hide Section, Cover, Maximal, Runs, Joined, Decode, DescOk;
    LastDim(d);
    SectionRoom(d, base);
    JoinedCovers(r.dims, r.rangeSize, base + r.initOffset, r.rangeMaxNumber);
    MaximalIsUnique(g.printed, Joined(r.dims, r.rangeSize, base + r.initOffset, r.rangeMaxNumber));
  }

  lemma SectionRoom(d: seq<Dim>, base: int)
    requires d != [] && DescOk(d) && base >= 0
    ensures Ascends(ArrayBytes(d, base))
  {
    hide Section;
    LastDim(d);
    SectionIncreasing(d, d[|d| - 1].size, base);
  }

  // Both set up for one descriptor: the reader's own set-up and the generator's call give
  // what EnumeratorsAgree asks for, whenever the reader is exact.
  method EnumerateBoth(d: seq<Dim>, base: int) returns (r: CeanReadRanges, g: Generator)
    requires d != [] && DescOk(d) && base >= 0
    ensures fresh(r) && fresh(g) && r.Valid() && Maximal(g.printed) && Cover(g.printed) == ArrayBytes(d, base)
    ensures r.dims != [] || d[0].lower == d[0].lindex ==>
      g.printed == Joined(r.dims, r.rangeSize, base + r.initOffset, r.rangeMaxNumber)
  {
    hide *;
    LastDim(d);
    r := new CeanReadRanges.ArrDesc(d, base);
    g := new Generator;
    g.GenerateMemRanges(d, base);
    if r.dims != [] || d[0].lower == d[0].lindex {
      assert r.Bytes(base) == ArrayBytes(d, base) by { PassIs(r, d, base); }
      EnumeratorsAgree(d, base, r, g);
    }
  }

  lemma PassIs(r: CeanReadRanges, d: seq<Dim>, base: int)
    requires d != [] && AllOk(d) && r.Valid() && r.Reads(d)
    ensures r.Bytes(base) == ArrayBytes(d, base)
  {
  }
}
