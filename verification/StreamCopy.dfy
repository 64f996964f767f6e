/** Transfers between data whose source or destination is not contiguous: the bytes of
    the source's runs stream into the destination's runs. */
module StreamCopy {
  import opened ArraySections
  import opened ReadRanges
  import opened Memory

  // ------------------------------------------------------------ streams of runs

  // The addresses of runs of len bytes, in order.
  function Flat(starts: seq<int>, len: nat): seq<int> {
    if starts == [] then [] else Flat(starts[..|starts| - 1], len) + Span(starts[|starts| - 1], len)
  }

  // In a stream: c runs were opened, rest bytes of the last one are left, p bytes lie behind.
  ghost predicate Cursor(starts: seq<int>, len: nat, c: int, rest: int, p: int) {
    0 <= c <= |starts| && 0 <= rest <= len && (rest > 0 ==> c > 0) && p == c * len - rest && p >= 0
  }

  lemma {:induction false} FlatLength(starts: seq<int>, len: nat)
    ensures |Flat(starts, len)| == |starts| * len
  {
    if starts != [] {
      FlatLength(starts[..|starts| - 1], len);
      Distribute(|starts| - 1, 1, len);
    }
  }

  lemma {:induction false} FlatAt(starts: seq<int>, len: nat, c: nat, t: nat)
    requires c < |starts| && t < len
    ensures 0 <= c * len + t < |Flat(starts, len)| && Flat(starts, len)[c * len + t] == starts[c] + t
    decreases |starts|
  {
    var front := starts[..|starts| - 1];
    FlatLength(starts, len);
    FlatLength(front, len);
    Scaled(0, c, len);
    if c == |front| {
      Distribute(|front|, 1, len);
    } else {
      FlatAt(front, len, c, t);
    }
  }

  // The next piece of a stream is part of the last opened run.
  lemma NextPiece(starts: seq<int>, len: nat, c: int, rest: int, p: int, n: nat)
    requires Cursor(starts, len, c, rest, p) && n <= rest && c > 0
    ensures Cursor(starts, len, c, rest - n, p + n) && p + n <= |Flat(starts, len)|
    ensures Flat(starts, len)[p..p + n] == Span(starts[c - 1] + len - rest, n)
  {
    FlatLength(starts, len);
    Scaled(c, |starts|, len);
    forall i | p <= i < p + n ensures Flat(starts, len)[i] == starts[c - 1] + len - rest + (i - p) {
      Distribute(c - 1, 1, len);
      FlatAt(starts, len, c - 1, len - rest + (i - p));
    }
  }

  lemma OpenRun(starts: seq<int>, len: nat, c: int, p: int)
    requires Cursor(starts, len, c, 0, p) && c < |starts|
    ensures Cursor(starts, len, c + 1, len, p)
  {
    Distribute(c, 1, len);
  }

  lemma StreamEnd(starts: seq<int>, len: nat, p: int)
    requires Cursor(starts, len, |starts|, 0, p)
    ensures p == |Flat(starts, len)|
  {
    FlatLength(starts, len);
  }

  // A reader's runs as a stream.
  lemma {:induction false} RunsAreFlat(dims: seq<ReadDim>, len: nat, b: int, n: nat)
    requires n > 0 ==> Counted(dims)
    ensures Runs(dims, len, b, n) == Flat(StartList(dims, n, b), len)
    decreases n
  {
    if n > 0 {
      RunsAreFlat(dims, len, b, n - 1);
      assert StartList(dims, n, b)[..n - 1] == StartList(dims, n - 1, b);
    }
  }

  // ------------------------------------------------------------ byte by byte

  // Byte from[k] goes to address to[k], in order.
  function Deliver(dst: Mem, src: Mem, to: seq<int>, from: seq<int>): Mem
    requires |to| == |from|
  {
    if to == [] then dst
    else
      var k := |to| - 1;
      Write(Deliver(dst, src, to[..k], from[..k]), to[k], Read(src, from[k], 1))
  }

  // Distinct destination bytes each hold their source byte, and nothing else changes.
  lemma {:induction false} DeliveredOnce(dst: Mem, src: Mem, to: seq<int>, from: seq<int>)
    requires |to| == |from| && forall i, j :: 0 <= i < j < |to| ==> to[i] != to[j]
    ensures Deliver(dst, src, to, from).Keys == dst.Keys
    ensures forall k :: 0 <= k < |to| && to[k] in dst && from[k] in src ==>
      Deliver(dst, src, to, from)[to[k]] == src[from[k]]
    ensures forall x :: x in dst && x !in to ==> Deliver(dst, src, to, from)[x] == dst[x]
    decreases |to|
  {
    if to != [] {
      var k := |to| - 1;
      var m := Deliver(dst, src, to[..k], from[..k]);
      DeliveredOnce(dst, src, to[..k], from[..k]);
      assert Deliver(dst, src, to, from) == Write(m, to[k], Read(src, from[k], 1));
      hide Deliver;
      forall i | 0 <= i < |to| && to[i] in dst && from[i] in src
        ensures Deliver(dst, src, to, from)[to[i]] == src[from[i]] {
        if i < k {
          assert to[..k][i] == to[i] && from[..k][i] == from[i];
        }
      }
    }
  }

  // Copying a block delivers its bytes.
  lemma {:induction false} DeliverBlock(dst: Mem, src: Mem, to: seq<int>, from: seq<int>, p: nat, n: nat, a: int, b: int)
    requires PieceAt(to, p, n, a) && PieceAt(from, p, n, b) && p + n <= |to| && p + n <= |from|
    ensures Write(Deliver(dst, src, to[..p], from[..p]), a, Read(src, b, n))
         == Deliver(dst, src, to[..p + n], from[..p + n])
    decreases n
  {
    hide Deliver, Write, Read, Span;
    hide PieceAt;
    var m := Deliver(dst, src, to[..p], from[..p]);
    if n == 0 {
      WriteNothing(m, src, a, b);
      assert to[..p + n] == to[..p] && from[..p + n] == from[..p];
    } else {
      SpanFront(to, p, n, a);
      SpanFront(from, p, n, b);
      DeliverBlock(dst, src, to, from, p, n - 1, a, b);
      DeliverStep(dst, src, to, from, p + n - 1);
      WriteLonger(m, src, a, b, n);
    }
  }

  lemma WriteNothing(m: Mem, src: Mem, a: int, b: int)
    ensures Write(m, a, Read(src, b, 0)) == m
  {
    SameMemory(Write(m, a, Read(src, b, 0)), m);
  }

  lemma SpanFront(s: seq<int>, p: nat, n: nat, a: int)
    requires 0 < n && PieceAt(s, p, n, a)
    ensures PieceAt(s, p, n - 1, a) && p + n <= |s| && s[p + n - 1] == a + n - 1
  {
    assert s[p..p + n - 1] == s[p..p + n][..n - 1];
    assert s[p + n - 1] == s[p..p + n][n - 1];
  }

  lemma DeliverStep(dst: Mem, src: Mem, to: seq<int>, from: seq<int>, q: nat)
    requires q < |to| && q < |from|
    ensures Deliver(dst, src, to[..q + 1], from[..q + 1])
         == Write(Deliver(dst, src, to[..q], from[..q]), to[q], Read(src, from[q], 1))
  {
    assert to[..q + 1][..q] == to[..q] && from[..q + 1][..q] == from[..q];
  }

  lemma WriteLonger(m: Mem, src: Mem, a: int, b: int, n: nat)
    requires n > 0
    ensures Write(m, a, Read(src, b, n))
         == Write(Write(m, a, Read(src, b, n - 1)), a + n - 1, Read(src, b + n - 1, 1))
  {
    SameMemory(Write(m, a, Read(src, b, n)),
               Write(Write(m, a, Read(src, b, n - 1)), a + n - 1, Read(src, b + n - 1, 1)));
  }

  // ------------------------------------------------------------ the transfer loop

  // Addresses of n runs.
  ghost function StartList(dims: seq<ReadDim>, n: nat, b: int): (r: seq<int>)
    requires n > 0 ==> Counted(dims)
    ensures |r| == n && forall k :: 0 <= k < n ==> r[k] == b + ReadRanges.Decode(dims, k)
  {
    seq(n, k requires 0 <= k < n => b + ReadRanges.Decode(dims, k))
  }

  // Addresses of a reader's runs in data at address base.
  ghost function StartsOf(rng: CeanReadRanges, base: int): seq<int>
    requires rng.Valid()
    reads rng
  {
    StartList(rng.dims, rng.rangeMaxNumber, base + rng.initOffset)
  }

  // One side of a transfer: runs read from rng, or one run at displacement start.
  ghost predicate Feed(rng: CeanReadRanges?, base: int, start: int, starts: seq<int>, len: nat, c: int)
    reads rng
  {
    if rng == null then starts == [base + start] && 0 <= c <= 1
    else rng.Valid() && rng.currentNumber == c && rng.rangeSize == len && StartsOf(rng, base) == starts
  }

  ghost predicate Divides(n: nat, len: nat) {
    n >= 1 && len % n == 0
  }

  // Before a piece of n bytes is copied: offset is its displacement.
  ghost predicate Ready(starts: seq<int>, len: nat, n: nat, c: int, rest: int, p: int, offset: int)
  {
    n >= 1 && Cursor(starts, len, c, rest, p) && rest > 0 && rest % n == 0 && offset == starts[c - 1] + len - rest
  }

  // After it was copied.
  ghost predicate Copied(starts: seq<int>, len: nat, n: nat, c: int, rest: int, p: int, offset: int)
  {
    && n >= 1 && Cursor(starts, len, c, rest, p) && rest % n == 0 && (len > 0 ==> rest < len)
    && (rest > 0 ==> offset + n == starts[c - 1] + len - rest)
  }

  // The n elements of s from position p on are a, a+1, ...
  ghost predicate PieceAt(s: seq<int>, p: nat, n: nat, a: int) {
    p + n <= |s| && s[p..p + n] == Span(a, n)
  }

  lemma LessOne(x: int, n: int)
    requires x > 0 && n > 0 && x % n == 0
    ensures x >= n && (x - n) % n == 0
  {
    var q := x / n;
    assert x == q * n;
    Distribute(q - 1, 1, n);
    assert q >= 1;
    DigitSplit(q - 1, 0, n);
  }

  lemma TakePiece(starts: seq<int>, len: nat, n: nat, c: int, rest: int, p: int, offset: int)
    requires Ready(starts, len, n, c, rest, p, offset)
    ensures rest >= n && Copied(starts, len, n, c, rest - n, p + n, offset)
    ensures 0 <= p < |Flat(starts, len)| && PieceAt(Flat(starts, len), p, n, offset)
  {
    LessOne(rest, n);
    hide Flat, Span;
    NextPiece(starts, len, c, rest, p, n);
  }

  lemma FirstPiece(starts: seq<int>, len: nat, n: nat, c: int, p: int, was: int, offset: int)
    requires len >= 1 && Divides(n, len) && Copied(starts, len, n, c, 0, p, was)
    requires c < |starts| && offset == starts[c]
    ensures Ready(starts, len, n, c + 1, len, p, offset) && c >= 0
  {
    OpenRun(starts, len, c, p);
  }

  lemma LaterPiece(starts: seq<int>, len: nat, n: nat, c: int, rest: int, p: int, offset: int)
    requires Copied(starts, len, n, c, rest, p, offset) && rest != 0
    ensures Ready(starts, len, n, c, rest, p, offset + n) && c > 0
  {
  }

  lemma Finished(starts: seq<int>, len: nat, n: nat, c: int, p: int, offset: int)
    requires Copied(starts, len, n, c, 0, p, offset) && c >= |starts|
    ensures p == |Flat(starts, len)| && c == |starts|
  {
    StreamEnd(starts, len, p);
  }

  method NextSource(rng: CeanReadRanges?, start: int, sent: int, ghost base: int, ghost starts: seq<int>,
                    ghost len: nat, ghost c: int)
    returns (more: bool, offset: int)
    requires Feed(rng, base, start, starts, len, c) && (sent == 0 <==> c == 0)
    modifies if rng == null then {} else {rng}
    ensures more <==> c < |starts|
    ensures more ==> base + offset == starts[c] && Feed(rng, base, start, starts, len, c + 1)
    ensures !more && rng != null ==> rng.currentNumber == 0
  {
    if rng != null {
      more, offset := rng.GetNextRange();
      assert more ==> StartsOf(rng, base)[c] == base + rng.Start(c);
    } else if sent == 0 {
      more, offset := true, start;
    } else {
      more, offset := false, 0;
    }
  }

  method NextDestination(rng: CeanReadRanges?, start: int, ghost base: int, ghost starts: seq<int>,
                         ghost len: nat, ghost c: int)
    returns (more: bool, offset: int)
    requires Feed(rng, base, start, starts, len, c) && (rng == null ==> c == 0)
    modifies if rng == null then {} else {rng}
    ensures more <==> c < |starts|
    ensures more ==> base + offset == starts[c] && Feed(rng, base, start, starts, len, c + 1)
  {
    if rng != null {
      more, offset := rng.GetNextRange();
      assert more ==> StartsOf(rng, base)[c] == base + rng.Start(c);
    } else {
      more, offset := true, start;
    }
  }

  // One side between two pieces.
  ghost predicate Between(rng: CeanReadRanges?, base: int, start: int, starts: seq<int>, len: nat, n: nat,
                          c: int, cur: int, isEmpty: bool, offset: int, p: nat)
    reads rng
  {
    && Feed(rng, base, start, starts, len, c) && Copied(starts, len, n, c, cur, p, base + offset)
    && Divides(n, len) && len >= 1 && (isEmpty <==> cur == 0)
  }

  // The source's next piece, or none.
  method AdvanceSource(rng: CeanReadRanges?, start: int, sent: int, isEmpty: bool, cur: int, offset: int,
                       len: nat, piece: nat, ghost base: int, ghost starts: seq<int>, ghost c: int, ghost p: nat)
    returns (more: bool, offset': int, cur': int, isEmpty': bool, ghost c': int)
    requires Between(rng, base, start, starts, len, piece, c, cur, isEmpty, offset, p) && (sent == 0 <==> c == 0)
    modifies if rng == null then {} else {rng}
    ensures more <==> p < |Flat(starts, len)|
    ensures more ==> Between(rng, base, start, starts, len, piece, c', cur', isEmpty', offset', p + piece) && c' > 0
    ensures more ==> PieceAt(Flat(starts, len), p, piece, base + offset')
    ensures !more ==> p == |Flat(starts, len)| && (rng != null ==> rng.currentNumber == 0)
  {
    hide Feed, Copied, Divides, PieceAt, Flat;
    c', cur', isEmpty' := c, cur, isEmpty;
    if isEmpty {
      more, offset' := NextSource(rng, start, sent, base, starts, len, c);
      if !more {
        Finished(starts, len, piece, c, p, base + offset);
        return;
      }
      FirstPiece(starts, len, piece, c, p, base + offset, base + offset');
      c', cur' := c + 1, len;
    } else {
      LaterPiece(starts, len, piece, c, cur, p, base + offset);
      more, offset' := true, offset + piece;
    }
    TakePiece(starts, len, piece, c', cur', p, base + offset');
    cur' := cur' - piece;
    isEmpty' := cur' == 0;
  }

  // The destination's next piece, or none.
  method AdvanceDestination(rng: CeanReadRanges?, start: int, isEmpty: bool, cur: int, offset: int,
                            len: nat, piece: nat, ghost base: int, ghost starts: seq<int>, ghost c: int, ghost p: nat)
    returns (more: bool, offset': int, cur': int, isEmpty': bool, ghost c': int)
    requires Between(rng, base, start, starts, len, piece, c, cur, isEmpty, offset, p)
    requires rng == null ==> p < |Flat(starts, len)|
    modifies if rng == null then {} else {rng}
    ensures more <==> p < |Flat(starts, len)|
    ensures more ==> Between(rng, base, start, starts, len, piece, c', cur', isEmpty', offset', p + piece)
    ensures more ==> PieceAt(Flat(starts, len), p, piece, base + offset')
    ensures !more ==> p == |Flat(starts, len)|
  {
    hide Feed, Copied, Divides, PieceAt, Flat;
    c', cur', isEmpty' := c, cur, isEmpty;
    if isEmpty {
      if rng == null {
        SingleUnused(base, start, starts, len, piece, c, p, base + offset);
      }
      more, offset' := NextDestination(rng, start, base, starts, len, c);
      if !more {
        Finished(starts, len, piece, c, p, base + offset);
        return;
      }
      FirstPiece(starts, len, piece, c, p, base + offset, base + offset');
      c', cur' := c + 1, len;
    } else {
      LaterPiece(starts, len, piece, c, cur, p, base + offset);
      more, offset' := true, offset + piece;
    }
    TakePiece(starts, len, piece, c', cur', p, base + offset');
    cur' := cur' - piece;
    isEmpty' := cur' == 0;
  }

  // Contiguous data is opened once.
  lemma SingleUnused(base: int, start: int, starts: seq<int>, len: nat, n: nat, c: int, p: nat, offset: int)
    requires Feed(null, base, start, starts, len, c) && Copied(starts, len, n, c, 0, p, offset)
    requires p < |Flat(starts, len)|
    ensures c == 0
  {
    if c >= |starts| {
      Finished(starts, len, n, c, p, offset);
    }
  }

  // The same runs in another buffer.
  ghost predicate Shifted(from: seq<int>, to: seq<int>, d: int) {
    |to| == |from| && forall k :: 0 <= k < |from| ==> to[k] == from[k] + d
  }

  lemma {:induction false} FlatShift(from: seq<int>, to: seq<int>, len: nat, d: int)
    requires Shifted(from, to, d)
    ensures Shifted(Flat(from, len), Flat(to, len), d)
    decreases |from|
  {
    if from != [] {
      FlatShift(from[..|from| - 1], to[..|from| - 1], len, d);
    }
  }

  lemma ShiftPiece(from: seq<int>, to: seq<int>, d: int, p: nat, n: nat, a: int)
    requires Shifted(from, to, d) && PieceAt(from, p, n, a)
    ensures PieceAt(to, p, n, a + d)
  {
    forall i | p <= i < p + n ensures to[i] == a + d + (i - p) {
      assert from[i] == from[p..p + n][i - p];
    }
  }

  function Smaller(a: nat, b: nat): nat {
    if a < b then a else b
  }

  // What is delivered after p bytes.
  ghost predicate Delivered(out: Mem, dst: Mem, src: Mem, to: seq<int>, from: seq<int>, p: nat) {
    p <= |to| && p <= |from| && out == Deliver(dst, src, to[..p], from[..p])
  }

  lemma StartOfStream(rng: CeanReadRanges?, base: int, start: int, starts: seq<int>, len: nat, n: nat, offset: int)
    requires Feed(rng, base, start, starts, len, 0) && Divides(n, len) && len >= 1
    ensures Between(rng, base, start, starts, len, n, 0, 0, true, offset, 0)
  {
  }

  // All of one side was copied.
  lemma AllDelivered(out: Mem, dst: Mem, src: Mem, to: seq<int>, from: seq<int>, p: nat)
    requires Delivered(out, dst, src, to, from, p) && (p == |from| || p == |to|)
    ensures Delivered(out, dst, src, to, from, Smaller(|from|, |to|))
    ensures p == |from| ==> |from| <= |to|
  {
  }

  // How many runs of len bytes hold the first p bytes of a stream.
  function Opened(p: nat, len: nat): nat
    requires len >= 1
  {
    (p + len - 1) / len
  }

  // The runs opened so far are those that hold the bytes taken so far.
  lemma OpenedRuns(starts: seq<int>, len: nat, n: nat, c: int, rest: int, p: nat, offset: int)
    requires len >= 1 && Copied(starts, len, n, c, rest, p, offset)
    ensures c == Opened(p, len)
  {
    Distribute(c - 1, 1, len);
    if rest == 0 {
      DigitSplit(c, len - 1, len);
    } else {
      DigitSplit(c, len - 1 - rest, len);
    }
  }

  // Where a reader stands when p bytes of its runs were taken.
  lemma ReaderAt(rng: CeanReadRanges?, base: int, start: int, starts: seq<int>, len: nat, n: nat,
                 c: int, cur: int, isEmpty: bool, offset: int, p: nat)
    requires Between(rng, base, start, starts, len, n, c, cur, isEmpty, offset, p)
    ensures len >= 1 && (rng != null ==> rng.currentNumber == Opened(p, len))
  {
    OpenedRuns(starts, len, n, c, cur, p, base + offset);
  }

  lemma NothingDelivered(dst: Mem, src: Mem, to: seq<int>, from: seq<int>)
    ensures Delivered(dst, dst, src, to, from, 0)
  {
  }

  // Copying n bytes from one buffer to another.
  function BufferCopy(dst: Mem, a: int, src: Mem, b: int, n: nat): Mem {
    Write(dst, a, Read(src, b, n))
  }

  // The copies 0 to n-1 of a transfer all succeeded.
  ghost predicate AllWhole(answers: nat -> Answer, n: nat) {
    forall t :: 0 <= t < n ==> answers(t).Whole?
  }

  lemma WholeOrStopped(answers: nat -> Answer, n: nat)
    requires AllWhole(answers, n)
    ensures AllWhole(answers, n + 1) <==> answers(n).Whole?
  {
  }

  lemma NoneYet(answers: nat -> Answer)
    ensures AllWhole(answers, 0)
  {
  }

  lemma PieceFront(s: seq<int>, p: nat, n: nat, a: int, m: nat)
    requires PieceAt(s, p, n, a) && m <= n
    ensures PieceAt(s, p, m, a)
  {
    assert s[p..p + m] == s[p..p + n][..m];
    assert Span(a, n)[..m] == Span(a, m);
  }

  // A piece that was copied in part.
  lemma PartDelivered(out: Mem, dst: Mem, src: Mem, to: seq<int>, from: seq<int>, p: nat, n: nat, a: int, b: int, m: nat)
    requires Delivered(out, dst, src, to, from, p) && PieceAt(to, p, n, a) && PieceAt(from, p, n, b) && m <= n
    ensures Delivered(BufferCopy(out, a, src, b, m), dst, src, to, from, p + m)
    ensures p + m <= Smaller(|from|, |to|)
  {
    PieceFront(to, p, n, a, m);
    PieceFront(from, p, n, b, m);
    PieceDelivered(out, dst, src, to, from, p, m, a, b);
  }

  lemma PieceDelivered(out: Mem, dst: Mem, src: Mem, to: seq<int>, from: seq<int>, p: nat, n: nat, a: int, b: int)
    requires Delivered(out, dst, src, to, from, p) && PieceAt(to, p, n, a) && PieceAt(from, p, n, b)
    ensures Delivered(BufferCopy(out, a, src, b, n), dst, src, to, from, p + n)
    ensures p + n <= |to| && p + n <= |from|
  {
    DeliverBlock(dst, src, to, from, p, n, a, b);
  }

  // The two sides of a transfer: lengths, one of which divides the other, and runs.
  ghost predicate Matching(into: bool, rngDst: CeanReadRanges?, lengthSrc: nat, lengthDst: nat,
                           srcBase: int, dstBase: int, from: seq<int>, to: seq<int>)
  {
    && lengthSrc >= 1 && lengthDst >= 1 && (Divides(lengthSrc, lengthDst) || Divides(lengthDst, lengthSrc))
    && (into && rngDst == null ==> |Flat(from, lengthSrc)| <= |Flat(to, lengthDst)|)
    && (!into ==> lengthDst == lengthSrc && Shifted(from, to, dstBase - srcBase))
  }

  lemma MatchingLengths(into: bool, rngDst: CeanReadRanges?, lengthSrc: nat, lengthDst: nat,
                        srcBase: int, dstBase: int, from: seq<int>, to: seq<int>)
    requires Matching(into, rngDst, lengthSrc, lengthDst, srcBase, dstBase, from, to)
    ensures lengthSrc >= 1 && lengthDst >= 1
    ensures Divides(Smaller(lengthSrc, lengthDst), lengthSrc) && Divides(Smaller(lengthSrc, lengthDst), lengthDst)
    ensures Smaller(lengthSrc, lengthDst) == if lengthSrc < lengthDst then lengthSrc else lengthDst
    ensures into && rngDst == null ==> |Flat(from, lengthSrc)| <= |Flat(to, lengthDst)|
    ensures !into ==> lengthDst == lengthSrc && |Flat(from, lengthSrc)| == |Flat(to, lengthDst)|
    ensures !into ==> Shifted(Flat(from, lengthSrc), Flat(to, lengthDst), dstBase - srcBase)
  {
    if !into {
      FlatShift(from, to, lengthSrc, dstBase - srcBase);
    }
    if lengthSrc == lengthDst {
      assert lengthSrc % lengthDst == 0;
    } else if lengthSrc < lengthDst {
      SmallMod(lengthSrc, lengthDst);
    } else {
      SmallMod(lengthDst, lengthSrc);
    }
    SelfMod(lengthSrc);
    SelfMod(lengthDst);
  }

  lemma SelfMod(n: nat)
    requires n >= 1
    ensures n % n == 0
  {
  }

  lemma SmallMod(a: nat, b: nat)
    requires 1 <= a < b
    ensures a % b == a
  {
  }

  // The loop shared by sending and receiving.  from and to are the addresses of the
  // source's and the destination's runs; answers(t) is the outcome of the t-th copy, at
  // the first failing of which the loop gives up.  n bytes were copied in copies calls.
  method Stream(rngSrc: CeanReadRanges?, rngDst: CeanReadRanges?, into: bool, lengthSrc: nat, lengthDst: nat,
                srcStart: int, dstStart: int, src: Mem, srcBase: int, dst: Mem, dstBase: int, receiving: bool,
                answers: nat -> Answer, ghost from: seq<int>, ghost to: seq<int>)
    returns (ok: bool, out: Mem, copies: nat, ghost n: nat)
    requires Matching(into, rngDst, lengthSrc, lengthDst, srcBase, dstBase, from, to)
    requires rngSrc == null || rngSrc != rngDst
    requires Feed(rngSrc, srcBase, srcStart, from, lengthSrc, 0)
    requires into ==> Feed(rngDst, dstBase, dstStart, to, lengthDst, 0)
    modifies if rngSrc == null then {} else {rngSrc}
    modifies if rngDst == null then {} else {rngDst}
    ensures ok <==> |Flat(from, lengthSrc)| <= |Flat(to, lengthDst)| && AllWhole(answers, copies)
    ensures n <= Smaller(|Flat(from, lengthSrc)|, |Flat(to, lengthDst)|)
    ensures AllWhole(answers, copies) ==> n == Smaller(|Flat(from, lengthSrc)|, |Flat(to, lengthDst)|)
    ensures Delivered(out, dst, src, Flat(to, lengthDst), Flat(from, lengthSrc), n)
    ensures ok && rngSrc != null ==> rngSrc.currentNumber == 0
    ensures ok && into && rngDst != null ==>
      lengthDst >= 1 && rngDst.currentNumber == Opened(|Flat(from, lengthSrc)|, lengthDst)
  {
    hide *;
    MatchingLengths(into, rngDst, lengthSrc, lengthDst, srcBase, dstBase, from, to);
    ghost var S, D := Flat(from, lengthSrc), Flat(to, lengthDst);
    var piece := if lengthSrc < lengthDst then lengthSrc else lengthDst;
    var sent, srcIsEmpty, dstIsEmpty := 0, true, true;
    var offsetSrc, offsetDst, lengthSrcCur, lengthDstCur := 0, 0, 0, 0;
    ghost var c, e, p: nat := 0, 0, 0;
    StartOfStream(rngSrc, srcBase, srcStart, from, lengthSrc, piece, offsetSrc);
    if into {
      StartOfStream(rngDst, dstBase, dstStart, to, lengthDst, piece, offsetDst);
    }
    NothingDelivered(dst, src, D, S);
    NoneYet(answers);
    out, copies := dst, 0;
    while true
      invariant p <= |S| && sent >= 0 && (sent == 0 <==> c == 0)
      invariant Between(rngSrc, srcBase, srcStart, from, lengthSrc, piece, c, lengthSrcCur, srcIsEmpty, offsetSrc, p)
      invariant into ==>
        Between(rngDst, dstBase, dstStart, to, lengthDst, piece, e, lengthDstCur, dstIsEmpty, offsetDst, p)
      invariant !into ==> dstIsEmpty
      invariant Delivered(out, dst, src, D, S, p) && AllWhole(answers, copies)
      decreases |S| - p
    {
      var more;
      more, offsetSrc, lengthSrcCur, srcIsEmpty, c := AdvanceSource(
        rngSrc, srcStart, sent, srcIsEmpty, lengthSrcCur, offsetSrc, lengthSrc, piece, srcBase, from, c, p);
      if !more {
        break;
      }
      if into {
        more, offsetDst, lengthDstCur, dstIsEmpty, e := AdvanceDestination(
          rngDst, dstStart, dstIsEmpty, lengthDstCur, offsetDst, lengthDst, piece, dstBase, to, e, p);
        if !more {
          AllDelivered(out, dst, src, D, S, p);
          return false, out, copies, Smaller(|S|, |D|);
        }
      } else {
        offsetDst := offsetSrc;
        lengthDstCur := lengthDst - piece;
        dstIsEmpty := lengthDstCur == 0;
        ShiftPiece(S, D, dstBase - srcBase, p, piece, srcBase + offsetSrc);
      }
      WholeOrStopped(answers, copies);
      var moved := Extent(answers(copies), piece);
      PartDelivered(out, dst, src, D, S, p, piece, dstBase + offsetDst, srcBase + offsetSrc, moved);
      out := BufferCopy(out, dstBase + offsetDst, src, srcBase + offsetSrc, moved);
      copies := copies + 1;
      if !answers(copies - 1).Whole? {
        return false, out, copies, p + moved;
      }
      p := p + piece;
      sent := sent + if receiving then piece else lengthSrc;
    }
    AllDelivered(out, dst, src, D, S, p);
    if into {
      ReaderAt(rngDst, dstBase, dstStart, to, lengthDst, piece, e, lengthDstCur, dstIsEmpty, offsetDst, p);
    }
    ok, n := true, Smaller(|S|, |D|);
  }

  // ------------------------------------------------------------ sending and receiving

  // The bytes on one side of a transfer, in the order they are transferred.
  ghost function SideBytes(rng: CeanReadRanges?, base: int, start: int, size: nat): seq<int>
    requires rng != null ==> rng.Valid()
    reads rng
  {
    if rng == null then Span(base + start, size) else rng.Bytes(base)
  }

  ghost function RunLength(rng: CeanReadRanges?, size: nat): nat
    requires rng != null ==> rng.Valid()
    reads rng
  {
    if rng == null then size else rng.rangeSize
  }

  ghost function SideStarts(rng: CeanReadRanges?, base: int, start: int): seq<int>
    requires rng != null ==> rng.Valid()
    reads rng
  {
    if rng == null then [base + start] else StartsOf(rng, base)
  }

  lemma SideIsFlat(rng: CeanReadRanges?, base: int, start: int, size: nat)
    requires rng != null ==> rng.Valid()
    ensures SideBytes(rng, base, start, size) == Flat(SideStarts(rng, base, start), RunLength(rng, size))
  {
    if rng == null {
      assert Flat([base + start][..0], size) == [];
    } else {
      RunsAreFlat(rng.dims, rng.rangeSize, base + rng.initOffset, rng.rangeMaxNumber);
    }
  }

  // What the descriptor set-up guarantees: readers at their beginning, one run length a
  // multiple of the other, and contiguous destinations large enough.
  ghost predicate Prepared(rngSrc: CeanReadRanges?, rngDst: CeanReadRanges?, into: bool, size: nat,
                           srcStart: int, dstStart: int)
    reads rngSrc, rngDst
  {
    && (rngSrc != null ==> rngSrc.Valid() && rngSrc.currentNumber == 0)
    && (rngDst != null ==> rngDst.Valid() && rngDst.currentNumber == 0)
    && (rngSrc == null || rngSrc != rngDst)
    && RunLength(rngSrc, size) >= 1
    && (into ==> RunLength(rngDst, size) >= 1)
    && (into ==>
          || Divides(RunLength(rngSrc, size), RunLength(rngDst, size))
          || Divides(RunLength(rngDst, size), RunLength(rngSrc, size)))
    && (into && rngDst == null ==> |SideBytes(rngSrc, 0, srcStart, size)| <= size)
  }

  // Where the bytes go: without an into clause the destination has the source's shape.
  ghost function Target(rngSrc: CeanReadRanges?, rngDst: CeanReadRanges?, into: bool, size: nat,
                        srcStart: int, dstStart: int, dstBase: int): seq<int>
    requires Prepared(rngSrc, rngDst, into, size, srcStart, dstStart)
    reads rngSrc, rngDst
  {
    if into then SideBytes(rngDst, dstBase, dstStart, size) else SideBytes(rngSrc, dstBase, srcStart, size)
  }

  // A transfer succeeds exactly if there is room and every copy succeeds.  Then every source
  // byte went to its destination; otherwise a first part of them did, up to the end of the
  // destination if it was no copy that failed.
  ghost predicate Transferred(ok: bool, whole: bool, out: Mem, dst: Mem, src: Mem, to: seq<int>, from: seq<int>) {
    && (ok <==> |from| <= |to| && whole)
    && (ok ==> out == Deliver(dst, src, to[..|from|], from))
    && (whole ==> Delivered(out, dst, src, to, from, Smaller(|from|, |to|)))
    && exists n: nat :: Delivered(out, dst, src, to, from, n)
  }

  method Transfer(rngSrc: CeanReadRanges?, rngDst: CeanReadRanges?, into: bool, size: nat, srcStart: int, dstStart: int,
                  src: Mem, srcBase: int, dst: Mem, dstBase: int, receiving: bool, answers: nat -> Answer)
    returns (ok: bool, out: Mem, copies: nat)
    requires Prepared(rngSrc, rngDst, into, size, srcStart, dstStart)
    modifies if rngSrc == null then {} else {rngSrc}
    modifies if rngDst == null then {} else {rngDst}
    ensures Transferred(ok, AllWhole(answers, copies), out, dst, src,
                        old(Target(rngSrc, rngDst, into, size, srcStart, dstStart, dstBase)),
                        old(SideBytes(rngSrc, srcBase, srcStart, size)))
    ensures ok && rngSrc != null ==> rngSrc.currentNumber == 0
    ensures ok && into && rngDst != null ==>
      old(rngDst.rangeSize) >= 1 &&
      rngDst.currentNumber == Opened(|old(SideBytes(rngSrc, srcBase, srcStart, size))|, old(rngDst.rangeSize))
  {
    hide *;
    ghost var from, to := TransferReady(rngSrc, rngDst, into, size, srcStart, dstStart, srcBase, dstBase);
    ghost var S := SideBytes(rngSrc, srcBase, srcStart, size);
    ghost var T := Target(rngSrc, rngDst, into, size, srcStart, dstStart, dstBase);
    var lengthSrc := if rngSrc != null then rngSrc.rangeSize else size;
    var lengthDst := if !into then lengthSrc else if rngDst != null then rngDst.rangeSize else size;
    ghost var n;
    ok, out, copies, n := Stream(rngSrc, rngDst, into, lengthSrc, lengthDst, srcStart, dstStart, src, srcBase, dst,
                                 dstBase, receiving, answers, from, to);
    TransferDone(ok, AllWhole(answers, copies), out, dst, src, T, S, n);
  }

  lemma TransferDone(ok: bool, whole: bool, out: Mem, dst: Mem, src: Mem, to: seq<int>, from: seq<int>, n: nat)
    requires ok <==> |from| <= |to| && whole
    requires Delivered(out, dst, src, to, from, n) && (whole ==> n == Smaller(|from|, |to|))
    ensures Transferred(ok, whole, out, dst, src, to, from)
  {
    if ok {
      assert from[..|from|] == from;
      assert Smaller(|from|, |to|) == |from|;
    }
  }

  lemma TransferReady(rngSrc: CeanReadRanges?, rngDst: CeanReadRanges?, into: bool, size: nat,
                      srcStart: int, dstStart: int, srcBase: int, dstBase: int)
    returns (from: seq<int>, to: seq<int>)
    requires Prepared(rngSrc, rngDst, into, size, srcStart, dstStart)
    ensures rngSrc != null ==> rngSrc.Valid() && rngSrc.rangeSize >= 0
    ensures into && rngDst != null ==> rngDst.Valid() && rngDst.rangeSize >= 0
    ensures rngSrc == null || rngSrc != rngDst
    ensures Feed(rngSrc, srcBase, srcStart, from, RunLength(rngSrc, size), 0)
    ensures into ==> Feed(rngDst, dstBase, dstStart, to, RunLength(rngDst, size), 0)
    ensures Matching(into, rngDst, RunLength(rngSrc, size), RunLength(if into then rngDst else rngSrc, size),
                     srcBase, dstBase, from, to)
    ensures RunLength(rngSrc, size) == if rngSrc == null then size else rngSrc.rangeSize
    ensures RunLength(rngDst, size) == if rngDst == null then size else rngDst.rangeSize
    ensures SideBytes(rngSrc, srcBase, srcStart, size) == Flat(from, RunLength(rngSrc, size))
    ensures Target(rngSrc, rngDst, into, size, srcStart, dstStart, dstBase)
         == Flat(to, RunLength(if into then rngDst else rngSrc, size))
  {
    from := SideStarts(rngSrc, srcBase, srcStart);
    to := if into then SideStarts(rngDst, dstBase, dstStart) else SideStarts(rngSrc, dstBase, srcStart);
    SelfMod(RunLength(rngSrc, size));
    SideIsFlat(rngSrc, 0, srcStart, size);
    SideIsFlat(rngSrc, srcBase, srcStart, size);
    SideIsFlat(rngSrc, dstBase, srcStart, size);
    SideIsFlat(rngDst, dstBase, dstStart, size);
    FlatShift(SideStarts(rngSrc, 0, srcStart), SideStarts(rngSrc, srcBase, srcStart), RunLength(rngSrc, size), srcBase);
    hide Flat, Runs, Span, StartList, Divides;
  }

  // Sending: contiguous sources start at cpuDisp, contiguous destinations at disp.
  method SendNoncontiguousPointerData(rngSrc: CeanReadRanges?, rngDst: CeanReadRanges?, into: bool, size: nat,
                                      cpuDisp: int, disp: int, host: Mem, hostBase: int, device: Mem, deviceBase: int,
                                      answers: nat -> Answer)
    returns (ok: bool, device': Mem, copies: nat)
    requires Prepared(rngSrc, rngDst, into, size, cpuDisp, disp)
    modifies if rngSrc == null then {} else {rngSrc}
    modifies if rngDst == null then {} else {rngDst}
    ensures Transferred(ok, AllWhole(answers, copies), device', device, host,
                        old(Target(rngSrc, rngDst, into, size, cpuDisp, disp, deviceBase)),
                        old(SideBytes(rngSrc, hostBase, cpuDisp, size)))
    ensures ok && rngSrc != null ==> rngSrc.currentNumber == 0
  {
    ok, device', copies := Transfer(rngSrc, rngDst, into, size, cpuDisp, disp, host, hostBase, device, deviceBase,
                                    false, answers);
  }

  // Receiving: contiguous sources start at 0, contiguous destinations at cpuDisp.
  method ReceiveNoncontiguousPointerData(rngSrc: CeanReadRanges?, rngDst: CeanReadRanges?, into: bool, size: nat,
                                         cpuDisp: int, device: Mem, deviceBase: int, host: Mem, hostBase: int,
                                         answers: nat -> Answer)
    returns (ok: bool, host': Mem, copies: nat)
    requires Prepared(rngSrc, rngDst, into, size, 0, cpuDisp)
    modifies if rngSrc == null then {} else {rngSrc}
    modifies if rngDst == null then {} else {rngDst}
    ensures Transferred(ok, AllWhole(answers, copies), host', host, device,
                        old(Target(rngSrc, rngDst, into, size, 0, cpuDisp, hostBase)),
                        old(SideBytes(rngSrc, deviceBase, 0, size)))
    ensures ok && rngSrc != null ==> rngSrc.currentNumber == 0
  {
    ok, host', copies := Transfer(rngSrc, rngDst, into, size, 0, cpuDisp, device, deviceBase, host, hostBase, true,
                                  answers);
  }

  // A transfer into an array section: if it succeeds, the section's k-th byte receives the
  // k-th source byte; in any case no byte outside the section changes.
  lemma SectionReceivesStream(ok: bool, whole: bool, out: Mem, dst: Mem, src: Mem, d: seq<Dim>, b: int, from: seq<int>)
    requires d != [] && DescOk(d) && Transferred(ok, whole, out, dst, src, ArrayBytes(d, b), from)
    ensures out.Keys == dst.Keys && (ok ==> |from| <= |ArrayBytes(d, b)|)
    ensures ok ==> forall k :: 0 <= k < |from| && ArrayBytes(d, b)[k] in dst && from[k] in src ==>
      out[ArrayBytes(d, b)[k]] == src[from[k]]
    ensures forall x :: x in dst && x !in ArrayBytes(d, b) ==> out[x] == dst[x]
  {
    var to := ArrayBytes(d, b);
    assert DimOk(d[|d| - 1]);
    SectionIncreasing(d, d[|d| - 1].size, b);
    var n: nat :| Delivered(out, dst, src, to, from, n);
    DeliveredOnce(dst, src, to[..n], from[..n]);
    hide Deliver, ArrayBytes, Section, DescOk;
    if ok {
      DeliveredOnce(dst, src, to[..|from|], from);
      assert forall k :: 0 <= k < |from| ==> to[..|from|][k] == to[k];
    }
  }
}
