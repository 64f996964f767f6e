/** Tables of offloaded variables: their serial form, a buffer of entries followed by
    their names, and what reading it back on the other side gives.  Matching of host
    with target entries is in EntryMatching. */
module VarTable {
  import opened Memory
  import opened CStrings

  // A NUL-free name.
  type Name = s: seq<Byte> | NulFree(s)

  // A table slot; slots without a name are holes between contributions.
  datatype Slot = Hole | Slot(entry: Entry)

  datatype Entry = Entry(name: Name, addr: nat, size: nat)

  const WORD_SIZE: nat := 8
  const ENTRY_SIZE: nat := 16

  // ------------------------------------------------------------ entries of a table list

  function Named(slots: seq<Slot>): seq<Entry> {
    if slots == [] then []
    else
      var k := |slots| - 1;
      Named(slots[..k]) + if slots[k].Hole? then [] else [slots[k].entry]
  }

  function Entries(tables: seq<seq<Slot>>): seq<Entry> {
    if tables == [] then [] else Entries(tables[..|tables| - 1]) + Named(tables[|tables| - 1])
  }

  // ------------------------------------------------------------ the serial form

  // The names, each closed by a NUL.
  function Strings(es: seq<Entry>): seq<Byte> {
    if es == [] then [] else Strings(es[..|es| - 1]) + es[|es| - 1].name + [0]
  }

  // The entries: each the position of its name (names start at off) and its address.
  function Heads(es: seq<Entry>, off: nat): seq<Byte> {
    if es == [] then []
    else
      var front := es[..|es| - 1];
      Heads(front, off) + (Encode(off + |Strings(front)|, WORD_SIZE) + Encode(es[|es| - 1].addr, WORD_SIZE))
  }

  // A buffer at address base that holds the entries.
  function Image(es: seq<Entry>, base: nat): seq<Byte> {
    Heads(es, base + ENTRY_SIZE * |es|) + Strings(es)
  }

  lemma {:induction false} HeadsLength(es: seq<Entry>, off: nat)
    ensures |Heads(es, off)| == ENTRY_SIZE * |es|
    decreases |es|
  {
    if es != [] {
      HeadsLength(es[..|es| - 1], off);
    }
  }

  // ------------------------------------------------------------ reading it back

  function WordAt(buf: seq<Byte>, pos: nat): nat
    requires pos + WORD_SIZE <= |buf|
  {
    Decode(buf[pos..pos + WORD_SIZE])
  }

  lemma SliceLeft(a: seq<Byte>, b: seq<Byte>, i: nat, j: nat)
    requires i <= j <= |a|
    ensures (a + b)[i..j] == a[i..j]
  {
  }

  lemma SliceRight(a: seq<Byte>, b: seq<Byte>, i: nat, j: nat)
    requires i <= j <= |b|
    ensures (a + b)[|a| + i..|a| + j] == b[i..j]
  {
  }

  lemma SlicePrefix(buf: seq<Byte>, s: seq<Byte>, i: nat, j: nat)
    requires i <= j <= |s| <= |buf| && buf[..|s|] == s
    ensures buf[i..j] == s[i..j]
  {
    forall k | i <= k < j ensures buf[k] == s[k] {
      assert buf[..|s|][k] == buf[k];
    }
  }

  lemma HeadsUnfold(es: seq<Entry>, off: nat)
    requires es != []
    ensures Heads(es, off) == Heads(es[..|es| - 1], off)
         + (Encode(off + |Strings(es[..|es| - 1])|, WORD_SIZE) + Encode(es[|es| - 1].addr, WORD_SIZE))
  {
    hide Encode, Strings;
  }

  lemma Prefix(es: seq<Entry>, i: nat, k: nat)
    requires i <= k <= |es|
    ensures es[..k][..i] == es[..i]
  {
  }

  lemma {:induction false} HeadAt(es: seq<Entry>, off: nat, i: nat)
    requires i < |es|
    ensures |Heads(es, off)| == ENTRY_SIZE * |es|
    ensures Heads(es, off)[ENTRY_SIZE * i..ENTRY_SIZE * i + ENTRY_SIZE]
         == Encode(off + |Strings(es[..i])|, WORD_SIZE) + Encode(es[i].addr, WORD_SIZE)
    decreases |es|
  {
    hide Encode, Strings, Heads;
    var k := |es| - 1;
    var front := es[..k];
    HeadsLength(front, off);
    HeadsLength(es, off);
    HeadsUnfold(es, off);
    var last := Encode(off + |Strings(front)|, WORD_SIZE) + Encode(es[k].addr, WORD_SIZE);
    if i < k {
      HeadAt(front, off, i);
      Prefix(es, i, k);
      SliceLeft(Heads(front, off), last, ENTRY_SIZE * i, ENTRY_SIZE * i + ENTRY_SIZE);
    } else {
      SliceRight(Heads(front, off), last, 0, ENTRY_SIZE);
    }
  }

  lemma {:induction false} StringsAt(es: seq<Entry>, i: nat)
    requires i < |es|
    ensures |Strings(es[..i])| + |es[i].name| < |Strings(es)|
    ensures Strings(es)[|Strings(es[..i])|..|Strings(es[..i])| + |es[i].name|] == es[i].name
    ensures Strings(es)[|Strings(es[..i])| + |es[i].name|] == 0
    decreases |es|
  {
    var k := |es| - 1;
    var front := es[..k];
    if i < k {
      StringsAt(front, i);
      assert front[..i] == es[..i];
    }
  }

  // Every entry of a buffer reads back as the name and address it was made from.
  lemma ReadBack(es: seq<Entry>, base: nat, buf: seq<Byte>, i: nat)
    requires i < |es| && |Image(es, base)| <= |buf| && buf[..|Image(es, base)|] == Image(es, base)
    requires base + |Image(es, base)| < WORD && es[i].addr < WORD
    ensures ENTRY_SIZE * i + ENTRY_SIZE <= |buf| && base <= WordAt(buf, ENTRY_SIZE * i)
    ensures StringAt(buf, WordAt(buf, ENTRY_SIZE * i) - base) == es[i].name
    ensures WordAt(buf, ENTRY_SIZE * i + WORD_SIZE) == es[i].addr
  {
    hide Heads, Strings, Encode, WordAt, StringAt;
    var off := base + ENTRY_SIZE * |es|;
    var p := |Strings(es[..i])|;
    HeadAt(es, off, i);
    StringsAt(es, i);
    WordsSplit(buf, ENTRY_SIZE * i, off + p, es[i].addr, Heads(es, off), Strings(es));
    NameInside(buf, Heads(es, off), Strings(es), p, es[i].name);
    StringFound(buf, ENTRY_SIZE * |es| + p, es[i].name);
  }

  lemma WordsSplit(buf: seq<Byte>, pos: nat, v: nat, w: nat, heads: seq<Byte>, strings: seq<Byte>)
    requires pos + ENTRY_SIZE <= |heads| && |heads + strings| <= |buf| && buf[..|heads + strings|] == heads + strings
    requires heads[pos..pos + ENTRY_SIZE] == Encode(v, WORD_SIZE) + Encode(w, WORD_SIZE) && v < WORD && w < WORD
    ensures WordAt(buf, pos) == v && WordAt(buf, pos + WORD_SIZE) == w
  {
    hide Encode, Decode;
    var both := Encode(v, WORD_SIZE) + Encode(w, WORD_SIZE);
    SlicePrefix(buf, heads + strings, pos, pos + ENTRY_SIZE);
    SliceLeft(heads, strings, pos, pos + ENTRY_SIZE);
    SliceOfSlice(buf, pos, pos + ENTRY_SIZE, 0, WORD_SIZE);
    SliceOfSlice(buf, pos, pos + ENTRY_SIZE, WORD_SIZE, ENTRY_SIZE);
    WordDecodes(v);
    WordDecodes(w);
  }

  lemma SliceOfSlice(buf: seq<Byte>, a: nat, b: nat, i: nat, j: nat)
    requires a <= b <= |buf| && i <= j <= b - a
    ensures buf[a..b][i..j] == buf[a + i..a + j]
  {
    forall k | 0 <= k < j - i ensures buf[a..b][i..j][k] == buf[a + i..a + j][k] {
      assert buf[a..b][i + k] == buf[a + i + k];
    }
  }

  lemma WordDecodes(v: nat)
    requires v < WORD
    ensures Decode(Encode(v, WORD_SIZE)) == v
  {
    assert Pow256(8) == WORD by {
      assert Pow256(4) == 0x1_0000_0000;
      assert Pow256(6) == 0x1_0000_0000_0000;
    }
    DecodeEncode(v, WORD_SIZE);
  }

  lemma NameInside(buf: seq<Byte>, heads: seq<Byte>, strings: seq<Byte>, p: nat, name: Name)
    requires |heads + strings| <= |buf| && buf[..|heads + strings|] == heads + strings
    requires p + |name| < |strings| && strings[p..p + |name|] == name && strings[p + |name|] == 0
    ensures buf[|heads| + p..|heads| + p + |name|] == name && buf[|heads| + p + |name|] == 0
  {
    var a := |heads| + p;
    SlicePrefix(buf, heads + strings, a, a + |name|);
    SliceRight(heads, strings, p, p + |name|);
    assert buf[..|heads + strings|][a + |name|] == strings[p + |name|];
  }

  // ------------------------------------------------------------ writing a buffer

  // The element count and the buffer size.
  method TableSize(tables: seq<seq<Slot>>) returns (size: nat, nelems: nat)
    ensures nelems == |Entries(tables)|
    ensures forall base: nat :: size == |Image(Entries(tables), base)|
  {
    hide *;
    var length: nat := 0;
    nelems := 0;
    NoEntries(tables);
    for n := 0 to |tables|
      invariant Counted(Entries(tables[..n]), nelems, length)
    {
      ProgressStart(tables, n);
      for e := 0 to |tables[n]|
        invariant Counted(Progress(tables, n, e), nelems, length)
      {
        ProgressStep(tables, n, e);
        match tables[n][e]
        case Hole =>
        case Slot(entry) =>
          CountedStep(Progress(tables, n, e), entry, nelems, length);
          length := length + |entry.name| + 1;
          nelems := nelems + 1;
      }
      ProgressDone(tables, n);
    }
    size := nelems * 16 + length;
    CountedAll(tables, nelems, length);
  }

  ghost predicate Counted(es: seq<Entry>, nelems: nat, length: nat) {
    nelems == |es| && length == |Strings(es)|
  }

  lemma NoEntries(tables: seq<seq<Slot>>)
    ensures Entries(tables[..0]) == [] && Counted([], 0, 0)
  {
  }

  lemma CountedStep(es: seq<Entry>, e: Entry, nelems: nat, length: nat)
    requires Counted(es, nelems, length)
    ensures Counted(es + [e], nelems + 1, length + |e.name| + 1)
  {
    StringsStep(es, e);
  }

  lemma CountedAll(tables: seq<seq<Slot>>, nelems: nat, length: nat)
    requires Counted(Entries(tables[..|tables|]), nelems, length)
    ensures nelems == |Entries(tables)|
    ensures forall base: nat :: nelems * 16 + length == |Image(Entries(tables), base)|
  {
    hide Entries, Heads, Strings;
    assert tables[..|tables|] == tables;
    forall base: nat ensures nelems * 16 + length == |Image(Entries(tables), base)| {
      ImageLength(Entries(tables), base);
    }
  }

  lemma ImageLength(es: seq<Entry>, base: nat)
    ensures |Image(es, base)| == 16 * |es| + |Strings(es)|
  {
    hide Heads, Strings;
    HeadsLength(es, base + ENTRY_SIZE * |es|);
  }

  // The entries before slot e of table n.
  ghost function Progress(tables: seq<seq<Slot>>, n: nat, e: nat): seq<Entry>
    requires n < |tables| && e <= |tables[n]|
  {
    Entries(tables[..n]) + Named(tables[n][..e])
  }

  lemma ProgressStart(tables: seq<seq<Slot>>, n: nat)
    requires n < |tables|
    ensures Progress(tables, n, 0) == Entries(tables[..n])
  {
    assert tables[n][..0] == [];
  }

  lemma ProgressStep(tables: seq<seq<Slot>>, n: nat, e: nat)
    requires n < |tables| && e < |tables[n]|
    ensures Progress(tables, n, e + 1)
         == if tables[n][e].Hole? then Progress(tables, n, e) else Progress(tables, n, e) + [tables[n][e].entry]
  {
    assert tables[n][..e + 1][..e] == tables[n][..e];
  }

  lemma ProgressDone(tables: seq<seq<Slot>>, n: nat)
    requires n < |tables|
    ensures Progress(tables, n, |tables[n]|) == Entries(tables[..n + 1])
  {
    assert tables[n][..|tables[n]|] == tables[n];
    assert tables[..n + 1][..n] == tables[..n];
  }

  lemma StringsStep(es: seq<Entry>, e: Entry)
    ensures Strings(es + [e]) == Strings(es) + e.name + [0]
  {
    assert (es + [e])[..|es|] == es;
  }

  lemma HeadsStep(es: seq<Entry>, e: Entry, off: nat)
    ensures Heads(es + [e], off)
         == Heads(es, off) + (Encode(off + |Strings(es)|, WORD_SIZE) + Encode(e.addr, WORD_SIZE))
  {
    hide Encode, Strings;
    assert (es + [e])[..|es|] == es;
  }

  // s with bytes at position pos.
  function Put(s: seq<Byte>, pos: nat, bytes: seq<Byte>): (r: seq<Byte>)
    requires pos + |bytes| <= |s|
    ensures |r| == |s|
  {
    s[..pos] + bytes + s[pos + |bytes|..]
  }

  method PutWord(buf: array<Byte>, pos: nat, v: nat)
    requires pos + WORD_SIZE <= buf.Length
    modifies buf
    ensures buf[..] == Put(old(buf[..]), pos, Encode(v, WORD_SIZE))
  {
    var bytes := Encode(v, WORD_SIZE);
    forall i | 0 <= i < WORD_SIZE {
      buf[pos + i] := bytes[i];
    }
  }

  // Copies a name and its NUL.
  method PutName(buf: array<Byte>, pos: nat, name: Name)
    requires pos + |name| < buf.Length
    modifies buf
    ensures buf[..] == Put(old(buf[..]), pos, name + [0])
  {
    var i := 0;
    while i < |name|
      invariant 0 <= i <= |name|
      invariant forall k :: 0 <= k < buf.Length ==>
        buf[k] == if pos <= k < pos + i then name[k - pos] else old(buf[k])
    {
      buf[pos + i] := name[i];
      i := i + 1;
    }
    buf[pos + i] := 0;
  }

  // The parts of a buffer: heads at its front, names from mid on, and the bytes behind it.
  ghost predicate Layout(s: seq<Byte>, heads: seq<Byte>, mid: nat, names: seq<Byte>, size: nat, tail: seq<Byte>) {
    && |heads| <= mid && mid + |names| <= size <= |s|
    && s[..|heads|] == heads && s[mid..mid + |names|] == names && s[size..] == tail
  }

  lemma PutHead(s: seq<Byte>, heads: seq<Byte>, mid: nat, names: seq<Byte>, size: nat, tail: seq<Byte>, bytes: seq<Byte>)
    requires Layout(s, heads, mid, names, size, tail) && |heads| + |bytes| <= mid
    ensures Layout(Put(s, |heads|, bytes), heads + bytes, mid, names, size, tail)
  {
    var r := Put(s, |heads|, bytes);
    assert r[..|heads|] == s[..|heads|];
    assert forall k :: |heads| + |bytes| <= k < |s| ==> r[k] == s[k];
    assert r[..|heads + bytes|] == heads + bytes;
    assert r[mid..mid + |names|] == s[mid..mid + |names|];
  }

  lemma PutTail(s: seq<Byte>, heads: seq<Byte>, mid: nat, names: seq<Byte>, size: nat, tail: seq<Byte>, bytes: seq<Byte>)
    requires Layout(s, heads, mid, names, size, tail) && mid + |names| + |bytes| <= size
    ensures Layout(Put(s, mid + |names|, bytes), heads, mid, names + bytes, size, tail)
  {
    var q := mid + |names|;
    var r := Put(s, q, bytes);
    assert forall k :: 0 <= k < q ==> r[k] == s[k];
    assert r[..|heads|] == s[..|heads|];
    assert r[mid..q] == s[mid..q];
    assert r[q..q + |bytes|] == bytes;
    assert r[mid..mid + |names + bytes|] == names + bytes;
    assert r[size..] == s[size..];
  }

  // Of n entries those in es are written; the bytes behind the buffer's size are tail.
  ghost predicate Filled(s: seq<Byte>, es: seq<Entry>, n: nat, size: nat, tail: seq<Byte>) {
    && |es| <= n
    && Layout(s, Heads(es, ENTRY_SIZE * n), ENTRY_SIZE * n, Strings(es), size, tail)
  }

  lemma FilledStep(s: seq<Byte>, es: seq<Entry>, e: Entry, n: nat, size: nat, tail: seq<Byte>, h: nat, q: nat)
    requires Filled(s, es, n, size, tail) && |es| < n && ENTRY_SIZE * n + |Strings(es + [e])| <= size
    requires h == ENTRY_SIZE * |es| && q == ENTRY_SIZE * n + |Strings(es)|
    ensures h + ENTRY_SIZE <= |s| && q + |e.name| + 1 <= |s|
    ensures Filled(Put(Put(Put(s, h, Encode(q, WORD_SIZE)), h + WORD_SIZE, Encode(e.addr, WORD_SIZE)), q, e.name + [0]),
                   es + [e], n, size, tail)
    ensures q + |e.name| + 1 == ENTRY_SIZE * n + |Strings(es + [e])|
  {
    hide Put, Encode, Strings, Heads, Layout;
    var mid, a, b := ENTRY_SIZE * n, Encode(q, WORD_SIZE), Encode(e.addr, WORD_SIZE);
    var heads, names := Heads(es, mid), Strings(es);
    HeadsLength(es, mid);
    StringsStep(es, e);
    HeadsStep(es, e, mid);
    LayoutFits(s, heads, mid, names, size, tail);
    PutHead(s, heads, mid, names, size, tail, a);
    PutHead(Put(s, h, a), heads + a, mid, names, size, tail, b);
    PutTail(Put(Put(s, h, a), h + WORD_SIZE, b), heads + a + b, mid, names, size, tail, e.name + [0]);
    assert heads + a + b == heads + (a + b) && names + (e.name + [0]) == names + e.name + [0];
  }

  lemma LayoutFits(s: seq<Byte>, heads: seq<Byte>, mid: nat, names: seq<Byte>, size: nat, tail: seq<Byte>)
    requires Layout(s, heads, mid, names, size, tail)
    ensures |heads| <= mid && mid + |names| <= size <= |s|
  {
  }

  lemma {:induction false} StringsPrefix(es: seq<Entry>, k: nat)
    requires k <= |es|
    ensures |Strings(es[..k])| <= |Strings(es)|
    decreases |es|
  {
    if k < |es| {
      StringsPrefix(es[..|es| - 1], k);
      Prefix(es, k, |es| - 1);
    } else {
      assert es[..k] == es;
    }
  }

  // The entries written so far fit into the buffer.
  lemma Room(tables: seq<seq<Slot>>, n: nat, e: nat)
    requires n < |tables| && e <= |tables[n]|
    ensures Progress(tables, n, e) <= Entries(tables)
    ensures |Strings(Progress(tables, n, e))| <= |Strings(Entries(tables))|
  {
    hide Strings;
    NamedPrefix(tables[n], e);
    EntriesPrefix(tables, n + 1);
    assert Entries(tables[..n + 1]) == Entries(tables[..n]) + Named(tables[n]) by {
      assert tables[..n + 1][..n] == tables[..n];
    }
    assert Entries(tables)[..|Progress(tables, n, e)|] == Progress(tables, n, e);
    StringsPrefix(Entries(tables), |Progress(tables, n, e)|);
  }

  lemma {:induction false} NamedPrefix(slots: seq<Slot>, e: nat)
    requires e <= |slots|
    ensures Named(slots[..e]) <= Named(slots)
    decreases |slots|
  {
    if e < |slots| {
      NamedPrefix(slots[..|slots| - 1], e);
      assert slots[..|slots| - 1][..e] == slots[..e];
    } else {
      assert slots[..e] == slots;
    }
  }

  lemma {:induction false} EntriesPrefix(tables: seq<seq<Slot>>, n: nat)
    requires n <= |tables|
    ensures Entries(tables[..n]) <= Entries(tables)
    decreases |tables|
  {
    if n < |tables| {
      EntriesPrefix(tables[..|tables| - 1], n);
      assert tables[..|tables| - 1][..n] == tables[..n];
    } else {
      assert tables[..n] == tables;
    }
  }

  // Writes the buffer's part of exactly the size that TableSize gives.
  method TableCopy(tables: seq<seq<Slot>>, buf: array<Byte>, nelems: nat)
    requires nelems == |Entries(tables)| && |Image(Entries(tables), 0)| <= buf.Length
    modifies buf
    ensures buf[..] == Image(Entries(tables), 0) + old(buf[|Image(Entries(tables), 0)|..])
  {
    hide Entries, Named, Strings, Heads, Image, Put, Copying, Filled, Layout, Progress, Encode, Decode;
    ghost var size := |Image(Entries(tables), 0)|;
    ghost var tail := buf[size..];
    var elems: nat, names: nat := 0, nelems * 16;
    CopyStart(buf[..], tables, size);
    for n := 0 to |tables|
      invariant Copying(buf[..], Entries(tables[..n]), nelems, size, tail, elems, names)
    {
      ProgressStart(tables, n);
      for e := 0 to |tables[n]|
        invariant Copying(buf[..], Progress(tables, n, e), nelems, size, tail, elems, names)
      {
        ProgressStep(tables, n, e);
        match tables[n][e]
        case Hole =>
        case Slot(entry) =>
          Room(tables, n, e + 1);
          CopyStep(buf[..], Progress(tables, n, e), entry, Entries(tables), nelems, size, tail, elems, names);
          PutWord(buf, elems, names);
          PutWord(buf, elems + 8, entry.addr);
          PutName(buf, names, entry.name);
          names := names + |entry.name| + 1;
          elems := elems + 16;
      }
      ProgressDone(tables, n);
    }
    assert tables[..|tables|] == tables;
    CopyDone(buf[..], Entries(tables), nelems, size, tail, elems, names);
  }

  // The two cursors of the copy.
  ghost predicate Copying(s: seq<Byte>, es: seq<Entry>, n: nat, size: nat, tail: seq<Byte>, elems: int, names: int) {
    Filled(s, es, n, size, tail) && elems == ENTRY_SIZE * |es| && names == ENTRY_SIZE * n + |Strings(es)|
  }

  lemma CopyStart(s: seq<Byte>, tables: seq<seq<Slot>>, size: nat)
    requires size == |Image(Entries(tables), 0)| <= |s|
    ensures Copying(s, Entries(tables[..0]), |Entries(tables)|, size, s[size..], 0, |Entries(tables)| * 16)
  {
    ImageLength(Entries(tables), 0);
  }

  lemma CopyStep(s: seq<Byte>, es: seq<Entry>, e: Entry, all: seq<Entry>, n: nat, size: nat, tail: seq<Byte>,
                 elems: nat, names: nat)
    requires Copying(s, es, n, size, tail, elems, names) && n == |all| && size == |Image(all, 0)|
    requires es + [e] <= all && |Strings(es + [e])| <= |Strings(all)|
    ensures elems + 16 <= |s| && names + |e.name| + 1 <= |s|
    ensures Copying(Put(Put(Put(s, elems, Encode(names, 8)), elems + 8, Encode(e.addr, 8)), names, e.name + [0]),
                    es + [e], n, size, tail, elems + 16, names + |e.name| + 1)
  {
    hide Encode, Strings, Heads, Put, Layout, Image;
    ImageLength(all, 0);
    FilledStep(s, es, e, n, size, tail, elems, names);
  }

  lemma CopyDone(s: seq<Byte>, es: seq<Entry>, n: nat, size: nat, tail: seq<Byte>, elems: int, names: int)
    requires Copying(s, es, n, size, tail, elems, names) && n == |es| && size == |Image(es, 0)|
    ensures s == Image(es, 0) + tail
  {
    hide Heads, Strings, Encode;
    HeadsLength(es, ENTRY_SIZE * n);
    ImageLength(es, 0);
    var m := ENTRY_SIZE * n;
    assert s == s[..m] + s[m..size] + s[size..];
  }

  // Turns name positions into addresses once the buffer lies at address base.
  method TablePatchNames(buf: array<Byte>, base: nat, nelems: nat, ghost es: seq<Entry>)
    requires nelems == |es| && |Image(es, 0)| <= buf.Length && buf[..|Image(es, 0)|] == Image(es, 0)
    requires base + |Image(es, 0)| < WORD
    modifies buf
    ensures |Image(es, base)| == |Image(es, 0)| && buf[..|Image(es, 0)|] == Image(es, base)
    ensures buf[|Image(es, 0)|..] == old(buf[|Image(es, 0)|..])
  {
    hide Strings, Heads, Image, Put, Patched, Encode, Decode;
    PatchStart(buf[..], es, base);
    ghost var size := |Image(es, 0)|;
    ghost var s := buf[..];
    for i := 0 to nelems
      invariant Patched(buf[..], s, es, base, i)
    {
      PatchStep(buf[..], s, es, base, i);
      var name := Decode(buf[i * 16..i * 16 + 8]);
      PutWord(buf, i * 16, (name + base) % WORD);
    }
    PatchDone(buf[..], s, es, base);
  }

  // The first i names are patched.
  ghost predicate Patched(r: seq<Byte>, s: seq<Byte>, es: seq<Entry>, base: nat, i: nat) {
    && i <= |es| && |r| == |s| && ENTRY_SIZE * |es| == |Heads(es, base + ENTRY_SIZE * |es|)| <= |s|
    && r[..ENTRY_SIZE * i] == Heads(es, base + ENTRY_SIZE * |es|)[..ENTRY_SIZE * i]
    && r[ENTRY_SIZE * i..] == s[ENTRY_SIZE * i..]
  }

  lemma PatchStart(s: seq<Byte>, es: seq<Entry>, base: nat)
    requires |Image(es, 0)| <= |s|
    ensures Patched(s, s, es, base, 0) && |Image(es, base)| == |Image(es, 0)|
  {
    ImageLength(es, 0);
    ImageLength(es, base);
    HeadsLength(es, base + ENTRY_SIZE * |es|);
  }

  // The two words of entry i in a buffer made at address 0.
  lemma WordsOf(s: seq<Byte>, es: seq<Entry>, i: nat)
    requires i < |es| && |Image(es, 0)| <= |s| && s[..|Image(es, 0)|] == Image(es, 0) && |Image(es, 0)| < WORD
    ensures ENTRY_SIZE * i + ENTRY_SIZE <= |s| && ENTRY_SIZE * |es| + |Strings(es[..i])| <= |Image(es, 0)|
    ensures Decode(s[ENTRY_SIZE * i..ENTRY_SIZE * i + WORD_SIZE]) == ENTRY_SIZE * |es| + |Strings(es[..i])|
    ensures s[ENTRY_SIZE * i + WORD_SIZE..ENTRY_SIZE * i + ENTRY_SIZE] == Encode(es[i].addr, WORD_SIZE)
  {
    hide Heads, Strings, Encode, Decode;
    var off := ENTRY_SIZE * |es|;
    var p, a := ENTRY_SIZE * i, Encode(off + |Strings(es[..i])|, WORD_SIZE);
    ImageLength(es, 0);
    StringsPrefix(es, i);
    HeadAt(es, off, i);
    SlicePrefix(s, Image(es, 0), p, p + ENTRY_SIZE);
    SliceLeft(Heads(es, off), Strings(es), p, p + ENTRY_SIZE);
    assert s[p..p + ENTRY_SIZE] == a + Encode(es[i].addr, WORD_SIZE);
    SliceOfSlice(s, p, p + ENTRY_SIZE, 0, WORD_SIZE);
    SliceOfSlice(s, p, p + ENTRY_SIZE, WORD_SIZE, ENTRY_SIZE);
    WordDecodes(off + |Strings(es[..i])|);
  }

  lemma PatchStep(r: seq<Byte>, s: seq<Byte>, es: seq<Entry>, base: nat, i: nat)
    requires Patched(r, s, es, base, i) && i < |es|
    requires |Image(es, 0)| <= |s| && s[..|Image(es, 0)|] == Image(es, 0) && base + |Image(es, 0)| < WORD
    ensures i * 16 + 8 <= |r|
    ensures Patched(Put(r, i * 16, Encode((Decode(r[i * 16..i * 16 + 8]) + base) % WORD, 8)), s, es, base, i + 1)
  {
    hide Heads, Strings, Encode, Decode, Image;
    var p, off := ENTRY_SIZE * i, base + ENTRY_SIZE * |es|;
    WordsOf(s, es, i);
    HeadAt(es, off, i);
    assert r[p..p + WORD_SIZE] == s[p..p + WORD_SIZE] by { SameTail(r, s, p, p, p + WORD_SIZE); }
    assert (Decode(r[p..p + WORD_SIZE]) + base) % WORD == off + |Strings(es[..i])|;
    SameTail(r, s, p, p + WORD_SIZE, p + ENTRY_SIZE);
    PutFirst(r, s, Heads(es, off), p, Encode(off + |Strings(es[..i])|, WORD_SIZE), Encode(es[i].addr, WORD_SIZE));
  }

  lemma SameTail(r: seq<Byte>, s: seq<Byte>, p: nat, i: nat, j: nat)
    requires p <= i <= j <= |r| == |s| && r[p..] == s[p..]
    ensures r[i..j] == s[i..j]
  {
    forall k | i <= k < j ensures r[k] == s[k] {
      assert r[p..][k - p] == s[p..][k - p];
    }
  }

  lemma PutFirst(r: seq<Byte>, s: seq<Byte>, heads: seq<Byte>, p: nat, a: seq<Byte>, b: seq<Byte>)
    requires |a| == |b| == WORD_SIZE && p + ENTRY_SIZE <= |heads| <= |r| == |s|
    requires r[..p] == heads[..p] && r[p..] == s[p..] && heads[p..p + ENTRY_SIZE] == a + b
    requires r[p + WORD_SIZE..p + ENTRY_SIZE] == b
    ensures Put(r, p, a)[..p + ENTRY_SIZE] == heads[..p + ENTRY_SIZE]
    ensures Put(r, p, a)[p + ENTRY_SIZE..] == s[p + ENTRY_SIZE..]
  {
    var q, e := Put(r, p, a), p + ENTRY_SIZE;
    assert q == r[..p] + a + r[p + WORD_SIZE..];
    assert r[p + WORD_SIZE..] == b + r[e..];
    assert q[..e] == r[..p] + (a + b);
    assert heads[..e] == heads[..p] + heads[p..e];
    assert q[e..] == r[e..];
    SameTail(r, s, p, e, |r|);
  }

  lemma PatchDone(r: seq<Byte>, s: seq<Byte>, es: seq<Entry>, base: nat)
    requires Patched(r, s, es, base, |es|)
    requires |Image(es, 0)| <= |s| && s[..|Image(es, 0)|] == Image(es, 0)
    ensures |Image(es, base)| == |Image(es, 0)| && r[..|Image(es, 0)|] == Image(es, base)
    ensures r[|Image(es, 0)|..] == s[|Image(es, 0)|..]
  {
    hide Heads, Strings, Encode;
    var m, size := ENTRY_SIZE * |es|, |Image(es, 0)|;
    ImageLength(es, 0);
    ImageLength(es, base);
    HeadsLength(es, m);
    HeadsLength(es, base + m);
    SameTail(r, s, m, m, size);
    SameTail(r, s, m, size, |r|);
    SlicePrefix(s, Image(es, 0), m, size);
    SliceRight(Heads(es, m), Strings(es), 0, |Strings(es)|);
    assert r[..m] == Heads(es, base + m);
    assert r[..size] == r[..m] + r[m..size];
  }
}