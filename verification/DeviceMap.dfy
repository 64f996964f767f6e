/** The host-to-target map of one device. */
module DeviceMap {
  // A list of host intervals, newest first, each translated to a target address and
  // carrying a reference count.

  // LONG_MAX >> 1: the count of an entry made by association.
  const INF_REF_CNT: int := 0x3fff_ffff_ffff_ffff

  predicate ConsideredInf(count: int) {
    count > INF_REF_CNT / 2
  }

  // Host interval [begin, end); base is the address the program indexes from.
  datatype Entry = Entry(base: int, begin: int, end: int, tgt: int, count: int)

  type Entries = seq<Entry>

  // Is address p in the entry's host interval?
  predicate Holds(e: Entry, p: int) {
    e.begin <= p < e.end
  }

  predicate Contained(e: Entry, hp: int, n: nat) {
    e.begin <= hp < e.end && hp + n <= e.end
  }

  predicate ExtendsBefore(e: Entry, hp: int, n: nat) {
    hp < e.begin < hp + n
  }

  predicate ExtendsAfter(e: Entry, hp: int, n: nat) {
    hp < e.end < hp + n
  }

  predicate Flagged(e: Entry, hp: int, n: nat) {
    Contained(e, hp, n) || ExtendsBefore(e, hp, n) || ExtendsAfter(e, hp, n)
  }

  // May a section use entry e?  Extending a mapped region is legal only implicitly.
  predicate Usable(e: Entry, hp: int, n: nat, implicit: bool) {
    Contained(e, hp, n) || ((ExtendsBefore(e, hp, n) || ExtendsAfter(e, hp, n)) && implicit)
  }

  // Position of the first flagged entry, |es| when there is none.
  function Lookup(es: Entries, hp: int, n: nat): (i: nat)
    ensures i <= |es|
    ensures i < |es| ==> Flagged(es[i], hp, n)
    ensures forall j :: 0 <= j < i ==> !Flagged(es[j], hp, n)
  {
    if es == [] || Flagged(es[0], hp, n) then 0 else 1 + Lookup(es[1..], hp, n)
  }

  // The three ensures of Lookup determine its value.
  lemma LookupIs(es: Entries, hp: int, n: nat, i: nat)
    requires i <= |es|
    requires i < |es| ==> Flagged(es[i], hp, n)
    requires forall j :: 0 <= j < i ==> !Flagged(es[j], hp, n)
    ensures Lookup(es, hp, n) == i
  {
    var r := Lookup(es, hp, n);
    if r < i || i < r {
      assert false;
    }
  }

  predicate Found(es: Entries, hp: int, n: nat) {
    Lookup(es, hp, n) < |es|
  }

  // Count of the first entry holding address p, -1 when no entry does.
  function RefCount(es: Entries, p: int): (c: int)
    ensures (forall e :: e in es ==> !Holds(e, p)) ==> c == -1
    ensures (exists e :: e in es && Holds(e, p)) ==>
              exists e :: e in es && Holds(e, p) && c == e.count
  {
    if es == [] then -1
    else if Holds(es[0], p) then es[0].count
    else RefCount(es[1..], p)
  }

  function Translate(e: Entry, p: int): int {
    e.tgt + (p - e.begin)
  }

  function Remove(es: Entries, i: nat): (r: Entries)
    requires i < |es|
    ensures |r| == |es| - 1
    ensures forall j :: 0 <= j < |r| ==> r[j] == es[if j < i then j else j + 1]
  {
    es[..i] + es[i + 1..]
  }

  function Recount(es: Entries, i: nat, c: int): (r: Entries)
    requires i < |es|
    ensures |r| == |es|
  {
    es[i := es[i].(count := c)]
  }

  // ---------------------------------------------------------------- invariant

  ghost predicate Overlap(e: Entry, f: Entry) {
    e.begin < f.end && f.begin < e.end
  }

  ghost predicate Disjoint(es: Entries) {
    forall i, j :: 0 <= i < j < |es| ==> !Overlap(es[i], es[j])
  }

  ghost predicate WellFormed(es: Entries) {
    && (forall e :: e in es ==> e.begin < e.end && e.count >= 1)
    && Disjoint(es)
  }

  predicate InSection(x: int, hp: int, n: nat) {
    if n == 0 then x == hp else hp <= x < hp + n
  }

  // An entry is flagged iff it shares a byte with the section; an empty section
  // counts as its address.
  lemma FlaggedIffMeets(e: Entry, hp: int, n: nat)
    requires e.begin < e.end
    ensures Flagged(e, hp, n) <==> exists x :: InSection(x, hp, n) && Holds(e, x)
  {
    if Flagged(e, hp, n) {
      var x := if hp < e.begin then e.begin else hp;
      assert InSection(x, hp, n) && Holds(e, x);
    }
  }

  // lookupMapping raises a flag iff some mapped byte is in the section.
  lemma LookupFindsOverlap(es: Entries, hp: int, n: nat)
    requires WellFormed(es)
    ensures Found(es, hp, n) <==> exists e, x :: e in es && Holds(e, x) && InSection(x, hp, n)
  {
    if Found(es, hp, n) {
      var e := es[Lookup(es, hp, n)];
      FlaggedIffMeets(e, hp, n);
    } else {
      forall e, x | e in es && Holds(e, x) ensures !InSection(x, hp, n) {
        FlaggedIffMeets(e, hp, n);
      }
    }
  }

  // With disjoint entries an address lies in at most one of them, so the entry a
  // byte belongs to, and with it the byte's translation, is unique.
  lemma OwnerUnique(es: Entries, e: Entry, f: Entry, p: int)
    requires WellFormed(es)
    requires e in es && f in es && Holds(e, p) && Holds(f, p)
    ensures e == f
  {
    var i :| 0 <= i < |es| && es[i] == e;
    var j :| 0 <= j < |es| && es[j] == f;
    if i < j {
      assert Overlap(es[i], es[j]);
    } else if j < i {
      assert Overlap(es[j], es[i]);
    }
  }

  lemma RefCountOwner(es: Entries, e: Entry, p: int)
    requires WellFormed(es) && e in es && Holds(e, p)
    ensures RefCount(es, p) == e.count
  {
    var f :| f in es && Holds(f, p) && RefCount(es, p) == f.count;
    OwnerUnique(es, e, f, p);
  }

  lemma RecountWellFormed(es: Entries, i: nat, c: int)
    requires WellFormed(es) && i < |es| && c >= 1
    ensures WellFormed(Recount(es, i, c))
  {
    var r := Recount(es, i, c);
    forall a, b | 0 <= a < b < |r| ensures !Overlap(r[a], r[b]) {
      assert !Overlap(es[a], es[b]);
    }
  }

  lemma RemoveWellFormed(es: Entries, i: nat)
    requires WellFormed(es) && i < |es|
    ensures WellFormed(Remove(es, i))
  {
    var r := Remove(es, i);
    forall a, b | 0 <= a < b < |r| ensures !Overlap(r[a], r[b]) {
      assert !Overlap(es[if a < i then a else a + 1], es[if b < i then b else b + 1]);
    }
  }

  lemma PushWellFormed(es: Entries, e: Entry)
    requires WellFormed(es) && e.begin < e.end && e.count >= 1
    requires !Found(es, e.begin, e.end - e.begin)
    ensures WellFormed([e] + es)
  {
    var r := [e] + es;
    forall a, b | 0 <= a < b < |r| ensures !Overlap(r[a], r[b]) {
      if a == 0 {
        assert !Flagged(es[b - 1], e.begin, e.end - e.begin);
      } else {
        assert !Overlap(es[a - 1], es[b - 1]);
      }
    }
  }

  // ------------------------------------------- association (section 3.5 of the API)

  function FindBegin(es: Entries, p: int): (i: nat)
    ensures i <= |es|
    ensures i < |es| ==> es[i].begin == p
    ensures forall j :: 0 <= j < i ==> es[j].begin != p
  {
    if es == [] || es[0].begin == p then 0 else 1 + FindBegin(es[1..], p)
  }

  function Associate(es: Entries, hp: int, tgt: int, n: nat): (r: (Entries, bool))
  {
    var i := FindBegin(es, hp);
    if i < |es| then (es, es[i].end == hp + n && es[i].tgt == tgt)
    else ([Entry(hp, hp, hp + n, tgt, INF_REF_CNT)] + es, true)
  }

  function Disassociate(es: Entries, hp: int): (r: (Entries, bool))
  {
    var i := FindBegin(es, hp);
    if i < |es| && ConsideredInf(es[i].count) then (Remove(es, i), true) else (es, false)
  }

  lemma AssociateWellFormed(es: Entries, hp: int, tgt: int, n: nat)
    requires WellFormed(es) && n > 0
    requires FindBegin(es, hp) == |es| ==> !Found(es, hp, n)
    ensures WellFormed(Associate(es, hp, tgt, n).0)
  {
    if FindBegin(es, hp) == |es| {
      PushWellFormed(es, Entry(hp, hp, hp + n, tgt, INF_REF_CNT));
    }
  }

  // associatePtr succeeds exactly if afterwards the first entry with the begin address is
  // the association asked for; and it never changes an entry.
  lemma AssociateSucceedsIff(es: Entries, hp: int, tgt: int, n: nat)
    ensures var (r, ok) := Associate(es, hp, tgt, n);
            var j := FindBegin(r, hp);
            && j < |r| && (ok <==> r[j].end == hp + n && r[j].tgt == tgt)
            && (FindBegin(es, hp) < |es| ==> r == es)
            && (FindBegin(es, hp) == |es| ==> |r| == |es| + 1 && r[1..] == es && ConsideredInf(r[0].count))
  {
    var r := Associate(es, hp, tgt, n).0;
    if FindBegin(es, hp) == |es| {
      assert r[1..] == es;
    }
  }

  // So after a success every byte of the range is translated into the given memory.
  lemma AssociatedTranslates(es: Entries, hp: int, tgt: int, n: nat, x: int)
    requires Associate(es, hp, tgt, n).1 && hp <= x < hp + n
    ensures exists e :: e in Associate(es, hp, tgt, n).0 && Holds(e, x) && Translate(e, x) == tgt + (x - hp)
  {
    AssociateSucceedsIff(es, hp, tgt, n);
    var r := Associate(es, hp, tgt, n).0;
    var e := r[FindBegin(r, hp)];
    assert Holds(e, x) && Translate(e, x) == tgt + (x - hp);
  }

  // disassociatePtr succeeds exactly if the list shrinks, by the first entry with the begin
  // address, which must be an association; in a well-formed list none is left.
  lemma DisassociateSucceedsIff(es: Entries, hp: int)
    requires WellFormed(es)
    ensures var (r, ok) := Disassociate(es, hp);
            && (ok <==> exists e :: e in es && e.begin == hp && ConsideredInf(e.count))
            && (ok <==> r != es)
            && (forall f :: f in r <==> f in es && !(ok && f.begin == hp))
  {
    var (r, ok) := Disassociate(es, hp);
    var i := FindBegin(es, hp);
    forall e | e in es && e.begin == hp ensures i < |es| && e == es[i] {
      assert Holds(e, hp);
      assert i < |es| && es[i] in es && Holds(es[i], hp);
      OwnerUnique(es, e, es[i], hp);
    }
    forall f | f in es && !(ok && f.begin == hp) ensures f in r {
      var j :| 0 <= j < |es| && es[j] == f;
      if ok {
        assert r[if j < i then j else j - 1] == f;
      }
    }
    if ok {
      forall j | 0 <= j < |r| ensures r[j].begin != hp {
        var k := if j < i then j else j + 1;
        assert !Overlap(es[if k < i then k else i], es[if k < i then i else k]);
        assert es[k] in es && es[i] in es;
      }
    }
  }

  // Only begin addresses are compared, so another range that overlaps an entry, and no
  // range else, makes entries overlap.
  lemma AssociateWellFormedIff(es: Entries, hp: int, tgt: int, n: nat)
    requires WellFormed(es) && n > 0
    ensures WellFormed(Associate(es, hp, tgt, n).0) <==> FindBegin(es, hp) < |es| || !Found(es, hp, n)
  {
    if FindBegin(es, hp) < |es| || !Found(es, hp, n) {
      AssociateWellFormed(es, hp, tgt, n);
    } else {
      var r, i := Associate(es, hp, tgt, n).0, Lookup(es, hp, n);
      assert es[i] in es;
      assert Overlap(r[0], r[i + 1]);
    }
  }

  // A range that starts inside an entry is accepted and overlaps it.
  lemma OverlapAccepted()
    ensures var es := [Entry(10, 10, 20, 500, 1)];
            WellFormed(es) && Associate(es, 15, 900, 10).1 && !WellFormed(Associate(es, 15, 900, 10).0)
  {
    var es := [Entry(10, 10, 20, 500, 1)];
    assert Flagged(es[0], 15, 10) && es[1..] == [];
    AssociateWellFormedIff(es, 15, 900, 10);
  }

  lemma DisassociateWellFormed(es: Entries, hp: int)
    requires WellFormed(es)
    ensures WellFormed(Disassociate(es, hp).0)
  {
    var i := FindBegin(es, hp);
    if i < |es| && ConsideredInf(es[i].count) {
      RemoveWellFormed(es, i);
    }
  }

  // Associating a fresh range and then disassociating it is the identity, and the
  // association translates every byte of the range by the same displacement.
  lemma DisassociateUndoesAssociate(es: Entries, hp: int, tgt: int, n: nat)
    requires FindBegin(es, hp) == |es|
    ensures Associate(es, hp, tgt, n).1
    ensures Disassociate(Associate(es, hp, tgt, n).0, hp) == (es, true)
    ensures Lookup(Associate(es, hp, tgt, n).0, hp, n) == 0 || n == 0
  {
    var es' := Associate(es, hp, tgt, n).0;
    assert es'[0].begin == hp;
    assert Remove(es', 0) == es;
  }
}
