/** Byte-addressed memories and the little-endian coding of 64-bit pointers. */
module Memory {
  // A memory is a finite map from addresses to bytes; its domain is the set of
  // allocated addresses.  Every store here keeps that domain, so only the plugin's
  // allocator can change what is allocated.

  type Byte = x: int | 0 <= x < 256
  type Mem = map<int, Byte>

  const PTR_BYTES: nat := 8
  const WORD: int := 0x1_0000_0000_0000_0000

  predicate Allocated(m: Mem, a: int, n: int) {
    forall x | a <= x < a + n :: x in m
  }

  // The n bytes at address a; unallocated addresses read as zero.
  function Read(m: Mem, a: int, n: nat): (s: seq<Byte>)
    ensures |s| == n
    ensures forall k :: 0 <= k < n && a + k in m ==> s[k] == m[a + k]
  {
    seq(n, k requires 0 <= k < n => if a + k in m then m[a + k] else 0)
  }

  // Overwrites the bytes at [a, a + |s|) with s.
  function Write(m: Mem, a: int, s: seq<Byte>): (r: Mem)
    ensures r.Keys == m.Keys
    ensures forall x :: x in m ==> r[x] == if a <= x < a + |s| then s[x - a] else m[x]
  {
    map x | x in m :: if a <= x < a + |s| then s[x - a] else m[x]
  }

  lemma SameMemory(m: Mem, m': Mem)
    requires m.Keys == m'.Keys && forall x :: x in m' ==> m[x] == m'[x]
    ensures m == m'
  {
    forall x | x in m' ensures m[x] == m'[x] {
    }
  }

  lemma ReadWrite(m: Mem, a: int, s: seq<Byte>)
    requires Allocated(m, a, |s|)
    ensures Read(Write(m, a, s), a, |s|) == s
  {
  }

  lemma ReadWriteElsewhere(m: Mem, a: int, s: seq<Byte>, b: int, n: nat)
    requires b + n <= a || a + |s| <= b || n == 0 || |s| == 0
    ensures Read(Write(m, a, s), b, n) == Read(m, b, n)
  {
  }

  lemma WriteRead(m: Mem, a: int, n: nat)
    ensures Write(m, a, Read(m, a, n)) == m
  {
  }

  // What a plugin answers to a copy: it has made the whole of it, or has failed after some
  // of its bytes.
  datatype Answer = Whole | Part(n: nat)

  // How many of n bytes are copied under an answer?
  function Extent(r: Answer, n: nat): (k: nat)
    ensures k <= n && (r.Whole? ==> k == n)
  {
    match r
    case Whole => n
    case Part(m) => if m < n then m else n
  }

  // Little-endian digits of v, n bytes long.
  function Encode(v: int, n: nat): (s: seq<Byte>)
    ensures |s| == n
    decreases n
  {
    if n == 0 then [] else [v % 256] + Encode(v / 256, n - 1)
  }

  function Decode(s: seq<Byte>): (v: nat)
  {
    if s == [] then 0 else s[0] + 256 * Decode(s[1..])
  }

  lemma {:induction false} EncodeDecode(s: seq<Byte>)
    ensures Encode(Decode(s), |s|) == s
  {
    if s == [] {
    } else {
      EncodeDecode(s[1..]);
      assert Decode(s) / 256 == Decode(s[1..]) && Decode(s) % 256 == s[0];
    }
  }

  function Pow256(n: nat): (p: nat)
    ensures p > 0
  {
    if n == 0 then 1 else 256 * Pow256(n - 1)
  }

  lemma {:induction false} DecodeEncode(v: nat, n: nat)
    requires v < Pow256(n)
    ensures Decode(Encode(v, n)) == v
  {
    if n == 0 {
    } else {
      DecodeEncode(v / 256, n - 1);
      assert Encode(v, n)[1..] == Encode(v / 256, n - 1);
    }
  }

  function LoadPtr(m: Mem, a: int): (v: nat) {
    Decode(Read(m, a, PTR_BYTES))
  }

  function PtrBytes(v: int): (s: seq<Byte>)
    ensures |s| == PTR_BYTES
  {
    Encode(v, PTR_BYTES)
  }

  // A 64-bit value survives being stored in a pointer slot and read back.
  lemma LoadStoredPtr(m: Mem, a: int, v: nat)
    requires Allocated(m, a, PTR_BYTES) && v < WORD
    ensures LoadPtr(Write(m, a, PtrBytes(v)), a) == v
  {
    ReadWrite(m, a, PtrBytes(v));
    assert Pow256(8) == WORD by {
      assert Pow256(4) == 0x1_0000_0000;
      assert Pow256(6) == 0x1_0000_0000_0000;
    }
    DecodeEncode(v, PTR_BYTES);
  }
}
