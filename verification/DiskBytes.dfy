/** Bytes as the ext2 driver sees them: little-endian fields and bitmap bits inside blocks. */
module DiskBytes {
  newtype Octet = b: int | 0 <= b < 256

  const TWO16: nat := 65536
  const TWO32: nat := 4294967296

  // ---- little-endian fields ------------------------------------------------

  function Get16(s: seq<Octet>, o: nat): (x: nat)
    requires o + 2 <= |s|
    ensures x < TWO16
  {
    s[o] as int + 256 * s[o + 1] as int
  }

  function Put16(s: seq<Octet>, o: nat, x: nat): (t: seq<Octet>)
    requires o + 2 <= |s| && x < TWO16
    ensures |t| == |s|
  {
    s[o := (x % 256) as Octet][o + 1 := (x / 256) as Octet]
  }

  function Get32(s: seq<Octet>, o: nat): (x: nat)
    requires o + 4 <= |s|
    ensures x < TWO32
  {
    Get16(s, o) + TWO16 * Get16(s, o + 2)
  }

  function Put32(s: seq<Octet>, o: nat, x: nat): (t: seq<Octet>)
    requires o + 4 <= |s| && x < TWO32
    ensures |t| == |s|
  {
    Put16(Put16(s, o, x % TWO16), o + 2, x / TWO16)
  }

  lemma GetPut16(s: seq<Octet>, o: nat, x: nat)
    requires o + 2 <= |s| && x < TWO16
    ensures Get16(Put16(s, o, x), o) == x
    ensures forall p :: 0 <= p < |s| && (p < o || p >= o + 2) ==> Put16(s, o, x)[p] == s[p]
  {
  }

  /** A field reads back what was written; every byte outside it is untouched. */
  lemma GetPut32(s: seq<Octet>, o: nat, x: nat)
    requires o + 4 <= |s| && x < TWO32
    ensures Get32(Put32(s, o, x), o) == x
    ensures forall p :: 0 <= p < |s| && (p < o || p >= o + 4) ==> Put32(s, o, x)[p] == s[p]
  {
    var t := Put16(s, o, x % TWO16);
    GetPut16(s, o, x % TWO16);
    GetPut16(t, o + 2, x / TWO16);
  }

  lemma OtherField32(s: seq<Octet>, o: nat, x: nat, p: nat)
    requires o + 4 <= |s| && x < TWO32 && p + 4 <= |s| && (p + 4 <= o || o + 4 <= p)
    ensures Get32(Put32(s, o, x), p) == Get32(s, p)
  {
    GetPut32(s, o, x);
  }

  // ---- splicing ------------------------------------------------------------

  /** memcpy of `piece` into `s` at `o`. */
  function Splice(s: seq<Octet>, o: nat, piece: seq<Octet>): (t: seq<Octet>)
    requires o + |piece| <= |s|
    ensures |t| == |s| && t[o..o + |piece|] == piece
    ensures forall p :: 0 <= p < |s| && (p < o || p >= o + |piece|) ==> t[p] == s[p]
  {
    s[..o] + piece + s[o + |piece|..]
  }

  function Zeros(n: nat): (z: seq<Octet>)
    ensures |z| == n && forall i :: 0 <= i < n ==> z[i] == 0
  {
    seq(n, i => 0)
  }

  lemma ZeroField(n: nat, o: nat)
    requires o + 4 <= n
    ensures Get32(Zeros(n), o) == 0
  {
  }

  // ---- bitmap bits ---------------------------------------------------------

  /** `x & (1 << k)` is non-zero. */
  predicate Bit(x: nat, k: nat)
    decreases k
  {
    if k == 0 then x % 2 == 1 else Bit(x / 2, k - 1)
  }

  /** `x | (1 << k)`. */
  function SetBit(x: nat, k: nat): (y: nat)
    decreases k
  {
    if k == 0 then x / 2 * 2 + 1 else 2 * SetBit(x / 2, k - 1) + x % 2
  }

  /** `x & ~(1 << k)`. */
  function ClearBit(x: nat, k: nat): (y: nat)
    ensures y <= x
    decreases k
  {
    if k == 0 then x / 2 * 2 else 2 * ClearBit(x / 2, k - 1) + x % 2
  }

  function Pow2(k: nat): (p: nat)
    ensures p >= 1
  {
    if k == 0 then 1 else 2 * Pow2(k - 1)
  }

  lemma {:induction false} SetBitBound(x: nat, k: nat, n: nat)
    requires k < n && x < Pow2(n)
    ensures SetBit(x, k) < Pow2(n)
    decreases k
  {
    var p := Pow2(n - 1);
    assert x / 2 < p;
    if k > 0 {
      SetBitBound(x / 2, k - 1, n - 1);
      assert SetBit(x / 2, k - 1) < p;
    }
  }

  lemma {:induction false} BitAfterSet(x: nat, k: nat, j: nat)
    ensures Bit(SetBit(x, k), j) <==> j == k || Bit(x, j)
    decreases k
  {
    if k > 0 && j > 0 { BitAfterSet(x / 2, k - 1, j - 1); }
  }

  lemma {:induction false} BitAfterClear(x: nat, k: nat, j: nat)
    ensures Bit(ClearBit(x, k), j) <==> j != k && Bit(x, j)
    decreases k
  {
    if k > 0 && j > 0 { BitAfterClear(x / 2, k - 1, j - 1); }
  }

  lemma {:induction false} SetThenClear(x: nat, k: nat)
    requires !Bit(x, k)
    ensures ClearBit(SetBit(x, k), k) == x
    decreases k
  {
    if k > 0 { SetThenClear(x / 2, k - 1); }
  }

  /** Bit `i` of a bitmap block. */
  predicate Marked(bm: seq<Octet>, i: nat)
    requires i / 8 < |bm|
  {
    Bit(bm[i / 8] as int, i % 8)
  }

  function Mark(bm: seq<Octet>, i: nat): (t: seq<Octet>)
    requires i / 8 < |bm|
    ensures |t| == |bm|
  {
    SetBitBound(bm[i / 8] as int, i % 8, 8);
    assert Pow2(8) == 256;
    bm[i / 8 := SetBit(bm[i / 8] as int, i % 8) as Octet]
  }

  function Unmark(bm: seq<Octet>, i: nat): (t: seq<Octet>)
    requires i / 8 < |bm|
    ensures |t| == |bm|
  {
    bm[i / 8 := ClearBit(bm[i / 8] as int, i % 8) as Octet]
  }

  lemma MarkedAfterMark(bm: seq<Octet>, i: nat, j: nat)
    requires i / 8 < |bm| && j / 8 < |bm|
    ensures Marked(Mark(bm, i), j) <==> j == i || Marked(bm, j)
  {
    if i / 8 == j / 8 { BitAfterSet(bm[i / 8] as int, i % 8, j % 8); }
  }

  lemma MarkedAfterUnmark(bm: seq<Octet>, i: nat, j: nat)
    requires i / 8 < |bm| && j / 8 < |bm|
    ensures Marked(Unmark(bm, i), j) <==> j != i && Marked(bm, j)
  {
    if i / 8 == j / 8 { BitAfterClear(bm[i / 8] as int, i % 8, j % 8); }
  }

  /** Freeing a bit that was just taken gives back the same bitmap, byte for byte. */
  lemma MarkUnmark(bm: seq<Octet>, i: nat)
    requires i / 8 < |bm| && !Marked(bm, i)
    ensures Unmark(Mark(bm, i), i) == bm
  {
    SetThenClear(bm[i / 8] as int, i % 8);
  }
}
