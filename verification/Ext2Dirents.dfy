/** Directory blocks: variable-length records that tile a block, and the entries they hold. */
module Ext2Dirents {
  import opened DiskBytes
  import opened Ext2Layout

  const HDR: nat := 8
  const MAX_FILENAME: nat := 128

  type Name = seq<Octet>

  datatype Entry = Entry(ino: nat, name: Name, kind: Octet)

  // ---- the record at an offset ---------------------------------------------

  function RecIno(b: Block, o: nat): nat
    requires o + HDR <= |b|
  {
    Get32(b, o)
  }

  function RecLen(b: Block, o: nat): nat
    requires o + HDR <= |b|
  {
    Get16(b, o + 4)
  }

  function NameLen(b: Block, o: nat): nat
    requires o + HDR <= |b|
  {
    b[o + 6] as int
  }

  predicate NameOk(name: Name) { |name| > 0 && forall i :: 0 <= i < |name| ==> name[i] != 0 }

  /** A sound record: aligned, inside the block, its name inside it. */
  predicate RecOk(b: Block, o: nat) {
    && o + HDR <= |b| && HDR <= RecLen(b, o) && RecLen(b, o) % 4 == 0 && o + RecLen(b, o) <= |b|
    && HDR + NameLen(b, o) <= RecLen(b, o)
    && (RecIno(b, o) != 0 ==> NameOk(b[o + HDR..o + HDR + NameLen(b, o)]))
  }

  /** Records cover the block from `o` to its end exactly. */
  predicate Tiled(b: Block, o: nat)
    decreases |b| - o
  {
    o == |b| || (RecOk(b, o) && Tiled(b, o + RecLen(b, o)))
  }

  function EntryAt(b: Block, o: nat): Entry
    requires RecOk(b, o)
  {
    Entry(RecIno(b, o), b[o + HDR..o + HDR + NameLen(b, o)], b[o + 7])
  }

  /** The entry of one record, none if the record is dead. */
  function One(b: Block, o: nat): (es: seq<Entry>)
    requires RecOk(b, o)
  {
    if RecIno(b, o) == 0 then [] else [EntryAt(b, o)]
  }

  /** The live entries from `o` to the end of the block. */
  function LiveFrom(b: Block, o: nat): (es: seq<Entry>)
    requires Tiled(b, o)
    decreases |b| - o
  {
    if o == |b| then [] else One(b, o) + LiveFrom(b, o + RecLen(b, o))
  }

  /** `e` is a record boundary at or after `o`. */
  predicate Boundary(b: Block, o: nat, e: nat)
    decreases |b| - o
  {
    o == e || (RecOk(b, o) && o + RecLen(b, o) <= e && Boundary(b, o + RecLen(b, o), e))
  }

  /** The live entries between two boundaries. */
  function Between(b: Block, o: nat, e: nat): (es: seq<Entry>)
    requires Boundary(b, o, e)
    decreases |b| - o
  {
    if o == e then [] else One(b, o) + Between(b, o + RecLen(b, o), e)
  }

  // ---- walking -------------------------------------------------------------

  lemma {:induction false} SplitAt(b: Block, o: nat, e: nat)
    requires Boundary(b, o, e) && Tiled(b, o)
    ensures Tiled(b, e) && LiveFrom(b, o) == Between(b, o, e) + LiveFrom(b, e)
    decreases |b| - o
  {
    hide NameOk, One, RecIno, NameLen, Get16;
    if o != e {
      var m := o + RecLen(b, o);
      SplitAt(b, m, e);
      assert LiveFrom(b, o) == One(b, o) + (Between(b, m, e) + LiveFrom(b, e));
      assert One(b, o) + (Between(b, m, e) + LiveFrom(b, e)) == (One(b, o) + Between(b, m, e)) + LiveFrom(b, e);
    } else {
      assert [] + LiveFrom(b, e) == LiveFrom(b, e);
    }
  }

  lemma {:induction false} JoinAt(b: Block, o: nat, e: nat)
    requires Boundary(b, o, e) && Tiled(b, e)
    ensures Tiled(b, o)
    decreases |b| - o
  {
    if o != e { JoinAt(b, o + RecLen(b, o), e); }
  }

  lemma {:induction false} Extend(b: Block, o: nat, e: nat)
    requires Boundary(b, o, e) && RecOk(b, e)
    ensures Boundary(b, o, e + RecLen(b, e)) && Between(b, o, e + RecLen(b, e)) == Between(b, o, e) + One(b, e)
    decreases |b| - o
  {
    if o != e { Extend(b, o + RecLen(b, o), e); }
  }

  ghost predicate AgreeOn(a: Block, b: Block, lo: nat, hi: nat) {
    |a| == |b| && hi <= |a| && forall i :: lo <= i < hi ==> a[i] == b[i]
  }

  lemma RecAgrees(a: Block, b: Block, o: nat)
    requires RecOk(a, o) && AgreeOn(a, b, o, o + RecLen(a, o))
    ensures RecOk(b, o) && RecLen(b, o) == RecLen(a, o) && One(b, o) == One(a, o)
  {
    assert RecLen(b, o) == RecLen(a, o) && RecIno(a, o) == RecIno(b, o) && NameLen(a, o) == NameLen(b, o);
    assert b[o + HDR..o + HDR + NameLen(b, o)] == a[o + HDR..o + HDR + NameLen(a, o)];
  }

  /** Records depend only on their own bytes. */
  lemma {:induction false} BetweenAgrees(a: Block, b: Block, o: nat, e: nat)
    requires Boundary(a, o, e) && AgreeOn(a, b, o, e)
    ensures Boundary(b, o, e) && Between(b, o, e) == Between(a, o, e)
    decreases |a| - o
  {
    if o != e {
      RecAgrees(a, b, o);
      BetweenAgrees(a, b, o + RecLen(a, o), e);
    }
  }

  lemma {:induction false} TailAgrees(a: Block, b: Block, o: nat)
    requires Tiled(a, o) && AgreeOn(a, b, o, |a|)
    ensures Tiled(b, o) && LiveFrom(b, o) == LiveFrom(a, o)
    decreases |a| - o
  {
    if o != |a| {
      RecAgrees(a, b, o);
      TailAgrees(a, b, o + RecLen(a, o));
    }
  }

  lemma Unfold(b: Block, o: nat)
    requires Tiled(b, o) && RecOk(b, o)
    ensures Tiled(b, o + RecLen(b, o)) && LiveFrom(b, o) == One(b, o) + LiveFrom(b, o + RecLen(b, o))
  {
  }

  lemma Single(b: Block, o: nat)
    requires RecOk(b, o)
    ensures Boundary(b, o, o + RecLen(b, o)) && Between(b, o, o + RecLen(b, o)) == One(b, o)
  {
    var e := o + RecLen(b, o);
    assert Boundary(b, e, e) && Between(b, e, e) == [];
  }

  lemma Pair(b: Block, o: nat, m: nat, e: nat)
    requires RecOk(b, o) && m == o + RecLen(b, o) && RecOk(b, m) && e == m + RecLen(b, m)
    ensures Boundary(b, o, e) && Between(b, o, e) == One(b, o) + One(b, m)
  {
    Single(b, m);
  }

  /** Replacing the record at `o` by new bytes that tile the same stretch changes its entries only. */
  lemma Replace(a: Block, b: Block, o: nat, e: nat)
    requires Tiled(a, 0) && Boundary(a, 0, o) && RecOk(a, o) && e == o + RecLen(a, o)
    requires AgreeOn(a, b, 0, o) && AgreeOn(a, b, e, |a|) && Boundary(b, o, e)
    ensures Tiled(b, 0) && Tiled(a, e)
    ensures LiveFrom(a, 0) == Between(a, 0, o) + (One(a, o) + LiveFrom(a, e))
    ensures LiveFrom(b, 0) == Between(a, 0, o) + (Between(b, o, e) + LiveFrom(a, e))
  {
    hide Tiled, LiveFrom, Boundary, Between, One, RecOk, RecLen;
    SplitAt(a, 0, o);
    Unfold(a, o);
    BetweenAgrees(a, b, 0, o);
    TailAgrees(a, b, e);
    JoinAt(b, o, e);
    SplitAt(b, o, e);
    JoinAt(b, 0, o);
    SplitAt(b, 0, o);
  }

  // ---- new records ---------------------------------------------------------

  /** `n` rounded up to a multiple of four. */
  function Round4(n: nat): (r: nat)
    ensures n <= r < n + 4 && r % 4 == 0
  {
    (n + 3) / 4 * 4
  }

  function Need(name: Name): nat { Round4(HDR + |name|) }

  /** The bytes of a record. */
  function Record(ino: nat, len: nat, name: Name, kind: Octet): (r: Block)
    requires ino < TWO32 && len < TWO16 && |name| < 256 && HDR + |name| <= len
    ensures |r| == len
  {
    Put16(Put32(Zeros(HDR), 0, ino), 4, len)[6 := |name| as Octet][7 := kind] + name + Zeros(len - HDR - |name|)
  }

  lemma RecordReads(ino: nat, len: nat, name: Name, kind: Octet)
    requires ino < TWO32 && len < TWO16 && |name| < 256 && HDR + |name| <= len
    ensures var r := Record(ino, len, name, kind);
            Get32(r, 0) == ino && Get16(r, 4) == len && r[6] == |name| as Octet && r[7] == kind
                && r[HDR..HDR + |name|] == name
  {
    var h := Put32(Zeros(HDR), 0, ino);
    GetPut32(Zeros(HDR), 0, ino);
    GetPut16(h, 4, len);
    var t := Put16(h, 4, len);
    assert Get16(t, 4) == len;
    assert t[0] == h[0] && t[1] == h[1] && t[2] == h[2] && t[3] == h[3];
    assert Get32(t, 0) == Get32(h, 0);
    var r := Record(ino, len, name, kind);
    assert r[0] == t[0] && r[1] == t[1] && r[2] == t[2] && r[3] == t[3] && r[4] == t[4] && r[5] == t[5];
  }

  /** A record written at `o` reads back. */
  lemma RecordPlaced(b: Block, o: nat, ino: nat, len: nat, name: Name, kind: Octet)
    requires ino < TWO32 && len < TWO16 && |name| < 256 && HDR + |name| <= len && len % 4 == 0 && NameOk(name)
    requires o + len <= |b|
    ensures var b' := Splice(b, o, Record(ino, len, name, kind));
            RecOk(b', o) && RecLen(b', o) == len && RecIno(b', o) == ino && EntryAt(b', o) == Entry(ino, name, kind)
  {
    hide Record;
    var r := Record(ino, len, name, kind);
    RecordReads(ino, len, name, kind);
    var b' := Splice(b, o, r);
    assert forall i :: 0 <= i < len ==> b'[o + i] == b'[o..o + len][i] == r[i];
    assert b'[o] == r[0] && b'[o + 1] == r[1] && b'[o + 2] == r[2] && b'[o + 3] == r[3] && b'[o + 4] == r[4]
        && b'[o + 5] == r[5] && b'[o + 6] == r[6] && b'[o + 7] == r[7];
    assert b'[o + HDR..o + HDR + |name|] == r[HDR..HDR + |name|];
  }

  /** The record at `o` is dead and big enough. */
  predicate FitsDead(b: Block, o: nat, name: Name)
    requires RecOk(b, o)
  {
    RecIno(b, o) == 0 && RecLen(b, o) >= Need(name)
  }

  /** The record at `o` is live and has room behind its name. */
  predicate FitsSplit(b: Block, o: nat, name: Name)
    requires RecOk(b, o)
  {
    RecIno(b, o) != 0 && RecLen(b, o) >= Round4(HDR + NameLen(b, o)) + Need(name)
  }

  function InsertDead(b: Block, o: nat, ino: nat, name: Name, kind: Octet): (b': Block)
    requires RecOk(b, o) && |name| < 256 && FitsDead(b, o, name) && ino < TWO32
    ensures |b'| == |b|
  {
    Splice(b, o, Record(ino, RecLen(b, o), name, kind))
  }

  function InsertSplit(b: Block, o: nat, ino: nat, name: Name, kind: Octet): (b': Block)
    requires RecOk(b, o) && |name| < 256 && FitsSplit(b, o, name) && ino < TWO32
    ensures |b'| == |b|
  {
    var min := Round4(HDR + NameLen(b, o));
    Splice(Put16(b, o + 4, min), o + min, Record(ino, RecLen(b, o) - min, name, kind))
  }

  /** `b'` lists the entries of `b` with `e` added after those of `b` before offset `m`. */
  ghost predicate Gained(b: Block, b': Block, pre: seq<Entry>, m: nat, e: Entry) {
    && Tiled(b, 0) && Tiled(b, m) && Tiled(b', 0)
    && LiveFrom(b, 0) == pre + LiveFrom(b, m) && LiveFrom(b', 0) == pre + ([e] + LiveFrom(b, m))
  }

  /** Inserting into a dead record adds one entry, in place. */
  lemma InsertDeadAdds(b: Block, o: nat, ino: nat, name: Name, kind: Octet)
    requires Tiled(b, 0) && Boundary(b, 0, o) && RecOk(b, o) && |name| < 256 && NameOk(name) && FitsDead(b, o, name)
    requires 0 < ino < TWO32
    ensures Gained(b, InsertDead(b, o, ino, name, kind), Between(b, 0, o), o + RecLen(b, o), Entry(ino, name, kind))
  {
    hide Record, Tiled, LiveFrom, Boundary, Between, NameOk, EntryAt;
    var e := o + RecLen(b, o);
    RecordPlaced(b, o, ino, RecLen(b, o), name, kind);
    var b' := InsertDead(b, o, ino, name, kind);
    Single(b', o);
    Replace(b, b', o, e);
    assert Between(b, 0, o) + ([] + LiveFrom(b, e)) == Between(b, 0, o) + LiveFrom(b, e);
  }

  lemma SplitHead(b: Block, o: nat, ino: nat, name: Name, kind: Octet)
    requires RecOk(b, o) && |name| < 256 && FitsSplit(b, o, name) && ino < TWO32
    ensures var b' := InsertSplit(b, o, ino, name, kind);
            RecOk(b', o) && RecLen(b', o) == Round4(HDR + NameLen(b, o)) && One(b', o) == One(b, o)
  {
    hide Record;
    var min := Round4(HDR + NameLen(b, o));
    GetPut16(b, o + 4, min);
    var t, b' := Put16(b, o + 4, min), InsertSplit(b, o, ino, name, kind);
    assert forall i :: o <= i < o + min ==> b'[i] == t[i];
    assert RecLen(b', o) == min && RecIno(b', o) == RecIno(b, o) && NameLen(b', o) == NameLen(b, o);
    assert b'[o + HDR..o + HDR + NameLen(b, o)] == b[o + HDR..o + HDR + NameLen(b, o)];
  }

  lemma SplitTail(b: Block, o: nat, ino: nat, name: Name, kind: Octet)
    requires RecOk(b, o) && |name| < 256 && NameOk(name) && FitsSplit(b, o, name) && 0 < ino < TWO32
    ensures var b', m := InsertSplit(b, o, ino, name, kind), o + Round4(HDR + NameLen(b, o));
            RecOk(b', m) && m + RecLen(b', m) == o + RecLen(b, o) && One(b', m) == [Entry(ino, name, kind)]
  {
    hide Record, NameOk, Round4, Get16, Get32, Put16, EntryAt, Splice;
    var min := Round4(HDR + NameLen(b, o));
    RecordPlaced(Put16(b, o + 4, min), o + min, ino, RecLen(b, o) - min, name, kind);
  }

  lemma SplitFrame(b: Block, o: nat, ino: nat, name: Name, kind: Octet)
    requires RecOk(b, o) && |name| < 256 && FitsSplit(b, o, name) && ino < TWO32
    ensures AgreeOn(b, InsertSplit(b, o, ino, name, kind), 0, o)
    ensures AgreeOn(b, InsertSplit(b, o, ino, name, kind), o + RecLen(b, o), |b|)
  {
    hide Record, NameOk, Round4;
    GetPut16(b, o + 4, Round4(HDR + NameLen(b, o)));
  }

  /** Splitting a live record keeps its entry and adds one behind it. */
  lemma InsertSplitAdds(b: Block, o: nat, ino: nat, name: Name, kind: Octet)
    requires Tiled(b, 0) && Boundary(b, 0, o) && RecOk(b, o) && |name| < 256 && NameOk(name) && FitsSplit(b, o, name)
    requires 0 < ino < TWO32
    ensures Gained(b, InsertSplit(b, o, ino, name, kind), Between(b, 0, o) + One(b, o), o + RecLen(b, o),
              Entry(ino, name, kind))
  {
    hide InsertSplit, NameOk, Tiled, LiveFrom, Boundary, Between, EntryAt, One;
    SplitHead(b, o, ino, name, kind);
    SplitTail(b, o, ino, name, kind);
    SplitFrame(b, o, ino, name, kind);
    var b', e, m := InsertSplit(b, o, ino, name, kind), o + RecLen(b, o), o + Round4(HDR + NameLen(b, o));
    Pair(b', o, m, e);
    Replace(b, b', o, e);
    var pre, mid, post := Between(b, 0, o), One(b, o), LiveFrom(b, e);
    assert pre + (mid + post) == (pre + mid) + post;
    assert pre + ((mid + One(b', m)) + post) == (pre + mid) + (One(b', m) + post);
  }

  /** Unlinking: the inode number of the record at `o` set to zero. */
  function Kill(b: Block, o: nat): (b': Block)
    requires RecOk(b, o)
    ensures |b'| == |b|
  {
    Put32(b, o, 0)
  }

  lemma Killed(b: Block, o: nat)
    requires RecOk(b, o)
    ensures var b' := Kill(b, o); RecOk(b', o) && RecLen(b', o) == RecLen(b, o) && One(b', o) == []
    ensures AgreeOn(b, Kill(b, o), 0, o) && AgreeOn(b, Kill(b, o), o + RecLen(b, o), |b|)
  {
    hide NameOk;
    GetPut32(b, o, 0);
  }

  /** A killed record loses its entry and nothing else. */
  lemma KillRemoves(b: Block, o: nat)
    requires Tiled(b, 0) && Boundary(b, 0, o) && RecOk(b, o)
    ensures Tiled(b, o + RecLen(b, o)) && Tiled(Kill(b, o), 0)
    ensures LiveFrom(b, 0) == Between(b, 0, o) + (One(b, o) + LiveFrom(b, o + RecLen(b, o)))
    ensures LiveFrom(Kill(b, o), 0) == Between(b, 0, o) + LiveFrom(b, o + RecLen(b, o))
  {
    hide Tiled, LiveFrom, Boundary, Between, EntryAt, One, Kill;
    Killed(b, o);
    var b', e := Kill(b, o), o + RecLen(b, o);
    Single(b', o);
    Replace(b, b', o, e);
    assert Between(b, 0, o) + ([] + LiveFrom(b, e)) == Between(b, 0, o) + LiveFrom(b, e);
  }

  // ---- room in a block -----------------------------------------------------

  predicate Fits(b: Block, o: nat, name: Name)
    requires RecOk(b, o)
  {
    FitsDead(b, o, name) || FitsSplit(b, o, name)
  }

  /** No record before `e` has room for `name`. */
  ghost predicate NoRoom(b: Block, e: nat, name: Name) {
    forall o {:trigger Boundary(b, 0, o)} :: 0 <= o < e && Boundary(b, 0, o) && RecOk(b, o) ==> !Fits(b, o, name)
  }

  /** Boundaries never fall inside a record. */
  lemma {:induction false} BoundaryStep(b: Block, s: nat, e: nat, o: nat)
    requires Boundary(b, s, e) && Boundary(b, s, o) && RecOk(b, e) && e < o
    ensures e + RecLen(b, e) <= o
    decreases |b| - s
  {
    hide NameOk;
    if s != e { BoundaryStep(b, s + RecLen(b, s), e, o); }
  }

  lemma NoRoomStep(b: Block, e: nat, name: Name)
    requires Boundary(b, 0, e) && RecOk(b, e) && NoRoom(b, e, name) && !Fits(b, e, name)
    ensures NoRoom(b, e + RecLen(b, e), name)
  {
    hide Boundary, NameOk, Fits;
    forall o | 0 <= o < e + RecLen(b, e) && Boundary(b, 0, o) && RecOk(b, o) ensures !Fits(b, o, name) {
      if e < o { BoundaryStep(b, 0, e, o); }
    }
  }
}
