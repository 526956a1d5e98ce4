/** The ELF loader (kernel/elf.c): header checks, the page-by-page copy and zero arithmetic of the
    PT_LOAD segments (System V gABI, chapter 5, Program Header), and the frames all of it takes. */
module ElfLoader {
  import opened DiskBytes
  import opened ElfTables

  const PAGE: nat := 4096
  const HDR_SIZE: nat := 64
  const PHDR_SIZE: nat := 56
  const ELF_MAGIC: nat := 0x464C457F
  const ELF_64BIT: Octet := 2
  const ELF_LITTLE_ENDIAN: Octet := 1
  const EM_X86_64: nat := 62
  const ELF_EXEC: nat := 2
  const PT_LOAD: nat := 1
  const ELF_MAX_SEGMENT: nat := 256 * 1024 * 1024
  const USER_SPACE_MIN: nat := 0x1000
  const USER_SPACE_END: nat := 0x0000800000000000
  const PF_X: nat := 1
  const PF_W: nat := 2
  const USER_STACK_TOP: nat := 0x00007FFFFFFFE000
  const USER_STACK_INIT_PAGES: nat := 4
  const ENTRY_FRAME: nat := 32                 // argc, argv, envp and padding, all zero

  type File = f: seq<Octet> | |f| < TWO32 witness []
  type Page = p: seq<Octet> | |p| == PAGE witness seq(PAGE, i => 0)

  function Get64(s: seq<Octet>, o: nat): (x: nat)
    requires o + 8 <= |s|
  {
    Get32(s, o) + TWO32 * Get32(s, o + 4)
  }

  // ---- headers -------------------------------------------------------------

  /** elf_validate. */
  predicate ValidHeader(f: File) {
    && |f| >= HDR_SIZE && Get32(f, 0) == ELF_MAGIC && f[4] == ELF_64BIT && f[5] == ELF_LITTLE_ENDIAN
    && Get16(f, 18) == EM_X86_64 && Get16(f, 16) == ELF_EXEC && Get16(f, 56) != 0
  }

  function Entry(f: File): nat
    requires |f| >= HDR_SIZE
  {
    Get64(f, 24)
  }

  function PhOff(f: File): nat
    requires |f| >= HDR_SIZE
  {
    Get64(f, 32)
  }

  function PhNum(f: File): nat
    requires |f| >= HDR_SIZE
  {
    Get16(f, 56)
  }

  /** The program header table lies inside the file. */
  predicate TableOk(f: File)
    requires |f| >= HDR_SIZE
  {
    Get16(f, 54) == PHDR_SIZE && PhOff(f) <= |f| && PhNum(f) * PHDR_SIZE <= |f| - PhOff(f)
  }

  /** `w` and `x`: the rights the program header asks for. */
  datatype Segment = Segment(load: bool, w: bool, x: bool, offset: nat, vaddr: nat, filesz: nat, memsz: nat)

  /** Program header `i`; every byte of it is inside the file. */
  function Phdr(f: File, i: nat): (s: Segment)
    requires |f| >= HDR_SIZE && TableOk(f) && i < PhNum(f)
  {
    InsideTable(f, i);
    var o := PhOff(f) + i * PHDR_SIZE;
    var flags := Get32(f, o + 4);
    Segment(Get32(f, o) == PT_LOAD, flags / PF_W % 2 == 1, flags / PF_X % 2 == 1,
            Get64(f, o + 8), Get64(f, o + 16), Get64(f, o + 32), Get64(f, o + 40))
  }

  lemma InsideTable(f: File, i: nat)
    requires |f| >= HDR_SIZE && TableOk(f) && i < PhNum(f)
    ensures PhOff(f) + i * PHDR_SIZE + PHDR_SIZE <= |f|
  {
  }

  /** The checks on one segment: file extent, user space, size. */
  predicate SegmentOk(f: File, s: Segment) {
    && s.offset <= |f| && s.filesz <= |f| - s.offset
    && s.memsz <= USER_SPACE_END && USER_SPACE_MIN <= s.vaddr <= USER_SPACE_END - s.memsz && s.memsz <= ELF_MAX_SEGMENT
  }

  /** Everything elf_load_image checks before and during loading. */
  ghost predicate Accepted(f: File) {
    && ValidHeader(f) && TableOk(f) && USER_SPACE_MIN <= Entry(f) < USER_SPACE_END
    && SegmentsOk(f, PhNum(f))
  }

  ghost predicate SegmentsOk(f: File, n: nat)
    requires |f| >= HDR_SIZE && TableOk(f) && n <= PhNum(f)
  {
    forall i {:trigger Phdr(f, i)} :: 0 <= i < n && Phdr(f, i).load ==> SegmentOk(f, Phdr(f, i))
  }

  // ---- what memory should hold ---------------------------------------------

  /** The byte at address `x` of a segment: from the file below p_filesz, zero above. */
  function Want(f: File, s: Segment, x: nat): Octet
    requires SegmentOk(f, s) && s.vaddr <= x
  {
    if x - s.vaddr < s.filesz then f[s.offset + (x - s.vaddr)] else 0
  }

  predicate InSegment(s: Segment, x: nat) { s.vaddr <= x < s.vaddr + s.memsz }

  /** A mapped page: what it holds and the rights in its entry. */
  datatype Leaf = Leaf(page: Page, writable: bool, nx: bool)

  type Memory = map<nat, Leaf>

  /** The entry map_pml4 writes: the write bit is set whatever the flags ask, no-execute as asked. */
  function Installed(page: Page, nx: bool): Leaf { Leaf(page, true, nx) }

  predicate Mapped(m: Memory, x: nat) { x / PAGE in m }

  function Peek(m: Memory, x: nat): Octet
    requires Mapped(m, x)
  {
    m[x / PAGE].page[x % PAGE]
  }

  ghost predicate HoldsAt(f: File, s: Segment, m: Memory, x: nat)
    requires SegmentOk(f, s)
  {
    InSegment(s, x) ==> Mapped(m, x) && Peek(m, x) == Want(f, s, x)
  }

  /** Memory holds the whole segment. */
  ghost predicate Holds(f: File, s: Segment, m: Memory)
    requires SegmentOk(f, s)
  {
    forall x {:trigger HoldsAt(f, s, m, x)} :: HoldsAt(f, s, m, x)
  }

  /** First page of a segment, and the page after its last. */
  function FirstPage(s: Segment): nat { s.vaddr / PAGE }

  function EndPage(s: Segment): nat { (s.vaddr + s.memsz + PAGE - 1) / PAGE }

  predicate OnPage(s: Segment, p: nat) { FirstPage(s) <= p < EndPage(s) }

  // ---- one page ------------------------------------------------------------

  /** What the loop body leaves in the frame for page `p`, whatever the frame held before. */
  ghost predicate PageExact(f: File, s: Segment, p: nat, content: Page)
    requires SegmentOk(f, s)
  {
    forall k {:trigger content[k]} ::
        0 <= k < PAGE && InSegment(s, p * PAGE + k) ==> content[k] == Want(f, s, p * PAGE + k)
  }

  /** The memcpy of one page: every byte below p_filesz that falls on the page. */
  method CopyPart(f: File, s: Segment, base: nat, frame: Page) returns (content: Page)
    requires SegmentOk(f, s)
    ensures forall k {:trigger content[k]} ::
              0 <= k < PAGE && s.vaddr <= base + k < s.vaddr + s.filesz
              ==> content[k] == f[s.offset + (base + k - s.vaddr)]
  {
    hide Splice;
    content := frame;
    var copyStart := if base > s.vaddr then base else s.vaddr;
    var copyEnd := if base + PAGE < s.vaddr + s.filesz then base + PAGE else s.vaddr + s.filesz;
    if copyStart < copyEnd {
      var off := s.offset + (copyStart - s.vaddr);
      content := Splice(content, copyStart - base, f[off..off + (copyEnd - copyStart)]);
      Copied(f, frame, copyStart - base, off, copyEnd - copyStart);
    }
  }

  /** The memset of one page: from p_filesz to p_memsz. */
  method ZeroPart(s: Segment, base: nat, frame: Page) returns (content: Page)
    ensures forall k {:trigger content[k]} ::
              0 <= k < PAGE ==> content[k] == if s.vaddr + s.filesz <= base + k < s.vaddr + s.memsz then 0 else frame[k]
  {
    hide Splice;
    content := frame;
    var dataEnd, memEnd := s.vaddr + s.filesz, s.vaddr + s.memsz;
    if base + PAGE > dataEnd && base < memEnd {
      var zeroStart := if dataEnd > base then dataEnd - base else 0;
      var zeroEnd := if memEnd < base + PAGE then memEnd - base else PAGE;
      if zeroEnd > zeroStart {
        content := Splice(content, zeroStart, Zeros(zeroEnd - zeroStart));
        Zeroed(frame, zeroStart, zeroEnd - zeroStart);
      }
    }
  }

  /** The copy and the zeroing of one page (one iteration of the inner loop). */
  method FillPage(f: File, s: Segment, page: nat, frame: Page) returns (content: Page)
    requires SegmentOk(f, s)
    ensures PageExact(f, s, page, content)
  {
    var copied := CopyPart(f, s, page * PAGE, frame);
    content := ZeroPart(s, page * PAGE, copied);
  }

  lemma Copied(f: File, frame: Page, at: nat, off: nat, n: nat)
    requires at + n <= PAGE && off + n <= |f|
    ensures forall k {:trigger Splice(frame, at, f[off..off + n])[k]} ::
              at <= k < at + n ==> Splice(frame, at, f[off..off + n])[k] == f[off + (k - at)]
  {
    var r := Splice(frame, at, f[off..off + n]);
    forall k | at <= k < at + n ensures r[k] == f[off + (k - at)] { assert r[at..at + n][k - at] == r[k]; }
  }

  lemma Zeroed(frame: Page, at: nat, n: nat)
    requires at + n <= PAGE
    ensures forall k {:trigger Splice(frame, at, Zeros(n))[k]} ::
              at <= k < at + n ==> Splice(frame, at, Zeros(n))[k] == 0
  {
    var r := Splice(frame, at, Zeros(n));
    forall k | at <= k < at + n ensures r[k] == 0 { assert r[at..at + n][k - at] == r[k]; }
  }

  // ---- segments and images -------------------------------------------------

  /** Page `q` of segment `s`: its bytes, writable, executable as asked. */
  ghost predicate LeafExact(f: File, s: Segment, q: nat, l: Leaf)
    requires SegmentOk(f, s)
  {
    PageExact(f, s, q, l.page) && l.writable && l.nx == !s.x
  }

  ghost predicate PageLoaded(f: File, s: Segment, m: Memory, q: nat)
    requires SegmentOk(f, s)
  {
    q in m && LeafExact(f, s, q, m[q])
  }

  /** Every page of the segment is mapped and exact. */
  ghost predicate Loaded(f: File, s: Segment, m: Memory)
    requires SegmentOk(f, s)
  {
    forall q {:trigger PageLoaded(f, s, m, q)} :: OnPage(s, q) ==> PageLoaded(f, s, m, q)
  }

  ghost predicate ExactAt(f: File, s: Segment, m: Memory, q: nat)
    requires SegmentOk(f, s)
  {
    q in m ==> LeafExact(f, s, q, m[q])
  }

  /** Those pages of the segment below `p` that are mapped are exact. */
  ghost predicate ExactTo(f: File, s: Segment, m: Memory, p: nat)
    requires SegmentOk(f, s)
  {
    forall q {:trigger ExactAt(f, s, m, q)} :: FirstPage(s) <= q < p ==> ExactAt(f, s, m, q)
  }

  ghost predicate SamePage(m: Memory, m': Memory, q: nat) { (q in m <==> q in m') && (q in m ==> m'[q] == m[q]) }

  /** Pages outside the segment are as they were. */
  ghost predicate Outside(s: Segment, m: Memory, m': Memory) {
    forall q {:trigger SamePage(m, m', q)} :: !OnPage(s, q) ==> SamePage(m, m', q)
  }

  lemma LoadedHolds(f: File, s: Segment, m: Memory)
    requires SegmentOk(f, s) && Loaded(f, s, m)
    ensures Holds(f, s, m)
  {
    forall x: nat ensures HoldsAt(f, s, m, x) {
      if InSegment(s, x) {
        var q, k := x / PAGE, x % PAGE;
        assert x == q * PAGE + k && OnPage(s, q);
        assert PageLoaded(f, s, m, q);
        assert m[q].page[k] == Want(f, s, q * PAGE + k);
      }
    }
  }

  /** No two loadable segments share a page. */
  ghost predicate PageDisjoint(f: File)
    requires |f| >= HDR_SIZE && TableOk(f)
  {
    forall i, j, p {:trigger OnPage(Phdr(f, i), p), OnPage(Phdr(f, j), p)} ::
      0 <= i < j < PhNum(f) && Phdr(f, i).load && Phdr(f, j).load && OnPage(Phdr(f, i), p) ==> !OnPage(Phdr(f, j), p)
  }

  /** What is mapped of the first `n` segments is exact. */
  ghost predicate SegmentsExact(f: File, m: Memory, n: nat)
    requires |f| >= HDR_SIZE && TableOk(f) && n <= PhNum(f)
  {
    forall i {:trigger Phdr(f, i)} ::
      0 <= i < n && Phdr(f, i).load ==> SegmentOk(f, Phdr(f, i)) && ExactTo(f, Phdr(f, i), m, EndPage(Phdr(f, i)))
  }

  /** Every page of every segment is mapped and exact. */
  ghost predicate AllLoaded(f: File, m: Memory)
    requires |f| >= HDR_SIZE && TableOk(f) && SegmentsOk(f, PhNum(f))
  {
    forall i {:trigger Phdr(f, i)} :: 0 <= i < PhNum(f) && Phdr(f, i).load ==> Loaded(f, Phdr(f, i), m)
  }

  /** Every byte of every segment reads as the file or zero. */
  ghost predicate AllHold(f: File, m: Memory)
    requires |f| >= HDR_SIZE && TableOk(f) && SegmentsOk(f, PhNum(f))
  {
    forall i {:trigger Phdr(f, i)} :: 0 <= i < PhNum(f) && Phdr(f, i).load ==> Holds(f, Phdr(f, i), m)
  }

  /** The least page boundary no loaded segment reaches past. */
  ghost predicate IsBreak(f: File, brk: nat)
    requires |f| >= HDR_SIZE && TableOk(f)
  {
    && brk % PAGE == 0
    && (forall i {:trigger Phdr(f, i)} ::
          0 <= i < PhNum(f) && Phdr(f, i).load ==> Phdr(f, i).vaddr + Phdr(f, i).memsz <= brk)
    && (brk == 0 || exists i {:trigger Phdr(f, i)} ::
          0 <= i < PhNum(f) && Phdr(f, i).load && brk < Phdr(f, i).vaddr + Phdr(f, i).memsz + PAGE)
  }

  // ---- the pages in the order of the loader --------------------------------

  function Range(a: nat, b: nat): (r: seq<nat>)
    ensures |r| == if a <= b then b - a else 0
    ensures forall k :: 0 <= k < |r| ==> r[k] == a + k
  {
    if a <= b then seq(b - a, k => a + k) else []
  }

  /** The stack pages: the top one first. */
  function Stack(): (r: seq<nat>) {
    var p := USER_STACK_TOP / PAGE;
    [p, p - 1, p - 2, p - 3]
  }

  /** The pages of the first `n` program headers. */
  function Visits(f: File, n: nat): (r: seq<nat>)
    requires |f| >= HDR_SIZE && TableOk(f) && n <= PhNum(f)
  {
    if n == 0 then [] else
    var s := Phdr(f, n - 1);
    Visits(f, n - 1) + if s.load then Range(FirstPage(s), EndPage(s)) else []
  }

  /** Every page the loader maps. */
  function Whole(f: File): (r: seq<nat>)
    requires |f| >= HDR_SIZE && TableOk(f)
  {
    Stack() + Visits(f, PhNum(f))
  }

  lemma {:induction false} VisitsGrow(f: File, i: nat, n: nat)
    requires |f| >= HDR_SIZE && TableOk(f) && i <= n <= PhNum(f)
    ensures Enough({}, Stack() + Visits(f, i)) <= Enough({}, Stack() + Visits(f, n))
    decreases n - i
  {
    hide TableOk, Phdr, Enough, Need, Stack;
    if i < n {
      VisitsGrow(f, i, n - 1);
      var s := Phdr(f, n - 1);
      if s.load {
        var r := Range(FirstPage(s), EndPage(s));
        NeedGrows({}, Stack() + Visits(f, n - 1), r);
        assert Stack() + Visits(f, n) == Stack() + Visits(f, n - 1) + r;
      } else {
        assert Visits(f, n) == Visits(f, n - 1);
      }
    }
  }

  /** The pages visited are the pages of the segments. */
  lemma {:induction false} VisitsAre(f: File, n: nat, q: nat)
    requires |f| >= HDR_SIZE && TableOk(f) && n <= PhNum(f)
    ensures q in Visits(f, n) <==> exists i {:trigger Phdr(f, i)} ::
              0 <= i < n && Phdr(f, i).load && OnPage(Phdr(f, i), q)
    decreases n
  {
    hide TableOk, Phdr;
    if n > 0 {
      VisitsAre(f, n - 1, q);
      var s := Phdr(f, n - 1);
      var r := Range(FirstPage(s), EndPage(s));
      if s.load && OnPage(s, q) { assert r[q - FirstPage(s)] == q; }
    }
  }

  /** The stack pages share their tables, so that only the first of them can lack one. */
  lemma StackChain()
    ensures Chain(Stack()[3]) == Chain(Stack()[2])
  {
    ChainShared(Stack()[3], Stack()[2]);
  }

  // ---- the address space ---------------------------------------------------

  /** An address space under construction, the tables below its root, and the frames still free in
      the order of the allocator; a frame keeps what its last owner left in it. */
  class AddressSpace {
    var pages: Memory
    var tables: set<Node>
    var frames: seq<Page>

    ghost predicate Valid()
      reads this
    {
      Tree(tables) && forall p {:trigger p in pages} :: p in pages ==> Chain(p) <= tables
    }

    ghost predicate Mapped1(ps: seq<nat>)
      reads this
    {
      forall k {:trigger ps[k]} :: 0 <= k < |ps| ==> ps[k] in pages
    }

    /** The pages `ps` were visited, starting from `n` frames: either all are mapped and exactly the
        frames they need are gone, or the last found no frame for a table and is not mapped. */
    ghost predicate At(n: nat, ps: seq<nat>)
      reads this
    {
      && Valid()
      && if n >= Need({}, ps) then tables == Nodes(ps) && |frames| == n - Need({}, ps) && Mapped1(ps)
         else
              && n >= Enough({}, ps) && frames == [] && ps != [] && Mapped1(ps[..|ps| - 1])
              && !(Chain(ps[|ps| - 1]) <= tables)
    }

    /** The three levels of map_pml4: a missing table takes a frame, and without one nothing is said. */
    method Descend(page: nat) returns (mapped: bool)
      requires Valid()
      modifies this`tables, this`frames
      ensures Valid() && old(tables) <= tables
      ensures mapped <==> |old(frames)| >= |Chain(page) - old(tables)|
      ensures mapped ==> tables == old(tables) + Chain(page) && |frames| == |old(frames)| - |Chain(page) - old(tables)|
      ensures !mapped ==> frames == [] && !(Chain(page) <= tables)
    {
      hide Tree, Path, Above;
      PathNone(page);
      var lvl := 0;
      while lvl < 3
        invariant 0 <= lvl <= 3 && Valid() && tables == old(tables) + Path(page, lvl)
        invariant lvl > 0 ==> Above(page, lvl) in tables
        invariant |frames| == |old(frames)| - |Path(page, lvl) - old(tables)|
      {
        lvl := lvl + 1;
        PathMore(page, lvl, old(tables));
        PathSize(page, lvl, 3, old(tables));
        PathStep(page, lvl);
        var node := Above(page, lvl);
        if node !in tables {
          if frames == [] { return false; }
          frames := frames[1..];
          TreeMore(tables, page, lvl);
          tables := tables + {node};
        }
      }
      mapped := true;
    }

    /** alloc_page and the walk of map_page_dir for one more page. */
    method Reserve(page: nat, ghost n: nat, ghost ps: seq<nat>) returns (ok: bool, frame: Page, mapped: bool)
      requires At(n, ps)
      modifies this`tables, this`frames
      ensures Valid() && (ok <==> n >= Enough({}, ps + [page]))
      ensures ok ==> Mapped1(ps) && (mapped <==> n >= Need({}, ps + [page]))
      ensures ok && mapped ==> tables == Nodes(ps + [page]) && |frames| == n - Need({}, ps + [page])
      ensures ok && mapped ==> Chain(page) <= tables
      ensures ok && !mapped ==> frames == [] && !(Chain(page) <= tables)
    {
      hide Chain, Tree, Nodes, Need, Enough;
      NeedMore({}, ps, page);
      EnoughBelow({}, ps + [page]);
      ok, frame, mapped := false, Blank(), false;
      if frames == [] { return; }
      frame := frames[0];
      frames := frames[1..];
      assert {} + Nodes(ps) == Nodes(ps);
      mapped := Descend(page);
      ok := true;
    }

    /** The entry written if the walk got there; the frame is filled either way. */
    method Install(page: nat, leaf: Leaf, mapped: bool, ghost n: nat, ghost ps: seq<nat>)
      requires Valid() && Mapped1(ps) && n >= Enough({}, ps + [page]) && (mapped <==> n >= Need({}, ps + [page]))
      requires mapped ==> tables == Nodes(ps + [page]) && |frames| == n - Need({}, ps + [page]) && Chain(page) <= tables
      requires !mapped ==> frames == [] && !(Chain(page) <= tables)
      modifies this`pages
      ensures At(n, ps + [page]) && pages == if mapped then old(pages)[page := leaf] else old(pages)
    {
      hide Chain, Tree, Nodes, Need, Enough;
      if mapped { pages := pages[page := leaf]; }
      assert (ps + [page])[..|ps|] == ps;
    }

    /** The initial stack; the entry frame at its top is all zero. */
    method MapStack(ghost n: nat) returns (ok: bool)
      requires At(n, []) && pages == map[]
      modifies this
      ensures ok <==> n >= Enough({}, Stack())
      ensures ok ==> At(n, Stack()) && Mapped1(Stack()) && StackReady(pages)
    {
      hide Need, Enough, Nodes, Chain, Tree;
      var sp := 0;
      ghost var ps: seq<nat> := [];
      while sp < USER_STACK_INIT_PAGES
        invariant 0 <= sp <= 4 && ps == Stack()[..sp] && At(n, ps)
        invariant forall q {:trigger q in pages} :: q in pages ==> pages[q].nx && pages[q].writable
        invariant sp > 0 && Stack()[0] in pages ==> FrameZero(pages[Stack()[0]].page)
      {
        var page := USER_STACK_TOP / PAGE - sp;
        var frame, mapped;
        NeedGrows({}, Stack()[..sp + 1], Stack()[sp + 1..]);
        assert Stack()[..sp + 1] == ps + [page] && Stack()[..sp + 1] + Stack()[sp + 1..] == Stack();
        ok, frame, mapped := Reserve(page, n, ps);
        if !ok { return; }
        var top := if sp == 0 then Splice(frame, PAGE - ENTRY_FRAME, Zeros(ENTRY_FRAME)) else frame;
        if sp == 0 { FrameCleared(frame); }
        Install(page, Installed(top, true), mapped, n, ps);
        ps := ps + [page];
        sp := sp + 1;
      }
      assert ps == Stack();
      ok := true;
      AtEnough(n, Stack());
      StackWhole(n);
    }

    /** Had the last stack page no table, neither had the one before, which is mapped. */
    lemma StackWhole(n: nat)
      requires At(n, Stack())
      ensures Mapped1(Stack())
    {
      hide Need, Enough, Nodes, Chain, Tree;
      StackChain();
      assert Stack()[..3][2] == Stack()[2];
    }

    /** One segment: every page of it in order, or out of memory. */
    method LoadSegment(f: File, s: Segment, ghost n: nat, ghost ps: seq<nat>) returns (ok: bool)
      requires SegmentOk(f, s) && At(n, ps)
      modifies this
      ensures ok <==> n >= Enough({}, ps + Range(FirstPage(s), EndPage(s)))
      ensures ok ==> At(n, ps + Range(FirstPage(s), EndPage(s)))
      ensures ExactTo(f, s, pages, EndPage(s)) <== ok
      ensures Outside(s, old(pages), pages)
    {
      hide LeafExact, SegmentOk, At, Need, Enough, Nodes;
      var page := s.vaddr / PAGE;
      var end := (s.vaddr + s.memsz + PAGE - 1) / PAGE;
      ghost var done := ps;
      AtEnough(n, ps);
      assert ps + Range(page, page) == ps;
      while page < end
        invariant FirstPage(s) <= page && done == ps + Range(FirstPage(s), page) && At(n, done)
        invariant page <= end || page == FirstPage(s)
        invariant ExactTo(f, s, pages, page) && Outside(s, old(pages), pages) && n >= Enough({}, done)
      {
        ghost var before := pages;
        ghost var rest := Range(page + 1, end);
        assert done + [page] == ps + Range(FirstPage(s), page + 1);
        assert done + [page] + rest == ps + Range(FirstPage(s), end);
        NeedGrows({}, done + [page], rest);
        var frame, mapped;
        ok, frame, mapped := Reserve(page, n, done);
        if !ok { return; }
        var content := FillPage(f, s, page, frame);
        Install(page, Installed(content, !s.x), mapped, n, done);
        LeafIs(f, s, page, content);
        forall q | FirstPage(s) <= q < page + 1 ensures ExactAt(f, s, pages, q) {
          if q < page { assert ExactAt(f, s, before, q); }
        }
        forall q | !OnPage(s, q) ensures SamePage(old(pages), pages, q) { assert SamePage(old(pages), before, q); }
        done := done + [page];
        page := page + 1;
      }
      ok := true;
    }

    lemma AtEnough(n: nat, ps: seq<nat>)
      requires At(n, ps)
      ensures n >= Enough({}, ps)
    {
      EnoughBelow({}, ps);
    }

    /** The segment loop of elf_load_image. */
    method LoadSegments(f: File, ghost n: nat) returns (ok: bool)
      requires |f| >= HDR_SIZE && TableOk(f) && At(n, Stack())
      modifies this
      ensures ok <==> SegmentsOk(f, PhNum(f)) && n >= Enough({}, Whole(f))
      ensures ok ==> At(n, Whole(f))
      ensures ok && PageDisjoint(f) ==> SegmentsExact(f, pages, PhNum(f))
      ensures Spared(f, PhNum(f), old(pages), pages)
    {
      hide SegmentOk, ExactTo, OnPage, TableOk, Phdr, PageDisjoint, At, Need, Enough, Stack;
      var i := 0;
      AtEnough(n, Stack());
      assert Stack() + Visits(f, 0) == Stack();
      while i < PhNum(f)
        invariant 0 <= i <= PhNum(f) && SegmentsOk(f, i) && At(n, Stack() + Visits(f, i))
        invariant n >= Enough({}, Stack() + Visits(f, i))
        invariant PageDisjoint(f) ==> SegmentsExact(f, pages, i)
        invariant Spared(f, i, old(pages), pages)
      {
        var s := Phdr(f, i);
        if s.load {
          var good := Checked(f, s);
          if !good { SparedAll(f, i, old(pages), pages); return false; }
          ghost var before := pages;
          VisitsGrow(f, i + 1, PhNum(f));
          assert Stack() + Visits(f, i + 1) == Stack() + Visits(f, i) + Range(FirstPage(s), EndPage(s));
          var loaded := LoadSegment(f, s, n, Stack() + Visits(f, i));
          SparedMore(f, i, old(pages), before, pages);
          if !loaded { SparedAll(f, i + 1, old(pages), pages); return false; }
          if PageDisjoint(f) { KeptExact(f, before, pages, i); }
        } else {
          assert Stack() + Visits(f, i + 1) == Stack() + Visits(f, i);
          SparedAll(f, i, old(pages), pages);
        }
        i := i + 1;
      }
      ok := true;
    }

    /** The checks in the order of the source. */
    method Checked(f: File, s: Segment) returns (ok: bool)
      ensures ok <==> SegmentOk(f, s)
    {
      if s.offset > |f| || s.filesz > |f| - s.offset { return false; }
      if s.memsz > USER_SPACE_END || s.vaddr < USER_SPACE_MIN || s.vaddr > USER_SPACE_END - s.memsz { return false; }
      if s.memsz > ELF_MAX_SEGMENT { return false; }
      return true;
    }

    /** The program break: the end of the highest segment, rounded up to a page. */
    method Break(f: File) returns (brk: nat)
      requires |f| >= HDR_SIZE && TableOk(f)
      ensures IsBreak(f, brk)
    {
      hide TableOk, Phdr, Get64;
      var top, i := 0, 0;
      while i < PhNum(f)
        invariant 0 <= i <= PhNum(f) && 0 <= top
        invariant top == 0 || exists j {:trigger Phdr(f, j)} ::
                    0 <= j < i && Phdr(f, j).load && Phdr(f, j).vaddr + Phdr(f, j).memsz == top
        invariant forall j {:trigger Phdr(f, j)} ::
                    0 <= j < i && Phdr(f, j).load ==> Phdr(f, j).vaddr + Phdr(f, j).memsz <= top
      {
        var s := Phdr(f, i);
        if s.load && s.vaddr + s.memsz > top { top := s.vaddr + s.memsz; }
        i := i + 1;
      }
      brk := (top + PAGE - 1) / PAGE * PAGE;
      RoundedUp(top);
    }

    /** elf_load_image: checks, page directory, stack, segments and program break.  With fewer frames
        than the whole image needs, but enough to reach its last page, it succeeds without that page. */
    method Load(f: File) returns (ok: bool, entry: nat, brk: nat)
      modifies this
      ensures ok <==> Accepted(f) && |old(frames)| > Enough({}, Whole(f))
      ensures ok ==> entry == Entry(f) && IsBreak(f, brk) && StackMapped(pages)
      ensures ok && StackApart(f) ==> StackReady(pages)
      ensures ok && PageDisjoint(f) ==> (AllLoaded(f, pages) <==> |old(frames)| > Need({}, Whole(f)))
      ensures ok && PageDisjoint(f) ==>
                (AllHold(f, pages) <==> |old(frames)| > Need({}, Whole(f)) || !Wanted(f, LastPage(f)))
      ensures ok && |old(frames)| <= Need({}, Whole(f)) ==> LastPage(f) !in pages
    {
      hide SegmentOk, OnPage, PageDisjoint, Phdr, TableOk, IsBreak, At, Need, Enough, Stack, AllLoaded, AllHold, Wanted,
           StackReady, StackApart, Spared;
      ok, entry, brk := false, 0, 0;
      if !ValidHeader(f) { return; }
      if !TableOk(f) { return; }
      if frames == [] { return; }
      frames := frames[1..];
      pages, tables := map[], {};
      ghost var n := |frames|;
      Fresh();
      VisitsGrow(f, 0, PhNum(f));
      assert Stack() + Visits(f, 0) == Stack();
      var placed := MapStack(n);
      if !placed { return; }
      entry := Entry(f);
      if entry < USER_SPACE_MIN || entry >= USER_SPACE_END { return; }
      ghost var before := pages;
      ok := LoadSegments(f, n);
      if !ok { return; }
      if StackApart(f) { StackKept(f, before, pages); }
      Outcome(f, n);
      brk := Break(f);
    }

    lemma Fresh()
      requires pages == map[] && tables == {}
      ensures At(|frames|, [])
    {
    }

    /** What is there at the end. */
    lemma Outcome(f: File, n: nat)
      requires |f| >= HDR_SIZE && TableOk(f) && SegmentsOk(f, PhNum(f)) && At(n, Whole(f))
      requires PageDisjoint(f) ==> SegmentsExact(f, pages, PhNum(f))
      ensures StackMapped(pages) && (n < Need({}, Whole(f)) ==> LastPage(f) !in pages)
      ensures PageDisjoint(f) ==> (AllLoaded(f, pages) <==> n >= Need({}, Whole(f)))
      ensures PageDisjoint(f) ==> (AllHold(f, pages) <==> n >= Need({}, Whole(f)) || !Wanted(f, LastPage(f)))
    {
      hide SegmentOk, OnPage, PageDisjoint, Phdr, TableOk, Need, Enough, AllLoaded, AllHold, Wanted, Chain, Tree, Nodes,
           SegmentsExact;
      var ps, full := Whole(f), n >= Need({}, Whole(f));
      if Visits(f, PhNum(f)) == [] { assert ps == Stack(); StackWhole(n); }
      forall p | p in Stack() ensures p in pages {
        var k :| 0 <= k < 4 && Stack()[k] == p;
        assert ps[k] == p && (k < |ps| - 1 ==> ps[..|ps| - 1][k] == p);
      }
      forall q | q in ps && (full || q != LastPage(f)) ensures q in pages {
        var k :| 0 <= k < |ps| && ps[k] == q;
        assert k < |ps| - 1 ==> ps[..|ps| - 1][k] == q;
      }
      if PageDisjoint(f) { Settled(f, pages, full); }
    }
  }

  /** With all pages mapped, or all but the last, exactness of what is mapped decides the image. */
  lemma Settled(f: File, m: Memory, full: bool)
    requires |f| >= HDR_SIZE && TableOk(f) && SegmentsOk(f, PhNum(f)) && SegmentsExact(f, m, PhNum(f)) && StackMapped(m)
    requires forall q {:trigger q in m} :: q in Whole(f) && (full || q != LastPage(f)) ==> q in m
    requires !full ==> LastPage(f) !in m
    ensures AllLoaded(f, m) <==> full
    ensures AllHold(f, m) <==> full || !Wanted(f, LastPage(f))
  {
    if full {
      FullLoaded(f, m);
    } else {
      LostUnloaded(f, m);
      if Wanted(f, LastPage(f)) { LostUnheld(f, m); } else { LostUnseen(f, m); }
    }
  }

  lemma PageVisited(f: File, i: nat, q: nat)
    requires |f| >= HDR_SIZE && TableOk(f) && i < PhNum(f) && Phdr(f, i).load && OnPage(Phdr(f, i), q)
    ensures q in Whole(f)
  {
    hide Phdr, TableOk, OnPage;
    VisitsAre(f, PhNum(f), q);
  }

  lemma FullLoaded(f: File, m: Memory)
    requires |f| >= HDR_SIZE && TableOk(f) && SegmentsOk(f, PhNum(f)) && SegmentsExact(f, m, PhNum(f))
    requires forall q {:trigger q in m} :: q in Whole(f) ==> q in m
    ensures AllLoaded(f, m) && AllHold(f, m)
  {
    hide Phdr, TableOk, SegmentOk, LeafExact, Stack, Holds;
    forall i | 0 <= i < PhNum(f) && Phdr(f, i).load ensures Loaded(f, Phdr(f, i), m) && Holds(f, Phdr(f, i), m) {
      var s := Phdr(f, i);
      forall q | OnPage(s, q) ensures PageLoaded(f, s, m, q) { PageVisited(f, i, q); assert ExactAt(f, s, m, q); }
      LoadedHolds(f, s, m);
    }
  }

  lemma LostUnloaded(f: File, m: Memory)
    requires |f| >= HDR_SIZE && TableOk(f) && SegmentsOk(f, PhNum(f)) && StackMapped(m) && LastPage(f) !in m
    ensures !AllLoaded(f, m)
  {
    hide Phdr, TableOk, SegmentOk, LeafExact, OnPage;
    var p := LastPage(f);
    assert p !in Stack();
    assert p in Visits(f, PhNum(f));
    VisitsAre(f, PhNum(f), p);
    var i :| 0 <= i < PhNum(f) && Phdr(f, i).load && OnPage(Phdr(f, i), p);
    assert !PageLoaded(f, Phdr(f, i), m, p);
  }

  lemma LostUnheld(f: File, m: Memory)
    requires |f| >= HDR_SIZE && TableOk(f) && SegmentsOk(f, PhNum(f)) && LastPage(f) !in m && Wanted(f, LastPage(f))
    ensures !AllHold(f, m)
  {
    hide Phdr, TableOk, SegmentOk, LastPage;
    var i: nat, x: nat :| i < PhNum(f) && Phdr(f, i).load && InSegment(Phdr(f, i), x) && x / PAGE == LastPage(f);
    assert !HoldsAt(f, Phdr(f, i), m, x);
  }

  lemma LostUnseen(f: File, m: Memory)
    requires |f| >= HDR_SIZE && TableOk(f) && SegmentsOk(f, PhNum(f)) && SegmentsExact(f, m, PhNum(f))
    requires forall q {:trigger q in m} :: q in Whole(f) && q != LastPage(f) ==> q in m
    requires !Wanted(f, LastPage(f))
    ensures AllHold(f, m)
  {
    hide Phdr, TableOk, SegmentOk, LastPage, Whole;
    forall i | 0 <= i < PhNum(f) && Phdr(f, i).load ensures Holds(f, Phdr(f, i), m) {
      forall x: nat ensures HoldsAt(f, Phdr(f, i), m, x) { ByteHeld(f, m, i, x); }
    }
  }

  lemma ByteHeld(f: File, m: Memory, i: nat, x: nat)
    requires |f| >= HDR_SIZE && TableOk(f) && SegmentsOk(f, PhNum(f)) && SegmentsExact(f, m, PhNum(f))
    requires forall q {:trigger q in m} :: q in Whole(f) && q != LastPage(f) ==> q in m
    requires !Wanted(f, LastPage(f)) && i < PhNum(f) && Phdr(f, i).load
    ensures HoldsAt(f, Phdr(f, i), m, x)
  {
    hide Phdr, TableOk, SegmentOk, LastPage, Whole;
    var s := Phdr(f, i);
    if InSegment(s, x) {
      var q, k := x / PAGE, x % PAGE;
      assert x == q * PAGE + k && OnPage(s, q);
      PageVisited(f, i, q);
      assert ExactAt(f, s, m, q);
      assert m[q].page[k] == Want(f, s, q * PAGE + k);
    }
  }

  /** No loadable segment among the first `n` is on page `q`. */
  ghost predicate Apart(f: File, n: nat, q: nat)
    requires |f| >= HDR_SIZE && TableOk(f) && n <= PhNum(f)
  {
    forall i {:trigger Phdr(f, i)} :: 0 <= i < n && Phdr(f, i).load ==> !OnPage(Phdr(f, i), q)
  }

  /** Pages apart from the segments are as they were. */
  ghost predicate Spared(f: File, n: nat, m: Memory, m': Memory)
    requires |f| >= HDR_SIZE && TableOk(f) && n <= PhNum(f)
  {
    forall q {:trigger SamePage(m, m', q)} :: Apart(f, n, q) ==> SamePage(m, m', q)
  }

  lemma SparedMore(f: File, i: nat, m: Memory, m1: Memory, m2: Memory)
    requires |f| >= HDR_SIZE && TableOk(f) && i < PhNum(f) && Phdr(f, i).load
    requires Spared(f, i, m, m1) && Outside(Phdr(f, i), m1, m2)
    ensures Spared(f, i + 1, m, m2)
  {
    hide Phdr, TableOk, OnPage;
    forall q | Apart(f, i + 1, q) ensures SamePage(m, m2, q) {
      assert Apart(f, i, q);
      assert SamePage(m, m1, q) && SamePage(m1, m2, q);
    }
  }

  lemma SparedAll(f: File, i: nat, m: Memory, m': Memory)
    requires |f| >= HDR_SIZE && TableOk(f) && i <= PhNum(f) && Spared(f, i, m, m')
    ensures forall n {:trigger Spared(f, n, m, m')} :: i <= n <= PhNum(f) ==> Spared(f, n, m, m')
  {
    hide Phdr, TableOk, OnPage, SamePage;
    forall n, q | i <= n <= PhNum(f) && Apart(f, n, q) ensures SamePage(m, m', q) { assert Apart(f, i, q); }
  }

  /** The last page the loader maps. */
  function LastPage(f: File): nat
    requires |f| >= HDR_SIZE && TableOk(f)
  {
    Whole(f)[|Whole(f)| - 1]
  }

  /** A byte of some segment lies on page `p`. */
  ghost predicate Wanted(f: File, p: nat)
    requires |f| >= HDR_SIZE && TableOk(f)
  {
    exists i: nat, x: nat {:trigger InSegment(Phdr(f, i), x)} ::
      i < PhNum(f) && Phdr(f, i).load && InSegment(Phdr(f, i), x) && x / PAGE == p
  }

  /** No segment is on a stack page. */
  ghost predicate StackApart(f: File)
    requires |f| >= HDR_SIZE && TableOk(f)
  {
    forall k {:trigger Stack()[k]} :: 0 <= k < 4 ==> Apart(f, PhNum(f), Stack()[k])
  }

  lemma StackKept(f: File, m: Memory, m': Memory)
    requires |f| >= HDR_SIZE && TableOk(f) && StackReady(m) && StackApart(f) && Spared(f, PhNum(f), m, m')
    ensures StackReady(m')
  {
    hide Phdr, TableOk, Apart, FrameZero;
    forall k {:trigger Stack()[k]} | 0 <= k < 4
      ensures SamePage(m, m', Stack()[k])
    {
      assert Apart(f, PhNum(f), Stack()[k]);
    }
  }

  ghost predicate StackMapped(m: Memory) { forall p {:trigger p in m} :: p in Stack() ==> p in m }

  /** The entry frame is zero: argc, argv and envp of a plain launch. */
  predicate FrameZero(p: Page) { forall k :: PAGE - ENTRY_FRAME <= k < PAGE ==> p[k] == 0 }

  ghost predicate StackReady(m: Memory) {
    && (forall k {:trigger Stack()[k]} :: 0 <= k < 4 ==> Stack()[k] in m && m[Stack()[k]].writable && m[Stack()[k]].nx)
    && FrameZero(m[Stack()[0]].page)
  }

  lemma FrameCleared(frame: Page)
    ensures FrameZero(Splice(frame, PAGE - ENTRY_FRAME, Zeros(ENTRY_FRAME)))
  {
    Zeroed(frame, PAGE - ENTRY_FRAME, ENTRY_FRAME);
  }

  function Blank(): Page { seq(PAGE, i => 0) }

  lemma LeafIs(f: File, s: Segment, q: nat, content: Page)
    requires SegmentOk(f, s) && PageExact(f, s, q, content)
    ensures LeafExact(f, s, q, Installed(content, !s.x))
  {
    hide PageExact;
  }

  lemma RoundedUp(x: nat)
    ensures var r := (x + PAGE - 1) / PAGE * PAGE; r % PAGE == 0 && x <= r < x + PAGE && (x == 0 ==> r == 0)
  {
  }

  // ---- write protection ----------------------------------------------------

  /** The pages of every segment have the rights its header asks for. */
  ghost predicate AsAsked(f: File, m: Memory)
    requires |f| >= HDR_SIZE && TableOk(f)
  {
    forall i, q {:trigger OnPage(Phdr(f, i), q)} ::
      0 <= i < PhNum(f) && Phdr(f, i).load && OnPage(Phdr(f, i), q)
      ==> q in m && m[q].writable == Phdr(f, i).w && m[q].nx == !Phdr(f, i).x
  }

  /** A loaded image has them if and only if every segment with a page asks for write access. */
  lemma AlwaysWritable(f: File, m: Memory)
    requires |f| >= HDR_SIZE && TableOk(f) && SegmentsOk(f, PhNum(f)) && AllLoaded(f, m)
    ensures AsAsked(f, m) <==> forall i {:trigger Phdr(f, i)} ::
                                 0 <= i < PhNum(f) && Phdr(f, i).load && FirstPage(Phdr(f, i)) < EndPage(Phdr(f, i)) ==>
                                     Phdr(f, i).w
  {
    hide Phdr, TableOk, SegmentOk, PageExact;
    forall i, q | 0 <= i < PhNum(f) && Phdr(f, i).load && OnPage(Phdr(f, i), q)
      ensures q in m && m[q].writable && m[q].nx == !Phdr(f, i).x
    {
      assert Loaded(f, Phdr(f, i), m) && PageLoaded(f, Phdr(f, i), m, q);
    }
    forall i | 0 <= i < PhNum(f) && FirstPage(Phdr(f, i)) < EndPage(Phdr(f, i))
      ensures OnPage(Phdr(f, i), FirstPage(Phdr(f, i)))
    {
    }
  }

  // ---- the image that loses its only page ----------------------------------

  /** Byte `i` of an image with one loadable page of zeros at 0x400000. */
  function OnePageByte(i: int): Octet {
    match i
    case 0 => 0x7F case 1 => 0x45 case 2 => 0x4C case 3 => 0x46 case 4 => ELF_64BIT case 5 => ELF_LITTLE_ENDIAN
    case 16 => 2 case 18 => 62                            // e_type, e_machine
    case 26 => 0x40 case 32 => 64                         // e_entry, e_phoff
    case 54 => 56 case 56 => 1                            // e_phentsize, e_phnum
    case 64 => 1 case 68 => 2                             // p_type, p_flags
    case 82 => 0x40 case 105 => 0x10                      // p_vaddr, p_memsz
    case _ => 0
  }

  function OnePage(): (f: File) { seq(HDR_SIZE + PHDR_SIZE, i => OnePageByte(i)) }

  lemma OnePage16(o: nat)
    requires o + 2 <= HDR_SIZE + PHDR_SIZE
    ensures |OnePage()| == HDR_SIZE + PHDR_SIZE
    ensures Get16(OnePage(), o) == OnePageByte(o) as int + 256 * OnePageByte(o + 1) as int
  {
    hide OnePageByte;
  }

  lemma OnePage32(o: nat)
    requires o + 4 <= HDR_SIZE + PHDR_SIZE
    ensures |OnePage()| == HDR_SIZE + PHDR_SIZE
    ensures Get32(OnePage(), o) == OnePageByte(o) as int + 256 * OnePageByte(o + 1) as int
                                   + TWO16 * (OnePageByte(o + 2) as int + 256 * OnePageByte(o + 3) as int)
  {
    hide OnePageByte, OnePage, Get16;
    OnePage16(o);
    OnePage16(o + 2);
  }

  lemma OnePageHeader()
    ensures var f := OnePage();
            && |f| == HDR_SIZE + PHDR_SIZE && ValidHeader(f) && TableOk(f) && PhOff(f) == HDR_SIZE && PhNum(f) == 1
            && Entry(f) == 0x400000
  {
    hide OnePage, Get16, Get32;
    OnePage32(0);
    OnePage16(16);
    OnePage16(18);
    OnePage32(24);
    OnePage32(28);
    OnePage32(32);
    OnePage32(36);
    OnePage16(54);
    OnePage16(56);
    OnePageIdent();
  }

  lemma OnePageIdent()
    ensures |OnePage()| == HDR_SIZE + PHDR_SIZE && OnePage()[4] == ELF_64BIT && OnePage()[5] == ELF_LITTLE_ENDIAN
  {
  }

  lemma OnePageIs()
    ensures var f := OnePage();
            && |f| == HDR_SIZE + PHDR_SIZE && TableOk(f) && PhNum(f) == 1
            && Phdr(f, 0) == Segment(true, true, false, 0, 0x400000, 0, PAGE)
  {
    hide OnePage, Get16, Get32, ValidHeader;
    OnePageHeader();
    OnePage32(64);
    OnePage32(68);
    OnePage32(72);
    OnePage32(76);
    OnePage32(80);
    OnePage32(84);
    OnePage32(96);
    OnePage32(100);
    OnePage32(104);
    OnePage32(108);
  }

  /** Its five pages with the stack need eleven frames; eight get the loader to the last of them. */
  lemma OnePageNeeds()
    ensures var f := OnePage();
            && Accepted(f) && PageDisjoint(f) && Enough({}, Whole(f)) == 8 && Need({}, Whole(f)) == 11
            && LastPage(f) == 0x400 && Wanted(f, 0x400)
  {
    hide ValidHeader, Need, Nodes, Chain, OnePage, TableOk, Phdr, Entry;
    OnePageHeader();
    OnePageIs();
    var f := OnePage();
    var s := Phdr(f, 0);
    assert FirstPage(s) == 0x400 && EndPage(s) == 0x401;
    assert Visits(f, 0) == [] && Visits(f, 1) == [0x400];
    assert Whole(f) == Stack() + [0x400];
    assert Whole(f)[..4] == Stack();
    StackNeeds();
    NoTable(0x400);
    NeedOne({}, Stack(), 0x400);
    assert InSegment(Phdr(f, 0), 0x400000);
  }

  lemma StackNeeds()
    ensures Need({}, Stack()) == 7 && Nodes(Stack()) == Chain(Stack()[0])
  {
    hide Need, Chain, Nodes;
    var a, b, c, d := Stack()[0], Stack()[1], Stack()[2], Stack()[3];
    NothingNeeded();
    NeedOne({}, [], a);
    NeedMore({}, [], a);
    assert [] + [a] == [a];
    ChainShared(a, b);
    NeedOne({}, [a], b);
    assert [a] + [b] == [a, b];
    ChainShared(a, c);
    NeedOne({}, [a, b], c);
    assert [a, b] + [c] == [a, b, c];
    ChainShared(a, d);
    NeedOne({}, [a, b, c], d);
    assert [a, b, c] + [d] == Stack();
  }

  lemma NothingNeeded()
    ensures Need({}, []) == 0 && Nodes([]) == {}
  {
  }

  /** A page far below the stack shares none of its tables. */
  lemma NoTable(p: nat)
    requires p < FANOUT * FANOUT * FANOUT
    ensures Nodes(Stack()) == Chain(Stack()[0]) ==> forall l :: 1 <= l <= 3 ==> Above(p, l) !in {} + Nodes(Stack())
  {
    hide Nodes;
    forall l | 1 <= l <= 3 && Above(p, l) in Chain(Stack()[0]) ensures false { PathLevels(Stack()[0], 3, Above(p, l)); }
  }

  /** elf_load_image says yes to that image, with nothing mapped where its only byte should be. */
  method LosesItsPage(a: AddressSpace) returns (ok: bool)
    requires 9 <= |a.frames| <= 11
    modifies a
    ensures var f := OnePage(); ok && Accepted(f) && 0x400 !in a.pages && !AllHold(f, a.pages)
  {
    hide ValidHeader, Need, Enough, AllHold, AllLoaded, Wanted, PageDisjoint, Phdr, Whole;
    OnePageNeeds();
    var entry, brk;
    ok, entry, brk := a.Load(OnePage());
  }

  /** Loading a segment leaves the pages of page-disjoint segments alone. */
  lemma KeptExact(f: File, m: Memory, m': Memory, i: nat)
    requires |f| >= HDR_SIZE && TableOk(f) && i < PhNum(f) && PageDisjoint(f) && SegmentsExact(f, m, i)
    requires Phdr(f, i).load && SegmentOk(f, Phdr(f, i)) && ExactTo(f, Phdr(f, i), m', EndPage(Phdr(f, i)))
    requires Outside(Phdr(f, i), m, m')
    ensures SegmentsExact(f, m', i + 1)
  {
    hide SegmentOk, LeafExact, Phdr;
    forall j | 0 <= j < i && Phdr(f, j).load
      ensures SegmentOk(f, Phdr(f, j)) && ExactTo(f, Phdr(f, j), m', EndPage(Phdr(f, j)))
    {
      var s := Phdr(f, j);
      forall q | FirstPage(s) <= q < EndPage(s) ensures ExactAt(f, s, m', q) {
        assert ExactAt(f, s, m, q);
        assert OnPage(s, q);
        assert !OnPage(Phdr(f, i), q);
        assert SamePage(m, m', q);
      }
    }
  }
}
