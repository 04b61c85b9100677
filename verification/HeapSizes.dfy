/**
 For which sizes malloc leaves the heap intact. The page count is rounded in 64-bit arithmetic, and
 vmmAllocate computes the end of a run in 64-bit arithmetic; either may wrap around.
 */
module HeapSizes {
  import opened Words
  import opened Bits64
  import Frames
  import opened PageTable
  import opened Addresses
  import opened Spaces
  import opened VirtualSteps
  import VirtualRuns
  import opened Outcomes
  import opened Contents
  import opened MemoryAccess
  import opened HeapSteps
  import HeapRuns
  import KernelHeap

  /** A call of malloc, whether it returns or not. */
  ghost predicate Called(h: Heap, st: Steps, h': Heap, size: nat, r: nat, hung: bool) {
    if hung then MallocHangs(h, st, h', size) else MallocStep(h, st, h', size, r)
  }

  /** The heap is well formed and every live block is still there. */
  ghost predicate Kept(h: Heap, h': Heap) {
    HeapOk(h') && forall b | b in h.blocks :: b in h'.blocks && h'.blocks[b] == h.blocks[b]
  }

  /** The header of the first block says what it said before. */
  ghost predicate FirstIntact(h: Heap, s': Space)
    requires FIRST in h.blocks
  {
    HeaderOk(s', FIRST, h.blocks[FIRST].size, h.blocks[FIRST].pages)
  }

  lemma NotKept(h: Heap, h': Heap)
    requires FIRST in h.blocks && !FirstIntact(h, h'.space)
    ensures !Kept(h, h')
  {
    assert HeapOk(h') && FIRST in h'.blocks ==> BlockOk(h', FIRST);
  }

  // ---------------------------------------------------------------- sizes that keep the heap

  lemma FitsKeeps(h: Heap, st: Steps, h': Heap, size: nat, r: nat, hung: bool)
    requires HeapOk(h) && Fits(size) && Called(h, st, h', size, r, hung)
    ensures Kept(h, h')
  {
    if hung {
      HeapRuns.HangKeeps(h, st, h', size);
    } else {
      MallocKeeps(h, st, h', size, r);
    }
  }

  lemma StartBelow(count: nat, first: nat)
    requires FIRST + count < PAGES && FIRST < first && Start(FIRST, LAST, count, first)
    ensures first + count < LAST
  {
  }

  /** On a heap in use, a run ends below the limit of the region. */
  lemma RunBelow(h: Heap, st: Steps, size: nat, base: nat)
    requires HeapOk(h) && Fits(size) && size != 0 && FIRST < h.top && st.grant.Run?
    requires AllocateStep(h.space, st.mid, FIRST, LAST, PagesFor(size), LazyWord(HEAP_FLAGS), st.grant, base)
    ensures st.grant.first == h.top && h.top + PagesFor(size) < LAST
  {
    MallocPlace(h, st, size, base);
    StartBelow(PagesFor(size), h.top);
  }

  /** Between the region and the wrap-around: on a heap in use there is no place, and nothing changes. */
  lemma AboveRegion(h: Heap, st: Steps, h': Heap, size: nat, r: nat, hung: bool)
    requires HeapOk(h) && FIRST < h.top && Fits(size) && size != 0 && LAST <= FIRST + PagesFor(size)
    requires Called(h, st, h', size, r, hung)
    ensures !hung && r == 0 && h' == h
  {
    if st.grant.Run? {
      RunBelow(h, st, size, Base(st.grant, PagesFor(size)));
    }
  }

  /** On a heap in use, a block ends below the limit of the region. */
  lemma BlockInRegion(h: Heap, st: Steps, h': Heap, size: nat, r: nat)
    requires HeapOk(h) && Fits(size) && MallocStep(h, st, h', size, r) && r != 0 && FIRST < h.top
    ensures r == h.top * 4096 + 16 && h.top + PagesFor(size) < LAST
  {
    RunBelow(h, st, size, Base(st.grant, PagesFor(size)));
  }

  // ---------------------------------------------------------------- the search wraps around

  lemma FirstPage(h: Heap)
    requires HeapOk(h) && FIRST in h.blocks
    ensures LeafPath(PagePath(FIRST)) && PagePath(FIRST)[..3] in h.space.tables
    ensures LeafPage(h.space, FIRST).p && LeafPage(h.space, FIRST).rw
    ensures FIRST + h.blocks[FIRST].pages < PAGES && 0 < h.blocks[FIRST].pages
  {
    assert BlockOk(h, FIRST);
    HeapPage(FIRST);
  }

  lemma CountRange(size: nat)
    ensures PagesFor(size) < PAGES
  {
  }

  /** The run starts at the first page, whoever owns it. */
  lemma WrapTakesFirst(h: Heap, st: Steps, base: nat, count: nat)
    requires HeapOk(h) && FIRST in h.blocks && PAGES <= FIRST + count && count < PAGES
    requires AllocateStep(h.space, st.mid, FIRST, LAST, count, LazyWord(HEAP_FLAGS), st.grant, base)
    ensures Separated(st.mid) && Ranged(st.mid) && LeafPage(st.mid, FIRST) == LazyWord(HEAP_FLAGS)
    ensures st.grant.Run? && st.grant.first == FIRST
  {
    FirstPage(h);
    WrapOverwritesFirst(h.space, st.mid, count, st.grant, base);
    ReserveOverwrites(h.space, st.mid, FIRST, st.grant.done, LazyWord(HEAP_FLAGS));
    GrowRanged(h.space, st.mid);
  }

  lemma WrapOverwritesFirst(s: Space, s': Space, count: nat, g: Grant, r: nat)
    requires LeafPath(PagePath(FIRST)) && PagePath(FIRST)[..3] in s.tables
    requires PAGES <= FIRST + count && count < PAGES && AllocateStep(s, s', FIRST, LAST, count, LazyWord(HEAP_FLAGS), g, r)
    ensures g.Run? && g.first == FIRST && 0 < g.done && LeafPage(s', FIRST) == LazyWord(HEAP_FLAGS)
  {
    VirtualRuns.WrapOverwrites(s, s', FIRST, LAST, count, LazyWord(HEAP_FLAGS), g, r);
  }

  /** A run to the end of the address space gets its header, and its guard page is page zero. */
  lemma LastRunStamped(h: Heap, st: Steps, h': Heap, size: nat, count: nat)
    requires Separated(st.mid) && Ranged(st.mid) && GrantedStep(h, st, h', FIRST, size, count) && FIRST + count == PAGES
    requires size < 0x1_0000_0000_0000_0000
    ensures HeaderOk(h'.space, FIRST, size, count)
  {
    var lo := FIRST * 4096;
    StampEvolves(st.mid, st, FIRST, lo, lo + 16, size, count);
    ZeroApart();
    HeaderStays(st.stamped, h'.space, PagePath(st.end), UNMAPPED, st.ok, FIRST, size, count);
  }

  lemma ZeroApart()
    ensures PagePath(FIRST) != PagePath(PAGES)
  {
    PageZeroAgain();
    IndexShifts(FIRST * 4096);
    PagePathIndices(FIRST);
  }

  lemma HeaderStays(s: Space, s': Space, q: Path, w: Word, ok: bool, b: nat, size: nat, pages: nat)
    requires Separated(s) && HeaderOk(s, b, size, pages) && LeafPath(q) && MapStep(s, s', q, w, ok) && PagePath(b) != q
    ensures HeaderOk(s', b, size, pages)
  {
    GrowKeepsData(s, s', PagePath(b));
  }

  /** Whatever the outcome: a request whose run reaches 2^64 destroys the header of a live first block. */
  lemma SearchWraps(h: Heap, st: Steps, h': Heap, size: nat, r: nat, hung: bool)
    requires HeapOk(h) && FIRST in h.blocks && size < 0x1_0000_0000_0000_0000 && PAGES <= FIRST + PagesFor(size)
    requires Called(h, st, h', size, r, hung)
    ensures !FirstIntact(h, h'.space)
  {
    var count := PagesFor(size);
    CountRange(size);
    WrapTakesFirst(h, st, Base(st.grant, count), count);
    if !hung && r != 0 {
      FirstPage(h);
      LastRunStamped(h, st, h', size, count);
    }
  }

  // ---------------------------------------------------------------- the rounding wraps around

  /** No page is asked for, and the first page is given out. */
  lemma NothingReserved(h: Heap, st: Steps, base: nat)
    requires HeapOk(h) && AllocateStep(h.space, st.mid, FIRST, LAST, 0, LazyWord(HEAP_FLAGS), st.grant, base)
    ensures Separated(st.mid) && Ranged(st.mid) && LeafPage(st.mid, FIRST) == LeafPage(h.space, FIRST)
    ensures st.grant == Run(FIRST, 0)
  {
    assert Start(FIRST, LAST, 0, FIRST) && Passes(h.space, FIRST, 0);
    ReserveOverwrites(h.space, st.mid, FIRST, 0, LazyWord(HEAP_FLAGS));
    GrowRanged(h.space, st.mid);
  }

  /** Stamping a page that is there leaves it there; the guard page then takes its place. */
  lemma GuardUnmaps(h: Heap, st: Steps, h': Heap, size: nat)
    requires Separated(st.mid) && Ranged(st.mid) && LeafPage(st.mid, FIRST).p && GrantedStep(h, st, h', FIRST, size, 0)
    requires size < 0x1_0000_0000_0000_0000
    ensures LeafPage(h'.space, FIRST) == UNMAPPED
  {
    var lo := FIRST * 4096;
    StampEvolves(st.mid, st, FIRST, lo, lo + 16, size, 0);
    LeafEvolves(st.mid, st.stamped, lo, lo + 16, FIRST);
    HeapPage(FIRST);
  }

  /** Whatever the outcome: a size that rounds to no page at all unmaps the first page of a live block. */
  lemma RoundingWraps(h: Heap, st: Steps, h': Heap, size: nat, r: nat, hung: bool)
    requires HeapOk(h) && FIRST in h.blocks && 0 < size < 0x1_0000_0000_0000_0000 && PagesFor(size) == 0
    requires Called(h, st, h', size, r, hung)
    ensures !hung && r == FIRST * 4096 + 16 && LeafPage(h'.space, FIRST) == UNMAPPED && !FirstIntact(h, h'.space)
  {
    FirstPage(h);
    NothingReserved(h, st, Base(st.grant, 0));
    GuardUnmaps(h, st, h', size);
  }

  // ---------------------------------------------------------------- the exact condition, call by call

  /** A run of one page that got no block. */
  lemma OnePageLeft(h: Heap, st: Steps, h': Heap, size: nat, r: nat, hung: bool)
    requires HeapOk(h) && size != 0 && PagesFor(size) == 1 && Called(h, st, h', size, r, hung) && (hung || r == 0)
    ensures Kept(h, h')
  {
    if st.grant.Run? {
      FitsBehindPrefix(h.space, h.top, 1, st.grant.first);
      TestedAll(h.top, 1);
      PartlyReserved(h, h', st.grant.done, 1);
    }
  }

  /** A block that does not hold what its record says. */
  lemma BlockTooLarge(h: Heap, st: Steps, h': Heap, size: nat, r: nat)
    requires size > 4080 && PagesFor(size) == 1 && MallocStep(h, st, h', size, r) && r != 0
    ensures !HeapOk(h')
  {
    assert !BlockOk(h', st.grant.first);
  }

  /** The last fifteen sizes round to one page, which holds neither header nor payload. */
  lemma LastSizes(h: Heap, st: Steps, h': Heap, size: nat, r: nat, hung: bool)
    requires HeapOk(h) && 0x1_0000_0000_0000_0000 - 15 <= size < 0x1_0000_0000_0000_0000
    requires Called(h, st, h', size, r, hung)
    ensures Kept(h, h') <==> hung || r == 0
  {
    Unfit(size);
    if hung || r == 0 {
      OnePageLeft(h, st, h', size, r, hung);
    } else {
      BlockTooLarge(h, st, h', size, r);
    }
  }

  /** The three ways in which a size does not fit. */
  lemma Unfit(size: nat)
    requires size < 0x1_0000_0000_0000_0000
    ensures !Fits(size) <==> PAGES <= FIRST + PagesFor(size) || (size != 0 && PagesFor(size) == 0) || 0x1_0000_0000_0000_0000 - 15 <= size
    ensures 0x1_0000_0000_0000_0000 - 15 <= size ==> PagesFor(size) == 1
  {
  }

  /**
   On a heap whose first block is live, malloc keeps the heap exactly when neither computation wraps
   around, or when one of the last fifteen sizes got no block.
   */
  lemma MallocKept(h: Heap, st: Steps, h': Heap, size: nat, r: nat, hung: bool)
    requires HeapOk(h) && FIRST in h.blocks && size < 0x1_0000_0000_0000_0000 && Called(h, st, h', size, r, hung)
    ensures Kept(h, h') <==> Fits(size) || (0x1_0000_0000_0000_0000 - 15 <= size && (hung || r == 0))
  {
    Unfit(size);
    if Fits(size) {
      FitsKeeps(h, st, h', size, r, hung);
    } else if PAGES <= FIRST + PagesFor(size) {
      SearchWraps(h, st, h', size, r, hung);
      NotKept(h, h');
    } else if PagesFor(size) == 0 {
      RoundingWraps(h, st, h', size, r, hung);
      NotKept(h, h');
    } else {
      LastSizes(h, st, h', size, r, hung);
    }
  }

  // ---------------------------------------------------------------- every call has an outcome

  lemma TouchOutcome(s: Space, first: nat, a: nat) returns (s': Space, frame: nat, ok: bool)
    requires Separated(s) && Ranged(s) && FIRST <= first < PAGES && a == first * 4096
    ensures if ok then TouchStep(s, s', first, frame) && Readable(s', a) && Separated(s') && Ranged(s') else TouchHangs(s, first)
    ensures LeafPage(s, first) == LazyWord(HEAP_FLAGS) && Frames.FreePages(s.frames) != {} ==> ok
    ensures ok ==> |Frames.FreePages(s'.frames)| + 1 >= |Frames.FreePages(s.frames)|
  {
    HeapPage(first);
    if LeafPage(s, first).p {
      KernelHeap.PageThere(s, first, a);
      s', frame, ok := s, 0, LeafPage(s, first).rw;
    } else {
      s', frame := FaultOutcome(s, PagePath(first), STORE);
      KernelHeap.TouchResult(s, s', first, a, frame);
      LazyPageLives();
      ok := frame != 0;
    }
  }

  lemma HeaderOutcome(s: Space, first: nat, lo: nat, mid: nat, size: nat, pages: nat) returns (sized: Space, stamped: Space)
    requires Separated(s) && Ranged(s) && FIRST <= first < PAGES && lo == first * 4096 && mid == lo + 8 && Readable(s, lo)
    requires size < 0x1_0000_0000_0000_0000 && pages < 0x1_0000_0000_0000_0000
    ensures StoreStep(s, sized, lo, size) && StoreStep(sized, stamped, mid, pages)
    ensures SpaceOk(stamped) && stamped.frames == s.frames
  {
    sized := Poked(s, lo, Parse(size));
    KernelHeap.StillThere(s, sized, first, size);
    stamped := Poked(sized, mid, Parse(pages));
    HeaderStored(s, sized, stamped, first, lo, mid, lo + 16, size, pages);
  }

  lemma StampOutcome(st: Steps, first: nat, size: nat, pages: nat) returns (st': Steps, ok: bool)
    requires Separated(st.mid) && Ranged(st.mid) && FIRST <= first < PAGES
    requires size < 0x1_0000_0000_0000_0000 && pages < 0x1_0000_0000_0000_0000
    ensures st'.mid == st.mid && st'.grant == st.grant && st'.end == st.end
    ensures if ok then StampStep(st.mid, st', first, size, pages) && SpaceOk(st'.stamped) else TouchHangs(st.mid, first)
    ensures LeafPage(st.mid, first) == LazyWord(HEAP_FLAGS) && Frames.FreePages(st.mid.frames) != {} ==> ok
    ensures ok ==> |Frames.FreePages(st'.stamped.frames)| + 1 >= |Frames.FreePages(st.mid.frames)|
  {
    st' := st;
    var lo := first * 4096;
    var mid := lo + 8;
    var touched, frame;
    touched, frame, ok := TouchOutcome(st.mid, first, lo);
    if ok {
      var sized, stamped := HeaderOutcome(touched, first, lo, mid, size, pages);
      st' := KernelHeap.StampBuilt(st, touched, sized, stamped, first, lo, mid, size, pages, frame);
    }
  }

  lemma GrantedOutcome(h: Heap, st: Steps, first: nat, end: nat, size: nat, count: nat)
    returns (st': Steps, h': Heap, hung: bool)
    requires Separated(st.mid) && Ranged(st.mid) && FIRST <= first < PAGES && st.end == end == first + count <= PAGES
    requires size < 0x1_0000_0000_0000_0000
    ensures st'.mid == st.mid && st'.grant == st.grant
    ensures if hung then TouchHangs(st.mid, first) && h' == Heap(st.mid, Max(h.top, end), h.blocks)
            else GrantedStep(h, st', h', first, size, count)
    ensures LeafPage(st.mid, first) == LazyWord(HEAP_FLAGS) && Frames.FreePages(st.mid.frames) != {} ==> !hung
    ensures !hung ==> |Frames.FreePages(h'.space.frames)| + 4 >= |Frames.FreePages(st.mid.frames)|
  {
    var ok;
    st', ok := StampOutcome(st, first, size, count);
    if ok {
      KernelHeap.GuardPath(end);
      var s', guarded := MapOutcome(st'.stamped, PagePath(end), UNMAPPED);
      h', hung := WithBlock(h, s', first, end, size, count, guarded), false;
      st' := KernelHeap.GrantBuilt(h, st', h', first, end, size, count, guarded);
    } else {
      h', hung := Heap(st.mid, Max(h.top, end), h.blocks), true;
    }
  }

  /** malloc on a run that the search finds: with four frames for each page it gets its block. */
  lemma FoundOutcome(h: Heap, size: nat, first: nat, count: nat) returns (st: Steps, h': Heap, r: nat, hung: bool)
    requires HeapOk(h) && 0 < size < 0x1_0000_0000_0000_0000 && count == PagesFor(size)
    requires FirstFit(h.space, FIRST, LAST, count, first)
    ensures Called(h, st, h', size, r, hung)
    ensures 0 < count && first + count <= PAGES && |Frames.FreePages(h.space.frames)| > 3 * count ==>
              && !hung && r != 0
              && |Frames.FreePages(h'.space.frames)| + 3 * count + 4 >= |Frames.FreePages(h.space.frames)|
  {
    VirtualRuns.HeapSearch(count);
    var mid, g, base := GrantOutcome(h.space, FIRST, LAST, count, first, LazyWord(HEAP_FLAGS), 0xFFFF);
    st := Steps(mid, mid, mid, mid, g, first + count, 0, false);
    if base == 0 {
      KernelHeap.Refused(h, st, size, count);
      h', r, hung := Heap(mid, Max(h.top, g.first + g.done), h.blocks), 0, false;
    } else {
      KernelHeap.RunReady(h, st, count, base);
      st, h', hung := GrantedOutcome(h, st, first, first + count, size, count);
      r := base + 16;
      if hung {
        KernelHeap.HangBuilt(h, st, h', first, base, size, count);
      } else {
        KernelHeap.MallocBuilt(h, st, h', first, base, size, count);
      }
    }
  }

  lemma MallocOutcome(h: Heap, size: nat) returns (st: Steps, h': Heap, r: nat, hung: bool)
    requires HeapOk(h) && size < 0x1_0000_0000_0000_0000
    ensures Called(h, st, h', size, r, hung)
  {
    var s, count := h.space, PagesFor(size);
    st, h', r, hung := Steps(s, s, s, s, NoRun, 0, 0, false), h, 0, false;
    if size != 0 {
      if n: nat :| Start(FIRST, LAST, count, n) && Passes(s, n, count) {
        var first := FirstPassing(s, FIRST, LAST, count, n);
        st, h', r, hung := FoundOutcome(h, size, first, count);
      }
    }
  }

  // ---------------------------------------------------------------- the exact condition, over all heaps

  /** A heap with one block of one page, and frames to spare. */
  lemma LiveHeap() returns (h: Heap)
    ensures HeapOk(h) && FIRST in h.blocks && |Frames.FreePages(h.space.frames)| > 3 && FIRST < h.top < FIRST + 3
  {
    var h0 := Heap(EmptySpace(20), FIRST, map[]);
    HeapRuns.EmptyHeapOk(20);
    EmptySpaceOk(20);
    assert PagesFor(1) == 1;
    assert FirstFit(h0.space, FIRST, LAST, 1, FIRST);
    var st, h', r, hung := FoundOutcome(h0, 1, FIRST, 1);
    MallocKeeps(h0, st, h', 1, r);
    h := h';
    assert BlockOk(h, FIRST);
  }

  lemma BehindIsFirst(s: Space, top: nat)
    requires Prefix(s, top) && FIRST < top && top + 1 < LAST
    ensures FirstFit(s, FIRST, LAST, 1, top)
  {
    BehindPasses(s, top, 1);
    forall n: nat | Start(FIRST, LAST, 1, n) && n < top
      ensures !Passes(s, n, 1)
    {
      TestedAll(n, 1);
      assert LeafPage(s, n) != ZERO;
    }
  }

  /** A block that holds none of what was asked for. */
  lemma BlockTooSmall(size: nat) returns (h: Heap, st: Steps, h': Heap, r: nat)
    requires 0x1_0000_0000_0000_0000 - 15 <= size < 0x1_0000_0000_0000_0000
    ensures HeapOk(h) && FIRST in h.blocks && Called(h, st, h', size, r, false) && r != 0
  {
    Unfit(size);
    h := LiveHeap();
    BehindIsFirst(h.space, h.top);
    var hung;
    st, h', r, hung := FoundOutcome(h, size, h.top, 1);
  }

  /** For every size that does not fit there is a heap, with its first block live, that the call does not keep. */
  lemma Breaks(size: nat) returns (h: Heap, st: Steps, h': Heap, r: nat, hung: bool)
    requires size < 0x1_0000_0000_0000_0000 && !Fits(size)
    ensures HeapOk(h) && FIRST in h.blocks && Called(h, st, h', size, r, hung) && !Kept(h, h')
  {
    if 0x1_0000_0000_0000_0000 - 15 <= size {
      h, st, h', r := BlockTooSmall(size);
      hung := false;
    } else {
      h := LiveHeap();
      st, h', r, hung := MallocOutcome(h, size);
    }
    MallocKept(h, st, h', size, r, hung);
  }

  /**
   malloc keeps every heap whose first block is live if and only if the size does not make the rounding
   wrap around and the run, laid at the start of the region, ends below 2^64.
   */
  lemma MallocKeepsIff(size: nat)
    requires size < 0x1_0000_0000_0000_0000
    ensures Fits(size) <==>
            forall h: Heap, st: Steps, h': Heap, r: nat, hung: bool
              | HeapOk(h) && FIRST in h.blocks && Called(h, st, h', size, r, hung) :: Kept(h, h')
  {
    if Fits(size) {
      forall h: Heap, st: Steps, h': Heap, r: nat, hung: bool
        | HeapOk(h) && FIRST in h.blocks && Called(h, st, h', size, r, hung)
        ensures Kept(h, h')
      {
        FitsKeeps(h, st, h', size, r, hung);
      }
    } else {
      var h, st, h', r, hung := Breaks(size);
    }
  }

  /** The largest size that fits. */
  lemma LargestSize(size: nat)
    requires size < 0x1_0000_0000_0000_0000
    ensures Fits(size) <==> size <= 0x1_0000_0000_0000_0000 - FIRST * 4096 - 4112
  {
  }

  /** A failing input on each side: the run of the first request reaches 2^64, the second rounds to no page. */
  lemma FailingSizes()
    ensures PAGES <= FIRST + PagesFor(0x7100_0000_0000)
    ensures PagesFor(0x1_0000_0000_0000_0000 - 4111) == 0
  {
  }

  /** A call with a size like the first: the live first block loses its header. */
  lemma RunPastTheEnd(size: nat) returns (h: Heap, st: Steps, h': Heap, r: nat, hung: bool)
    requires size < 0x1_0000_0000_0000_0000 && PAGES <= FIRST + PagesFor(size)
    ensures HeapOk(h) && FIRST in h.blocks && Called(h, st, h', size, r, hung) && !FirstIntact(h, h'.space)
  {
    h := LiveHeap();
    st, h', r, hung := MallocOutcome(h, size);
    SearchWraps(h, st, h', size, r, hung);
  }

  /** A call with a size like the second: the live first block is given out again, and its page is unmapped. */
  lemma RoundedToNothing(size: nat) returns (h: Heap, st: Steps, h': Heap, r: nat)
    requires 0 < size < 0x1_0000_0000_0000_0000 && PagesFor(size) == 0
    ensures HeapOk(h) && FIRST in h.blocks && Called(h, st, h', size, r, false)
    ensures r == FIRST * 4096 + 16 && LeafPage(h'.space, FIRST) == UNMAPPED
  {
    var hung;
    h := LiveHeap();
    st, h', r, hung := MallocOutcome(h, size);
    RoundingWraps(h, st, h', size, r, hung);
  }
}
