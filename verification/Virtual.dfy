/** The virtual memory manager as relations between address spaces, in terms of leaf entries only. */
module VirtualSteps {
  import opened Words
  import opened Frames
  import opened PageTable
  import opened Addresses
  import opened Spaces

  /** The path of the n-th 4 KiB page of the 64-bit address space. */
  function PagePath(n: nat): Path {
    Digits(n, LEVELS)
  }

  lemma PagePathIndices(n: nat)
    ensures Indices(n * 4096) == PagePath(n)
  {
  }

  lemma CanonicalNonzero(a: nat)
    requires 0 < a && a % 4096 == 0
    ensures Align(a) == a && Canonical(a) != 0
  {
  }

  /** platformMapPage returns the address it mapped, which is zero for page zero only. */
  lemma MappedAtZero(page: nat)
    requires page % 4096 == 0
    ensures Canonical(Align(page)) == 0 <==> page == 0
  {
    if page != 0 {
      CanonicalNonzero(page);
    }
  }

  /** The address platformMapPage gives back for a canonical page is the page's own. */
  lemma OwnAddress(n: nat, addr: nat)
    requires addr == n * 4096 && 0 < n && CanonicalPage(n)
    ensures 0 < addr < 0x1_0000_0000_0000_0000 && Align(addr) == addr && Canonical(addr) == addr
  {
    CanonicalNonzero(addr);
  }

  lemma AlignZero(addr: nat)
    ensures Align(addr) == 0 <==> addr < 4096
  {
  }

  /** The leaf of a page; pages of the direct map have none. */
  ghost function LeafPage(s: Space, n: nat): Word {
    if LeafPath(PagePath(n)) then LeafOf(s, PagePath(n)) else ZERO
  }

  ghost function RunPaths(first: nat, count: nat): set<Path> {
    set n | first <= n < first + count :: PagePath(n)
  }

  /** A page with a canonical address: platformMapPage then gives the address itself back. */
  predicate CanonicalPage(n: nat) {
    n < 0x10_0000_0000_0000 && Canonical(n * 4096) == n * 4096
  }

  /** Pages of one 256 TiB stretch, clear of page zero and of the direct map. */
  predicate PageOk(n: nat, stretch: nat) {
    0 < n && n / 0x10_0000_0000 == stretch && CanonicalPage(n) && LeafPath(PagePath(n))
  }

  ghost predicate Window(first: nat, last: nat, stretch: nat) {
    forall n: nat | first <= n < last :: PageOk(n, stretch)
  }

  /** Pages of the lower half hang below user tables. */
  lemma LowerHalf(n: nat)
    requires PageOk(n, 0)
    ensures PagePath(n)[0] < 256
  {
    IndexShifts(n * 4096);
    PagePathIndices(n);
    LowCanonical(n * 4096);
  }

  /** All pages of the lower half but page zero are such pages. */
  lemma LowerPages(n: nat)
    requires 0 < n < 0x8_0000_0000
    ensures PageOk(n, 0)
  {
    IndexShifts(n * 4096);
    PagePathIndices(n);
    assert n * 4096 / 0x8000_0000_0000 == 0;
    assert n * 4096 / 0x80_0000_0000 < 256;
  }

  lemma LowCanonical(addr: nat)
    requires addr < 0x1_0000_0000_0000 && Canonical(addr) == addr
    ensures addr / 0x80_0000_0000 % 512 < 256
  {
  }

  lemma PagePathInjective(m: nat, n: nat, stretch: nat)
    requires PageOk(m, stretch) && PageOk(n, stretch) && PagePath(m) == PagePath(n)
    ensures m == n
  {
    IndicesInjective(m, n);
  }

  lemma InRun(first: nat, count: nat, m: nat, stretch: nat)
    requires Window(first, first + count, stretch) && PageOk(m, stretch)
    ensures PagePath(m) in RunPaths(first, count) <==> first <= m < first + count
  {
    if PagePath(m) in RunPaths(first, count) {
      var n :| first <= n < first + count && PagePath(n) == PagePath(m);
      assert PageOk(n, stretch);
      PagePathInjective(m, n, stretch);
    }
  }

  // ---------------------------------------------------------------- the kernel heap region

  /** Pages of the 64-bit address space; page numbers are computed modulo this. */
  const PAGES: nat := 0x10_0000_0000_0000

  /** KERNEL_HEAP_BASE and KERNEL_HEAP_LIMIT as page numbers. */
  const FIRST: nat := 0xFFFF8F0000000
  const LAST: nat := 0xFFFF8FFFFFFFF

  lemma HeapPage(n: nat)
    requires FIRST <= n < PAGES
    ensures PageOk(n, 0xFFFF)
  {
    IndexShifts(n * 4096);
    PagePathIndices(n);
    assert n * 4096 / 0x80_0000_0000 % 512 != 256;
    assert n / 0x10_0000_0000 == 0xFFFF;
    CanonicalHeap(n);
  }

  lemma CanonicalHeap(n: nat)
    requires FIRST <= n < PAGES
    ensures CanonicalPage(n)
  {
    assert n * 4096 / 0x8000_0000_0000 % 2 == 1;
    assert n * 4096 % 0x10_0000_0000_0000 + 0xFFF0_0000_0000_0000 == n * 4096;
  }

  lemma HeapWindow(first: nat, last: nat)
    requires FIRST <= first && last <= PAGES
    ensures Window(first, last, 0xFFFF)
  {
    forall n: nat | first <= n < last
      ensures PageOk(n, 0xFFFF)
    {
      HeapPage(n);
    }
  }

  // ---------------------------------------------------------------- vmmAllocate

  /** A lazy reservation: the magic frame 0x400000 with the requested permissions, not present. */
  function LazyWord(flags: Flags): (w: Word)
    ensures w != ZERO && !w.p
  {
    LeafWord(0x400000, flags.(present := false))
  }

  /** Requested attributes. */
  datatype Request = Request(user: bool, exec: bool, write: bool, noCache: bool)

  /** A reservation with the attributes that were asked for, not present, on the frame number that marks it. */
  predicate Asked(w: Word, req: Request) {
    && !w.p && w.frame == 0x400 && w.mid == 0
    && w.rw == req.write && w.us == req.user && w.nx == !req.exec && w.nc == req.noCache && w.wt == req.noCache
  }

  lemma LazyWordStored(flags: Flags)
    requires !flags.present
    ensures LeafWord(Align(0x400000), flags) == LazyWord(flags)
  {
  }

  ghost predicate RunUnused(s: Space, first: nat, count: nat) {
    forall n: nat | first <= n < first + count :: LeafPage(s, n) == ZERO
  }

  /** The inner loop of the search: its bound is computed modulo 2^64, so it may lie below the start. */
  ghost predicate Passes(s: Space, n: nat, count: nat) {
    RunUnused(s, n, Tested(n, count))
  }

  /** How many pages of the run at `n` the search looks at. */
  function Tested(n: nat, count: nat): nat {
    var bound := (n + count) % PAGES;
    if bound < n then 0 else bound - n
  }

  /** The base page is tried first, before the limit is ever looked at; the last start wraps around too. */
  predicate Start(base: nat, limit: nat, count: nat, n: nat) {
    n == base || base < n < (limit - count) % PAGES
  }

  ghost predicate FirstFit(s: Space, base: nat, limit: nat, count: nat, first: nat) {
    && Start(base, limit, count, first) && Passes(s, first, count)
    && forall n: nat | Start(base, limit, count, n) && n < first :: !Passes(s, n, count)
  }

  /** Neither the run at the base nor the last start reaches past the end of the address space. */
  predicate Sound(base: nat, limit: nat, count: nat) {
    base + count < PAGES && (count <= limit || limit == 0)
  }

  /** The search stays within pages of one stretch, and the run at the base does up to the end of the address space. */
  ghost predicate Searchable(base: nat, limit: nat, count: nat, stretch: nat) {
    && base < PAGES && limit < PAGES
    && forall n: nat | base <= n < PAGES && (n < limit || n < base + count || limit < count) :: PageOk(n, stretch)
  }

  lemma TestedAll(n: nat, count: nat)
    requires n + count < PAGES
    ensures Tested(n, count) == count
  {
  }

  /** The pages of a run, up to the end of the address space. */
  ghost predicate RunOk(first: nat, count: nat, stretch: nat) {
    forall n: nat | first <= n < PAGES && n < first + count :: PageOk(n, stretch)
  }

  lemma RunSearchable(base: nat, limit: nat, count: nat, stretch: nat, start: nat)
    requires Searchable(base, limit, count, stretch) && Start(base, limit, count, start)
    ensures RunOk(start, count, stretch)
  {
    if count <= limit {
      assert (limit - count) % PAGES == limit - count;
    }
  }

  /** The next page of a run: a page of the stretch, or page zero behind the last page. */
  lemma RunPage(first: nat, count: nat, stretch: nat, n: nat)
    requires RunOk(first, count, stretch) && first <= n < first + count && n <= PAGES
    ensures LeafPath(PagePath(n)) && (stretch == 0 ==> PagePath(n)[0] < 256)
  {
    assert n < PAGES ==> PageOk(n, stretch);
    if n == PAGES {
      PageZeroAgain();
    } else if stretch == 0 {
      LowerHalf(n);
    }
  }

  /** A run that passes, such that the search up to its end stays within pages of one stretch. */
  ghost predicate FitsAt(s: Space, base: nat, limit: nat, count: nat, stretch: nat, f: nat) {
    && Start(base, limit, count, f) && Passes(s, f, count)
    && forall n: nat | base <= n < f + count :: PageOk(n, stretch)
  }

  /** The search looks at pages of one stretch only: because of its bounds, or because it ends in time. */
  ghost predicate Within(s: Space, base: nat, limit: nat, count: nat, stretch: nat) {
    && base < PAGES && limit < PAGES
    && (Searchable(base, limit, count, stretch) || exists f: nat :: FitsAt(s, base, limit, count, stretch, f))
  }

  lemma RunWithin(s: Space, base: nat, limit: nat, count: nat, stretch: nat, start: nat)
    requires Within(s, base, limit, count, stretch) && Start(base, limit, count, start) && NoneBefore(s, base, limit, count, start)
    ensures RunOk(start, count, stretch)
  {
    if Searchable(base, limit, count, stretch) {
      RunSearchable(base, limit, count, stretch, start);
    } else {
      var f: nat :| FitsAt(s, base, limit, count, stretch, f);
    }
  }

  /** Requests of user memory: base and limit in the lower half, and a run that fits below its end. */
  lemma UserSearch(base: nat, limit: nat, count: nat)
    requires 0 < base < 0x8_0000_0000 && count <= limit <= 0x8_0000_0000 && base + count <= 0x8_0000_0000
    ensures Searchable(base, limit, count, 0)
  {
    forall n: nat | base <= n < 0x8_0000_0000
      ensures PageOk(n, 0)
    {
      LowerPages(n);
    }
  }

  /** Page 2^52 is page zero again. */
  lemma PageZeroAgain()
    ensures PagePath(PAGES) == PagePath(0) == [0, 0, 0, 0]
  {
    IndexShifts(0);
    IndexShifts(0x1_0000_0000_0000_0000);
  }

  lemma PageAddress(n: nat, addr: nat)
    requires 0 < n < PAGES && addr == n * 4096
    ensures addr < 0x1_0000_0000_0000_0000 && Canonical(Align(addr)) != 0
  {
    CanonicalNonzero(addr);
  }

  lemma WrappedAddress(n: nat, addr: nat)
    requires 0 < n <= PAGES && addr == if n < PAGES then n * 4096 else 0
    ensures addr < 0x1_0000_0000_0000_0000 && Indices(addr) == PagePath(n)
    ensures Canonical(Align(addr)) == 0 <==> n == PAGES
  {
    if n < PAGES {
      PagePathIndices(n);
      PageAddress(n, addr);
    } else {
      PageZeroAgain();
      PagePathIndices(0);
      MappedAtZero(addr);
    }
  }

  /** The runs a sound search may grant end below the end of the address space, so all their pages are looked at. */
  lemma SoundTests(base: nat, limit: nat, count: nat, n: nat)
    requires limit < PAGES && Sound(base, limit, count) && Start(base, limit, count, n)
    ensures n + count < PAGES && Tested(n, count) == count
  {
  }

  /** `done` leading pages of the run at `first` became `w`; no other leaf changed. */
  ghost predicate ReserveStep(s: Space, s': Space, first: nat, done: nat, w: Word) {
    && GrowStep(s, s')
    && forall u {:trigger LeafOf(s', u)} | LeafPath(u) :: LeafOf(s', u) == if u in RunPaths(first, done) then w else LeafOf(s, u)
  }

  /** What the search found: nothing, or a run of which `done` pages could be reserved. */
  datatype Grant = NoRun | Run(first: nat, done: nat)

  /**
   The mapping loop stops at a page without a page table when frames run out, or behind page zero, whose
   address reads as a failure: a run that wraps around gets no further than that.
   */
  ghost predicate Stopped(s: Space, s': Space, first: nat, done: nat) {
    || (FreePages(s'.frames) == {} && PagePath(first + done)[..3] !in s.tables)
    || first + done == PAGES + 1
  }

  ghost predicate AllocateStep(s: Space, s': Space, base: nat, limit: nat, count: nat, w: Word, g: Grant, r: nat) {
    match g
    case NoRun =>
      && r == 0 && s' == s
      && forall n: nat | Start(base, limit, count, n) :: !Passes(s, n, count)
    case Run(first, done) =>
      && FirstFit(s, base, limit, count, first) && done <= count && first + done <= PAGES + 1
      && ReserveStep(s, s', first, done, w)
      && (done < count ==> Stopped(s, s', first, done))
      && r == if done == count && first + count <= PAGES then first * 4096 else 0
  }

  lemma ReserveNone(s: Space, first: nat, w: Word)
    requires SpaceOk(s)
    ensures ReserveStep(s, s, first, 0, w)
  {
    GrowRefl(s);
  }

  lemma RunPathsGrow(first: nat, count: nat)
    ensures RunPaths(first, count + 1) == RunPaths(first, count) + {PagePath(first + count)}
  {
  }

  lemma ReserveGrows(s: Space, s1: Space, s2: Space, first: nat, done: nat, w: Word, ok: bool)
    requires ReserveStep(s, s1, first, done, w)
    requires LeafPath(PagePath(first + done)) && MapStep(s1, s2, PagePath(first + done), w, ok)
    ensures ReserveStep(s, s2, first, if ok then done + 1 else done, w)
  {
    GrowTrans(s, s1, s2);
    RunPathsGrow(first, done);
  }

  /** The mapping loop under way, for a run of the lower half or not. */
  ghost predicate Reserving(s: Space, s': Space, first: nat, done: nat, w: Word, user: bool) {
    ReserveStep(s, s', first, done, w) && (user ==> Confined(s, s'))
  }

  /** The mapping loop at its end. */
  ghost predicate RunReserved(s: Space, s': Space, first: nat, done: nat, count: nat, w: Word, user: bool, ok: bool) {
    && done <= count && first + done <= PAGES + 1 && Reserving(s, s', first, done, w, user)
    && (done < count ==> Stopped(s, s', first, done))
    && (ok <==> done == count && first + count <= PAGES)
  }

  lemma ReservingGrows(s: Space, s1: Space, s2: Space, first: nat, done: nat, w: Word, user: bool, ok: bool)
    requires Reserving(s, s1, first, done, w, user)
    requires LeafPath(PagePath(first + done)) && MapStep(s1, s2, PagePath(first + done), w, ok)
    requires user ==> Confined(s1, s2)
    ensures Reserving(s, s2, first, if ok then done + 1 else done, w, user)
    ensures !ok ==> Stopped(s, s2, first, done)
  {
    ReserveGrows(s, s1, s2, first, done, w, ok);
    if user {
      ConfinedTrans(s, s1, s2);
    }
  }

  ghost predicate NoneBefore(s: Space, base: nat, limit: nat, count: nat, start: nat) {
    forall n: nat | Start(base, limit, count, n) && n < start :: !Passes(s, n, count)
  }

  lemma RunGranted(s: Space, s': Space, base: nat, limit: nat, count: nat, w: Word, first: nat, done: nat, user: bool, ok: bool)
    requires Start(base, limit, count, first) && NoneBefore(s, base, limit, count, first) && Passes(s, first, count)
    requires RunReserved(s, s', first, done, count, w, user, ok)
    ensures AllocateStep(s, s', base, limit, count, w, Run(first, done), if ok then first * 4096 else 0)
  {
  }

  // ---------------------------------------------------------------- vmmPageFault

  /** The access that faulted. */
  datatype Access = Access(present: bool, user: bool, write: bool, fetch: bool)

  predicate Allows(w: Word, a: Access) {
    && (a.fetch ==> !w.nx)
    && (a.user ==> w.us)
    && (a.write ==> w.rw)
  }

  /** Not present, and `phys & VMM_PAGE_SWAP_MASK` equals VMM_PAGE_ALLOCATE. */
  predicate Reserved(w: Word) {
    !w.p && w != ZERO && w.frame / 512 % 8 == 2
  }

  /** The leaf a fault installs: same permissions, present, on the new frame. */
  function Supplied(w: Word, g: nat): Word {
    Word(true, w.rw, w.us, w.nc, w.nc, 0, g, w.nx)
  }

  /** `phys & VMM_PAGE_SWAP_MASK` looks at bits 21 to 23. */
  lemma FrameClass(w: Word, phys: nat, page: nat)
    ensures phys == w.frame * 4096 + page % 4096 ==> phys / 0x20_0000 == w.frame / 512
  {
  }

  lemma SuppliedWord(w: Word, g: nat)
    requires g < 0x8_0000_0000_0000
    ensures LeafWord(Align(g * 4096), LeafFlags(w).(present := true)) == Supplied(w, g)
  {
  }

  /** `g` is the frame supplied, zero when the fault is refused. */
  ghost predicate FaultStep(s: Space, s': Space, q: Path, a: Access, g: nat)
    requires LeafPath(q)
  {
    var w := LeafOf(s, q);
    if g != 0 then
      && !a.present && Reserved(w) && Allows(w, a)
      && g in FreePages(s.frames) && g < |s.mem|
      && MapStep(s.(frames := WithPage(s.frames, g)), s', q, Supplied(w, g), true)
      && s'.tables == s.tables
    else
      && s' == s
      && (!a.present && Reserved(w) && Allows(w, a) ==> FreePages(s.frames) == {})
  }

  // ---------------------------------------------------------------- vmmFree

  const UNMAPPED: Word := ZERO.(nx := true)

  /** pmmFree on the frame of a present page. */
  function Given(s: Space, w: Word): Space {
    if w.p && Freeable(s.frames, w.frame * 4096) then s.(frames := WithoutPage(s.frames, w.frame)) else s
  }

  /** One page of vmmFree: give its frame back, then unmap it. */
  ghost predicate FreePageStep(s: Space, s': Space, q: Path, ok: bool)
    requires LeafPath(q)
  {
    MapStep(Given(s, LeafOf(s, q)), s', q, UNMAPPED, ok)
  }

  /** The frame of a present page was freeable and the page could be unmapped. */
  ghost predicate Released(s: Space, n: nat, ok: bool) {
    ok && (LeafPage(s, n).p ==> Freeable(s.frames, LeafPage(s, n).frame * 4096))
  }

  ghost predicate FreeNth(s: Space, s': Space, n: nat, ok: bool) {
    LeafPath(PagePath(n)) && FreePageStep(s, s', PagePath(n), ok)
  }

  ghost predicate FreeTrace(trace: seq<Space>, first: nat, oks: seq<bool>) {
    && |trace| == |oks| + 1
    && forall i | 0 <= i < |oks| :: FreeNth(trace[i], trace[i + 1], first + i, oks[i])
  }

  ghost predicate AllReleased(trace: seq<Space>, first: nat, oks: seq<bool>) {
    |trace| == |oks| + 1 && forall i | 0 <= i < |oks| :: Released(trace[i], first + i, oks[i])
  }

  lemma TraceGrows(trace: seq<Space>, first: nat, oks: seq<bool>, s: Space, s': Space, ok: bool)
    requires FreeTrace(trace, first, oks) && s == trace[|oks|] && FreeNth(s, s', first + |oks|, ok)
    ensures FreeTrace(trace + [s'], first, oks + [ok])
    ensures AllReleased(trace + [s'], first, oks + [ok]) <==> AllReleased(trace, first, oks) && Released(s, first + |oks|, ok)
  {
    var trace', oks' := trace + [s'], oks + [ok];
    forall i | 0 <= i < |oks'|
      ensures FreeNth(trace'[i], trace'[i + 1], first + i, oks'[i])
    {
      assert i < |oks| ==> FreeNth(trace[i], trace[i + 1], first + i, oks[i]);
    }
    if AllReleased(trace', first, oks') {
      assert Released(trace'[|oks|], first + |oks|, oks'[|oks|]);
      forall i | 0 <= i < |oks|
        ensures Released(trace[i], first + i, oks[i])
      {
        assert Released(trace'[i], first + i, oks'[i]);
      }
    }
  }

  // ---------------------------------------------------------------- separation

  ghost predicate DataFrame(s: Space, q: Path)
    requires LeafPath(q)
  {
    var w := LeafOf(s, q);
    w.p ==> w.frame in s.frames.used && w.frame !in s.tables.Values && w.frame < |s.mem|
  }

  /**
   Frames of present pages are marked used, hold no page table and belong to one page each;
   table frames are marked used too.
   */
  ghost predicate Separated(s: Space) {
    && SpaceOk(s)
    && (forall q {:trigger DataFrame(s, q)} | LeafPath(q) :: DataFrame(s, q))
    && (forall u, v | LeafPath(u) && LeafPath(v) && LeafOf(s, u).p && LeafOf(s, v).p
                      && LeafOf(s, u).frame == LeafOf(s, v).frame :: u == v)
  }

  /** Present pages of s outside `gone` are still there in s', on the same frame, same contents. */
  ghost predicate KeepsPages(s: Space, s': Space, gone: set<Path>) {
    forall u {:trigger LeafOf(s', u)} | LeafPath(u) && u !in gone && LeafOf(s, u).p ::
      LeafOf(s', u) == LeafOf(s, u) && LeafOf(s, u).frame < |s.mem| == |s'.mem|
      && s'.mem[LeafOf(s, u).frame] == s.mem[LeafOf(s, u).frame]
  }

  lemma GrowKeepsData(s: Space, s': Space, u: Path)
    requires Separated(s) && GrowStep(s, s') && LeafPath(u) && LeafOf(s, u).p
    ensures LeafOf(s, u).frame in s'.frames.used && LeafOf(s, u).frame !in s'.tables.Values
    ensures LeafOf(s, u).frame < |s.mem| == |s'.mem| && s'.mem[LeafOf(s, u).frame] == s.mem[LeafOf(s, u).frame]
  {
    assert DataFrame(s, u);
  }

  /** Whatever the pages of the run were before: frames stay apart, and no page outside the run is lost. */
  lemma ReserveOverwrites(s: Space, s': Space, first: nat, done: nat, w: Word)
    requires Separated(s) && ReserveStep(s, s', first, done, w) && !w.p
    ensures Separated(s') && KeepsPages(s, s', RunPaths(first, done))
  {
    forall u | LeafPath(u)
      ensures LeafOf(s', u).p ==> LeafOf(s, u).p && LeafOf(s', u) == LeafOf(s, u)
      ensures DataFrame(s', u)
    {
      if LeafOf(s, u).p {
        GrowKeepsData(s, s', u);
      }
    }
    forall u | LeafPath(u) && LeafOf(s, u).p {
      GrowKeepsData(s, s', u);
    }
  }

  lemma ReserveSeparates(s: Space, s': Space, first: nat, done: nat, w: Word)
    requires Separated(s) && ReserveStep(s, s', first, done, w) && !w.p
    requires forall u | u in RunPaths(first, done) && LeafPath(u) :: LeafOf(s, u) == ZERO
    ensures Separated(s') && KeepsPages(s, s', {})
  {
    ReserveOverwrites(s, s', first, done, w);
  }

  /** Taking a free frame disturbs nobody. */
  lemma TakeSeparates(s: Space, g: nat)
    requires Separated(s) && g in FreePages(s.frames)
    ensures Separated(s.(frames := WithPage(s.frames, g)))
    ensures forall u | LeafPath(u) && LeafOf(s, u).p :: LeafOf(s, u).frame != g
    ensures g !in s.tables.Values
  {
    var s' := s.(frames := WithPage(s.frames, g));
    forall u | LeafPath(u)
      ensures LeafOf(s', u) == LeafOf(s, u) && DataFrame(s', u) && (LeafOf(s, u).p ==> LeafOf(s, u).frame != g)
    {
      assert DataFrame(s, u);
    }
  }

  lemma FaultSeparates(s: Space, s': Space, q: Path, a: Access, g: nat)
    requires Separated(s) && LeafPath(q) && FaultStep(s, s', q, a, g)
    ensures Separated(s') && KeepsPages(s, s', {})
    ensures g != 0 ==> Reserved(LeafOf(s, q)) && Allows(LeafOf(s, q), a) && LeafOf(s', q) == Supplied(LeafOf(s, q), g)
    ensures forall u | LeafPath(u) && u != q :: LeafOf(s', u) == LeafOf(s, u)
  {
    if g != 0 {
      TakeSeparates(s, g);
      var mid := s.(frames := WithPage(s.frames, g));
      forall u | LeafPath(u)
        ensures LeafOf(mid, u) == LeafOf(s, u)
        ensures LeafOf(s, u).p ==> u != q && LeafOf(s', u) == LeafOf(s, u)
        ensures LeafOf(s, u).p ==> LeafOf(s, u).frame < |s.mem| == |s'.mem|
        ensures LeafOf(s, u).p ==> s'.mem[LeafOf(s, u).frame] == s.mem[LeafOf(s, u).frame]
        ensures DataFrame(s', u)
      {
        if LeafOf(mid, u).p {
          GrowKeepsData(mid, s', u);
        }
      }
    } else {
      forall u | LeafPath(u)
        ensures DataFrame(s, u)
      {
      }
    }
  }

  lemma GivenSeparates(s: Space, q: Path)
    requires Separated(s) && LeafPath(q)
    ensures SpaceOk(Given(s, LeafOf(s, q)))
    ensures forall u | LeafPath(u) && u != q && LeafOf(s, u).p :: LeafOf(s, u).frame in Given(s, LeafOf(s, q)).frames.used
  {
    assert DataFrame(s, q);
    forall u | LeafPath(u) && u != q && LeafOf(s, u).p
      ensures LeafOf(s, u).frame in Given(s, LeafOf(s, q)).frames.used
    {
      assert DataFrame(s, u);
    }
  }

  /** Freeing a used page allocates nothing, and the frame of a present one is free afterwards, unless pmmFree refuses it. */
  lemma FreeReturns(s: Space, s': Space, q: Path, ok: bool)
    requires Separated(s) && LeafPath(q) && LeafOf(s, q) != ZERO && FreePageStep(s, s', q, ok)
    ensures var w := LeafOf(s, q);
            s'.frames == s.frames.(used := if w.p && s.frames.lowest < w.frame * 4096 < s.frames.highest
                                           then s.frames.used - {w.frame} else s.frames.used)
  {
    assert DataFrame(s, q);
  }

  lemma FreeSeparates(s: Space, s': Space, q: Path, ok: bool)
    requires Separated(s) && LeafPath(q) && FreePageStep(s, s', q, ok)
    ensures Separated(s') && KeepsPages(s, s', {q})
    ensures !LeafOf(s', q).p && (ok ==> LeafOf(s', q) == UNMAPPED) && (!ok ==> LeafOf(s', q) == LeafOf(s, q))
    ensures forall u | LeafPath(u) && u != q :: LeafOf(s', u) == LeafOf(s, u)
  {
    GivenSeparates(s, q);
    var mid := Given(s, LeafOf(s, q));
    assert LeafOf(s, q).p ==> ok;
    forall u | LeafPath(u) && u != q
      ensures LeafOf(mid, u) == LeafOf(s, u)
      ensures LeafOf(s, u).p ==> s'.mem[LeafOf(s, u).frame] == s.mem[LeafOf(s, u).frame]
      ensures DataFrame(s', u)
    {
      assert DataFrame(s, u);
    }
    assert DataFrame(s', q);
  }
}

/** vmmIsUsed, vmmAllocate, vmmPageFault and vmmFree on the machine. */
module Virtual {
  import opened Words
  import Frames
  import opened PageTable
  import opened Addresses
  import opened Spaces
  import opened Paging
  import opened VirtualSteps

  /** The present bit is deliberately not among the attributes. */
  function PlatformFlags(f: Request): Flags {
    Flags(false, false, f.user, f.exec, f.write, f.noCache)
  }

  /** What was asked for is what is stored. */
  lemma StoredAsAsked(req: Request)
    ensures Asked(LazyWord(PlatformFlags(req)), req)
  {
  }

  method IsUsed(m: Machine, n: nat) returns (used: bool)
    requires m.Valid() && LeafPath(PagePath(n)) && n < 0x10_0000_0000_0000
    ensures used <==> LeafPage(m.View(), n) != ZERO
  {
    PagePathIndices(n);
    var flags, _ := m.GetPage(n * 4096);
    used := flags.present || flags.swap;
  }

  /** The inner search loop: walks the run until it meets a used page. */
  method RunIsUnused(m: Machine, first: nat, count: nat, ghost stretch: nat) returns (free: bool)
    requires m.Valid() && RunOk(first, count, stretch)
    ensures free <==> Passes(m.View(), first, count)
  {
    var bound := (first + count) % PAGES;
    var n := first;
    while n < bound
      invariant first <= n && (n <= bound || n == first) && RunUnused(m.View(), first, n - first)
    {
      assert PageOk(n, stretch);
      var used := IsUsed(m, n);
      if used {
        return false;
      }
      n := n + 1;
    }
    free := true;
  }

  /** Maps one page to the reservation word; the address zero that mapping page zero gives back means failure. */
  method ReservePage(m: Machine, n: nat, flags: Flags) returns (ok: bool, ghost mapped: bool)
    requires m.Valid() && 0 < n <= PAGES && LeafPath(PagePath(n)) && !flags.present
    modifies m`mem, m`tables, m.pmm, m.pmm.bitmap
    ensures m.Valid() && MapStep(old(m.View()), m.View(), PagePath(n), LazyWord(flags), mapped)
    ensures ok <==> mapped && n < PAGES
    ensures PagePath(n)[0] < 256 ==> Confined(old(m.View()), m.View())
  {
    var addr := n * 4096 % 0x1_0000_0000_0000_0000;
    WrappedAddress(n, addr);
    LazyWordStored(flags);
    var r;
    r, mapped := m.MapPage(addr, 0x400000, flags);
    ok := r != 0;
  }

  /** The next page of a run of which `done` pages are reserved. */
  method ReserveNext(m: Machine, first: nat, done: nat, flags: Flags, ghost s: Space, ghost user: bool)
    returns (ok: bool, ghost mapped: bool)
    requires m.Valid() && 0 < first && first + done <= PAGES && LeafPath(PagePath(first + done))
    requires !flags.present && Reserving(s, m.View(), first, done, LazyWord(flags), user)
    requires user ==> PagePath(first + done)[0] < 256
    modifies m`mem, m`tables, m.pmm, m.pmm.bitmap
    ensures m.Valid() && Reserving(s, m.View(), first, if mapped then done + 1 else done, LazyWord(flags), user)
    ensures ok <==> mapped && first + done < PAGES
    ensures !mapped ==> Stopped(s, m.View(), first, done)
  {
    ghost var s1 := m.View();
    ok, mapped := ReservePage(m, first + done, flags);
    ReservingGrows(s, s1, m.View(), first, done, LazyWord(flags), user, mapped);
  }

  /** The mapping loop: stops at the first page that cannot be mapped. */
  method Reserve(m: Machine, first: nat, count: nat, flags: Flags, ghost stretch: nat) returns (ok: bool, ghost done: nat)
    requires m.Valid() && 0 < first < PAGES && !flags.present && RunOk(first, count, stretch)
    modifies m`mem, m`tables, m.pmm, m.pmm.bitmap
    ensures m.Valid() && RunReserved(old(m.View()), m.View(), first, done, count, LazyWord(flags), stretch == 0, ok)
  {
    ghost var s, w, user := m.View(), LazyWord(flags), stretch == 0;
    ReserveNone(s, first, w);
    var i := 0;
    while i < count
      invariant m.Valid() && i <= count && first + i <= PAGES && Reserving(s, m.View(), first, i, w, user)
    {
      RunPage(first, count, stretch, first + i);
      ghost var mapped;
      ok, mapped := ReserveNext(m, first, i, flags, s, user);
      if !ok {
        done := if mapped then i + 1 else i;
        return;
      }
      i := i + 1;
    }
    ok, done := true, i;
  }

  /** Addresses are page-aligned first; all bounds are computed modulo 2^64. */
  method Allocate(m: Machine, base: nat, limit: nat, count: nat, req: Request, ghost stretch: nat)
    returns (r: nat, ghost g: Grant, ghost w: Word)
    requires m.Valid() && 4096 <= base && Within(m.View(), base / 4096, limit / 4096, count, stretch)
    modifies m`mem, m`tables, m.pmm, m.pmm.bitmap
    ensures m.Valid()
    ensures AllocateStep(old(m.View()), m.View(), base / 4096, limit / 4096, count, w, g, r) && Asked(w, req)
    ensures stretch == 0 ==> Confined(old(m.View()), m.View())
  {
    var first, last := base / 4096, limit / 4096;
    var end := (last - count) % PAGES;
    ghost var s := m.View();
    w := LazyWord(PlatformFlags(req));
    StoredAsAsked(req);
    var start := first;
    while true
      invariant m.Valid() && m.View() == s && first <= start < PAGES
      invariant Start(first, last, count, start) && NoneBefore(s, first, last, count, start)
      decreases PAGES - start
    {
      RunWithin(s, first, last, count, stretch, start);
      var free := RunIsUnused(m, start, count, stretch);
      if free {
        var ok, done := Reserve(m, start, count, PlatformFlags(req), stretch);
        RunGranted(s, m.View(), first, last, count, w, start, done, stretch == 0, ok);
        return if ok then start * 4096 else 0, Run(start, done), w;
      }
      start := start + 1;
      if start >= end {
        ConfinedRefl(s);
        return 0, NoRun, w;
      }
    }
  }

  /** The frame just taken, at a page that has its page table already: mapping cannot fail. */
  method Supply(m: Machine, page: nat, ghost s: Space, status: Flags, frame: nat) returns (back: nat)
    requires m.Valid() && page < 0x1_0000_0000_0000_0000 && page % 4096 == 0 && LeafPath(Indices(page))
    requires Indices(page)[..3] in s.tables && LeafFlags(LeafOf(s, Indices(page))) == status
    requires frame != 0 && TakeStep(s, m.View(), frame)
    modifies m`mem, m`tables, m.pmm, m.pmm.bitmap
    ensures m.Valid() && m.tables == s.tables
    ensures MapStep(s.(frames := Frames.WithPage(s.frames, frame)), m.View(), Indices(page),
                    Supplied(LeafOf(s, Indices(page)), frame), true)
    ensures back == 0 <==> page == 0
    ensures Indices(page)[0] < 256 ==> Confined(s, m.View())
  {
    SuppliedWord(LeafOf(s, Indices(page)), frame);
    MappedAtZero(page);
    ghost var ok;
    back, ok := m.MapPage(page, frame * 4096, status.(present := true));
  }

  /** The checks of a fault: the page is reserved and its permissions allow the access. */
  method MayServe(m: Machine, page: nat, access: Access) returns (serve: bool, status: Flags)
    requires m.Valid() && page < 0x1_0000_0000_0000_0000 && LeafPath(Indices(page))
    ensures var w := LeafOf(m.View(), Indices(page));
            && (serve <==> Reserved(w) && Allows(w, access))
            && (serve ==> status == LeafFlags(w) && Indices(page)[..3] in m.tables)
  {
    ghost var w := LeafOf(m.View(), Indices(page));
    var phys;
    status, phys := m.GetPage(page);
    if (!status.exec && access.fetch) || (!status.user && access.user) || (!status.write && access.write) {
      return false, status;
    }
    if !status.swap {
      return false, status;
    }
    FrameClass(w, phys, page);
    serve := phys / 0x20_0000 % 8 == 2;
  }

  /** A fault on page zero is served and still reported as failed: its address reads as an error. */
  method PageFault(m: Machine, addr: nat, access: Access) returns (r: int, ghost g: nat)
    requires m.Valid() && addr < 0x1_0000_0000_0000_0000 && LeafPath(Indices(addr))
    modifies m`mem, m`tables, m.pmm, m.pmm.bitmap
    ensures m.Valid() && FaultStep(old(m.View()), m.View(), Indices(addr), access, g)
    ensures r == if g != 0 && 4096 <= addr then 0 else -1
    ensures Indices(addr)[0] < 256 ==> Confined(old(m.View()), m.View())
  {
    r, g := -1, 0;
    ghost var s := m.View();
    if access.present {
      return;
    }
    IndicesOfPage(addr);
    AlignZero(addr);
    var page := Align(addr);
    var serve, status := MayServe(m, page, access);
    if !serve {
      return;
    }
    var frame := m.TakeFrame();
    if frame == 0 {
      return;
    }
    g := frame;
    var back := Supply(m, page, s, status, frame);
    r := if back == 0 then -1 else 0;
  }

  /** platformUnmapPage on a page with a canonical, non-zero address. */
  method Unmap(m: Machine, n: nat) returns (status: int, ghost ok: bool)
    requires m.Valid() && 0 < n && CanonicalPage(n) && LeafPath(PagePath(n))
    modifies m`mem, m`tables, m.pmm, m.pmm.bitmap
    ensures m.Valid() && MapStep(old(m.View()), m.View(), PagePath(n), UNMAPPED, ok)
    ensures status == if ok then 0 else 1
    ensures PagePath(n)[0] < 256 ==> Confined(old(m.View()), m.View())
  {
    PagePathIndices(n);
    var addr := n * 4096;
    OwnAddress(n, addr);
    status, ok := m.UnmapPage(addr);
  }

  method FrameOf(m: Machine, n: nat) returns (present: bool, phys: nat)
    requires m.Valid() && CanonicalPage(n) && LeafPath(PagePath(n))
    ensures present == LeafPage(m.View(), n).p && (present ==> phys == LeafPage(m.View(), n).frame * 4096)
  {
    PagePathIndices(n);
    var flags;
    flags, phys := m.GetPage(n * 4096);
    present := flags.present;
    PageOffset(n);
  }

  lemma PageOffset(n: nat)
    ensures n * 4096 % 4096 == 0
  {
  }

  lemma FrameBack(f: nat)
    ensures f * 4096 / 4096 == f
  {
  }

  /** The first half of freeing a page: the frame of a present page goes back to the allocator. */
  method GiveBack(m: Machine, n: nat) returns (freed: int)
    requires m.Valid() && Separated(m.View()) && 0 < n && CanonicalPage(n) && LeafPath(PagePath(n))
    modifies m.pmm, m.pmm.bitmap
    ensures m.Valid() && m.View() == Given(old(m.View()), LeafPage(old(m.View()), n))
    ensures freed == 0 <==> Released(old(m.View()), n, true)
  {
    ghost var s := m.View();
    GivenSeparates(s, PagePath(n));
    freed := 0;
    var present, phys := FrameOf(m, n);
    if present {
      freed := m.pmm.Free(phys);
      FrameBack(LeafPage(s, n).frame);
    }
    assert m.View() == Given(s, LeafPage(s, n));
  }

  /** One page of vmmFree; the status is zero when the frame, if any, and the page were both let go. */
  method FreePage(m: Machine, n: nat) returns (status: int, ghost ok: bool)
    requires m.Valid() && Separated(m.View()) && 0 < n && CanonicalPage(n) && LeafPath(PagePath(n))
    modifies m`mem, m`tables, m.pmm, m.pmm.bitmap
    ensures m.Valid() && FreePageStep(old(m.View()), m.View(), PagePath(n), ok)
    ensures status == 0 <==> Released(old(m.View()), n, ok)
    ensures PagePath(n)[0] < 256 ==> Confined(old(m.View()), m.View())
  {
    var freed := GiveBack(m, n);
    status, ok := Unmap(m, n);
    status := if freed == 0 then status else freed;
  }

  method FreeNthPage(m: Machine, n: nat) returns (status: int, ghost ok: bool)
    requires m.Valid() && Separated(m.View()) && 0 < n && CanonicalPage(n) && LeafPath(PagePath(n))
    modifies m`mem, m`tables, m.pmm, m.pmm.bitmap
    ensures m.Valid() && Separated(m.View()) && FreeNth(old(m.View()), m.View(), n, ok)
    ensures status == 0 <==> Released(old(m.View()), n, ok)
  {
    status, ok := FreePage(m, n);
    FreeSeparates(old(m.View()), m.View(), PagePath(n), ok);
  }

  /** vmmFree: the pages are let go one by one; `trace` lists the states in between. */
  method Free(m: Machine, addr: nat, count: nat, ghost stretch: nat)
    returns (status: int, ghost trace: seq<Space>, ghost oks: seq<bool>)
    requires m.Valid() && Separated(m.View()) && Window(addr / 4096, addr / 4096 + count, stretch)
    modifies m`mem, m`tables, m.pmm, m.pmm.bitmap
    ensures m.Valid() && Separated(m.View())
    ensures FreeTrace(trace, addr / 4096, oks) && |oks| == count && trace[0] == old(m.View()) && trace[count] == m.View()
    ensures status == 0 <==> AllReleased(trace, addr / 4096, oks)
  {
    var first := addr / 4096;
    ghost var v := m.View();
    status, trace, oks := 0, [v], [];
    for i := 0 to count
      invariant m.Valid() && v == m.View() && Separated(v)
      invariant |oks| == i && FreeTrace(trace, first, oks) && trace[0] == old(m.View()) && trace[i] == v
      invariant status == 0 <==> AllReleased(trace, first, oks)
    {
      assert PageOk(first + i, stretch);
      var one, ok := FreeNthPage(m, first + i);
      TraceGrows(trace, first, oks, v, m.View(), ok);
      v := m.View();
      status := if status == 0 then one else status;
      trace, oks := trace + [v], oks + [ok];
    }
  }
}
