/** The page-granular kernel heap as a value: malloc, free and realloc over the virtual allocator. */
module HeapSteps {
  import opened Words
  import opened Bits64
  import opened WordBytes
  import opened PageTable
  import opened Addresses
  import opened Spaces
  import opened VirtualSteps
  import opened Contents
  import opened MemoryAccess

  /** A live block: its pages, the size asked for, and whether its guard page could be mapped. */
  datatype Block = Block(pages: nat, size: nat, guarded: bool)

  /** `blocks` are the live blocks by first page, `top` the first page of the region that was never reserved. */
  datatype Heap = Heap(space: Space, top: nat, blocks: map<nat, Block>)

  /** Header and payload rounded up to pages, in 64-bit arithmetic. */
  function PagesFor(size: nat): nat {
    (size + 16 + 4095) % 0x1_0000_0000_0000_0000 / 4096
  }

  /** A block holds its header and its payload unless the size makes the rounding wrap around. */
  lemma BlockFits(size: nat)
    requires size < 0x1_0000_0000_0000_0000
    ensures PagesFor(size) * 4096 >= size + 16 <==> size < 0x1_0000_0000_0000_0000 - 4111
    ensures 0 < size < 0x1_0000_0000_0000_0000 - 4111 ==> PagesFor(size) > 0
  {
  }

  const HEAP_FLAGS: Flags := NO_FLAGS.(write := true)

  /** The two words in front of the payload. */
  ghost predicate HeaderOk(s: Space, b: nat, size: nat, pages: nat) {
    var w := LeafPage(s, b);
    && w.p && w.frame < |s.mem| && |s.mem[w.frame]| == 512
    && Value(s.mem[w.frame][0]) == size && Value(s.mem[w.frame][1]) == pages
  }

  ghost predicate BlockOk(h: Heap, b: nat)
    requires b in h.blocks
  {
    var k := h.blocks[b];
    && FIRST <= b && 0 < k.pages && b + k.pages <= h.top && b + k.pages < PAGES
    && k.size + 16 <= k.pages * 4096
    && (forall n: nat | b <= n < b + k.pages :: LivePage(LeafPage(h.space, n)))
    && (k.guarded ==> b + k.pages < h.top && LeafPage(h.space, b + k.pages) == UNMAPPED)
    && HeaderOk(h.space, b, k.size, k.pages)
  }

  /** The used heap pages are a prefix of the region. */
  ghost predicate Prefix(s: Space, top: nat) {
    && FIRST <= top <= PAGES
    && forall n: nat {:trigger LeafPage(s, n)} | FIRST <= n < PAGES :: LeafPage(s, n) != ZERO <==> n < top
  }

  ghost predicate HeapOk(h: Heap) {
    && Separated(h.space) && Ranged(h.space)
    && Prefix(h.space, h.top)
    && (forall b {:trigger BlockOk(h, b)} | b in h.blocks :: BlockOk(h, b))
    && forall a, b | a in h.blocks && b in h.blocks && a < b :: a + h.blocks[a].pages <= b
  }

  // ---------------------------------------------------------------- pages and words that stay

  /** A present page of the heap region keeps its leaf and its contents. */
  ghost predicate PageSame(s: Space, s': Space, n: nat) {
    LeafPage(s, n).p ==>
      && LeafPage(s', n) == LeafPage(s, n)
      && LeafPage(s, n).frame < |s.mem| == |s'.mem| && s'.mem[LeafPage(s, n).frame] == s.mem[LeafPage(s, n).frame]
  }

  ghost predicate WordKept(s: Space, s': Space, a: nat) {
    Readable(s, a) ==> Readable(s', a) && WordAt(s', a) == WordAt(s, a)
  }

  lemma PageSameTrans(a: Space, b: Space, c: Space, n: nat)
    requires PageSame(a, b, n) && PageSame(b, c, n)
    ensures PageSame(a, c, n)
  {
  }

  lemma KeptPage(s: Space, s': Space, gone: set<Path>, n: nat)
    requires KeepsPages(s, s', gone) && PagePath(n) !in gone
    ensures PageSame(s, s', n)
  {
    var u := PagePath(n);
    if LeafPath(u) && LeafOf(s, u).p {
      assert LeafOf(s', u) == LeafOf(s, u);
    }
  }

  lemma PageSameReads(s: Space, s': Space, a: nat)
    requires PageSame(s, s', a / 4096)
    ensures WordKept(s, s', a)
  {
  }

  lemma HeaderKept(s: Space, s': Space, b: nat, size: nat, pages: nat)
    requires PageSame(s, s', b) && HeaderOk(s, b, size, pages)
    ensures HeaderOk(s', b, size, pages)
  {
  }

  /** The header through addresses. */
  lemma HeaderReads(s: Space, b: nat)
    ensures Readable(s, b * 4096) <==> Readable(s, b * 4096 + 8)
    ensures Readable(s, b * 4096) ==>
              && WordAt(s, b * 4096) == s.mem[LeafPage(s, b).frame][0]
              && WordAt(s, b * 4096 + 8) == s.mem[LeafPage(s, b).frame][1]
  {
    InPage(b, 0);
    InPage(b, 8);
  }

  lemma InPage(b: nat, k: nat)
    requires k < 4096
    ensures (b * 4096 + k) / 4096 == b && (b * 4096 + k) % 4096 == k
  {
  }

  lemma Aligned(b: nat)
    ensures b * 4096 % 8 == 0 && (b * 4096 + 8) % 8 == 0
  {
    assert b * 4096 == 8 * (b * 512);
  }

  lemma WordStart(a: nat)
    requires a % 8 == 0
    ensures a / 8 * 8 == a
  {
  }

  /** Accesses elsewhere leave a header alone. */
  lemma HeaderEvolves(s: Space, s': Space, lo: nat, hi: nat, b: nat, size: nat, pages: nat)
    requires Evolves(s, s', lo, hi) && FIRST <= b < PAGES && HeaderOk(s, b, size, pages)
    requires hi <= b * 4096 || b * 4096 + 16 <= lo
    ensures HeaderOk(s', b, size, pages)
  {
    HeaderReads(s, b);
    HeaderReads(s', b);
    InPage(b, 0);
    InPage(b, 8);
    Aligned(b);
    WordStart(b * 4096);
    WordStart(b * 4096 + 8);
    assert SameOutside(s, s', lo, hi, b * 4096) && SameOutside(s, s', lo, hi, b * 4096 + 8);
  }

  /** A block only depends on the leaves of its own pages and its guard, and on its header. */
  lemma BlockStays(h: Heap, h': Heap, b: nat)
    requires b in h.blocks && BlockOk(h, b) && b in h'.blocks && h'.blocks[b] == h.blocks[b] && h.top <= h'.top
    requires forall n: nat | b <= n < b + h.blocks[b].pages || (n == b + h.blocks[b].pages && h.blocks[b].guarded) ::
               LeafPage(h'.space, n) == LeafPage(h.space, n)
               || (LivePage(LeafPage(h.space, n)) && LivePage(LeafPage(h'.space, n)))
    requires HeaderOk(h'.space, b, h.blocks[b].size, h.blocks[b].pages)
    ensures BlockOk(h', b)
  {
    forall n: nat | b <= n < b + h.blocks[b].pages
      ensures LivePage(LeafPage(h'.space, n))
    {
      assert LivePage(LeafPage(h.space, n));
    }
  }

  /** Nothing outside [lo, hi) is written, and no header has a byte in there. */
  ghost predicate ClearOfHeaders(h: Heap, lo: nat, hi: nat) {
    forall b | b in h.blocks :: hi <= b * 4096 || b * 4096 + 16 <= lo
  }

  lemma LeafEvolves(s: Space, s': Space, lo: nat, hi: nat, n: nat)
    requires Evolves(s, s', lo, hi) && FIRST <= n < PAGES
    ensures Filled(LeafPage(s, n), LeafPage(s', n))
  {
    HeapPage(n);
    assert LeafFilled(s, s', PagePath(n));
  }

  /** Loads, stores and page faults anywhere but in headers keep the heap well formed. */
  lemma EvolveKeeps(h: Heap, s': Space, lo: nat, hi: nat)
    requires HeapOk(h) && Separated(s') && Ranged(s') && Evolves(h.space, s', lo, hi) && ClearOfHeaders(h, lo, hi)
    ensures HeapOk(h.(space := s'))
  {
    var h' := h.(space := s');
    forall n: nat | FIRST <= n < PAGES
      ensures Filled(LeafPage(h.space, n), LeafPage(s', n))
    {
      LeafEvolves(h.space, s', lo, hi, n);
    }
    forall b | b in h'.blocks
      ensures BlockOk(h', b)
    {
      assert BlockOk(h, b);
      HeaderEvolves(h.space, s', lo, hi, b, h.blocks[b].size, h.blocks[b].pages);
      BlockStays(h, h', b);
    }
  }

  // ---------------------------------------------------------------- malloc

  /** Neither the rounding to pages nor the search for them wraps around. */
  predicate Fits(size: nat) {
    size + 4111 < 0x1_0000_0000_0000_0000 && FIRST + PagesFor(size) < PAGES
  }

  const STORE: Access := Access(false, false, true, false)

  /** A word stored at an address whose page is present. */
  ghost predicate StoreStep(s: Space, s': Space, a: nat, v: nat) {
    Readable(s, a) && s' == Poked(s, a, Parse(v))
  }

  /** The states malloc goes through: run reserved, first page supplied, and the two words of the header written. */
  datatype Steps = Steps(mid: Space, touched: Space, sized: Space, stamped: Space, grant: Grant, end: nat, frame: nat, ok: bool)

  /** A store to a page: it is present, or the store faults it in. */
  ghost predicate TouchStep(s: Space, s': Space, b: nat, frame: nat) {
    && LeafPath(PagePath(b))
    && if LeafPage(s, b).p then LeafPage(s, b).rw && s' == s else frame != 0 && FaultStep(s, s', PagePath(b), STORE, frame)
  }

  /** A completed store went to a writable page that is there afterwards, and no reservation became anything else. */
  lemma TouchedPage(s: Space, s': Space, b: nat, frame: nat)
    requires Separated(s) && TouchStep(s, s', b, frame)
    ensures LeafPage(s, b).rw && LeafPage(s', b).p && LeafPage(s', b).rw && Filled(LeafPage(s, b), LeafPage(s', b))
  {
    if !LeafPage(s, b).p {
      FaultSeparates(s, s', PagePath(b), STORE, frame);
    }
  }

  /** A store that never completes: the page may not be written, or the fault is refused. */
  ghost predicate TouchHangs(s: Space, b: nat) {
    && LeafPath(PagePath(b))
    && if LeafPage(s, b).p then !LeafPage(s, b).rw else FaultStep(s, s, PagePath(b), STORE, 0)
  }

  /** The first store to the block faults its first page in unless it is there, then the header is written. */
  ghost predicate StampStep(s: Space, st: Steps, b: nat, size: nat, pages: nat) {
    && TouchStep(s, st.touched, b, st.frame)
    && StoreStep(st.touched, st.sized, b * 4096, size) && StoreStep(st.sized, st.stamped, b * 4096 + 8, pages)
  }

  /** A granted run becomes a block: first page, header, guard page. */
  ghost predicate GrantedStep(h: Heap, st: Steps, h': Heap, first: nat, size: nat, count: nat) {
    && st.end == first + count
    && StampStep(st.mid, st, first, size, count)
    && LeafPath(PagePath(st.end)) && MapStep(st.stamped, h'.space, PagePath(st.end), UNMAPPED, st.ok)
    && h' == WithBlock(h, h'.space, first, st.end, size, count, st.ok)
  }

  /** The address of a run that was reserved completely; page zero behind the last page is not part of one. */
  function Base(g: Grant, count: nat): nat {
    if g.Run? && g.done == count && g.first + count <= PAGES then g.first * 4096 else 0
  }

  function Max(a: nat, b: nat): nat {
    if a < b then b else a
  }

  ghost predicate MallocStep(h: Heap, st: Steps, h': Heap, size: nat, r: nat) {
    if size == 0 then
      r == 0 && h' == h
    else
      var g, count := st.grant, PagesFor(size);
      var base := Base(g, count);
      && AllocateStep(h.space, st.mid, FIRST, LAST, count, LazyWord(HEAP_FLAGS), g, base)
      && if base == 0 then
           r == 0 && h' == Heap(st.mid, if g.Run? then Max(h.top, g.first + g.done) else h.top, h.blocks)
         else
           r == base + 16 && GrantedStep(h, st, h', g.first, size, count)
  }

  /** The call that never returns: the run is reserved, but its first page cannot be written. */
  ghost predicate MallocHangs(h: Heap, st: Steps, h': Heap, size: nat) {
    var g, count := st.grant, PagesFor(size);
    && size != 0 && Base(g, count) != 0
    && AllocateStep(h.space, st.mid, FIRST, LAST, count, LazyWord(HEAP_FLAGS), g, Base(g, count))
    && TouchHangs(st.mid, g.first)
    && h' == h.(space := st.mid, top := Max(h.top, g.first + count))
  }

  /** The heap with a new block and its guard page. */
  ghost function WithBlock(h: Heap, s': Space, first: nat, end: nat, size: nat, count: nat, ok: bool): Heap {
    Heap(s', Max(h.top, if ok then end + 1 else end), h.blocks[first := Block(count, size, ok)])
  }

  lemma BehindPasses(s: Space, top: nat, count: nat)
    requires Prefix(s, top) && top + count < PAGES
    ensures Passes(s, top, count)
  {
  }

  /** First fit over a used prefix finds the page right behind it. */
  lemma FitsBehindPrefix(s: Space, top: nat, count: nat, first: nat)
    requires Prefix(s, top) && 0 < count && FIRST + count < PAGES && FirstFit(s, FIRST, LAST, count, first)
    ensures first == top && top + count < PAGES
  {
    TestedAll(first, count);
    assert LeafPage(s, first) == ZERO;
    if top < first {
      BehindPasses(s, top, count);
      assert false;
    }
  }

  /** Reserving `done` pages behind the prefix moves it on and touches nothing before it. */
  lemma ReserveBehind(s: Space, s': Space, top: nat, done: nat, w: Word)
    requires Prefix(s, top) && top + done < PAGES && ReserveStep(s, s', top, done, w) && w != ZERO
    ensures Prefix(s', top + done)
    ensures forall n: nat | FIRST <= n < PAGES :: LeafPage(s', n) == if top <= n < top + done then w else LeafPage(s, n)
  {
    HeapWindow(top, top + done);
    forall n: nat | FIRST <= n < PAGES
      ensures LeafPage(s', n) == if top <= n < top + done then w else LeafPage(s, n)
    {
      HeapPage(n);
      InRun(top, done, n, 0xFFFF);
      assert LeafPage(s', n) == LeafOf(s', PagePath(n));
    }
  }

  /** The guard page behind a block. */
  lemma GuardBehind(s: Space, s': Space, top: nat, ok: bool)
    requires Prefix(s, top) && top < PAGES
    requires LeafPath(PagePath(top)) && MapStep(s, s', PagePath(top), UNMAPPED, ok)
    ensures Prefix(s', if ok then top + 1 else top)
    ensures forall n: nat | FIRST <= n < PAGES :: LeafPage(s', n) == if ok && n == top then UNMAPPED else LeafPage(s, n)
  {
    forall n: nat | FIRST <= n < PAGES
      ensures LeafPage(s', n) == if ok && n == top then UNMAPPED else LeafPage(s, n)
    {
      HeapPage(n);
      HeapPage(top);
      if PagePath(n) == PagePath(top) {
        PagePathInjective(n, top, 0xFFFF);
      }
      assert LeafPage(s', n) == LeafOf(s', PagePath(n));
    }
  }

  lemma RunWasUnused(s: Space, first: nat, done: nat, count: nat, u: Path)
    requires FIRST <= first && first + count < PAGES && done <= count && RunUnused(s, first, count)
    requires u in RunPaths(first, done) && LeafPath(u)
    ensures LeafOf(s, u) == ZERO
  {
    var n :| first <= n < first + done && PagePath(n) == u;
    assert LeafPage(s, n) == ZERO;
  }

  ghost predicate PagesSame(s: Space, s': Space) {
    forall n: nat :: PageSame(s, s', n)
  }

  lemma KeptPages(s: Space, s': Space)
    requires KeepsPages(s, s', {})
    ensures PagesSame(s, s')
  {
    forall n: nat
      ensures PageSame(s, s', n)
    {
      KeptPage(s, s', {}, n);
    }
  }

  /** The leaves after reserving behind the prefix. */
  ghost predicate ReservedBehind(s: Space, mid: Space, top: nat, done: nat) {
    forall n: nat {:trigger LeafPage(mid, n)} | FIRST <= n < PAGES ::
      LeafPage(mid, n) == if top <= n < top + done then LazyWord(HEAP_FLAGS) else LeafPage(s, n)
  }

  lemma ReserveSpace(s: Space, mid: Space, top: nat, done: nat, count: nat)
    requires Separated(s) && Ranged(s) && Prefix(s, top) && done <= count && top + count < PAGES && RunUnused(s, top, count)
    requires ReserveStep(s, mid, top, done, LazyWord(HEAP_FLAGS))
    ensures Separated(mid) && Ranged(mid) && Prefix(mid, top + done)
    ensures ReservedBehind(s, mid, top, done) && PagesSame(s, mid)
  {
    forall u | u in RunPaths(top, done) && LeafPath(u)
      ensures LeafOf(s, u) == ZERO
    {
      RunWasUnused(s, top, done, count, u);
    }
    ReserveSeparates(s, mid, top, done, LazyWord(HEAP_FLAGS));
    KeptPages(s, mid);
    GrowRanged(s, mid);
    ReserveBehind(s, mid, top, done, LazyWord(HEAP_FLAGS));
  }

  /** The reservation part of malloc, complete or cut short by a lack of frames. */
  lemma ReserveKeeps(h: Heap, h': Heap, done: nat, count: nat)
    requires HeapOk(h) && done <= count && h.top + count < PAGES && RunUnused(h.space, h.top, count)
    requires ReserveStep(h.space, h'.space, h.top, done, LazyWord(HEAP_FLAGS))
    requires h' == Heap(h'.space, h.top + done, h.blocks)
    ensures HeapOk(h') && ReservedBehind(h.space, h'.space, h.top, done) && PagesSame(h.space, h'.space)
  {
    ReserveSpace(h.space, h'.space, h.top, done, count);
    forall b | b in h'.blocks
      ensures BlockOk(h', b)
    {
      assert BlockOk(h, b);
      BlockBehind(h, h', b, done);
    }
  }

  lemma BlockBehind(h: Heap, h': Heap, b: nat, done: nat)
    requires b in h.blocks && BlockOk(h, b) && b in h'.blocks && h'.blocks[b] == h.blocks[b] && h.top <= h'.top <= PAGES
    requires ReservedBehind(h.space, h'.space, h.top, done) && PagesSame(h.space, h'.space)
    ensures BlockOk(h', b)
  {
    assert PageSame(h.space, h'.space, b);
    HeaderKept(h.space, h'.space, b, h.blocks[b].size, h.blocks[b].pages);
    BlockStays(h, h', b);
  }

  lemma LazyPageLives()
    ensures LivePage(LazyWord(HEAP_FLAGS)) && Allows(LazyWord(HEAP_FLAGS), STORE)
  {
  }

  lemma StoreEvolves(s: Space, s': Space, a: nat, hi: nat, v: nat)
    requires Separated(s) && Ranged(s) && HeapAddr(a) && a % 8 == 0 && hi == a + 8
    requires v < 0x1_0000_0000_0000_0000 && StoreStep(s, s', a, v)
    ensures Separated(s') && Ranged(s') && Evolves(s, s', a, hi)
    ensures Readable(s', a) && Value(WordAt(s', a)) == v
  {
    ValueParse(v);
    PokeEvolves(s, a, hi, Parse(v));
  }

  /** Both words of the header. */
  lemma HeaderStored(s: Space, s1: Space, s2: Space, b: nat, lo: nat, mid: nat, hi: nat, size: nat, pages: nat)
    requires Separated(s) && Ranged(s) && FIRST <= b < PAGES && lo == b * 4096 && mid == lo + 8 && hi == lo + 16
    requires size < 0x1_0000_0000_0000_0000 && pages < 0x1_0000_0000_0000_0000
    requires StoreStep(s, s1, lo, size) && StoreStep(s1, s2, mid, pages)
    ensures Separated(s2) && Ranged(s2) && HeaderOk(s2, b, size, pages)
    ensures Evolves(s, s1, lo, mid) && Evolves(s1, s2, mid, hi)
  {
    InPage(b, 0);
    InPage(b, 8);
    Aligned(b);
    StoreEvolves(s, s1, lo, mid, size);
    StoreEvolves(s1, s2, mid, hi, pages);
    HeaderWords(s1, s2, b, lo, mid, hi, size, pages);
  }

  lemma HeaderWords(s1: Space, s2: Space, b: nat, lo: nat, mid: nat, hi: nat, size: nat, pages: nat)
    requires FIRST <= b < PAGES && lo == b * 4096 && mid == lo + 8 && Evolves(s1, s2, mid, hi)
    requires Readable(s1, lo) && Value(WordAt(s1, lo)) == size && Readable(s2, mid) && Value(WordAt(s2, mid)) == pages
    ensures HeaderOk(s2, b, size, pages)
  {
    InPage(b, 0);
    InPage(b, 8);
    Aligned(b);
    WordStart(lo);
    assert SameOutside(s1, s2, mid, hi, lo);
    HeaderReads(s2, b);
  }

  lemma HeaderEvolution(s: Space, s1: Space, s2: Space, lo: nat, mid: nat, hi: nat)
    requires Evolves(s, s1, lo, mid) && Evolves(s1, s2, mid, hi) && lo <= mid <= hi
    ensures Evolves(s, s2, lo, hi)
  {
    EvolvesWider(s, s1, lo, mid, lo, hi);
    EvolvesWider(s1, s2, mid, hi, lo, hi);
    EvolvesTrans(s, s1, s2, lo, hi);
  }

  lemma TouchEvolves(s: Space, s': Space, b: nat, frame: nat)
    requires Separated(s) && Ranged(s) && TouchStep(s, s', b, frame)
    ensures Separated(s') && Ranged(s') && Evolves(s, s', 0, 0)
  {
    if LeafPage(s, b).p {
      EvolvesRefl(s, 0, 0);
    } else {
      FaultEvolves(s, s', PagePath(b), STORE, frame);
    }
  }

  /** Fault and header together. */
  lemma StampEvolves(s: Space, st: Steps, b: nat, lo: nat, hi: nat, size: nat, pages: nat)
    requires Separated(s) && Ranged(s) && FIRST <= b < PAGES && StampStep(s, st, b, size, pages)
    requires lo == b * 4096 && hi == lo + 16
    requires size < 0x1_0000_0000_0000_0000 && pages < 0x1_0000_0000_0000_0000
    ensures Separated(st.stamped) && Ranged(st.stamped) && HeaderOk(st.stamped, b, size, pages)
    ensures Evolves(s, st.stamped, lo, hi)
  {
    TouchEvolves(s, st.touched, b, st.frame);
    HeaderWritten(s, st.touched, st.sized, st.stamped, b, lo, hi, size, pages);
  }

  lemma HeaderWritten(s: Space, s1: Space, s2: Space, s3: Space, b: nat, lo: nat, hi: nat, size: nat, pages: nat)
    requires Evolves(s, s1, 0, 0) && Separated(s1) && Ranged(s1) && FIRST <= b < PAGES && lo == b * 4096 && hi == lo + 16
    requires size < 0x1_0000_0000_0000_0000 && pages < 0x1_0000_0000_0000_0000
    requires StoreStep(s1, s2, b * 4096, size) && StoreStep(s2, s3, b * 4096 + 8, pages)
    ensures Separated(s3) && Ranged(s3) && HeaderOk(s3, b, size, pages) && Evolves(s, s3, lo, hi)
  {
    var mid := lo + 8;
    HeaderStored(s1, s2, s3, b, lo, mid, hi, size, pages);
    HeaderEvolution(s1, s2, s3, lo, mid, hi);
    StoreFollows(s, s1, s3, lo, hi);
  }

  lemma HeadersBefore(h: Heap, b: nat, lo: nat, hi: nat)
    requires HeapOk(h) && Below(h, b) && lo == b * 4096
    ensures ClearOfHeaders(h, lo, hi)
  {
    forall c | c in h.blocks
      ensures c * 4096 + 16 <= lo
    {
      assert BlockOk(h, c);
    }
  }

  lemma StampKeeps(h: Heap, st: Steps, b: nat, lo: nat, hi: nat, size: nat, pages: nat)
    requires HeapOk(h) && FIRST <= b < PAGES && StampStep(h.space, st, b, size, pages)
    requires lo == b * 4096 && hi == lo + 16
    requires size < 0x1_0000_0000_0000_0000 && pages < 0x1_0000_0000_0000_0000
    requires Below(h, b)
    ensures Evolves(h.space, st.stamped, lo, hi)
    ensures HeapOk(h.(space := st.stamped)) && HeaderOk(st.stamped, b, size, pages)
  {
    StampEvolves(h.space, st, b, lo, hi, size, pages);
    HeadersBefore(h, b, lo, hi);
    EvolveKeeps(h, st.stamped, lo, hi);
  }

  lemma GuardPages(s: Space, s': Space, q: Path)
    requires LeafPath(q) && !LeafOf(s, q).p && KeepsPages(s, s', {q})
    ensures PagesSame(s, s')
  {
    forall n: nat
      ensures PageSame(s, s', n)
    {
      if PagePath(n) != q {
        KeptPage(s, s', {q}, n);
      }
    }
  }

  /** Mapping the guard page disturbs nothing but that page. */
  lemma GuardSpace(s: Space, s': Space, top: nat, ok: bool)
    requires Separated(s) && Ranged(s) && Prefix(s, top) && top < PAGES
    requires LeafPath(PagePath(top)) && MapStep(s, s', PagePath(top), UNMAPPED, ok)
    ensures Separated(s') && Ranged(s') && Prefix(s', if ok then top + 1 else top) && PagesSame(s, s')
    ensures forall n: nat {:trigger LeafPage(s', n)} | FIRST <= n < PAGES ::
              LeafPage(s', n) == if ok && n == top then UNMAPPED else LeafPage(s, n)
  {
    assert LeafPage(s, top) == ZERO;
    FreeSeparates(s, s', PagePath(top), ok);
    GuardPages(s, s', PagePath(top));
    GrowRanged(s, s');
    GuardBehind(s, s', top, ok);
  }

  lemma OldBlock(h: Heap, h': Heap, b: nat)
    requires b in h.blocks && BlockOk(h, b) && b in h'.blocks && h'.blocks[b] == h.blocks[b]
    requires h.top <= h'.top && h.top < PAGES && PageSame(h.space, h'.space, b)
    requires forall n: nat {:trigger LeafPage(h'.space, n)} | FIRST <= n < h.top :: LeafPage(h'.space, n) == LeafPage(h.space, n)
    ensures BlockOk(h', b)
  {
    HeaderKept(h.space, h'.space, b, h.blocks[b].size, h.blocks[b].pages);
    BlockStays(h, h', b);
  }

  /** The new block and its guard page, behind everything allocated before. */
  lemma BlockAdded(h: Heap, h': Heap, first: nat, end: nat, size: nat, pages: nat, ok: bool)
    requires HeapOk(h) && 0 < pages && size + 16 <= pages * 4096
    requires FIRST <= first && h.top == end == first + pages < PAGES
    requires Live(h.space, first, pages) && Below(h, first)
    requires HeaderOk(h.space, first, size, pages)
    requires LeafPath(PagePath(end)) && MapStep(h.space, h'.space, PagePath(end), UNMAPPED, ok)
    requires h' == WithBlock(h, h'.space, first, end, size, pages, ok)
    ensures HeapOk(h') && PagesSame(h.space, h'.space) && LeavesSame(h.space, h'.space, end)
  {
    GuardSpace(h.space, h'.space, end, ok);
    BlocksWithNew(h, h', first, end, size, pages, ok);
  }

  lemma BlocksWithNew(h: Heap, h': Heap, first: nat, end: nat, size: nat, pages: nat, ok: bool)
    requires HeapOk(h) && 0 < pages && size + 16 <= pages * 4096
    requires FIRST <= first && h.top == end == first + pages < PAGES
    requires Live(h.space, first, pages) && Below(h, first)
    requires HeaderOk(h.space, first, size, pages) && PagesSame(h.space, h'.space)
    requires forall n: nat {:trigger LeafPage(h'.space, n)} | FIRST <= n < PAGES ::
               LeafPage(h'.space, n) == if ok && n == end then UNMAPPED else LeafPage(h.space, n)
    requires h' == WithBlock(h, h'.space, first, end, size, pages, ok)
    ensures forall b {:trigger BlockOk(h', b)} | b in h'.blocks :: BlockOk(h', b)
    ensures forall a, b | a in h'.blocks && b in h'.blocks && a < b :: a + h'.blocks[a].pages <= b
  {
    NewBlock(h, h', first, end, size, pages, ok);
    forall b | b in h'.blocks
      ensures BlockOk(h', b)
    {
      if b != first {
        assert BlockOk(h, b);
        assert PageSame(h.space, h'.space, b);
        OldBlock(h, h', b);
      }
    }
  }

  lemma NewBlock(h: Heap, h': Heap, first: nat, end: nat, size: nat, pages: nat, ok: bool)
    requires 0 < pages && size + 16 <= pages * 4096 && FIRST <= first && end == first + pages < PAGES
    requires Live(h.space, first, pages) && HeaderOk(h.space, first, size, pages) && PagesSame(h.space, h'.space)
    requires forall n: nat {:trigger LeafPage(h'.space, n)} | FIRST <= n < PAGES ::
               LeafPage(h'.space, n) == if ok && n == end then UNMAPPED else LeafPage(h.space, n)
    requires h' == WithBlock(h, h'.space, first, end, size, pages, ok)
    ensures BlockOk(h', first)
  {
    assert PageSame(h.space, h'.space, first);
    HeaderKept(h.space, h'.space, first, size, pages);
  }

  /** Freshly reserved pages. */
  ghost predicate Lazy(s: Space, first: nat, count: nat) {
    forall n: nat {:trigger LeafPage(s, n)} | first <= n < first + count :: LeafPage(s, n) == LazyWord(HEAP_FLAGS)
  }

  ghost predicate Live(s: Space, first: nat, count: nat) {
    forall n: nat {:trigger LeafPage(s, n)} | first <= n < first + count :: LivePage(LeafPage(s, n))
  }

  lemma LazyLeaves(mid: Space, stamped: Space, first: nat, count: nat, lo: nat, hi: nat)
    requires FIRST <= first && first + count < PAGES && Lazy(mid, first, count) && Evolves(mid, stamped, lo, hi)
    ensures Live(stamped, first, count)
  {
    LazyPageLives();
    forall n: nat | first <= n < first + count
      ensures LivePage(LeafPage(stamped, n))
    {
      assert LeafPage(mid, n) == LazyWord(HEAP_FLAGS);
      LeafEvolves(mid, stamped, lo, hi, n);
    }
  }

  ghost predicate Below(h: Heap, first: nat) {
    forall b | b in h.blocks :: b + h.blocks[b].pages <= first
  }

  lemma BlocksBelow(h: Heap)
    requires HeapOk(h)
    ensures Below(h, h.top) && h.top !in h.blocks
  {
    forall b | b in h.blocks
      ensures b + h.blocks[b].pages <= h.top && b != h.top
    {
      assert BlockOk(h, b);
    }
  }

  /** The reserved run behind the used prefix. */
  lemma GrantReserved(h: Heap, h0: Heap, first: nat, count: nat)
    requires HeapOk(h) && h.top == first && first + count < PAGES && RunUnused(h.space, first, count)
    requires ReserveStep(h.space, h0.space, first, count, LazyWord(HEAP_FLAGS)) && h0 == Heap(h0.space, first + count, h.blocks)
    ensures HeapOk(h0) && Lazy(h0.space, first, count) && Below(h0, first)
    ensures PagesSame(h.space, h0.space) && LeavesSame(h.space, h0.space, first)
  {
    BlocksBelow(h);
    ReserveKeeps(h, h0, count, count);
  }

  /** Stamped, it is ready to become a block. */
  lemma GrantStamped(h0: Heap, st: Steps, h1: Heap, first: nat, size: nat, count: nat, lo: nat, hi: nat)
    requires HeapOk(h0) && FIRST <= first && first + count < PAGES && 0 < count && h0.top == first + count
    requires Lazy(h0.space, first, count) && Below(h0, first)
    requires size < 0x1_0000_0000_0000_0000 && lo == first * 4096 && hi == lo + 16
    requires StampStep(h0.space, st, first, size, count) && h1 == h0.(space := st.stamped)
    ensures HeapOk(h1) && HeaderOk(h1.space, first, size, count) && Live(h1.space, first, count) && Below(h1, first)
    ensures Evolves(h0.space, h1.space, lo, hi)
  {
    StampKeeps(h0, st, first, lo, hi, size, count);
    LazyLeaves(h0.space, h1.space, first, count, lo, hi);
  }

  /** The run that malloc finds starts right behind the used prefix. */
  lemma MallocPlace(h: Heap, st: Steps, size: nat, base: nat)
    requires HeapOk(h) && Fits(size) && size != 0 && st.grant.Run?
    requires AllocateStep(h.space, st.mid, FIRST, LAST, PagesFor(size), LazyWord(HEAP_FLAGS), st.grant, base)
    ensures var count := PagesFor(size);
            && 0 < count && size + 16 <= count * 4096 && st.grant.first == h.top && h.top + count < PAGES
  {
    BlockFits(size);
    FitsBehindPrefix(h.space, h.top, PagesFor(size), st.grant.first);
  }

  ghost predicate LeavesSame(s: Space, s': Space, top: nat) {
    forall n: nat {:trigger LeafPage(s', n)} | FIRST <= n < top :: LeafPage(s', n) == LeafPage(s, n)
  }

  ghost predicate PageStays(s: Space, s': Space, n: nat) {
    PageSame(s, s', n) && Filled(LeafPage(s, n), LeafPage(s', n))
  }

  /** Every word of a page that was there before is unchanged, and no other leaf but a reservation's changes. */
  ghost predicate OldPagesKept(h: Heap, s': Space) {
    forall n: nat | FIRST <= n < h.top :: PageStays(h.space, s', n)
  }

  lemma EvolvedPage(s: Space, s': Space, lo: nat, hi: nat, n: nat)
    requires Evolves(s, s', lo, hi) && FIRST <= n < PAGES && (n + 1) * 4096 <= lo && Separated(s) && Separated(s')
    ensures PageSame(s, s', n)
  {
    LeafEvolves(s, s', lo, hi, n);
    if LeafPage(s, n).p {
      InPage(n, 0);
      PresentReadable(s, n * 4096);
      var f := LeafPage(s, n).frame;
      forall i | 0 <= i < 512
        ensures s'.mem[f][i] == s.mem[f][i]
      {
        PageWord(s, s', lo, hi, n, i);
      }
      assert s'.mem[f] == s.mem[f];
    }
  }

  lemma WordPlace(n: nat, i: nat, a: nat)
    requires a == n * 4096 + 8 * i && i < 512
    ensures a / 4096 == n && a % 4096 / 8 == i && a / 8 * 8 == a && a + 8 <= (n + 1) * 4096
  {
    InPage(n, 8 * i);
    assert a == 8 * (n * 512 + i);
  }

  lemma PageWord(s: Space, s': Space, lo: nat, hi: nat, n: nat, i: nat)
    requires Evolves(s, s', lo, hi) && FIRST <= n < PAGES && (n + 1) * 4096 <= lo && i < 512
    requires LeafPage(s, n).p && LeafPage(s', n) == LeafPage(s, n) && Readable(s, n * 4096)
    ensures LeafPage(s, n).frame < |s.mem| == |s'.mem| && |s'.mem[LeafPage(s, n).frame]| == 512
    ensures s'.mem[LeafPage(s, n).frame][i] == s.mem[LeafPage(s, n).frame][i]
  {
    var a := n * 4096 + 8 * i;
    WordPlace(n, i, a);
    InPage(n, 0);
    assert SameOutside(s, s', lo, hi, a);
  }

  lemma OldPages(h: Heap, mid: Space, stamped: Space, s': Space, lo: nat, hi: nat, end: nat)
    requires LeavesSame(h.space, mid, h.top) && LeavesSame(stamped, s', end) && h.top <= end
    requires PagesSame(h.space, mid) && Separated(mid) && Evolves(mid, stamped, lo, hi) && Separated(stamped)
    requires PagesSame(stamped, s') && lo == h.top * 4096 && h.top < PAGES
    ensures OldPagesKept(h, s')
  {
    forall n: nat | FIRST <= n < h.top
      ensures PageStays(h.space, s', n)
    {
      assert PageSame(h.space, mid, n) && PageSame(stamped, s', n);
      EvolvedPage(mid, stamped, lo, hi, n);
      LeafEvolves(mid, stamped, lo, hi, n);
    }
  }

  /** The run with its header, before the guard page. */
  lemma GrantReady(h: Heap, st: Steps, h1: Heap, first: nat, size: nat, count: nat, lo: nat, hi: nat)
    requires HeapOk(h) && 0 < count && h.top == first && first + count < PAGES
    requires size < 0x1_0000_0000_0000_0000 && lo == first * 4096 && hi == lo + 16
    requires RunUnused(h.space, first, count) && ReserveStep(h.space, st.mid, first, count, LazyWord(HEAP_FLAGS))
    requires StampStep(st.mid, st, first, size, count) && h1 == Heap(st.stamped, first + count, h.blocks)
    ensures HeapOk(h1) && HeaderOk(h1.space, first, size, count) && Live(h1.space, first, count) && Below(h1, first)
    ensures Separated(st.mid) && Evolves(st.mid, h1.space, lo, hi)
    ensures PagesSame(h.space, st.mid) && LeavesSame(h.space, st.mid, first)
  {
    var h0 := Heap(st.mid, first + count, h.blocks);
    GrantReserved(h, h0, first, count);
    GrantStamped(h0, st, h1, first, size, count, lo, hi);
  }

  /** A granted run becomes a block; everything allocated before keeps its contents. */
  lemma GrantKeeps(h: Heap, st: Steps, h': Heap, first: nat, size: nat, count: nat)
    requires HeapOk(h) && 0 < count && size + 16 <= count * 4096 && h.top == first && first + count < PAGES
    requires size < 0x1_0000_0000_0000_0000
    requires RunUnused(h.space, first, count) && ReserveStep(h.space, st.mid, first, count, LazyWord(HEAP_FLAGS))
    requires GrantedStep(h, st, h', first, size, count)
    ensures HeapOk(h') && OldPagesKept(h, h'.space)
  {
    var end, lo := st.end, first * 4096;
    var h1, hi := Heap(st.stamped, end, h.blocks), lo + 16;
    GrantReady(h, st, h1, first, size, count, lo, hi);
    BlockAdded(h1, h', first, end, size, count, st.ok);
    OldPages(h, st.mid, st.stamped, h'.space, lo, hi, end);
  }

  lemma PartlyReserved(h: Heap, h': Heap, done: nat, count: nat)
    requires HeapOk(h) && done <= count && h.top + count < PAGES && RunUnused(h.space, h.top, count)
    requires ReserveStep(h.space, h'.space, h.top, done, LazyWord(HEAP_FLAGS)) && h' == Heap(h'.space, h.top + done, h.blocks)
    ensures HeapOk(h') && OldPagesKept(h, h'.space)
  {
    ReserveKeeps(h, h', done, count);
    forall n: nat | FIRST <= n < h.top
      ensures PageStays(h.space, h'.space, n)
    {
      assert PageSame(h.space, h'.space, n);
    }
  }

  lemma NothingKept(h: Heap)
    requires HeapOk(h)
    ensures OldPagesKept(h, h.space)
  {
    forall n: nat | FIRST <= n < h.top
      ensures PageStays(h.space, h.space, n)
    {
      if LeafPage(h.space, n).p {
        InPage(n, 0);
        PresentReadable(h.space, n * 4096);
      }
    }
  }

  /** The outcome of malloc: what it says about blocks. */
  ghost predicate MallocResult(h: Heap, h': Heap, size: nat, ok: bool, r: nat) {
    if r == 0 then h'.blocks == h.blocks
    else r == h.top * 4096 + 16 && h.top !in h.blocks && h'.blocks == h.blocks[h.top := Block(PagesFor(size), size, ok)]
  }

  lemma RunKeeps(h: Heap, st: Steps, h': Heap, size: nat, count: nat, r: nat)
    requires HeapOk(h) && Fits(size) && size != 0 && count == PagesFor(size) && st.grant.Run?
    requires MallocStep(h, st, h', size, r)
    requires 0 < count && size + 16 <= count * 4096 && st.grant.first == h.top && h.top + count < PAGES && h.top !in h.blocks
    ensures HeapOk(h') && h.top <= h'.top && OldPagesKept(h, h'.space) && MallocResult(h, h', size, st.ok, r)
  {
    if st.grant.done == count {
      assert Base(st.grant, count) == h.top * 4096;
      GrantKeeps(h, st, h', st.grant.first, size, count);
    } else {
      PartlyReserved(h, h', st.grant.done, count);
    }
  }

  /** malloc keeps the heap well formed; a block it returns starts where no page was ever used. */
  lemma MallocKeeps(h: Heap, st: Steps, h': Heap, size: nat, r: nat)
    requires HeapOk(h) && MallocStep(h, st, h', size, r) && Fits(size)
    ensures HeapOk(h') && h.top <= h'.top && OldPagesKept(h, h'.space) && MallocResult(h, h', size, st.ok, r)
  {
    if size == 0 || st.grant.NoRun? {
      NothingKept(h);
    } else {
      BlocksBelow(h);
      MallocPlace(h, st, size, if st.grant.done == PagesFor(size) then st.grant.first * 4096 else 0);
      RunKeeps(h, st, h', size, PagesFor(size), r);
    }
  }

  // ---------------------------------------------------------------- free

  ghost predicate FreeBlockStep(h: Heap, h': Heap, b: nat, trace: seq<Space>, oks: seq<bool>)
    requires b in h.blocks
  {
    && |oks| == h.blocks[b].pages && FreeTrace(trace, b, oks)
    && trace[0] == h.space && trace[|oks|] == h'.space
    && h' == Heap(h'.space, h.top, h.blocks - {b})
  }

  /** Letting go of a used page leaves it unmapped and still used; other pages keep their leaves. */
  lemma OneUnmapped(s: Space, s': Space, m: nat, ok: bool, n: nat)
    requires Separated(s) && FIRST <= m < PAGES && FIRST <= n < PAGES && LeafPage(s, m) != ZERO
    requires FreeNth(s, s', m, ok)
    ensures Separated(s') && LeafPage(s', n) == if n == m then UNMAPPED else LeafPage(s, n)
  {
    HeapPage(m);
    HeapPage(n);
    FreeSeparates(s, s', PagePath(m), ok);
    assert ok;
    if PagePath(n) == PagePath(m) {
      PagePathInjective(n, m, 0xFFFF);
    }
  }

  lemma {:induction false} TraceSeparated(trace: seq<Space>, b: nat, oks: seq<bool>, j: nat)
    requires FreeTrace(trace, b, oks) && j <= |oks| && Separated(trace[0])
    ensures Separated(trace[j])
    decreases j
  {
    if j > 0 {
      TraceSeparated(trace, b, oks, j - 1);
      assert FreeNth(trace[j - 1], trace[j], b + (j - 1), oks[j - 1]);
      FreeSeparates(trace[j - 1], trace[j], PagePath(b + (j - 1)), oks[j - 1]);
    }
  }

  ghost predicate RunUsed(s: Space, first: nat, count: nat) {
    forall n: nat | first <= n < first + count :: LeafPage(s, n) != ZERO
  }

  /** The page at n after j pages from b on were let go. */
  ghost function Left(s: Space, b: nat, j: nat, n: nat): Word {
    if b <= n < b + j then UNMAPPED else LeafPage(s, n)
  }

  lemma UnmapOneMore(s0: Space, s: Space, s': Space, b: nat, j: nat, n: nat, ok: bool)
    requires Separated(s) && FreeNth(s, s', b + j, ok) && FIRST <= b && b + j < PAGES && FIRST <= n < PAGES
    requires LeafPage(s0, b + j) != ZERO
    requires LeafPage(s, n) == Left(s0, b, j, n) && LeafPage(s, b + j) == Left(s0, b, j, b + j)
    ensures LeafPage(s', n) == Left(s0, b, j + 1, n)
  {
    OneUnmapped(s, s', b + j, ok, n);
  }

  lemma {:induction false} TraceUnmaps(trace: seq<Space>, b: nat, oks: seq<bool>, j: nat, n: nat)
    requires FreeTrace(trace, b, oks) && j <= |oks| && Separated(trace[0])
    requires FIRST <= b && b + |oks| <= PAGES && FIRST <= n < PAGES
    requires RunUsed(trace[0], b, |oks|)
    ensures LeafPage(trace[j], n) == Left(trace[0], b, j, n)
    decreases j
  {
    if j > 0 {
      var i := j - 1;
      TraceUnmaps(trace, b, oks, i, n);
      TraceUnmaps(trace, b, oks, i, b + i);
      TraceSeparated(trace, b, oks, i);
      assert FreeNth(trace[i], trace[i + 1], b + i, oks[i]);
      assert LeafPage(trace[0], b + i) != ZERO;
      UnmapOneMore(trace[0], trace[i], trace[j], b, i, n, oks[i]);
    }
  }

  lemma OneRanged(s: Space, s': Space, m: nat, ok: bool)
    requires Ranged(s) && FreeNth(s, s', m, ok)
    ensures Ranged(s')
  {
    GrowRanged(Given(s, LeafOf(s, PagePath(m))), s');
  }

  /** Letting one page go keeps the words of all others. */
  lemma OneFreed(s: Space, s': Space, m: nat, ok: bool, n: nat)
    requires Separated(s) && FIRST <= m < PAGES && FIRST <= n < PAGES && n != m && FreeNth(s, s', m, ok)
    ensures PageSame(s, s', n)
  {
    HeapPage(m);
    HeapPage(n);
    FreeSeparates(s, s', PagePath(m), ok);
    if PagePath(n) == PagePath(m) {
      PagePathInjective(n, m, 0xFFFF);
    }
    KeptPage(s, s', {PagePath(m)}, n);
  }

  lemma SamePage(s: Space, n: nat)
    requires Separated(s)
    ensures PageSame(s, s, n)
  {
    if LeafPage(s, n).p {
      InPage(n, 0);
      PresentReadable(s, n * 4096);
    }
  }

  lemma {:induction false} TraceRanged(trace: seq<Space>, b: nat, oks: seq<bool>, j: nat)
    requires FreeTrace(trace, b, oks) && j <= |oks| && Ranged(trace[0])
    ensures Ranged(trace[j])
    decreases j
  {
    if j > 0 {
      var i := j - 1;
      TraceRanged(trace, b, oks, i);
      assert FreeNth(trace[i], trace[i + 1], b + i, oks[i]);
      OneRanged(trace[i], trace[j], b + i, oks[i]);
    }
  }

  lemma {:induction false} TraceKeeps(trace: seq<Space>, b: nat, oks: seq<bool>, j: nat, n: nat)
    requires FreeTrace(trace, b, oks) && j <= |oks| && Separated(trace[0])
    requires FIRST <= b && b + |oks| <= PAGES && FIRST <= n < PAGES && !(b <= n < b + |oks|)
    ensures PageSame(trace[0], trace[j], n)
    decreases j
  {
    if j == 0 {
      SamePage(trace[0], n);
    } else {
      var i := j - 1;
      TraceKeeps(trace, b, oks, i, n);
      TraceSeparated(trace, b, oks, i);
      assert FreeNth(trace[i], trace[i + 1], b + i, oks[i]);
      OneFreed(trace[i], trace[j], b + i, oks[i], n);
      PageSameTrans(trace[0], trace[i], trace[j], n);
    }
  }

  /** The leaves and contents after a free: exactly the pages of the block become unmapped. */
  ghost predicate Unmapped(s: Space, s': Space, b: nat, pages: nat) {
    forall n: nat {:trigger LeafPage(s', n)} | FIRST <= n < PAGES ::
      LeafPage(s', n) == if b <= n < b + pages then UNMAPPED else LeafPage(s, n)
  }

  ghost predicate KeptElsewhere(s: Space, s': Space, b: nat, pages: nat) {
    forall n: nat | FIRST <= n < PAGES && !(b <= n < b + pages) :: PageSame(s, s', n)
  }

  lemma FreeLeaves(h: Heap, h': Heap, b: nat, trace: seq<Space>, oks: seq<bool>)
    requires HeapOk(h) && b in h.blocks && FreeBlockStep(h, h', b, trace, oks)
    ensures Separated(h'.space) && Ranged(h'.space) && Unmapped(h.space, h'.space, b, h.blocks[b].pages)
    ensures KeptElsewhere(h.space, h'.space, b, h.blocks[b].pages)
  {
    assert BlockOk(h, b);
    assert RunUsed(h.space, b, |oks|) by {
      assert forall n: nat | b <= n < b + |oks| :: LivePage(LeafPage(h.space, n));
    }
    TraceEnds(h.space, h'.space, b, trace, oks);
  }

  lemma TraceEnds(s: Space, s': Space, b: nat, trace: seq<Space>, oks: seq<bool>)
    requires Separated(s) && Ranged(s) && FreeTrace(trace, b, oks) && trace[0] == s && trace[|oks|] == s'
    requires FIRST <= b && b + |oks| <= PAGES && RunUsed(s, b, |oks|)
    ensures Separated(s') && Ranged(s') && Unmapped(s, s', b, |oks|) && KeptElsewhere(s, s', b, |oks|)
  {
    TraceSeparated(trace, b, oks, |oks|);
    TraceRanged(trace, b, oks, |oks|);
    forall n: nat | FIRST <= n < PAGES
      ensures LeafPage(s', n) == if b <= n < b + |oks| then UNMAPPED else LeafPage(s, n)
    {
      TraceUnmaps(trace, b, oks, |oks|, n);
    }
    forall n: nat | FIRST <= n < PAGES && !(b <= n < b + |oks|)
      ensures PageSame(s, s', n)
    {
      TraceKeeps(trace, b, oks, |oks|, n);
    }
  }

  /** The guard page of one live block is never a page of another. */
  lemma GuardApart(h: Heap, b: nat, c: nat)
    requires HeapOk(h) && b in h.blocks && c in h.blocks && h.blocks[b].guarded
    ensures !(c <= b + h.blocks[b].pages < c + h.blocks[c].pages)
  {
    assert BlockOk(h, b) && BlockOk(h, c);
  }

  lemma OtherBlock(h: Heap, h': Heap, b: nat, c: nat)
    requires HeapOk(h) && b in h.blocks && c in h.blocks && c != b && c in h'.blocks && h'.blocks[c] == h.blocks[c] && h'.top == h.top
    requires Unmapped(h.space, h'.space, b, h.blocks[b].pages) && KeptElsewhere(h.space, h'.space, b, h.blocks[b].pages)
    ensures BlockOk(h', c)
  {
    assert BlockOk(h, b) && BlockOk(h, c);
    assert c < b ==> c + h.blocks[c].pages <= b;
    assert b < c ==> b + h.blocks[b].pages <= c;
    if h.blocks[c].guarded {
      GuardApart(h, c, b);
    }
    assert PageSame(h.space, h'.space, c);
    HeaderKept(h.space, h'.space, c, h.blocks[c].size, h.blocks[c].pages);
    BlockStays(h, h', c);
  }

  lemma FreeKeeps(h: Heap, h': Heap, b: nat, trace: seq<Space>, oks: seq<bool>)
    requires HeapOk(h) && b in h.blocks && FreeBlockStep(h, h', b, trace, oks)
    ensures HeapOk(h') && KeptElsewhere(h.space, h'.space, b, h.blocks[b].pages)
  {
    FreeLeaves(h, h', b, trace, oks);
    assert BlockOk(h, b);
    forall c | c in h'.blocks
      ensures BlockOk(h', c)
    {
      OtherBlock(h, h', b, c);
    }
  }

  // ---------------------------------------------------------------- realloc

  function Min(a: nat, b: nat): nat {
    if a < b then a else b
  }

  /** The states realloc goes through: the new block, the copy of `n` bytes from `src`, the pages let go. */
  datatype Moves = Moves(st: Steps, h1: Heap, h2: Heap, src: nat, n: nat, hi: nat, trace: seq<Space>, oks: seq<bool>)

  /** The common prefix is copied through memory to the new block at `r`, and the old block is freed. */
  ghost predicate MoveStep(x: Moves, h': Heap, b: nat, r: nat) {
    && b in x.h1.blocks && x.src == b * 4096 + 16 && x.hi == r + x.n
    && x.h2 == x.h1.(space := x.h2.space) && Separated(x.h2.space) && Ranged(x.h2.space)
    && Evolves(x.h1.space, x.h2.space, r, x.hi) && Matched(x.h2.space, x.src, r, x.n)
    && FreeBlockStep(x.h2, h', b, x.trace, x.oks)
  }

  /** realloc of a live block. */
  ghost predicate ReallocStep(h: Heap, x: Moves, h': Heap, b: nat, size: nat, r: nat)
    requires b in h.blocks
  {
    if size == 0 then
      r == 0 && h' == h
    else
      && MallocStep(h, x.st, x.h1, size, r)
      && if r == 0 then h' == x.h1 else x.n == Min(h.blocks[b].size, size) && MoveStep(x, h', b, r)
  }

  /** Where the copy of a realloc writes: behind the header of the newest block. */
  lemma CopyClear(h: Heap, h1: Heap, size: nat, ok: bool, r: nat, hi: nat)
    requires HeapOk(h) && MallocResult(h, h1, size, ok, r) && r != 0
    ensures ClearOfHeaders(h1, r, hi)
  {
    forall c | c in h1.blocks
      ensures c * 4096 + 16 <= r
    {
      assert c in h.blocks ==> BlockOk(h, c);
    }
  }

  lemma CopyKeeps(h: Heap, h1: Heap, h2: Heap, size: nat, ok: bool, r: nat, hi: nat)
    requires HeapOk(h) && HeapOk(h1) && MallocResult(h, h1, size, ok, r) && r != 0
    requires Separated(h2.space) && Ranged(h2.space) && Evolves(h1.space, h2.space, r, hi) && h2 == h1.(space := h2.space)
    ensures HeapOk(h2)
  {
    CopyClear(h, h1, size, ok, r, hi);
    EvolveKeeps(h1, h2.space, r, hi);
  }

  lemma MoveKeeps(h: Heap, x: Moves, h': Heap, b: nat, size: nat, r: nat)
    requires HeapOk(h) && HeapOk(x.h1) && MallocResult(h, x.h1, size, x.st.ok, r) && r != 0 && MoveStep(x, h', b, r)
    ensures HeapOk(x.h2) && HeapOk(h') && KeptElsewhere(x.h2.space, h'.space, b, x.h1.blocks[b].pages)
    ensures h'.top == x.h1.top && h'.blocks == x.h1.blocks - {b}
  {
    CopyKeeps(h, x.h1, x.h2, size, x.st.ok, r, x.hi);
    FreeKeeps(x.h2, h', b, x.trace, x.oks);
  }

  lemma ReallocKeeps(h: Heap, x: Moves, h': Heap, b: nat, size: nat, r: nat)
    requires HeapOk(h) && b in h.blocks && Fits(size) && ReallocStep(h, x, h', b, size, r)
    ensures HeapOk(h') && h.top <= h'.top
    ensures r == 0 ==> h'.blocks == h.blocks
    ensures r != 0 ==> r == h.top * 4096 + 16 && h.top !in h.blocks
                       && h'.blocks == h.blocks[h.top := Block(PagesFor(size), size, x.st.ok)] - {b}
  {
    if size != 0 {
      MallocKeeps(h, x.st, x.h1, size, r);
      if r != 0 {
        MoveKeeps(h, x, h', b, size, r);
      }
    }
  }

  ghost predicate ByteKept(s: Space, s': Space, a: nat) {
    Readable(s, a) ==> Readable(s', a) && ByteAt(s', a) == ByteAt(s, a)
  }

  /** A byte read at one address before is read at another one after. */
  ghost predicate ByteMoved(s: Space, a: nat, s': Space, a': nat) {
    Readable(s, a) ==> Readable(s', a') && ByteAt(s', a') == ByteAt(s, a)
  }

  /** The addresses of a block. */
  predicate InBlock(k: Block, b: nat, a: nat) {
    b * 4096 <= a < (b + k.pages) * 4096
  }

  lemma PageOfBlock(k: Block, b: nat, a: nat)
    requires InBlock(k, b, a)
    ensures b <= a / 4096 < b + k.pages
  {
  }

  lemma BlockBytesKept(h: Heap, s': Space, c: nat, a: nat)
    requires HeapOk(h) && c in h.blocks && InBlock(h.blocks[c], c, a) && OldPagesKept(h, s')
    ensures ByteKept(h.space, s', a)
  {
    assert BlockOk(h, c);
    PageOfBlock(h.blocks[c], c, a);
    assert PageStays(h.space, s', a / 4096);
    PageSameReads(h.space, s', a);
  }

  lemma FreedBytesKept(s: Space, s': Space, b: nat, pages: nat, a: nat)
    requires KeptElsewhere(s, s', b, pages) && HeapAddr(a) && !(b <= a / 4096 < b + pages)
    ensures ByteKept(s, s', a)
  {
    assert PageSame(s, s', a / 4096);
    PageSameReads(s, s', a);
  }

  lemma EvolvedByte(s: Space, s': Space, lo: nat, hi: nat, a: nat)
    requires Evolves(s, s', lo, hi) && HeapAddr(a) && (a < lo || hi <= a)
    ensures ByteKept(s, s', a)
  {
    assert SameOutside(s, s', lo, hi, a);
  }

  lemma BlockAddresses(h: Heap, c: nat, a: nat)
    requires HeapOk(h) && c in h.blocks && InBlock(h.blocks[c], c, a)
    ensures HeapAddr(a) && c <= a / 4096 < c + h.blocks[c].pages && a < h.top * 4096
    ensures forall b | b in h.blocks && b != c :: !(b <= a / 4096 < b + h.blocks[b].pages)
  {
    assert BlockOk(h, c);
    PageOfBlock(h.blocks[c], c, a);
  }

  /** The way a byte takes from the old block to the new one. */
  lemma ByteMoves(s: Space, s1: Space, s2: Space, s3: Space, src: nat, dst: nat, n: nat, hi: nat, b: nat, pages: nat,
                  j: nat, from: nat, to: nat)
    requires j < n && src + n <= dst && from == src + j && to == dst + j && HeapAddr(from) && HeapAddr(to)
    requires ByteKept(s, s1, from) && Evolves(s1, s2, dst, hi) && Matched(s2, src, dst, n)
    requires KeptElsewhere(s2, s3, b, pages) && !(b <= to / 4096 < b + pages)
    ensures ByteMoved(s, from, s3, to)
  {
    EvolvedByte(s1, s2, dst, hi, from);
    assert SameByte(s2, src, dst, j);
    FreedBytesKept(s2, s3, b, pages, to);
  }

  lemma MoveCopies(h: Heap, x: Moves, h': Heap, b: nat, size: nat, r: nat, j: nat, from: nat, to: nat)
    requires HeapOk(h) && b in h.blocks && HeapOk(x.h1) && OldPagesKept(h, x.h1.space)
    requires MallocResult(h, x.h1, size, x.st.ok, r) && r != 0
    requires x.n == Min(h.blocks[b].size, size) && MoveStep(x, h', b, r) && j < x.n
    requires from == b * 4096 + 16 + j && to == r + j
    ensures ByteMoved(h.space, from, h'.space, to)
  {
    MoveKeeps(h, x, h', b, size, r);
    MovePlaces(h, x.h1, b, x.src, x.n, size, x.st.ok, r, j, from, to);
    BlockBytesKept(h, x.h1.space, b, from);
    ByteMoves(h.space, x.h1.space, x.h2.space, h'.space, x.src, r, x.n, x.hi, b, h.blocks[b].pages, j, from, to);
  }

  lemma MovePlaces(h: Heap, h1: Heap, b: nat, src: nat, n: nat, size: nat, ok: bool, r: nat, j: nat, from: nat, to: nat)
    requires HeapOk(h) && b in h.blocks && HeapOk(h1) && MallocResult(h, h1, size, ok, r) && r != 0
    requires src == b * 4096 + 16 && n == Min(h.blocks[b].size, size) && j < n && from == src + j && to == r + j
    ensures InBlock(h.blocks[b], b, from) && HeapAddr(from) && HeapAddr(to) && src + n <= r
    ensures !(b <= to / 4096 < b + h.blocks[b].pages)
    ensures b in h1.blocks && h1.blocks[b] == h.blocks[b]
  {
    assert BlockOk(h, b) && BlockOk(h1, h.top);
    BlockAddresses(h, b, from);
    BlockAddresses(h1, h.top, to);
  }

  /**
   realloc keeps the common prefix of the contents: each byte below both sizes that could be read at the old
   address is read, through the page tables, at the new one.
   */
  lemma ReallocCopies(h: Heap, x: Moves, h': Heap, b: nat, size: nat, r: nat, j: nat, from: nat, to: nat)
    requires HeapOk(h) && b in h.blocks && Fits(size) && ReallocStep(h, x, h', b, size, r) && r != 0
    requires j < h.blocks[b].size && j < size && from == b * 4096 + 16 + j && to == r + j
    ensures ByteMoved(h.space, from, h'.space, to)
  {
    MallocKeeps(h, x.st, x.h1, size, r);
    MoveCopies(h, x, h', b, size, r, j, from, to);
  }

  lemma MoveOthers(h: Heap, x: Moves, h': Heap, b: nat, size: nat, r: nat, c: nat, a: nat)
    requires HeapOk(h) && b in h.blocks && HeapOk(x.h1) && MallocResult(h, x.h1, size, x.st.ok, r) && r != 0
    requires MoveStep(x, h', b, r) && c in h.blocks && c != b && InBlock(h.blocks[c], c, a)
    ensures ByteKept(x.h1.space, h'.space, a)
  {
    BlockAddresses(h, c, a);
    MoveKeeps(h, x, h', b, size, r);
    EvolvedByte(x.h1.space, x.h2.space, r, x.hi, a);
    assert BlockOk(h, b);
    FreedBytesKept(x.h2.space, h'.space, b, h.blocks[b].pages, a);
  }

  /** The bytes of every other block survive a realloc, whatever its outcome. */
  lemma OtherBytesSurvive(h: Heap, x: Moves, h': Heap, b: nat, size: nat, r: nat, c: nat, a: nat)
    requires HeapOk(h) && b in h.blocks && Fits(size) && ReallocStep(h, x, h', b, size, r)
    requires c in h.blocks && c != b && InBlock(h.blocks[c], c, a)
    ensures ByteKept(h.space, h'.space, a)
  {
    if size != 0 {
      MallocKeeps(h, x.st, x.h1, size, r);
      BlockBytesKept(h, x.h1.space, c, a);
      if r != 0 {
        MoveOthers(h, x, h', b, size, r, c, a);
      }
    }
  }
}

/** What holds over every sequence of malloc, realloc and free, with page faults and stores in between. */
module HeapRuns {
  import opened Words
  import opened WordBytes
  import opened PageTable
  import opened Spaces
  import opened VirtualSteps
  import opened Contents
  import opened MemoryAccess
  import opened HeapSteps
  import Outcomes

  /** Hang and Stall are calls that never return because no frame is left for a page the kernel touches. */
  datatype Call =
    | Malloc(size: nat, st: Steps, result: nat)
    | Hang(size: nat, st: Steps)
    | Free(block: nat, trace: seq<Space>, oks: seq<bool>)
    | Realloc(block: nat, size: nat, moves: Moves, result: nat)
    | Stall(block: nat, size: nat, moves: Moves, result: nat)
    | Fault(q: Path, access: Access, frame: nat)
    | Store(block: nat, address: nat, value: nat)

  /** A program writes a byte of the payload of one of its blocks. */
  ghost predicate StoreByteStep(h: Heap, h': Heap, b: nat, a: nat, v: nat) {
    && b in h.blocks && b * 4096 + 16 <= a < b * 4096 + 16 + h.blocks[b].size && v < 256 && Readable(h.space, a)
    && h' == h.(space := Poked(h.space, a, PutByte(WordAt(h.space, a), a % 8, v)))
  }

  /** A realloc whose copy runs out of frames: some of the new block is written. */
  ghost predicate StallStep(h: Heap, x: Moves, h': Heap, b: nat, size: nat, r: nat) {
    && b in h.blocks && size != 0 && r != 0 && MallocStep(h, x.st, x.h1, size, r)
    && h' == x.h1.(space := h'.space) && Separated(h'.space) && Ranged(h'.space) && Evolves(x.h1.space, h'.space, r, x.hi)
  }

  ghost predicate Step(h: Heap, c: Call, h': Heap) {
    match c
    case Malloc(size, st, r) => Fits(size) && MallocStep(h, st, h', size, r)
    case Hang(size, st) => Fits(size) && MallocHangs(h, st, h', size)
    case Free(b, trace, oks) => b in h.blocks && FreeBlockStep(h, h', b, trace, oks)
    case Realloc(b, size, x, r) => b in h.blocks && Fits(size) && ReallocStep(h, x, h', b, size, r)
    case Stall(b, size, x, r) => Fits(size) && StallStep(h, x, h', b, size, r)
    case Fault(q, a, frame) => LeafPath(q) && FaultStep(h.space, h'.space, q, a, frame) && h' == h.(space := h'.space)
    case Store(b, a, v) => StoreByteStep(h, h', b, a, v)
  }

  ghost predicate StepAt(states: seq<Heap>, calls: seq<Call>, i: nat) {
    i < |calls| && |states| == |calls| + 1 && Step(states[i], calls[i], states[i + 1])
  }

  ghost predicate Run(states: seq<Heap>, calls: seq<Call>) {
    && |states| == |calls| + 1
    && HeapOk(states[0])
    && forall i: nat | i < |calls| :: StepAt(states, calls, i)
  }

  // ---------------------------------------------------------------- single calls

  lemma HangKeeps(h: Heap, st: Steps, h': Heap, size: nat)
    requires HeapOk(h) && Fits(size) && MallocHangs(h, st, h', size)
    ensures HeapOk(h') && h.top <= h'.top && OldPagesKept(h, h'.space) && h'.blocks == h.blocks
  {
    MallocPlace(h, st, size, st.grant.first * 4096);
    PartlyReserved(h, h', st.grant.done, PagesFor(size));
  }

  lemma FaultKeeps(h: Heap, h': Heap, q: Path, a: Access, frame: nat)
    requires HeapOk(h) && LeafPath(q) && FaultStep(h.space, h'.space, q, a, frame) && h' == h.(space := h'.space)
    ensures HeapOk(h') && Evolves(h.space, h'.space, 0, 0)
  {
    FaultEvolves(h.space, h'.space, q, a, frame);
    EvolveKeeps(h, h'.space, 0, 0);
  }

  lemma StorePlace(h: Heap, b: nat, a: nat, hi: nat)
    requires HeapOk(h) && b in h.blocks && b * 4096 + 16 <= a < b * 4096 + 16 + h.blocks[b].size && hi == a + 1
    ensures HeapAddr(a) && ClearOfHeaders(h, a, hi)
  {
    assert BlockOk(h, b);
    BlockAddresses(h, b, a);
    forall c | c in h.blocks
      ensures hi <= c * 4096 || c * 4096 + 16 <= a
    {
      assert BlockOk(h, c);
    }
  }

  lemma StoreKeeps(h: Heap, h': Heap, b: nat, a: nat, v: nat, hi: nat)
    requires HeapOk(h) && StoreByteStep(h, h', b, a, v) && hi == a + 1
    ensures HeapOk(h') && Evolves(h.space, h'.space, a, hi) && HeapAddr(a)
  {
    StorePlace(h, b, a, hi);
    PokeByteEvolves(h.space, a, hi, v);
    EvolveKeeps(h, h'.space, a, hi);
  }

  lemma StallKeeps(h: Heap, x: Moves, h': Heap, b: nat, size: nat, r: nat)
    requires HeapOk(h) && Fits(size) && StallStep(h, x, h', b, size, r)
    ensures HeapOk(h') && h.top <= h'.top && HeapOk(x.h1) && OldPagesKept(h, x.h1.space)
    ensures MallocResult(h, x.h1, size, x.st.ok, r)
  {
    MallocKeeps(h, x.st, x.h1, size, r);
    CopyKeeps(h, x.h1, h', size, x.st.ok, r, x.hi);
  }

  lemma StepKeeps(h: Heap, c: Call, h': Heap)
    requires HeapOk(h) && Step(h, c, h')
    ensures HeapOk(h') && h.top <= h'.top
  {
    match c
    case Malloc(size, st, r) => MallocKeeps(h, st, h', size, r);
    case Hang(size, st) => HangKeeps(h, st, h', size);
    case Free(b, trace, oks) => FreeKeeps(h, h', b, trace, oks);
    case Realloc(b, size, x, r) => ReallocKeeps(h, x, h', b, size, r);
    case Stall(b, size, x, r) => StallKeeps(h, x, h', b, size, r);
    case Fault(q, a, frame) => FaultKeeps(h, h', q, a, frame);
    case Store(b, a, v) => StoreKeeps(h, h', b, a, v, a + 1);
  }

  /**
   The used heap pages always form a growing prefix of the region, live blocks are disjoint and
   large enough with their header, and the header in memory says so.
   */
  lemma {:induction false} HeapStaysOk(states: seq<Heap>, calls: seq<Call>, i: nat, j: nat)
    requires Run(states, calls) && i <= j < |states|
    ensures HeapOk(states[j]) && states[i].top <= states[j].top
    decreases j
  {
    if j > 0 {
      HeapStaysOk(states, calls, if i < j then i else j - 1, j - 1);
      assert StepAt(states, calls, j - 1);
      StepKeeps(states[j - 1], calls[j - 1], states[j]);
    }
  }

  /** Over every run the processor lets only the kernel into a live block, for data: never user programs, never execution. */
  lemma BlocksAreKernelData(states: seq<Heap>, calls: seq<Call>, i: nat, b: nat, n: nat)
    requires Run(states, calls) && i < |states| && b in states[i].blocks && b <= n < b + states[i].blocks[b].pages
    ensures var t := Translate(states[i].space.mem, states[i].space.root, PagePath(n));
            t.Page? ==> t.write && !t.user && !t.exec
  {
    HeapStaysOk(states, calls, i, i);
    assert BlockOk(states[i], b) && LivePage(LeafPage(states[i].space, n));
    HeapPage(n);
    AccessIsLeaf(states[i].space, PagePath(n));
  }

  // ---------------------------------------------------------------- guard pages

  lemma NotReserved()
    ensures !Reserved(UNMAPPED) && UNMAPPED != ZERO
  {
  }

  lemma UnmappedOld(h: Heap, s': Space, n: nat)
    requires HeapOk(h) && OldPagesKept(h, s') && FIRST <= n < PAGES && LeafPage(h.space, n) == UNMAPPED
    ensures LeafPage(s', n) == UNMAPPED
  {
    NotReserved();
    assert n < h.top;
    assert PageStays(h.space, s', n);
  }

  lemma UnmappedEvolves(s: Space, s': Space, lo: nat, hi: nat, n: nat)
    requires Evolves(s, s', lo, hi) && FIRST <= n < PAGES && LeafPage(s, n) == UNMAPPED
    ensures LeafPage(s', n) == UNMAPPED
  {
    NotReserved();
    LeafEvolves(s, s', lo, hi, n);
  }

  lemma MoveUnmapped(h: Heap, x: Moves, h': Heap, b: nat, size: nat, r: nat, n: nat)
    requires HeapOk(h) && HeapOk(x.h1) && MallocResult(h, x.h1, size, x.st.ok, r) && r != 0 && MoveStep(x, h', b, r)
    requires FIRST <= n < PAGES && LeafPage(x.h1.space, n) == UNMAPPED
    ensures LeafPage(h'.space, n) == UNMAPPED
  {
    MoveKeeps(h, x, h', b, size, r);
    UnmappedEvolves(x.h1.space, x.h2.space, r, x.hi, n);
    FreeLeaves(x.h2, h', b, x.trace, x.oks);
  }

  lemma ReallocUnmapped(h: Heap, x: Moves, h': Heap, b: nat, size: nat, r: nat, n: nat)
    requires HeapOk(h) && b in h.blocks && Fits(size) && ReallocStep(h, x, h', b, size, r)
    requires FIRST <= n < PAGES && LeafPage(h.space, n) == UNMAPPED
    ensures LeafPage(h'.space, n) == UNMAPPED
  {
    if size != 0 {
      MallocKeeps(h, x.st, x.h1, size, r);
      UnmappedOld(h, x.h1.space, n);
      if r != 0 {
        MoveUnmapped(h, x, h', b, size, r, n);
      }
    }
  }

  lemma MallocUnmapped(h: Heap, st: Steps, h': Heap, size: nat, r: nat, n: nat)
    requires HeapOk(h) && Fits(size) && MallocStep(h, st, h', size, r) && FIRST <= n < PAGES && LeafPage(h.space, n) == UNMAPPED
    ensures LeafPage(h'.space, n) == UNMAPPED
  {
    MallocKeeps(h, st, h', size, r);
    UnmappedOld(h, h'.space, n);
  }

  lemma HangUnmapped(h: Heap, st: Steps, h': Heap, size: nat, n: nat)
    requires HeapOk(h) && Fits(size) && MallocHangs(h, st, h', size) && FIRST <= n < PAGES && LeafPage(h.space, n) == UNMAPPED
    ensures LeafPage(h'.space, n) == UNMAPPED
  {
    HangKeeps(h, st, h', size);
    UnmappedOld(h, h'.space, n);
  }

  lemma StallUnmapped(h: Heap, x: Moves, h': Heap, b: nat, size: nat, r: nat, n: nat)
    requires HeapOk(h) && Fits(size) && StallStep(h, x, h', b, size, r) && FIRST <= n < PAGES && LeafPage(h.space, n) == UNMAPPED
    ensures LeafPage(h'.space, n) == UNMAPPED
  {
    StallKeeps(h, x, h', b, size, r);
    UnmappedOld(h, x.h1.space, n);
    UnmappedEvolves(x.h1.space, h'.space, r, x.hi, n);
  }

  lemma FaultUnmapped(h: Heap, h': Heap, q: Path, a: Access, frame: nat, n: nat)
    requires HeapOk(h) && LeafPath(q) && FaultStep(h.space, h'.space, q, a, frame) && h' == h.(space := h'.space)
    requires FIRST <= n < PAGES && LeafPage(h.space, n) == UNMAPPED
    ensures LeafPage(h'.space, n) == UNMAPPED
  {
    FaultKeeps(h, h', q, a, frame);
    UnmappedEvolves(h.space, h'.space, 0, 0, n);
  }

  lemma StoreUnmapped(h: Heap, h': Heap, b: nat, a: nat, v: nat, hi: nat, n: nat)
    requires HeapOk(h) && StoreByteStep(h, h', b, a, v) && hi == a + 1 && FIRST <= n < PAGES && LeafPage(h.space, n) == UNMAPPED
    ensures LeafPage(h'.space, n) == UNMAPPED
  {
    StoreKeeps(h, h', b, a, v, hi);
    UnmappedEvolves(h.space, h'.space, a, hi, n);
  }

  /** A guard or unmapped heap page stays that way. */
  lemma StepKeepsUnmapped(h: Heap, c: Call, h': Heap, n: nat)
    requires HeapOk(h) && Step(h, c, h') && FIRST <= n < PAGES && LeafPage(h.space, n) == UNMAPPED
    ensures LeafPage(h'.space, n) == UNMAPPED
  {
    match c
    case Malloc(size, st, r) => MallocUnmapped(h, st, h', size, r, n);
    case Hang(size, st) => HangUnmapped(h, st, h', size, n);
    case Free(b, trace, oks) => FreeLeaves(h, h', b, trace, oks);
    case Realloc(b, size, x, r) => ReallocUnmapped(h, x, h', b, size, r, n);
    case Stall(b, size, x, r) => StallUnmapped(h, x, h', b, size, r, n);
    case Fault(q, a, frame) => FaultUnmapped(h, h', q, a, frame, n);
    case Store(b, a, v) => StoreUnmapped(h, h', b, a, v, a + 1, n);
  }

  lemma {:induction false} UnmappedForever(states: seq<Heap>, calls: seq<Call>, i: nat, j: nat, n: nat)
    requires Run(states, calls) && i <= j < |states| && FIRST <= n < PAGES
    requires LeafPage(states[i].space, n) == UNMAPPED
    ensures LeafPage(states[j].space, n) == UNMAPPED
    decreases j - i
  {
    if i < j {
      HeapStaysOk(states, calls, i, i);
      assert StepAt(states, calls, i);
      StepKeepsUnmapped(states[i], calls[i], states[i + 1], n);
      UnmappedForever(states, calls, i + 1, j, n);
    }
  }

  lemma GuardLeaf(h: Heap, b: nat, n: nat)
    requires HeapOk(h) && b in h.blocks && h.blocks[b].guarded && n == b + h.blocks[b].pages
    ensures FIRST <= n < PAGES && LeafPage(h.space, n) == UNMAPPED
  {
    assert BlockOk(h, b);
  }

  lemma UnmappedOutside(h: Heap, c: nat, n: nat)
    requires HeapOk(h) && c in h.blocks && LeafPage(h.space, n) == UNMAPPED
    ensures !(c <= n < c + h.blocks[c].pages)
  {
    assert BlockOk(h, c);
  }

  /** The guard page of a block lies inside no block that is live then or at any later time. */
  lemma GuardNeverInside(states: seq<Heap>, calls: seq<Call>, i: nat, j: nat, b: nat, c: nat, n: nat)
    requires Run(states, calls) && i <= j < |states|
    requires b in states[i].blocks && states[i].blocks[b].guarded && n == b + states[i].blocks[b].pages && c in states[j].blocks
    ensures !(c <= n < c + states[j].blocks[c].pages)
  {
    HeapStaysOk(states, calls, i, i);
    GuardLeaf(states[i], b, n);
    UnmappedForever(states, calls, i, j, n);
    HeapStaysOk(states, calls, i, j);
    UnmappedOutside(states[j], c, n);
  }

  // ---------------------------------------------------------------- contents

  /** The call neither frees nor moves block `b`, and does not write at `a`. */
  predicate Spares(c: Call, b: nat, a: nat) {
    match c
    case Free(x, _, _) => x != b
    case Realloc(x, _, _, _) => x != b
    case Store(_, x, _) => x != a
    case _ => true
  }

  lemma StallSpares(h: Heap, x: Moves, h': Heap, b: nat, size: nat, r: nat, c: nat, a: nat)
    requires HeapOk(h) && Fits(size) && StallStep(h, x, h', b, size, r) && c in h.blocks && InBlock(h.blocks[c], c, a)
    ensures ByteKept(h.space, h'.space, a)
  {
    StallKeeps(h, x, h', b, size, r);
    BlockBytesKept(h, x.h1.space, c, a);
    BlockAddresses(h, c, a);
    EvolvedByte(x.h1.space, h'.space, r, x.hi, a);
  }

  lemma FreeSpares(h: Heap, h': Heap, b: nat, trace: seq<Space>, oks: seq<bool>, c: nat, a: nat)
    requires HeapOk(h) && b in h.blocks && FreeBlockStep(h, h', b, trace, oks)
    requires c in h.blocks && c != b && InBlock(h.blocks[c], c, a)
    ensures ByteKept(h.space, h'.space, a)
  {
    FreeKeeps(h, h', b, trace, oks);
    BlockAddresses(h, c, a);
    FreedBytesKept(h.space, h'.space, b, h.blocks[b].pages, a);
  }

  lemma StoreSpares(h: Heap, h': Heap, b: nat, x: nat, v: nat, hi: nat, c: nat, a: nat)
    requires hi == x + 1 && HeapOk(h) && StoreByteStep(h, h', b, x, v) && c in h.blocks && InBlock(h.blocks[c], c, a) && a != x
    ensures ByteKept(h.space, h'.space, a)
  {
    StoreKeeps(h, h', b, x, v, hi);
    BlockAddresses(h, c, a);
    EvolvedByte(h.space, h'.space, x, hi, a);
  }

  /** One call on other blocks leaves this block, and each of its bytes, as they are. */
  lemma StepSpares(h: Heap, call: Call, h': Heap, c: nat, a: nat)
    requires HeapOk(h) && Step(h, call, h') && c in h.blocks && InBlock(h.blocks[c], c, a) && Spares(call, c, a)
    ensures ByteKept(h.space, h'.space, a)
  {
    match call
    case Malloc(size, st, r) =>
      MallocKeeps(h, st, h', size, r);
      BlockBytesKept(h, h'.space, c, a);
    case Hang(size, st) =>
      HangKeeps(h, st, h', size);
      BlockBytesKept(h, h'.space, c, a);
    case Free(b, trace, oks) => FreeSpares(h, h', b, trace, oks, c, a);
    case Realloc(b, size, x, r) => OtherBytesSurvive(h, x, h', b, size, r, c, a);
    case Stall(b, size, x, r) => StallSpares(h, x, h', b, size, r, c, a);
    case Fault(q, access, frame) =>
      FaultKeeps(h, h', q, access, frame);
      BlockAddresses(h, c, a);
      EvolvedByte(h.space, h'.space, 0, 0, a);
    case Store(b, x, v) => StoreSpares(h, h', b, x, v, x + 1, c, a);
  }

  lemma BlockRemains(h: Heap, call: Call, h': Heap, c: nat, a: nat)
    requires HeapOk(h) && Step(h, call, h') && c in h.blocks && Spares(call, c, a)
    ensures c in h'.blocks && h'.blocks[c] == h.blocks[c]
  {
    match call
    case Malloc(size, st, r) => MallocKeeps(h, st, h', size, r);
    case Hang(size, st) => HangKeeps(h, st, h', size);
    case Free(b, trace, oks) =>
    case Realloc(b, size, x, r) => ReallocKeeps(h, x, h', b, size, r);
    case Stall(b, size, x, r) => StallKeeps(h, x, h', b, size, r);
    case Fault(q, access, frame) =>
    case Store(b, x, v) =>
  }

  /**
   Over every run: as long as a block is not freed or moved itself, it stays live, and a byte of it that could be
   read reads the same until it is overwritten, whatever happens to other blocks.
   */
  lemma {:induction false} ContentsSurvive(states: seq<Heap>, calls: seq<Call>, i: nat, j: nat, c: nat, a: nat)
    requires Run(states, calls) && i <= j < |states| && c in states[i].blocks && InBlock(states[i].blocks[c], c, a)
    requires forall k: nat | i <= k < j :: Spares(calls[k], c, a)
    ensures c in states[j].blocks && states[j].blocks[c] == states[i].blocks[c]
    ensures ByteKept(states[i].space, states[j].space, a)
    decreases j - i
  {
    if i < j {
      HeapStaysOk(states, calls, i, i);
      assert StepAt(states, calls, i) && Spares(calls[i], c, a);
      StepSpares(states[i], calls[i], states[i + 1], c, a);
      BlockRemains(states[i], calls[i], states[i + 1], c, a);
      ContentsSurvive(states, calls, i + 1, j, c, a);
    }
  }

  lemma StoreReads(h: Heap, h': Heap, b: nat, a: nat, v: nat)
    requires HeapOk(h) && StoreByteStep(h, h', b, a, v)
    ensures Readable(h'.space, a) && ByteAt(h'.space, a) == v
    ensures b in h'.blocks && InBlock(h'.blocks[b], b, a)
  {
    StorePlace(h, b, a, a + 1);
    PokeByteEvolves(h.space, a, a + 1, v);
    assert BlockOk(h, b);
  }

  /** A byte a program stores is what it reads at any later time, until it overwrites, frees or moves it. */
  lemma LastStoreIsRead(states: seq<Heap>, calls: seq<Call>, i: nat, j: nat, b: nat, a: nat, v: nat)
    requires Run(states, calls) && i < j < |states| && calls[i] == Store(b, a, v)
    requires forall k: nat | i < k < j :: Spares(calls[k], b, a)
    ensures Readable(states[j].space, a) && ByteAt(states[j].space, a) == v
  {
    HeapStaysOk(states, calls, i, i);
    assert StepAt(states, calls, i);
    StoreReads(states[i], states[i + 1], b, a, v);
    ContentsSurvive(states, calls, i + 1, j, b, a);
  }

  /** A run can start: the heap of a space with nothing but its root. */
  lemma EmptyHeapOk(spare: nat)
    ensures HeapOk(Heap(Outcomes.EmptySpace(spare), FIRST, map[]))
  {
    Outcomes.EmptySpaceOk(spare);
    forall n: nat | FIRST <= n < PAGES
      ensures LeafPage(Outcomes.EmptySpace(spare), n) == ZERO
    {
      HeapPage(n);
    }
  }
}

/** malloc, free and realloc on the machine (src/libc/stdlib.c). */
module KernelHeap {
  import opened Words
  import opened Bits64
  import opened PageTable
  import opened Addresses
  import opened Spaces
  import opened Paging
  import opened VirtualSteps
  import Virtual
  import VirtualRuns
  import opened Contents
  import opened MemoryAccess
  import opened HeapSteps
  import HeapRuns

  /** What the first store to a page that is not there does. */
  lemma TouchResult(s: Space, s': Space, first: nat, a: nat, frame: nat)
    requires Separated(s) && Ranged(s) && FIRST <= first < PAGES && a == first * 4096 && !LeafPage(s, first).p
    requires LeafPath(PagePath(first)) && FaultStep(s, s', PagePath(first), STORE, frame)
    ensures Separated(s') && Ranged(s')
    ensures if frame != 0 then TouchStep(s, s', first, frame) && Readable(s', a) else s' == s && TouchHangs(s, first)
  {
    InPage(first, 0);
    FaultEvolves(s, s', PagePath(first), STORE, frame);
    FaultSeparates(s, s', PagePath(first), STORE, frame);
    if frame != 0 {
      PresentReadable(s', a);
    }
  }

  /** The store to a page that is there. */
  lemma PageThere(s: Space, first: nat, a: nat)
    requires Separated(s) && FIRST <= first < PAGES && a == first * 4096 && LeafPath(PagePath(first)) && LeafPage(s, first).p
    ensures if LeafPage(s, first).rw then TouchStep(s, s, first, 0) && Readable(s, a) else TouchHangs(s, first)
  {
    InPage(first, 0);
    PresentReadable(s, a);
  }

  lemma BlockAddress(first: nat, a: nat)
    requires FIRST <= first < PAGES && a == first * 4096
    ensures 4096 <= a < 0x1_0000_0000_0000_0000 && Indices(a) == PagePath(first) && LeafPath(PagePath(first))
  {
    InPage(first, 0);
    HeapAddress(a);
  }

  /** The first store to a block. A page that is there already is written without a fault. */
  method FirstTouch(m: Machine, first: nat, a: nat) returns (ok: bool, ghost frame: nat)
    requires Ready(m) && FIRST <= first < PAGES && a == first * 4096
    modifies m`mem, m`tables, m.pmm, m.pmm.bitmap
    ensures Ready(m)
    ensures if ok then TouchStep(old(m.View()), m.View(), first, frame) && Readable(m.View(), a)
            else m.View() == old(m.View()) && TouchHangs(m.View(), first)
  {
    ghost var s := m.View();
    BlockAddress(first, a);
    var flags, phys := m.GetPage(a);
    if flags.present {
      PageThere(s, first, a);
      return flags.write, 0;
    }
    var r;
    r, frame := Virtual.PageFault(m, a, STORE);
    TouchResult(s, m.View(), first, a, frame);
    ok := r == 0;
  }

  /** A word of the header. */
  method PutWord(m: Machine, a: nat, v: nat)
    requires Ready(m) && HeapAddr(a) && a % 8 == 0 && v < 0x1_0000_0000_0000_0000 && Readable(m.View(), a)
    modifies m`mem
    ensures Ready(m) && StoreStep(old(m.View()), m.View(), a, v)
  {
    ValueParse(v);
    StoreWord(m, a, Parse(v), a + 8);
  }

  /** Both words. */
  method PutHeader(m: Machine, first: nat, lo: nat, mid: nat, size: nat, pages: nat) returns (ghost sized: Space)
    requires Ready(m) && FIRST <= first < PAGES && lo == first * 4096 && mid == lo + 8 && Readable(m.View(), lo)
    requires size < 0x1_0000_0000_0000_0000 && pages < 0x1_0000_0000_0000_0000
    modifies m`mem
    ensures Ready(m) && StoreStep(old(m.View()), sized, lo, size) && StoreStep(sized, m.View(), mid, pages)
  {
    ghost var s := m.View();
    InPage(first, 0);
    InPage(first, 8);
    Aligned(first);
    PutWord(m, lo, size);
    sized := m.View();
    StillThere(s, sized, first, size);
    PutWord(m, mid, pages);
  }

  /** The header is written; the first store brings the page in. */
  method Stamp(m: Machine, first: nat, size: nat, pages: nat, ghost st: Steps) returns (ok: bool, ghost st': Steps)
    requires Ready(m) && FIRST <= first < PAGES && st.mid == m.View()
    requires size < 0x1_0000_0000_0000_0000 && pages < 0x1_0000_0000_0000_0000
    modifies m`mem, m`tables, m.pmm, m.pmm.bitmap
    ensures Ready(m) && st'.mid == st.mid && st'.grant == st.grant && st'.end == st.end
    ensures if ok then StampStep(st.mid, st', first, size, pages) && st'.stamped == m.View()
            else m.View() == st.mid && TouchHangs(st.mid, first)
  {
    st' := st;
    var lo := first * 4096;
    var mid := lo + 8;
    ghost var frame;
    ok, frame := FirstTouch(m, first, lo);
    if !ok {
      return;
    }
    ghost var touched := m.View();
    ghost var sized := PutHeader(m, first, lo, mid, size, pages);
    st' := StampBuilt(st, touched, sized, m.View(), first, lo, mid, size, pages, frame);
  }

  lemma StampBuilt(st: Steps, touched: Space, sized: Space, stamped: Space, b: nat, lo: nat, mid: nat, size: nat, pages: nat,
                   frame: nat) returns (st': Steps)
    requires TouchStep(st.mid, touched, b, frame)
    requires lo == b * 4096 && mid == lo + 8 && StoreStep(touched, sized, lo, size) && StoreStep(sized, stamped, mid, pages)
    ensures st' == st.(touched := touched, sized := sized, stamped := stamped, frame := frame)
    ensures StampStep(st.mid, st', b, size, pages)
  {
    st' := st.(touched := touched, sized := sized, stamped := stamped, frame := frame);
  }

  lemma GrantBuilt(h: Heap, st: Steps, h': Heap, first: nat, end: nat, size: nat, count: nat, ok: bool) returns (st': Steps)
    requires st.end == end == first + count && StampStep(st.mid, st, first, size, count)
    requires LeafPath(PagePath(end)) && MapStep(st.stamped, h'.space, PagePath(end), UNMAPPED, ok)
    requires h' == WithBlock(h, h'.space, first, end, size, count, ok)
    ensures st' == st.(ok := ok) && GrantedStep(h, st', h', first, size, count)
  {
    st' := st.(ok := ok);
  }

  lemma StillThere(s: Space, s': Space, b: nat, v: nat)
    requires Separated(s) && Ranged(s) && FIRST <= b < PAGES && v < 0x1_0000_0000_0000_0000 && StoreStep(s, s', b * 4096, v)
    ensures Readable(s', b * 4096 + 8)
  {
    InPage(b, 0);
    Aligned(b);
    StoreEvolves(s, s', b * 4096, b * 4096 + 8, v);
    HeaderReads(s', b);
  }

  class Allocator {
    const m: Machine
    ghost var top: nat
    ghost var blocks: map<nat, Block>

    constructor (m: Machine, ghost top: nat)
      requires m.Valid() && HeapOk(Heap(m.View(), top, map[]))
      ensures this.m == m && Valid() && View() == Heap(m.View(), top, map[])
    {
      this.m, this.top, this.blocks := m, top, map[];
    }

    ghost function View(): Heap
      reads this, m, m.pmm
    {
      Heap(m.View(), top, blocks)
    }

    ghost predicate Valid()
      reads this, m, m.pmm, m.pmm.bitmap
    {
      m.Valid() && HeapOk(View())
    }

    /** The guard page: mapped to nothing; a failure to map it goes unnoticed. */
    method Guard(page: nat) returns (ghost ok: bool)
      requires m.Valid() && FIRST <= page <= PAGES
      modifies m`mem, m`tables, m.pmm, m.pmm.bitmap
      ensures m.Valid() && LeafPath(PagePath(page))
      ensures MapStep(old(m.View()), m.View(), PagePath(page), UNMAPPED, ok)
    {
      GuardPath(page);
      var addr := page * 4096 % 0x1_0000_0000_0000_0000;
      WrappedAddress(page, addr);
      assert LeafWord(Align(0), NO_FLAGS) == UNMAPPED;
      var r, done := m.MapPage(addr, 0, NO_FLAGS);
      ok := done;
    }

    /** vmmAllocate over the heap region with write permission. */
    method Reserve(pages: nat) returns (base: nat, ghost g: Grant)
      requires m.Valid()
      modifies m`mem, m`tables, m.pmm, m.pmm.bitmap
      ensures m.Valid()
      ensures AllocateStep(old(m.View()), m.View(), FIRST, LAST, pages, LazyWord(HEAP_FLAGS), g, base)
    {
      VirtualRuns.HeapSearch(pages);
      ghost var w;
      base, g, w := Virtual.Allocate(m, 0xFFFF_8F00_0000_0000, 0xFFFF_8FFF_FFFF_FFFF, pages,
                                     Request(false, false, true, false), 0xFFFF);
      assert w == LazyWord(HEAP_FLAGS);
    }

    /** Guard page and bookkeeping of a run whose header is written. */
    method Complete(first: nat, end: nat, size: nat, count: nat, ghost h: Heap) returns (ghost ok: bool)
      requires m.Valid() && FIRST <= end <= PAGES && h == Heap(h.space, top, blocks)
      modifies this`top, this`blocks, m`mem, m`tables, m.pmm, m.pmm.bitmap
      ensures m.Valid() && LeafPath(PagePath(end)) && MapStep(old(m.View()), m.View(), PagePath(end), UNMAPPED, ok)
      ensures View() == WithBlock(h, m.View(), first, end, size, count, ok)
    {
      ok := Guard(end);
      top := Max(top, if ok then end + 1 else end);
      blocks := blocks[first := Block(count, size, ok)];
    }

    /** The block that a granted run becomes: header, guard page, bookkeeping. */
    method Granted(first: nat, end: nat, size: nat, count: nat, ghost h: Heap, ghost st: Steps)
      returns (hung: bool, ghost st': Steps)
      requires Ready(m) && FIRST <= first < PAGES && end == first + count <= PAGES && st.mid == m.View() && st.end == end
      requires h == Heap(h.space, top, blocks) && size < 0x1_0000_0000_0000_0000
      modifies this`top, this`blocks, m`mem, m`tables, m.pmm, m.pmm.bitmap
      ensures m.Valid() && st'.mid == st.mid && st'.grant == st.grant
      ensures !hung ==> GrantedStep(h, st', View(), first, size, count)
      ensures hung ==> View() == Heap(st.mid, Max(h.top, end), h.blocks) && TouchHangs(st.mid, first)
    {
      var ok;
      ok, st' := Stamp(m, first, size, count, st);
      if !ok {
        top := Max(top, end);
        return true, st';
      }
      ghost var guarded := Complete(first, end, size, count, h);
      st' := GrantBuilt(h, st', View(), first, end, size, count, guarded);
      return false, st';
    }

    /** What malloc does with a run that vmmAllocate granted. */
    method Allocated(base: nat, size: nat, count: nat, ghost h: Heap, ghost st: Steps) returns (r: nat, hung: bool, ghost st': Steps)
      requires m.Valid() && HeapOk(h) && 0 < size < 0x1_0000_0000_0000_0000 && count == PagesFor(size) && base != 0
      requires st.mid == m.View() && h == Heap(h.space, top, blocks)
      requires AllocateStep(h.space, st.mid, FIRST, LAST, count, LazyWord(HEAP_FLAGS), st.grant, base)
      modifies this`top, this`blocks, m`mem, m`tables, m.pmm, m.pmm.bitmap
      ensures m.Valid()
      ensures if hung then MallocHangs(h, st', View(), size) else MallocStep(h, st', View(), size, r)
    {
      RunReady(h, st, count, base);
      var first := base / 4096;
      hung, st' := Granted(first, first + count, size, count, h, st.(end := first + count));
      r := if hung then 0 else base + 16;
      if hung {
        HangBuilt(h, st', View(), first, base, size, count);
      } else {
        MallocBuilt(h, st', View(), first, base, size, count);
      }
    }

    /** What malloc does when vmmAllocate granted nothing, or only part of a run. */
    ghost method Declined(size: nat, count: nat, h: Heap, st: Steps)
      requires m.Valid() && size != 0 && count == PagesFor(size)
      requires st.mid == m.View() && h == Heap(h.space, top, blocks)
      requires AllocateStep(h.space, st.mid, FIRST, LAST, count, LazyWord(HEAP_FLAGS), st.grant, 0)
      modifies this`top
      ensures m.Valid() && MallocStep(h, st, View(), size, 0)
    {
      Refused(h, st, size, count);
      top := if st.grant.Run? then Max(top, st.grant.first + st.grant.done) else top;
    }

    method Nonzero(size: nat, count: nat, ghost h: Heap) returns (r: nat, hung: bool, ghost st: Steps)
      requires Valid() && View() == h && 0 < size < 0x1_0000_0000_0000_0000 && count == PagesFor(size)
      modifies this`top, this`blocks, m`mem, m`tables, m.pmm, m.pmm.bitmap
      ensures m.Valid()
      ensures if hung then MallocHangs(h, st, View(), size) else MallocStep(h, st, View(), size, r)
    {
      var base;
      ghost var g;
      base, g := Reserve(count);
      ghost var s := m.View();
      st := Steps(s, s, s, s, g, 0, 0, false);
      if base == 0 {
        Declined(size, count, h, st);
        return 0, false, st;
      }
      r, hung, st := Allocated(base, size, count, h, st);
    }

    /**
     malloc, for every size. `hung` says that the call never returns: the run is reserved, but the page fault
     of the header is refused, and the kernel has no handler for that. `MallocKeepsIff` says for which sizes
     the heap survives.
     */
    method Malloc(size: nat) returns (r: nat, hung: bool, ghost st: Steps)
      requires Valid() && size < 0x1_0000_0000_0000_0000
      modifies this`top, this`blocks, m`mem, m`tables, m.pmm, m.pmm.bitmap
      ensures m.Valid() && (Fits(size) ==> Valid())
      ensures if hung then MallocHangs(old(View()), st, View(), size)
              else MallocStep(old(View()), st, View(), size, r)
    {
      ghost var h := View();
      if size == 0 {
        ghost var s := m.View();
        return 0, false, Steps(s, s, s, s, NoRun, 0, 0, false);
      }
      r, hung, st := Nonzero(size, PagesFor(size), h);
      if Fits(size) {
        CallKeeps(h, st, View(), size, r, hung);
      }
    }

    /** The two words of a block's header, read back from memory. */
    method ReadHeader(b: nat, ghost h: Heap) returns (size: nat, pages: nat)
      requires Ready(m) && HeapOk(h) && h.space == m.View() && b in h.blocks
      ensures size == h.blocks[b].size && pages == h.blocks[b].pages
    {
      assert BlockOk(h, b);
      InPage(b, 0);
      InPage(b, 8);
      HeaderReads(h.space, b);
      var w := LoadWord(m, b * 4096);
      var v := LoadWord(m, b * 4096 + 8);
      size, pages := Value(w), Value(v);
    }

    /** vmmFree on the pages of a block; the states in between are the trace. */
    method Release(b: nat, ghost h: Heap) returns (ghost trace: seq<Space>, ghost oks: seq<bool>)
      requires Ready(m) && HeapOk(h) && h.space == m.View() && b in h.blocks
      modifies m`mem, m`tables, m.pmm, m.pmm.bitmap
      ensures m.Valid() && |oks| == h.blocks[b].pages && FreeTrace(trace, b, oks)
      ensures trace[0] == h.space && trace[|oks|] == m.View()
    {
      assert BlockOk(h, b);
      HeapWindow(b, b + h.blocks[b].pages);
      var size, pages := ReadHeader(b, h);
      assert b * 4096 / 4096 == b;
      var status;
      status, trace, oks := Virtual.Free(m, b * 4096, pages, 0xFFFF);
    }

    method FreeBlock(b: nat, ghost h: Heap) returns (ghost trace: seq<Space>, ghost oks: seq<bool>)
      requires Valid() && View() == h && b in h.blocks
      modifies this`blocks, m`mem, m`tables, m.pmm, m.pmm.bitmap
      ensures Valid() && FreeBlockStep(h, View(), b, trace, oks)
    {
      trace, oks := Release(b, h);
      blocks := blocks - {b};
      FreeKeeps(h, View(), b, trace, oks);
    }

    /** free: the number of pages comes from the header in memory. */
    method Free(ptr: nat) returns (ghost trace: seq<Space>, ghost oks: seq<bool>)
      requires Valid() && (ptr != 0 ==> ptr / 4096 in blocks)
      modifies this`blocks, m`mem, m`tables, m.pmm, m.pmm.bitmap
      ensures Valid()
      ensures if ptr == 0 then View() == old(View()) else FreeBlockStep(old(View()), View(), ptr / 4096, trace, oks)
    {
      trace, oks := [], [];
      if ptr == 0 {
        return;
      }
      trace, oks := FreeBlock(ptr / 4096, View());
    }

    /** The copy of a realloc. `hung` says that it ran out of frames and never ends. */
    method Copy(b: nat, r: nat, n: nat, ghost h: Heap, ghost h1: Heap, ghost size: nat, ghost ok: bool, ghost src: nat, ghost hi: nat)
      returns (hung: bool)
      requires Valid() && View() == h1 && HeapOk(h) && b in h.blocks && MallocResult(h, h1, size, ok, r) && r != 0
      requires n == Min(h.blocks[b].size, size) && src == b * 4096 + 16 && hi == r + n
      modifies m`mem, m`tables, m.pmm, m.pmm.bitmap
      ensures Valid() && Separated(m.View()) && Ranged(m.View()) && Evolves(h1.space, m.View(), r, hi)
      ensures !hung ==> Matched(m.View(), src, r, n)
    {
      CopyPlaces(h, h1, b, src, n, size, ok, r);
      var done := Memcpy(m, r, b * 4096 + 16, n, hi);
      CopyKeeps(h, h1, View(), size, ok, r, hi);
      hung := !done;
    }

    /** The copy and the free of a realloc whose new block is in place. */
    method Move(b: nat, r: nat, n: nat, ghost h: Heap, ghost size: nat, ghost st: Steps) returns (hung: bool, ghost x: Moves)
      requires Valid() && HeapOk(h) && b in h.blocks && MallocResult(h, View(), size, st.ok, r) && r != 0
      requires n == Min(h.blocks[b].size, size)
      modifies this`blocks, m`mem, m`tables, m.pmm, m.pmm.bitmap
      ensures Valid() && x.st == st && x.h1 == old(View()) && x.n == n
      ensures !hung ==> MoveStep(x, View(), b, r)
      ensures hung ==> && View() == x.h1.(space := View().space) && Separated(View().space) && Ranged(View().space)
                       && Evolves(x.h1.space, View().space, r, x.hi)
    {
      ghost var h1, src, hi := View(), b * 4096 + 16, r + n;
      hung := Copy(b, r, n, h, h1, size, st.ok, src, hi);
      ghost var h2 := View();
      x := Moves(st, h1, h2, src, n, hi, [], []);
      if hung {
        return;
      }
      ghost var trace, oks := FreeBlock(b, h2);
      x := x.(trace := trace, oks := oks);
    }

    /** The old size is read from the header in memory; the smaller one is copied. */
    method Transfer(b: nat, r: nat, newSize: nat, ghost h: Heap, ghost st: Steps) returns (hung: bool, ghost x: Moves)
      requires Valid() && HeapOk(h) && b in h.blocks && MallocResult(h, View(), newSize, st.ok, r) && r != 0
      modifies this`blocks, m`mem, m`tables, m.pmm, m.pmm.bitmap
      ensures Valid() && x.st == st && x.h1 == old(View()) && x.n == Min(h.blocks[b].size, newSize)
      ensures !hung ==> MoveStep(x, View(), b, r)
      ensures hung ==> && View() == x.h1.(space := View().space) && Separated(View().space) && Ranged(View().space)
                       && Evolves(x.h1.space, View().space, r, x.hi)
    {
      TwoBlocks(h, View(), b, newSize, st.ok, r);
      var oldSize, pages := ReadHeader(b, View());
      hung, x := Move(b, r, if oldSize > newSize then newSize else oldSize, h, newSize, st);
    }

    /** realloc of a live block to a non-zero size. */
    method Resize(b: nat, newSize: nat, ghost h: Heap) returns (r: nat, hung: bool, ghost c: HeapRuns.Call)
      requires Valid() && View() == h && Fits(newSize) && newSize != 0 && b in h.blocks
      modifies this`top, this`blocks, m`mem, m`tables, m.pmm, m.pmm.bitmap
      ensures Valid() && HeapRuns.Step(h, c, View())
      ensures if hung then c.Hang? || c.Stall? else c.Realloc? && c.block == b && c.size == newSize && c.result == r
    {
      ghost var st;
      r, hung, st := Malloc(newSize);
      if hung {
        return 0, true, HeapRuns.Hang(newSize, st);
      }
      ghost var h1 := View();
      if r == 0 {
        c := Unmoved(h, st, h1, b, newSize);
        return;
      }
      MallocKeeps(h, st, h1, newSize, r);
      ghost var x;
      hung, x := Transfer(b, r, newSize, h, st);
      c := Moved(h, x, View(), b, newSize, r, hung);
    }

    /** realloc; `c` is the call as it went, including one that never returns. */
    method Realloc(ptr: nat, newSize: nat) returns (r: nat, hung: bool, ghost c: HeapRuns.Call)
      requires Valid() && Fits(newSize) && (ptr != 0 ==> ptr % 4096 == 16 && ptr / 4096 in blocks)
      modifies this`top, this`blocks, m`mem, m`tables, m.pmm, m.pmm.bitmap
      ensures Valid()
      ensures newSize == 0 ==> r == 0 && !hung && View() == old(View())
      ensures newSize != 0 ==> HeapRuns.Step(old(View()), c, View())
      ensures newSize != 0 && !hung ==>
                if ptr == 0 then c.Malloc? && c.size == newSize && c.result == r
                else c.Realloc? && c.block == ptr / 4096 && c.size == newSize && c.result == r
    {
      ghost var h := View();
      if newSize == 0 {
        return 0, false, HeapRuns.Store(0, 0, 0);
      }
      if ptr == 0 {
        ghost var st;
        r, hung, st := Malloc(newSize);
        c := if hung then HeapRuns.Hang(newSize, st) else HeapRuns.Malloc(newSize, st, r);
        return;
      }
      r, hung, c := Resize(ptr / 4096, newSize, h);
    }
  }

  /** A realloc that got no new block. */
  lemma Unmoved(h: Heap, st: Steps, h1: Heap, b: nat, size: nat) returns (c: HeapRuns.Call)
    requires b in h.blocks && size != 0 && Fits(size) && MallocStep(h, st, h1, size, 0)
    ensures c.Realloc? && c.block == b && c.size == size && c.result == 0 && HeapRuns.Step(h, c, h1)
  {
    c := HeapRuns.Realloc(b, size, Moves(st, h1, h1, 0, 0, 0, [], []), 0);
  }

  lemma Moved(h: Heap, x: Moves, h': Heap, b: nat, size: nat, r: nat, hung: bool) returns (c: HeapRuns.Call)
    requires b in h.blocks && size != 0 && r != 0 && Fits(size) && MallocStep(h, x.st, x.h1, size, r)
    requires x.n == Min(h.blocks[b].size, size)
    requires !hung ==> MoveStep(x, h', b, r)
    requires hung ==> h' == x.h1.(space := h'.space) && Separated(h'.space) && Ranged(h'.space) && Evolves(x.h1.space, h'.space, r, x.hi)
    ensures HeapRuns.Step(h, c, h')
    ensures if hung then c.Stall? else c.Realloc? && c.block == b && c.size == size && c.result == r
  {
    c := if hung then HeapRuns.Stall(b, size, x, r) else HeapRuns.Realloc(b, size, x, r);
  }

  lemma UsableBlock(h: Heap, b: nat, a: nat, n: nat)
    requires HeapOk(h) && b in h.blocks && b * 4096 <= a && a + n <= (b + h.blocks[b].pages) * 4096
    ensures UsableRange(h.space, a, n)
  {
    assert BlockOk(h, b);
    forall x: nat | a <= x < a + n
      ensures Usable(h.space, x)
    {
      BlockAddresses(h, b, x);
    }
  }

  lemma PayloadAligned(b: nat)
    ensures (b * 4096 + 16) % 8 == 0
  {
    assert b * 4096 + 16 == 8 * (b * 512 + 2);
  }

  /** The sizes and places of the two blocks of a realloc. */
  lemma TwoBlocks(h: Heap, h1: Heap, b: nat, size: nat, ok: bool, r: nat)
    requires HeapOk(h) && b in h.blocks && HeapOk(h1) && MallocResult(h, h1, size, ok, r) && r != 0
    ensures b in h1.blocks && h1.blocks[b] == h.blocks[b] && h.top in h1.blocks && h1.blocks[h.top].size == size
    ensures FIRST <= b && b + h.blocks[b].pages <= h.top && h.top + h1.blocks[h.top].pages <= PAGES
    ensures h.blocks[b].size + 16 <= h.blocks[b].pages * 4096 && size + 16 <= h1.blocks[h.top].pages * 4096
  {
    assert BlockOk(h, b) && BlockOk(h1, h.top);
  }

  /** Old and new payload are in place for the copy. */
  lemma CopyPlaces(h: Heap, h1: Heap, b: nat, src: nat, n: nat, size: nat, ok: bool, r: nat)
    requires HeapOk(h) && b in h.blocks && HeapOk(h1) && MallocResult(h, h1, size, ok, r) && r != 0
    requires src == b * 4096 + 16 && n == Min(h.blocks[b].size, size)
    ensures CopyRoom(src, r, n) && src % 8 == 0 && r % 8 == 0
    ensures UsableRange(h1.space, src, n) && UsableRange(h1.space, r, n)
  {
    TwoBlocks(h, h1, b, size, ok, r);
    PayloadAligned(b);
    PayloadAligned(h.top);
    UsableBlock(h1, b, src, n);
    UsableBlock(h1, h.top, r, n);
  }

  lemma MallocBuilt(h: Heap, st: Steps, h': Heap, first: nat, base: nat, size: nat, count: nat)
    requires size != 0 && count == PagesFor(size) && base == first * 4096 && base != 0
    requires st.grant == Run(first, count) && first + count <= PAGES
    requires AllocateStep(h.space, st.mid, FIRST, LAST, count, LazyWord(HEAP_FLAGS), st.grant, base)
    requires GrantedStep(h, st, h', first, size, count)
    ensures MallocStep(h, st, h', size, base + 16)
  {
    assert Base(st.grant, count) == base;
  }

  lemma HangBuilt(h: Heap, st: Steps, h': Heap, first: nat, base: nat, size: nat, count: nat)
    requires size != 0 && count == PagesFor(size) && base == first * 4096 && base != 0
    requires st.grant == Run(first, count) && first + count <= PAGES
    requires h' == Heap(st.mid, Max(h.top, first + count), h.blocks) && TouchHangs(st.mid, first)
    requires AllocateStep(h.space, st.mid, FIRST, LAST, count, LazyWord(HEAP_FLAGS), st.grant, base)
    ensures MallocHangs(h, st, h', size)
  {
    assert Base(st.grant, count) == base;
  }

  /** A search that reports zero did not reserve the whole run. */
  lemma Refused(h: Heap, st: Steps, size: nat, count: nat)
    requires size != 0 && count == PagesFor(size)
    requires AllocateStep(h.space, st.mid, FIRST, LAST, count, LazyWord(HEAP_FLAGS), st.grant, 0)
    ensures var h' := Heap(st.mid, if st.grant.Run? then Max(h.top, st.grant.first + st.grant.done) else h.top, h.blocks);
            MallocStep(h, st, h', size, 0)
  {
    assert Base(st.grant, count) == 0;
  }

  lemma CallKeeps(h: Heap, st: Steps, h': Heap, size: nat, r: nat, hung: bool)
    requires HeapOk(h) && Fits(size)
    requires if hung then MallocHangs(h, st, h', size) else MallocStep(h, st, h', size, r)
    ensures HeapOk(h')
  {
    if hung {
      HeapRuns.HangKeeps(h, st, h', size);
    } else {
      MallocKeeps(h, st, h', size, r);
    }
  }

  /** A complete run, and the space it leaves, whatever its pages were before. */
  lemma RunReady(h: Heap, st: Steps, count: nat, base: nat)
    requires HeapOk(h) && base != 0
    requires AllocateStep(h.space, st.mid, FIRST, LAST, count, LazyWord(HEAP_FLAGS), st.grant, base)
    ensures var first := base / 4096;
            && st.grant == Run(first, count) && base == first * 4096 && FIRST <= first < PAGES && first + count <= PAGES
            && Separated(st.mid) && Ranged(st.mid)
  {
    ReserveOverwrites(h.space, st.mid, st.grant.first, count, LazyWord(HEAP_FLAGS));
    GrowRanged(h.space, st.mid);
  }

  /** The guard page of a run that ends with the address space is page zero. */
  lemma GuardPath(page: nat)
    requires FIRST <= page <= PAGES
    ensures LeafPath(PagePath(page))
  {
    if page == PAGES {
      PageZeroAgain();
    } else {
      HeapPage(page);
    }
  }
}
