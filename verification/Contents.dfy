/** What programs see: the words and bytes of the heap region, read through the page tables. */
module Contents {
  import opened Words
  import opened Bits64
  import opened WordBytes
  import opened Frames
  import opened PageTable
  import opened Addresses
  import opened Spaces
  import opened VirtualSteps

  predicate HeapAddr(a: nat) {
    FIRST <= a / 4096 < PAGES
  }

  ghost predicate HeapPath(u: Path) {
    exists n: nat :: FIRST <= n < PAGES && PagePath(n) == u
  }

  /** The page of an address is present. */
  ghost predicate Readable(s: Space, a: nat) {
    var w := LeafPage(s, a / 4096);
    w.p && w.frame < |s.mem| && |s.mem[w.frame]| == 512
  }

  ghost function WordAt(s: Space, a: nat): Word
    requires Readable(s, a)
  {
    s.mem[LeafPage(s, a / 4096).frame][a % 4096 / 8]
  }

  ghost function ByteAt(s: Space, a: nat): nat
    requires Readable(s, a)
  {
    ByteOf(WordAt(s, a), a % 8)
  }

  /** Memory outside the page tables holds 64-bit words. */
  ghost predicate Ranged(s: Space) {
    forall f, i {:trigger s.mem[f][i]} | 0 <= f < |s.mem| && f !in s.tables.Values && 0 <= i < |s.mem[f]| :: InRange(s.mem[f][i])
  }

  lemma PresentReadable(s: Space, a: nat)
    requires Separated(s) && LeafPage(s, a / 4096).p
    ensures Readable(s, a) && LeafPage(s, a / 4096).frame !in s.tables.Values
  {
    assert DataFrame(s, PagePath(a / 4096));
  }

  lemma WordRanged(s: Space, a: nat)
    requires Separated(s) && Ranged(s) && Readable(s, a)
    ensures InRange(WordAt(s, a))
  {
    PresentReadable(s, a);
  }

  /** New tables take formerly free frames; the data frames keep their words. */
  lemma GrowRanged(s: Space, s': Space)
    requires Ranged(s) && Extends(s, s')
    ensures Ranged(s')
  {
    ValuesGrow(s.tables, s'.tables);
  }

  // ---------------------------------------------------------------- stores

  ghost function Poked(s: Space, a: nat, w: Word): Space
    requires Readable(s, a)
  {
    s.(mem := Write(s.mem, LeafPage(s, a / 4096).frame, a % 4096 / 8, w))
  }

  /** A store into a data frame leaves all tables and leaves alone. */
  lemma PokeKeepsTree(s: Space, a: nat, w: Word)
    requires Separated(s) && Readable(s, a)
    ensures SpaceOk(Poked(s, a, w)) && SameLeaves(s, Poked(s, a, w))
  {
    var s' := Poked(s, a, w);
    PresentReadable(s, a);
    var g := LeafPage(s, a / 4096).frame;
    forall p | p in s.tables
      ensures TableAt(s'.mem, s'.tables, p) && s'.mem[s.tables[p]] == s.mem[s.tables[p]] && Named(s'.tables, p)
    {
      assert TableAt(s.mem, s.tables, p) && Named(s.tables, p);
      assert s.tables[p] in s.tables.Values;
    }
    forall p, i | p in s.tables && |p| < 3 && IndexOk(p, i)
      ensures EntryOk(s'.mem, s'.tables, p, i)
    {
      assert EntryOk(s.mem, s.tables, p, i);
    }
    forall q | LeafPath(q)
      ensures LeafOf(s', q) == LeafOf(s, q)
    {
      if q[..3] in s.tables {
        assert TableAt(s.mem, s.tables, q[..3]) && TableAt(s'.mem, s'.tables, q[..3]);
      }
    }
  }

  lemma PokeSeparates(s: Space, a: nat, w: Word)
    requires Separated(s) && Readable(s, a)
    ensures Separated(Poked(s, a, w))
  {
    var s' := Poked(s, a, w);
    PokeKeepsTree(s, a, w);
    forall q | LeafPath(q)
      ensures DataFrame(s', q)
    {
      assert DataFrame(s, q) && LeafOf(s', q) == LeafOf(s, q);
    }
    forall u, v | LeafPath(u) && LeafPath(v) && LeafOf(s', u).p && LeafOf(s', v).p
                  && LeafOf(s', u).frame == LeafOf(s', v).frame
      ensures u == v
    {
      assert LeafOf(s', u) == LeafOf(s, u) && LeafOf(s', v) == LeafOf(s, v);
    }
  }

  lemma PokeRanged(s: Space, a: nat, w: Word)
    requires Ranged(s) && Readable(s, a) && InRange(w)
    ensures Ranged(Poked(s, a, w))
  {
    var s', g := Poked(s, a, w), LeafPage(s, a / 4096).frame;
    forall f, i | 0 <= f < |s'.mem| && f !in s'.tables.Values && 0 <= i < |s'.mem[f]|
      ensures InRange(s'.mem[f][i])
    {
      assert f != g ==> s'.mem[f] == s.mem[f];
      assert f == g && i != a % 4096 / 8 ==> s'.mem[f][i] == s.mem[f][i];
    }
  }

  /** The stored word is read back at its own address, and every other word of the heap region is unchanged. */
  lemma PokeReads(s: Space, a: nat, w: Word, b: nat)
    requires Separated(s) && Readable(s, a) && HeapAddr(a) && HeapAddr(b) && Readable(s, b)
    ensures Readable(Poked(s, a, w), b)
    ensures WordAt(Poked(s, a, w), b) == if b / 8 == a / 8 then w else WordAt(s, b)
  {
    var s' := Poked(s, a, w);
    PokeKeepsTree(s, a, w);
    HeapPage(a / 4096);
    HeapPage(b / 4096);
    assert LeafOf(s', PagePath(b / 4096)) == LeafOf(s, PagePath(b / 4096));
    if LeafPage(s, a / 4096).frame == LeafPage(s, b / 4096).frame {
      assert PagePath(a / 4096) == PagePath(b / 4096);
      PagePathInjective(a / 4096, b / 4096, 0xFFFF);
    }
    WordIndex(a, b);
  }

  lemma WordIndex(a: nat, b: nat)
    ensures a / 8 == b / 8 <==> a / 4096 == b / 4096 && a % 4096 / 8 == b % 4096 / 8
  {
    WordParts(a);
    WordParts(b);
  }

  lemma WordParts(a: nat)
    ensures a / 8 == a / 4096 * 512 + a % 4096 / 8 && a % 4096 / 8 < 512
  {
  }

  // ---------------------------------------------------------------- what a stretch of accesses may change

  /** A leaf as it was, or a reservation that got its frame. */
  ghost predicate Filled(w: Word, w': Word) {
    w' == w || (Reserved(w) && w' == Supplied(w, w'.frame))
  }

  ghost predicate LeafFilled(s: Space, s': Space, u: Path) {
    LeafPath(u) ==> Filled(LeafOf(s, u), LeafOf(s', u))
  }

  /** Every word that has no byte in [lo, hi), and every byte outside it, reads as before. */
  ghost predicate SameOutside(s: Space, s': Space, lo: nat, hi: nat, a: nat) {
    Readable(s, a) ==>
      && Readable(s', a)
      && (a / 8 * 8 + 8 <= lo || hi <= a / 8 * 8 ==> WordAt(s', a) == WordAt(s, a))
      && (a < lo || hi <= a ==> ByteAt(s', a) == ByteAt(s, a))
  }

  /** A page outside the heap region keeps its contents. */
  ghost predicate PageKept(s: Space, s': Space, u: Path)
    requires LeafPath(u)
  {
    LeafOf(s, u).p ==> LeafOf(s, u).frame < |s.mem| == |s'.mem| && s'.mem[LeafOf(s, u).frame] == s.mem[LeafOf(s, u).frame]
  }

  /**
   Heap accesses that write at most the addresses from `lo` up to `hi`: pages may be faulted in, no table changes,
   and whatever could be read before reads the same outside that stretch.
   */
  ghost predicate Evolves(s: Space, s': Space, lo: nat, hi: nat) {
    && s'.tables == s.tables && s'.root == s.root && |s'.mem| == |s.mem|
    && s'.frames == s.frames.(used := s'.frames.used) && s.frames.used <= s'.frames.used
    && (forall u :: LeafFilled(s, s', u))
    && (forall u {:trigger PageKept(s, s', u)} | LeafPath(u) && !HeapPath(u) :: PageKept(s, s', u))
    && (forall a: nat {:trigger SameOutside(s, s', lo, hi, a)} | HeapAddr(a) :: SameOutside(s, s', lo, hi, a))
  }

  lemma EvolvesRefl(s: Space, lo: nat, hi: nat)
    requires Separated(s) && Ranged(s)
    ensures Evolves(s, s, lo, hi)
  {
    forall u | LeafPath(u)
      ensures PageKept(s, s, u)
    {
      assert DataFrame(s, u);
    }
  }

  lemma EvolvesTrans(a: Space, b: Space, c: Space, lo: nat, hi: nat)
    requires Evolves(a, b, lo, hi) && Evolves(b, c, lo, hi)
    ensures Evolves(a, c, lo, hi)
  {
    forall u
      ensures LeafFilled(a, c, u)
    {
      assert LeafFilled(a, b, u) && LeafFilled(b, c, u);
    }
    forall u | LeafPath(u) && !HeapPath(u)
      ensures PageKept(a, c, u)
    {
      assert LeafFilled(a, b, u) && PageKept(a, b, u) && PageKept(b, c, u);
    }
    forall x: nat | HeapAddr(x)
      ensures SameOutside(a, c, lo, hi, x)
    {
      assert SameOutside(a, b, lo, hi, x) && SameOutside(b, c, lo, hi, x);
    }
  }

  lemma EvolvesWider(s: Space, s': Space, lo: nat, hi: nat, lo': nat, hi': nat)
    requires Evolves(s, s', lo, hi) && lo' <= lo && hi <= hi'
    ensures Evolves(s, s', lo', hi')
  {
    forall a: nat | HeapAddr(a)
      ensures SameOutside(s, s', lo', hi', a)
    {
      assert SameOutside(s, s', lo, hi, a);
      assert a / 8 * 8 + 8 <= lo' ==> a / 8 * 8 + 8 <= lo;
    }
  }

  /** When nothing was written, any stretch describes it. */
  lemma NothingWritten(s: Space, s': Space, lo: nat, hi: nat)
    requires Evolves(s, s', 0, 0)
    ensures Evolves(s, s', lo, hi)
  {
    forall x: nat | HeapAddr(x)
      ensures SameOutside(s, s', lo, hi, x)
    {
      assert SameOutside(s, s', 0, 0, x);
    }
  }

  /** A step that keeps all present pages keeps what can be read through them. */
  lemma KeptReads(s: Space, s': Space, gone: set<Path>, a: nat)
    requires KeepsPages(s, s', gone) && Readable(s, a) && PagePath(a / 4096) !in gone
    ensures Readable(s', a) && WordAt(s', a) == WordAt(s, a)
  {
    var u := PagePath(a / 4096);
    assert LeafOf(s', u) == LeafOf(s, u);
  }

  /** A page fault only brings in a page. */
  lemma FaultEvolves(s: Space, s': Space, q: Path, a: Access, g: nat)
    requires Separated(s) && Ranged(s) && LeafPath(q) && FaultStep(s, s', q, a, g)
    ensures Evolves(s, s', 0, 0) && Separated(s') && Ranged(s')
  {
    FaultSeparates(s, s', q, a, g);
    if g == 0 {
      EvolvesRefl(s, 0, 0);
      return;
    }
    var mid := s.(frames := WithPage(s.frames, g));
    GrowRanged(mid, s');
    forall u | LeafPath(u)
      ensures LeafFilled(s, s', u) && PageKept(s, s', u)
    {
      assert LeafOf(s', u) == LeafOf(s, u) || u == q;
    }
    forall x: nat | HeapAddr(x)
      ensures SameOutside(s, s', 0, 0, x)
    {
      if Readable(s, x) {
        KeptReads(s, s', {}, x);
      }
    }
  }

  lemma PokeKeepsOthers(s: Space, a: nat, w: Word, u: Path)
    requires Separated(s) && Readable(s, a) && HeapAddr(a) && LeafPath(u) && !HeapPath(u)
    ensures PageKept(s, Poked(s, a, w), u)
  {
    assert DataFrame(s, u);
    HeapPage(a / 4096);
    assert u != PagePath(a / 4096);
  }

  /** One word stored. */
  lemma PokeEvolves(s: Space, a: nat, hi: nat, w: Word)
    requires Separated(s) && Ranged(s) && Readable(s, a) && HeapAddr(a) && InRange(w) && a % 8 == 0 && hi == a + 8
    ensures Separated(Poked(s, a, w)) && Ranged(Poked(s, a, w))
    ensures Evolves(s, Poked(s, a, w), a, hi) && Readable(Poked(s, a, w), a) && WordAt(Poked(s, a, w), a) == w
  {
    var s' := Poked(s, a, w);
    PokeKeepsTree(s, a, w);
    PokeSeparates(s, a, w);
    PokeRanged(s, a, w);
    PokeReads(s, a, w, a);
    forall u | LeafPath(u) && !HeapPath(u)
      ensures PageKept(s, s', u)
    {
      PokeKeepsOthers(s, a, w, u);
    }
    forall x: nat | HeapAddr(x)
      ensures SameOutside(s, s', a, hi, x)
    {
      if Readable(s, x) {
        PokeReads(s, a, w, x);
      }
    }
  }

  /** One byte stored. */
  lemma PokeByteEvolves(s: Space, a: nat, hi: nat, b: nat)
    requires Separated(s) && Ranged(s) && Readable(s, a) && HeapAddr(a) && b < 256 && hi == a + 1
    ensures var s' := Poked(s, a, PutByte(WordAt(s, a), a % 8, b));
            Separated(s') && Ranged(s') && Evolves(s, s', a, hi) && Readable(s', a) && ByteAt(s', a) == b
  {
    WordRanged(s, a);
    var w := PutByte(WordAt(s, a), a % 8, b);
    var s' := Poked(s, a, w);
    PutByteAt(WordAt(s, a), a % 8, b, a % 8);
    PokeKeepsTree(s, a, w);
    PokeSeparates(s, a, w);
    PokeRanged(s, a, w);
    PokeReads(s, a, w, a);
    forall u | LeafPath(u) && !HeapPath(u)
      ensures PageKept(s, s', u)
    {
      PokeKeepsOthers(s, a, w, u);
    }
    forall x: nat | HeapAddr(x)
      ensures SameOutside(s, s', a, hi, x)
    {
      if Readable(s, x) {
        PokeReads(s, a, w, x);
        PutByteAt(WordAt(s, a), a % 8, b, x % 8);
        WordIndex(a, x);
      }
    }
  }

  /** The bytes of one word. */
  lemma SameWord(s: Space, a: nat, j: nat)
    requires a % 8 == 0 && j < 8
    ensures (a + j) / 8 == a / 8 && (a + j) % 8 == j && (HeapAddr(a + j) <==> HeapAddr(a))
    ensures Readable(s, a + j) <==> Readable(s, a)
    ensures Readable(s, a) ==> WordAt(s, a + j) == WordAt(s, a)
  {
    WordIndex(a + j, a);
  }

  // ---------------------------------------------------------------- copying

  /** The first `n` bytes at `dst` are those at `src`. */
  ghost predicate Matched(s: Space, src: nat, dst: nat, n: nat) {
    forall j: nat {:trigger SameByte(s, src, dst, j)} | j < n :: SameByte(s, src, dst, j)
  }

  ghost predicate SameByte(s: Space, src: nat, dst: nat, j: nat) {
    Readable(s, src + j) && Readable(s, dst + j) && ByteAt(s, dst + j) == ByteAt(s, src + j)
  }

  /** Both stretches lie in the heap region, the source before the destination. */
  predicate CopyRoom(src: nat, dst: nat, n: nat) {
    FIRST * 4096 <= src && src + n <= dst && dst + n <= PAGES * 4096
  }

  /** What was copied so far is not disturbed by writing further on. */
  lemma MatchedStays(s: Space, s': Space, src: nat, dst: nat, i: nat, k: nat, lo: nat, hi: nat)
    requires lo == dst + i && hi == lo + k
    requires Matched(s, src, dst, i) && CopyRoom(src, dst, i + k) && Evolves(s, s', lo, hi)
    ensures Matched(s', src, dst, i)
  {
    forall j: nat | j < i
      ensures SameByte(s', src, dst, j)
    {
      assert SameByte(s, src, dst, j);
      assert SameOutside(s, s', lo, hi, src + j);
      assert SameOutside(s, s', lo, hi, dst + j);
    }
  }

  lemma WordBytesEqual(s: Space, a: nat, b: nat, j: nat)
    requires a % 8 == 0 && b % 8 == 0 && j < 8 && Readable(s, a) && Readable(s, b) && WordAt(s, a) == WordAt(s, b)
    ensures Readable(s, a + j) && Readable(s, b + j) && ByteAt(s, b + j) == ByteAt(s, a + j)
  {
    SameWord(s, a, j);
    SameWord(s, b, j);
  }

  lemma ByteInWord(s: Space, src: nat, dst: nat, i: nat, k: nat, a: nat, b: nat)
    requires a == src + i && b == dst + i && a % 8 == 0 && b % 8 == 0 && k < 8
    requires Readable(s, a) && Readable(s, b) && WordAt(s, b) == WordAt(s, a)
    ensures SameByte(s, src, dst, i + k)
  {
    WordBytesEqual(s, a, b, k);
    assert src + (i + k) == a + k && dst + (i + k) == b + k;
  }

  lemma WordCopied(s: Space, src: nat, dst: nat, i: nat, a: nat, b: nat)
    requires Matched(s, src, dst, i) && a == src + i && b == dst + i && a % 8 == 0 && b % 8 == 0
    requires Readable(s, a) && Readable(s, b) && WordAt(s, b) == WordAt(s, a)
    ensures Matched(s, src, dst, i + 8)
  {
    forall j: nat | j < i + 8
      ensures SameByte(s, src, dst, j)
    {
      if i <= j {
        ByteInWord(s, src, dst, i, j - i, a, b);
      }
    }
  }
}
