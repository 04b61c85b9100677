/** Loads and stores of kernel code to the heap region, with the page faults they take. */
module MemoryAccess {
  import opened Words
  import opened Bits64
  import opened WordBytes
  import opened Frames
  import opened PageTable
  import opened Addresses
  import opened Spaces
  import opened Paging
  import opened VirtualSteps
  import opened Contents
  import Virtual

  /** A page of kernel data: reserved or supplied, writable, closed to user programs and not executable. */
  predicate LivePage(w: Word) {
    w.rw && !w.us && w.nx && (w.p || Reserved(w))
  }

  ghost predicate Usable(s: Space, a: nat) {
    HeapAddr(a) && LivePage(LeafPage(s, a / 4096))
  }

  ghost predicate Ready(m: Machine)
    reads m, m.pmm, m.pmm.bitmap
  {
    m.Valid() && Separated(m.View()) && Ranged(m.View())
  }

  lemma HeapAddress(a: nat)
    requires HeapAddr(a)
    ensures 4096 <= a < 0x1_0000_0000_0000_0000 && !InDirectMap(a)
    ensures Indices(a) == PagePath(a / 4096) && LeafPath(Indices(a))
  {
    HeapPage(a / 4096);
  }

  /** The first access to a page of a block faults it in; `ok` is false when no frame is left, and the access never ends. */
  method Touch(m: Machine, a: nat, write: bool) returns (ok: bool)
    requires Ready(m) && Usable(m.View(), a)
    modifies m`mem, m`tables, m.pmm, m.pmm.bitmap
    ensures Ready(m) && Evolves(old(m.View()), m.View(), 0, 0)
    ensures ok <==> Readable(m.View(), a)
    ensures !ok ==> m.View() == old(m.View()) && FreePages(m.View().frames) == {}
  {
    ghost var s := m.View();
    HeapAddress(a);
    var flags, phys := m.GetPage(a);
    if flags.present {
      PresentReadable(s, a);
      EvolvesRefl(s, 0, 0);
      return true;
    }
    ghost var g;
    var r;
    r, g := Virtual.PageFault(m, a, Access(false, false, write, false));
    FaultEvolves(s, m.View(), PagePath(a / 4096), Access(false, false, write, false), g);
    FaultSeparates(s, m.View(), PagePath(a / 4096), Access(false, false, write, false), g);
    ok := r == 0;
    if ok {
      PresentReadable(m.View(), a);
    }
  }

  /** The word the tables lead to. */
  method LoadWord(m: Machine, a: nat) returns (w: Word)
    requires Ready(m) && HeapAddr(a) && Readable(m.View(), a)
    ensures w == WordAt(m.View(), a)
  {
    HeapAddress(a);
    var flags, phys := m.GetPage(a);
    Offset(LeafPage(m.View(), a / 4096).frame, a);
    w := m.mem[phys / 4096][phys % 4096 / 8];
  }

  method LoadByte(m: Machine, a: nat) returns (b: nat)
    requires Ready(m) && HeapAddr(a) && Readable(m.View(), a)
    ensures b == ByteAt(m.View(), a) && b < 256
  {
    var w := LoadWord(m, a);
    b := ByteOf(w, a % 8);
  }

  lemma Offset(f: nat, a: nat)
    ensures (f * 4096 + a % 4096) / 4096 == f && (f * 4096 + a % 4096) % 4096 == a % 4096
  {
  }

  method StoreWord(m: Machine, a: nat, w: Word, ghost hi: nat)
    requires hi == a + 8 && Ready(m) && HeapAddr(a) && Readable(m.View(), a) && a % 8 == 0 && InRange(w)
    modifies m`mem
    ensures Ready(m) && Evolves(old(m.View()), m.View(), a, hi) && m.View() == Poked(old(m.View()), a, w)
    ensures Readable(m.View(), a) && WordAt(m.View(), a) == w
  {
    ghost var s := m.View();
    HeapAddress(a);
    var flags, phys := m.GetPage(a);
    Offset(LeafPage(s, a / 4096).frame, a);
    m.mem := Write(m.mem, phys / 4096, phys % 4096 / 8, w);
    assert m.View() == Poked(s, a, w);
    PokeEvolves(s, a, hi, w);
  }

  method StoreByte(m: Machine, a: nat, b: nat, ghost hi: nat)
    requires hi == a + 1 && Ready(m) && HeapAddr(a) && Readable(m.View(), a) && b < 256
    modifies m`mem
    ensures Ready(m) && Evolves(old(m.View()), m.View(), a, hi)
    ensures Readable(m.View(), a) && ByteAt(m.View(), a) == b
  {
    ghost var s := m.View();
    HeapAddress(a);
    var flags, phys := m.GetPage(a);
    Offset(LeafPage(s, a / 4096).frame, a);
    var w := PutByte(m.mem[phys / 4096][phys % 4096 / 8], a % 8, b);
    m.mem := Write(m.mem, phys / 4096, phys % 4096 / 8, w);
    assert m.View() == Poked(s, a, w);
    PokeByteEvolves(s, a, hi, b);
  }

  // ---------------------------------------------------------------- memcpy

  /** A stretch of addresses on pages of blocks. */
  ghost predicate UsableRange(s: Space, a: nat, n: nat) {
    forall x: nat {:trigger Usable(s, x)} | a <= x < a + n :: Usable(s, x)
  }

  lemma UsableStays(s: Space, s': Space, lo: nat, hi: nat, a: nat)
    requires Evolves(s, s', lo, hi) && Usable(s, a)
    ensures Usable(s', a)
  {
    HeapPage(a / 4096);
    assert LeafFilled(s, s', PagePath(a / 4096));
  }

  /** Reading never changes what was readable. */
  lemma StillReadable(s: Space, s': Space, lo: nat, hi: nat, a: nat)
    requires Evolves(s, s', lo, hi) && HeapAddr(a) && Readable(s, a)
    ensures Readable(s', a)
  {
    assert SameOutside(s, s', lo, hi, a);
  }

  /** Both pages of a copy are brought in. */
  method TouchBoth(m: Machine, a: nat, b: nat) returns (ok: bool)
    requires Ready(m) && Usable(m.View(), a) && Usable(m.View(), b)
    modifies m`mem, m`tables, m.pmm, m.pmm.bitmap
    ensures Ready(m) && Evolves(old(m.View()), m.View(), 0, 0)
    ensures if ok then Readable(m.View(), a) && Readable(m.View(), b) else FreePages(m.View().frames) == {}
  {
    ghost var s := m.View();
    ok := Touch(m, a, false);
    ghost var s1 := m.View();
    if !ok {
      return;
    }
    UsableStays(s, s1, 0, 0, b);
    ok := Touch(m, b, true);
    ghost var s2 := m.View();
    EvolvesTrans(s, s1, s2, 0, 0);
    StillReadable(s1, s2, 0, 0, a);
  }

  lemma StoreFollows(s: Space, s1: Space, s2: Space, lo: nat, hi: nat)
    requires Evolves(s, s1, 0, 0) && Evolves(s1, s2, lo, hi)
    ensures Evolves(s, s2, lo, hi)
  {
    NothingWritten(s, s1, lo, hi);
    EvolvesTrans(s, s1, s2, lo, hi);
  }

  lemma SourceStays(s: Space, s': Space, a: nat, b: nat, hi: nat)
    requires Evolves(s, s', b, hi) && HeapAddr(a) && Readable(s, a) && a < b
    ensures Readable(s', a) && ByteAt(s', a) == ByteAt(s, a)
    ensures a % 8 == 0 && a + 8 <= b ==> WordAt(s', a) == WordAt(s, a)
  {
    assert SameOutside(s, s', b, hi, a);
  }

  method MoveWord(m: Machine, a: nat, b: nat, ghost s: Space, ghost hi: nat)
    requires hi == b + 8 && Ready(m) && Evolves(s, m.View(), 0, 0) && HeapAddr(a) && HeapAddr(b) && Readable(m.View(), a) && Readable(m.View(), b)
    requires a % 8 == 0 && b % 8 == 0 && a + 8 <= b
    modifies m`mem
    ensures Ready(m) && Evolves(s, m.View(), b, hi)
    ensures Readable(m.View(), a) && Readable(m.View(), b) && WordAt(m.View(), b) == WordAt(m.View(), a)
  {
    ghost var s1 := m.View();
    var w := LoadWord(m, a);
    WordRanged(s1, a);
    StoreWord(m, b, w, hi);
    StoreFollows(s, s1, m.View(), b, hi);
    SourceStays(s1, m.View(), a, b, hi);
  }

  /** One step of `rep movsq`. */
  method CopyWord(m: Machine, a: nat, b: nat, ghost hi: nat) returns (ok: bool)
    requires hi == b + 8 && Ready(m) && Usable(m.View(), a) && Usable(m.View(), b) && a % 8 == 0 && b % 8 == 0 && a + 8 <= b
    modifies m`mem, m`tables, m.pmm, m.pmm.bitmap
    ensures Ready(m) && Evolves(old(m.View()), m.View(), b, hi)
    ensures !ok ==> FreePages(m.View().frames) == {}
    ensures ok ==> Readable(m.View(), a) && Readable(m.View(), b) && WordAt(m.View(), b) == WordAt(m.View(), a)
  {
    ghost var s := m.View();
    ok := TouchBoth(m, a, b);
    if ok {
      MoveWord(m, a, b, s, hi);
    } else {
      NothingWritten(s, m.View(), b, hi);
    }
  }

  method MoveByte(m: Machine, a: nat, b: nat, ghost s: Space, ghost hi: nat)
    requires hi == b + 1 && Ready(m) && Evolves(s, m.View(), 0, 0) && HeapAddr(a) && HeapAddr(b) && Readable(m.View(), a) && Readable(m.View(), b) && a < b
    modifies m`mem
    ensures Ready(m) && Evolves(s, m.View(), b, hi)
    ensures Readable(m.View(), a) && Readable(m.View(), b) && ByteAt(m.View(), b) == ByteAt(m.View(), a)
  {
    ghost var s1 := m.View();
    var byte := LoadByte(m, a);
    StoreByte(m, b, byte, hi);
    StoreFollows(s, s1, m.View(), b, hi);
    SourceStays(s1, m.View(), a, b, hi);
  }

  /** One step of `rep movsb`. */
  method CopyByte(m: Machine, a: nat, b: nat, ghost hi: nat) returns (ok: bool)
    requires hi == b + 1 && Ready(m) && Usable(m.View(), a) && Usable(m.View(), b) && a < b
    modifies m`mem, m`tables, m.pmm, m.pmm.bitmap
    ensures Ready(m) && Evolves(old(m.View()), m.View(), b, hi)
    ensures !ok ==> FreePages(m.View().frames) == {}
    ensures ok ==> Readable(m.View(), a) && Readable(m.View(), b) && ByteAt(m.View(), b) == ByteAt(m.View(), a)
  {
    ghost var s := m.View();
    ok := TouchBoth(m, a, b);
    if ok {
      MoveByte(m, a, b, s, hi);
    } else {
      NothingWritten(s, m.View(), b, hi);
    }
  }

  /** Copying from `src` to `dst`, with the first `i` of `n` bytes done. */
  ghost predicate Copying(s: Space, v: Space, src: nat, dst: nat, end: nat, i: nat) {
    Evolves(s, v, dst, end) && Matched(v, src, dst, i)
  }

  /** One more unit of `k` bytes after `i`. */
  lemma UnitDone(s: Space, v: Space, v': Space, src: nat, dst: nat, n: nat, end: nat, i: nat, k: nat, lo: nat, hi: nat)
    requires end == dst + n && lo == dst + i && hi == lo + k
    requires Copying(s, v, src, dst, end, i) && CopyRoom(src, dst, n) && i + k <= n
    requires Evolves(v, v', lo, hi)
    ensures Copying(s, v', src, dst, end, i)
  {
    EvolvesWider(v, v', lo, hi, dst, end);
    EvolvesTrans(s, v, v', dst, end);
    MatchedStays(v, v', src, dst, i, k, lo, hi);
  }

  lemma UnitUsable(s: Space, v: Space, src: nat, dst: nat, n: nat, end: nat, i: nat)
    requires Copying(s, v, src, dst, end, i) && i < n && UsableRange(s, src, n) && UsableRange(s, dst, n)
    ensures Usable(v, src + i) && Usable(v, dst + i)
  {
    assert Usable(s, src + i) && Usable(s, dst + i);
    UsableStays(s, v, dst, end, src + i);
    UsableStays(s, v, dst, end, dst + i);
  }

  lemma WordDone(s: Space, v: Space, src: nat, dst: nat, end: nat, i: nat, a: nat, b: nat)
    requires Copying(s, v, src, dst, end, i) && a == src + i && b == dst + i && a % 8 == 0 && b % 8 == 0
    requires Readable(v, a) && Readable(v, b) && WordAt(v, b) == WordAt(v, a)
    ensures Copying(s, v, src, dst, end, i + 8)
  {
    WordCopied(v, src, dst, i, a, b);
  }

  lemma ByteDone(s: Space, v: Space, src: nat, dst: nat, end: nat, i: nat)
    requires Copying(s, v, src, dst, end, i) && SameByte(v, src, dst, i)
    ensures Copying(s, v, src, dst, end, i + 1)
  {
  }

  lemma AlignedUnit(src: nat, dst: nat, n: nat, i: nat)
    requires CopyRoom(src, dst, n) && src % 8 == 0 && dst % 8 == 0 && i % 8 == 0 && i + 8 <= n
    ensures (src + i) % 8 == 0 && (dst + i) % 8 == 0 && src + i + 8 <= dst + i
  {
  }

  method NextWord(m: Machine, dst: nat, src: nat, n: nat, i: nat, ghost s: Space, ghost end: nat) returns (ok: bool)
    requires end == dst + n && Ready(m) && CopyRoom(src, dst, n) && src % 8 == 0 && dst % 8 == 0 && i % 8 == 0 && i + 8 <= n
    requires Copying(s, m.View(), src, dst, end, i) && UsableRange(s, src, n) && UsableRange(s, dst, n)
    modifies m`mem, m`tables, m.pmm, m.pmm.bitmap
    ensures Ready(m) && Copying(s, m.View(), src, dst, end, if ok then i + 8 else i)
    ensures !ok ==> FreePages(m.View().frames) == {}
  {
    ghost var v := m.View();
    UnitUsable(s, v, src, dst, n, end, i);
    var a, b := src + i, dst + i;
    AlignedUnit(src, dst, n, i);
    ok := CopyWord(m, a, b, b + 8);
    UnitDone(s, v, m.View(), src, dst, n, end, i, 8, b, b + 8);
    if ok {
      WordDone(s, m.View(), src, dst, end, i, a, b);
    }
  }

  method NextByte(m: Machine, dst: nat, src: nat, n: nat, i: nat, ghost s: Space, ghost end: nat) returns (ok: bool)
    requires end == dst + n && Ready(m) && CopyRoom(src, dst, n) && i < n
    requires Copying(s, m.View(), src, dst, end, i) && UsableRange(s, src, n) && UsableRange(s, dst, n)
    modifies m`mem, m`tables, m.pmm, m.pmm.bitmap
    ensures Ready(m) && Copying(s, m.View(), src, dst, end, if ok then i + 1 else i)
    ensures !ok ==> FreePages(m.View().frames) == {}
  {
    ghost var v := m.View();
    UnitUsable(s, v, src, dst, n, end, i);
    var a, b := src + i, dst + i;
    ok := CopyByte(m, a, b, b + 1);
    UnitDone(s, v, m.View(), src, dst, n, end, i, 1, b, b + 1);
    if ok {
      ByteDone(s, m.View(), src, dst, end, i);
    }
  }

  /** memcpy: qwords first, then the remaining bytes; it never ends when the frames run out. */
  method Memcpy(m: Machine, dst: nat, src: nat, n: nat, ghost end: nat) returns (ok: bool)
    requires end == dst + n && Ready(m) && CopyRoom(src, dst, n) && src % 8 == 0 && dst % 8 == 0
    requires UsableRange(m.View(), src, n) && UsableRange(m.View(), dst, n)
    modifies m`mem, m`tables, m.pmm, m.pmm.bitmap
    ensures Ready(m) && Evolves(old(m.View()), m.View(), dst, end)
    ensures if ok then Matched(m.View(), src, dst, n) else FreePages(m.View().frames) == {}
  {
    ghost var s := m.View();
    EvolvesRefl(s, dst, end);
    var i := 0;
    ok := true;
    while i + 8 <= n
      invariant i <= n && i % 8 == 0 && Ready(m) && Copying(s, m.View(), src, dst, end, i)
    {
      ok := NextWord(m, dst, src, n, i, s, end);
      if !ok {
        return;
      }
      i := i + 8;
    }
    while i < n
      invariant i <= n && Ready(m) && Copying(s, m.View(), src, dst, end, i)
    {
      ok := NextByte(m, dst, src, n, i, s, end);
      if !ok {
        return;
      }
      i := i + 1;
    }
    ok := true;
  }
}
