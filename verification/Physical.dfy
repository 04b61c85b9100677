/**
 The value that the frame bitmap stands for, and what each call of the physical memory manager may
 do to it. The `...Step` relations mention no loops and no bits. Pages are 4096 bytes.
 */
module Frames {

  /**
   `used` holds the page numbers whose bit is set. `slack` is `usedPages - |used|` in 64-bit
   arithmetic: no step ever changes it.
   */
  datatype Frames = Frames(used: set<nat>, slack: nat, lowest: nat, highest: nat, pages: nat)

  /** What pmmInit leaves behind: page 0 belongs to the kernel and every usable frame has a bit. */
  ghost predicate FramesOk(s: Frames) {
    && s.lowest % 4096 == 0
    && 0 < s.lowest <= 4096 * s.pages
    && s.highest <= 4096 * s.pages
    && forall p | p in s.used :: p < s.pages
  }

  function FirstPage(s: Frames): nat {
    s.lowest / 4096
  }

  /** A page that the scans treat as free. */
  predicate FreePage(s: Frames, p: nat) {
    p * 4096 < s.highest && p !in s.used
  }

  ghost function FreePages(s: Frames): set<nat> {
    set p: nat | FirstPage(s) <= p < s.pages && FreePage(s, p)
  }

  lemma FreeShrinks(s: Frames, used: set<nat>)
    requires s.used <= used
    ensures FreePages(s.(used := used)) == FreePages(s) - used
  {
    var s' := s.(used := used);
    forall p: nat
      ensures p in FreePages(s') <==> p in FreePages(s) && p !in used
    {
      assert FreePage(s', p) <==> FreePage(s, p) && p !in used;
    }
  }

  /** `usedPages` is a 64-bit counter. */
  function Wrap(n: int): nat {
    n % 0x1_0000_0000_0000_0000
  }

  ghost predicate Counts(usedPages: nat, s: Frames) {
    usedPages == Wrap(|s.used| + s.slack)
  }

  /** Counter and set move together, wrap-around or not. */
  lemma CountsMarked(usedPages: nat, s: Frames, page: nat)
    requires Counts(usedPages, s)
    ensures page !in s.used ==> Counts(Wrap(usedPages + 1), WithPage(s, page))
    ensures page in s.used ==> Counts(Wrap(usedPages - 1), WithoutPage(s, page))
  {
    WrapAdd(|s.used| + s.slack, 1);
    WrapAdd(|s.used| + s.slack, -1);
    assert page !in s.used ==> |s.used + {page}| == |s.used| + 1;
    assert page in s.used ==> |s.used - {page}| == |s.used| - 1;
  }

  lemma WrapAdd(n: int, k: int)
    ensures Wrap(Wrap(n) + k) == Wrap(n + k)
  {
  }

  function WithPage(s: Frames, page: nat): Frames {
    s.(used := s.used + {page})
  }

  function WithoutPage(s: Frames, page: nat): Frames {
    s.(used := s.used - {page})
  }

  ghost predicate MarkStep(s: Frames, s': Frames, page: nat, use: bool, r: int) {
    if use == (page in s.used) then
      r == -1 && s' == s
    else
      r == 0 && s' == if use then WithPage(s, page) else WithoutPage(s, page)
  }

  ghost predicate AllocateStep(s: Frames, s': Frames, r: nat) {
    if r == 0 then
      && s' == s
      && forall p: nat | FirstPage(s) <= p :: !FreePage(s, p)
    else
      && r % 4096 == 0 && s.lowest <= r && FreePage(s, r / 4096)
      && (forall p: nat | FirstPage(s) <= p < r / 4096 :: !FreePage(s, p))
      && s' == WithPage(s, r / 4096)
  }

  /** The frame at exactly `lowest` is refused although the scan may hand it out. */
  predicate Freeable(s: Frames, phys: nat) {
    s.lowest < phys < s.highest && phys / 4096 in s.used
  }

  ghost predicate FreeStep(s: Frames, s': Frames, phys: nat, r: int) {
    if Freeable(s, phys) then
      r == 0 && s' == WithoutPage(s, phys / 4096)
    else
      r == -1 && s' == s
  }

  function PageRun(first: nat, count: nat): (r: set<nat>)
    ensures forall p: nat :: p in r <==> first <= p < first + count
  {
    if count == 0 then {} else PageRun(first, count - 1) + {first + count - 1}
  }

  ghost function WithRun(s: Frames, first: nat, count: nat): Frames {
    s.(used := s.used + PageRun(first, count))
  }

  /** Marking a run as used or free; success exactly when no frame of it was in that state already. */
  ghost predicate MarkRunStep(s: Frames, s': Frames, first: nat, count: nat, use: bool, r: int) {
    var run := PageRun(first, count);
    && s' == s.(used := if use then s.used + run else s.used - run)
    && r == if (if use then run !! s.used else run <= s.used) then 0 else -1
  }

  lemma MarkRunGrows(s: Frames, s1: Frames, s2: Frames, first: nat, count: nat, use: bool, r: int, one: int)
    requires MarkRunStep(s, s1, first, count, use, r) && MarkStep(s1, s2, first + count, use, one)
    ensures MarkRunStep(s, s2, first, count + 1, use, if one == 0 then r else -1)
  {
    assert PageRun(first, count + 1) == PageRun(first, count) + {first + count};
    if use {
      assert s2.used == s1.used + {first + count};
      assert s2.used == s.used + PageRun(first, count + 1);
    } else {
      assert s2.used == s1.used - {first + count};
      assert s2.used == s.used - PageRun(first, count + 1);
    }
  }

  ghost predicate RunFree(s: Frames, first: nat, count: nat) {
    forall p: nat | first <= p < first + count :: FreePage(s, p)
  }

  /** The exclusive bound on start addresses. */
  function SearchEnd(highest: nat, count: nat, low: bool): int {
    if low && highest > 0xFFFFFFFF then 0xFFFFF000 else highest - count * 4096
  }

  /** The first page is tried before the bound is ever looked at. */
  predicate Candidate(s: Frames, count: nat, low: bool, p: nat) {
    p == FirstPage(s) || (FirstPage(s) < p && p * 4096 < SearchEnd(s.highest, count, low))
  }

  /**
   The search does not wrap around: with a low bound, runs end below 2^64; without, the request does not
   exceed `highest`.
   */
  predicate SearchEnds(s: Frames, count: nat, low: bool) {
    && FirstPage(s) + count < 0x10_0000_0000_0000
    && if low && s.highest > 0xFFFFFFFF then 0xFFFFE + count < 0x10_0000_0000_0000 else count * 4096 <= s.highest
  }

  ghost predicate ContiguousStep(s: Frames, s': Frames, count: nat, low: bool, r: nat) {
    if r == 0 then
      && s' == s
      && forall p: nat | Candidate(s, count, low, p) :: !RunFree(s, p, count)
    else
      var first := r / 4096;
      && r % 4096 == 0 && Candidate(s, count, low, first) && RunFree(s, first, count)
      && (forall p: nat | Candidate(s, count, low, p) && p < first :: !RunFree(s, p, count))
      && s' == WithRun(s, first, count)
  }

  /** The pages that a run of pmmFree calls over `count` frames from `phys` gives back. */
  ghost function Released(s: Frames, phys: nat, count: nat): set<nat> {
    set p | p in s.used && phys / 4096 <= p < phys / 4096 + count
            && s.lowest < p * 4096 + phys % 4096 < s.highest
  }

  ghost predicate FreeContiguousStep(s: Frames, s': Frames, phys: nat, count: nat, r: int) {
    && s' == s.(used := s.used - Released(s, phys, count))
    && r == if Released(s, phys, count) == PageRun(phys / 4096, count) then 0 else -1
  }

  /** One more pmmFree after `count` of them. */
  lemma ReleasedGrows(s: Frames, phys: nat, count: nat)
    ensures var next := phys + count * 4096;
            && next / 4096 == phys / 4096 + count
            && Released(s, phys, count + 1)
               == if Freeable(s, next) then Released(s, phys, count) + {next / 4096} else Released(s, phys, count)
  {
    assert (phys + count * 4096) / 4096 == phys / 4096 + count;
    assert (phys + count * 4096) % 4096 == phys % 4096;
  }

  lemma ReleasedAll(s: Frames, phys: nat, count: nat)
    ensures Released(s, phys, count + 1) == PageRun(phys / 4096, count + 1) <==>
            Released(s, phys, count) == PageRun(phys / 4096, count) && Freeable(s, phys + count * 4096)
  {
    ReleasedGrows(s, phys, count);
    var page := phys / 4096 + count;
    assert PageRun(phys / 4096, count + 1) == PageRun(phys / 4096, count) + {page};
    assert page !in PageRun(phys / 4096, count);
    assert page !in Released(s, phys, count);
    if Released(s, phys, count + 1) == PageRun(phys / 4096, count + 1) {
      assert page in Released(s, phys, count + 1);
      assert Released(s, phys, count) == Released(s, phys, count + 1) - {page};
      assert PageRun(phys / 4096, count) == PageRun(phys / 4096, count + 1) - {page};
    }
  }

  lemma FreeContiguousGrows(s: Frames, s1: Frames, s2: Frames, phys: nat, count: nat, r: int, one: int)
    requires FreeContiguousStep(s, s1, phys, count, r) && FreeStep(s1, s2, phys + count * 4096, one)
    ensures FreeContiguousStep(s, s2, phys, count + 1, if one == 0 then r else -1)
  {
    ReleasedGrows(s, phys, count);
    ReleasedAll(s, phys, count);
    var gone := Released(s, phys, count);
    var next := phys + count * 4096;
    assert next / 4096 !in gone;
    assert Freeable(s1, next) <==> Freeable(s, next);
    assert s.used - gone - {next / 4096} == s.used - (gone + {next / 4096});
  }
}

/** The physical memory manager's state and operations, on the bitmap itself. */
module Physical {
  import opened Bits
  import opened BitSet
  import opened Frames

  class FrameAllocator {
    const bitmap: array<bv8>
    const lowest: nat
    const highest: nat
    var usedPages: nat
    ghost var frames: Frames

    constructor (bitmap: array<bv8>, lowest: nat, highest: nat, usedPages: nat, ghost used: set<nat>)
      requires lowest % 4096 == 0 && 0 < lowest <= 4096 * (8 * bitmap.Length)
      requires highest <= 4096 * (8 * bitmap.Length)
      requires usedPages < 0x1_0000_0000_0000_0000
      requires Holds(bitmap[..], used)
      ensures Valid() && this.bitmap == bitmap && this.usedPages == usedPages
      ensures frames == Frames(used, Wrap(usedPages - |used|), lowest, highest, 8 * bitmap.Length)
    {
      this.bitmap, this.lowest, this.highest, this.usedPages := bitmap, lowest, highest, usedPages;
      this.frames := Frames(used, Wrap(usedPages - |used|), lowest, highest, 8 * bitmap.Length);
    }

    ghost predicate Valid()
      reads this, bitmap
    {
      && FramesOk(frames)
      && frames.lowest == lowest && frames.highest == highest && frames.pages == 8 * bitmap.Length
      && Holds(bitmap[..], frames.used)
      && Counts(usedPages, frames)
    }

    /** `(bitmap[byte] >> bit) & 1`. */
    method Test(page: nat) returns (b: bool)
      requires Valid() && page < frames.pages
      ensures b <==> page in frames.used
    {
      ShiftForms(bitmap[page / 8], page % 8);
      assert BitAt(bitmap[..], page) <==> page in frames.used;
      b := (bitmap[page / 8] >> (page % 8)) & 1 == 1;
    }

    /** `1 << bit` on a byte. */
    method OneBit(bit: nat) returns (m: bv8)
      requires bit < 8
      ensures m == Mask(bit)
    {
      ShiftForms(0, bit);
      m := 1 << bit;
    }

    /** `|= (1 << bit)` or `&= ~(1 << bit)`. */
    method Put(page: nat, use: bool)
      requires Valid() && page < frames.pages
      modifies bitmap
      ensures Holds(bitmap[..], if use then frames.used + {page} else frames.used - {page})
    {
      var byte := page / 8;
      var mask := OneBit(page % 8);
      if use {
        SetBitAdds(bitmap[..], page, frames.used);
        bitmap[byte] := bitmap[byte] | mask;
        assert bitmap[..] == SetBit(old(bitmap[..]), page);
      } else {
        ClearBitRemoves(bitmap[..], page, frames.used);
        bitmap[byte] := bitmap[byte] & !mask;
        assert bitmap[..] == ClearBit(old(bitmap[..]), page);
      }
    }

    method Mark(phys: nat, use: bool) returns (r: int)
      requires Valid() && phys / 4096 < frames.pages
      modifies this, bitmap
      ensures Valid() && MarkStep(old(frames), frames, phys / 4096, use, r)
    {
      var page := phys / 4096;
      var marked := Test(page);
      if marked == use {
        return -1;
      }
      Put(page, use);
      CountsMarked(usedPages, frames, page);
      usedPages := Wrap(if use then usedPages + 1 else usedPages - 1);
      frames := if use then WithPage(frames, page) else WithoutPage(frames, page);
      return 0;
    }

    method IsUsed(phys: nat) returns (u: bool)
      requires Valid()
      ensures u <==> phys >= highest || phys / 4096 in frames.used
      ensures phys % 4096 == 0 ==> (u <==> !FreePage(frames, phys / 4096))
    {
      if phys >= highest {
        return true;
      }
      u := Test(phys / 4096);
    }

    method Allocate() returns (r: nat)
      requires Valid()
      modifies this, bitmap
      ensures Valid() && AllocateStep(old(frames), frames, r)
    {
      var addr := lowest;
      ghost var page := FirstPage(frames);
      while addr < highest
        invariant Valid() && frames == old(frames) && addr == page * 4096 && FirstPage(frames) <= page
        invariant forall p: nat | FirstPage(frames) <= p < page :: !FreePage(frames, p)
      {
        var used := IsUsed(addr);
        if !used {
          var _ := Mark(addr, true);
          return addr;
        }
        addr, page := addr + 4096, page + 1;
      }
      return 0;
    }

    method Free(phys: nat) returns (r: int)
      requires Valid()
      modifies this, bitmap
      ensures Valid() && FreeStep(old(frames), frames, phys, r)
    {
      if phys <= lowest || phys >= highest {
        return -1;
      }
      r := Mark(phys, false);
    }

    /** The next frame of a run of which `done` frames are marked. */
    method MarkNext(phys: nat, done: nat, use: bool, so: int, ghost s: Frames) returns (r: int)
      requires Valid() && phys / 4096 + done < frames.pages
      requires MarkRunStep(s, frames, phys / 4096, done, use, so)
      modifies this, bitmap
      ensures Valid() && MarkRunStep(s, frames, phys / 4096, done + 1, use, r)
    {
      assert (phys + done * 4096) / 4096 == phys / 4096 + done;
      var one := Mark(phys + done * 4096, use);
      r := if one == 0 then so else -1;
      MarkRunGrows(s, old(frames), frames, phys / 4096, done, use, so, one);
    }

    method MarkContiguous(phys: nat, count: nat, use: bool) returns (r: int)
      requires Valid() && phys / 4096 + count <= frames.pages
      modifies this, bitmap
      ensures Valid() && MarkRunStep(old(frames), frames, phys / 4096, count, use, r)
    {
      r := 0;
      assert frames.used + {} == frames.used && frames.used - {} == frames.used;
      for i := 0 to count
        invariant Valid() && MarkRunStep(old(frames), frames, phys / 4096, i, use, r)
      {
        r := MarkNext(phys, i, use, r, old(frames));
      }
    }

    /** The inner loop of the search: walks the run until it meets a used frame. */
    method RunIsFree(start: nat, count: nat) returns (free: bool)
      requires Valid() && start % 4096 == 0 && start <= 4096 * frames.pages
      ensures free <==> RunFree(frames, start / 4096, count)
      ensures free ==> start / 4096 + count <= frames.pages
    {
      var addr := start;
      while addr < start + count * 4096
        invariant start <= addr <= start + count * 4096 && addr % 4096 == 0
        invariant RunFree(frames, start / 4096, addr / 4096 - start / 4096)
        invariant addr <= 4096 * frames.pages
      {
        var used := IsUsed(addr);
        if used {
          return false;
        }
        addr := addr + 4096;
      }
      free := true;
    }

    method AllocateContiguous(count: nat, low: bool) returns (r: nat)
      requires Valid() && SearchEnds(frames, count, low)
      modifies this, bitmap
      ensures Valid() && ContiguousStep(old(frames), frames, count, low, r)
    {
      var start := lowest;
      var end := if low && highest > 0xFFFFFFFF then 0xFFFFF000 else highest - count * 4096;
      while true
        invariant Valid() && frames == old(frames) && start % 4096 == 0 && lowest <= start
        invariant Candidate(frames, count, low, start / 4096)
        invariant forall p: nat | Candidate(frames, count, low, p) && p < start / 4096 :: !RunFree(frames, p, count)
        decreases highest + 0xFFFFF000 - start
      {
        var free := RunIsFree(start, count);
        if free {
          assert forall p | p in PageRun(start / 4096, count) :: FreePage(frames, p);
          var status := MarkContiguous(start, count, true);
          if status == 0 {
            return start;
          }
          assert false;  // the frames were all free, so marking them cannot fail
        }
        start := start + 4096;
        if start >= end {
          return 0;
        }
      }
    }

    method FreeContiguous(phys: nat, count: nat) returns (r: int)
      requires Valid()
      modifies this, bitmap
      ensures Valid() && FreeContiguousStep(old(frames), frames, phys, count, r)
    {
      r := 0;
      assert Released(frames, phys, 0) == {} && frames.used - {} == frames.used;
      for i := 0 to count
        invariant Valid() && FreeContiguousStep(old(frames), frames, phys, i, r)
      {
        ghost var before, so := frames, r;
        var one := Free(phys + i * 4096);
        r := if one == 0 then r else -1;
        FreeContiguousGrows(old(frames), before, frames, phys, i, so, one);
      }
    }
  }
}
