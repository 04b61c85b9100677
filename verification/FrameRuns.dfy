/**
 What holds over whole runs of frame allocator calls, whatever their order and arguments.
 A run is a sequence of states with the call made between each two.
 */
module FrameRuns {
  import opened Frames

  datatype Call =
    | Allocate(result: nat)
    | Free(phys: nat, status: int)
    | AllocateContiguous(count: nat, low: bool, result: nat)
    | FreeContiguous(phys: nat, count: nat, status: int)

  ghost predicate Step(s: Frames, c: Call, s': Frames) {
    match c
    case Allocate(r) => AllocateStep(s, s', r)
    case Free(phys, r) => FreeStep(s, s', phys, r)
    case AllocateContiguous(n, low, r) => SearchEnds(s, n, low) && ContiguousStep(s, s', n, low, r)
    case FreeContiguous(phys, n, r) => FreeContiguousStep(s, s', phys, n, r)
  }

  ghost predicate Run(states: seq<Frames>, calls: seq<Call>) {
    && |states| == |calls| + 1
    && FramesOk(states[0])
    && forall i | 0 <= i < |calls| :: Step(states[i], calls[i], states[i + 1])
  }

  /** The pages a call handed to its caller. */
  ghost function Granted(c: Call): set<nat> {
    match c
    case Allocate(r) => if r == 0 then {} else {r / 4096}
    case AllocateContiguous(n, _, r) => if r == 0 then {} else PageRun(r / 4096, n)
    case _ => {}
  }

  lemma StepKeeps(s: Frames, c: Call, s': Frames)
    requires FramesOk(s) && Step(s, c, s')
    ensures FramesOk(s') && s'.slack == s.slack
    ensures s'.lowest == s.lowest && s'.highest == s.highest && s'.pages == s.pages
    ensures Granted(c) !! s.used && Granted(c) <= s'.used
    ensures Granted(c) != {} ==> s.used <= s'.used
    ensures 0 !in Granted(c)
  {
    match c
    case AllocateContiguous(n, low, r) =>
      if r != 0 {
        assert forall p | p in Granted(c) :: FreePage(s, p);
        assert s'.used == s.used + Granted(c);
      }
    case _ =>
  }

  /** The bounds of usable memory never move. */
  lemma {:induction false} BoundsKept(states: seq<Frames>, calls: seq<Call>, i: nat)
    requires Run(states, calls) && i < |states|
    ensures FramesOk(states[i]) && states[i].slack == states[0].slack
    ensures states[i].lowest == states[0].lowest && states[i].highest == states[0].highest
    ensures states[i].pages == states[0].pages
  {
    if i > 0 {
      BoundsKept(states, calls, i - 1);
      StepKeeps(states[i - 1], calls[i - 1], states[i]);
    }
  }

  lemma CounterMinusBits(usedPages: nat, s: Frames)
    requires Counts(usedPages, s)
    ensures Wrap(usedPages - |s.used|) == Wrap(s.slack)
  {
    WrapAdd(|s.used| + s.slack, 0 - |s.used|);
  }

  /** usedPages minus the number of set bits is the same at any two points of a run, in 64-bit arithmetic. */
  lemma CounterConserved(states: seq<Frames>, calls: seq<Call>, i: nat, u0: nat, ui: nat)
    requires Run(states, calls) && i < |states| && Counts(u0, states[0]) && Counts(ui, states[i])
    ensures Wrap(ui - |states[i].used|) == Wrap(u0 - |states[0].used|)
  {
    BoundsKept(states, calls, i);
    CounterMinusBits(u0, states[0]);
    CounterMinusBits(ui, states[i]);
  }

  /** Between two states of which only the first has a page marked, some call cleared it. */
  lemma {:induction false} FindRelease(states: seq<Frames>, calls: seq<Call>, i: nat, j: nat, page: nat) returns (k: nat)
    requires Run(states, calls) && i <= j < |states|
    requires page in states[i].used && page !in states[j].used
    ensures i <= k < j && page in states[k].used - states[k + 1].used
    decreases j - i
  {
    if page in states[i + 1].used {
      k := FindRelease(states, calls, i + 1, j, page);
    } else {
      k := i;
    }
  }

  /** Only a free that reported success on that very page takes a page out of the used set. */
  lemma OnlyFreesRelease(s: Frames, c: Call, s': Frames, page: nat)
    requires FramesOk(s) && Step(s, c, s') && page in s.used - s'.used
    ensures c.Free? || c.FreeContiguous?
    ensures c.Free? ==> c.status == 0 && c.phys / 4096 == page
    ensures c.FreeContiguous? ==> c.phys / 4096 <= page < c.phys / 4096 + c.count
    ensures FirstPage(s) <= page && page * 4096 < s.highest
  {
  }

  /** No page is handed out twice without a call between that gave it back. */
  lemma NoDoubleGrant(states: seq<Frames>, calls: seq<Call>, i: nat, j: nat, page: nat)
    requires Run(states, calls) && i < j < |calls|
    requires page in Granted(calls[i]) && page in Granted(calls[j])
    ensures exists k :: i < k < j && page in states[k].used - states[k + 1].used
                        && (calls[k].Free? || calls[k].FreeContiguous?)
  {
    BoundsKept(states, calls, i);
    BoundsKept(states, calls, j);
    StepKeeps(states[i], calls[i], states[i + 1]);
    StepKeeps(states[j], calls[j], states[j + 1]);
    var k := FindRelease(states, calls, i + 1, j, page);
    BoundsKept(states, calls, k);
    OnlyFreesRelease(states[k], calls[k], states[k + 1], page);
  }

  lemma SameModulo(x: int, y: int)
    requires Wrap(x) == Wrap(y) && 0 - 0x1_0000_0000_0000_0000 < x - y < 0x1_0000_0000_0000_0000
    ensures x == y
  {
  }

  /**
   The bits may outnumber the counter at the start, by an excess. The counter equals the bits minus that
   excess exactly as long as the bits cover it.
   */
  lemma CounterExact(states: seq<Frames>, calls: seq<Call>, i: nat, u0: nat, ui: nat)
    requires Run(states, calls) && i < |states| && Counts(u0, states[0]) && Counts(ui, states[i])
    requires u0 <= |states[0].used| < 0x1_0000_0000_0000_0000 && |states[i].used| < 0x1_0000_0000_0000_0000
    ensures ui == |states[i].used| - (|states[0].used| - u0) <==> |states[0].used| - u0 <= |states[i].used|
  {
    CounterConserved(states, calls, i, u0, ui);
    if |states[0].used| - u0 <= |states[i].used| {
      SameModulo(ui - |states[i].used|, u0 - |states[0].used|);
    }
  }

  // ---------------------------------------------------------------- giving back what was just allocated

  /**
   Freeing the frame just allocated restores the allocator, unless it is the lowest usable one: pmmFree refuses
   that, and it stays used.
   */
  lemma AllocateThenFree(s: Frames, s1: Frames, s2: Frames, addr: nat, status: int)
    requires FramesOk(s) && AllocateStep(s, s1, addr) && addr != 0 && FreeStep(s1, s2, addr, status)
    ensures status == 0 && s2 == s <==> addr != s.lowest
    ensures addr == s.lowest ==> status == -1 && s2 == s1
  {
    assert s1.used - {addr / 4096} == s.used;
    assert addr == addr / 4096 * 4096;
  }

  /** The same for a run of frames. */
  lemma AllocateThenFreeRun(s: Frames, s1: Frames, s2: Frames, addr: nat, count: nat, low: bool, status: int)
    requires FramesOk(s) && 0 < count && ContiguousStep(s, s1, count, low, addr) && addr != 0
    requires FreeContiguousStep(s1, s2, addr, count, status)
    ensures status == 0 && s2 == s <==> addr != s.lowest
    ensures addr == s.lowest ==> status == -1 && s2 == WithPage(s, FirstPage(s))
  {
    var run := PageRun(addr / 4096, count);
    var gone := Released(s1, addr, count);
    assert run !! s.used by {
      assert forall p | p in run :: FreePage(s, p);
    }
    forall p | p in run
      ensures p in gone <==> p * 4096 != s.lowest
    {
      assert FreePage(s, p);
    }
    if addr == s.lowest {
      assert FirstPage(s) in run && FirstPage(s) !in gone;
      assert s1.used - gone == s.used + {FirstPage(s)};
    } else {
      assert gone == run && s1.used - gone == s.used;
    }
  }

  /**
   PMM_CONTIGUOUS_LOW promises memory below the 4 GiB line. The bound only limits where a run
   starts, so the promise holds for every memory state exactly when at most two frames are asked.
   */
  lemma LowRunsStayLow(count: nat)
    requires count > 0
    ensures count <= 2 <==>
            forall s: Frames, s': Frames, r: nat |
                FramesOk(s) && count * 4096 <= s.highest && s.lowest < 0xFFFFF000 && r != 0
                && ContiguousStep(s, s', count, true, r) ::
              r + count * 4096 <= 0x1_0000_0000
  {
    if count <= 2 {
      forall s: Frames, s': Frames, r: nat |
          FramesOk(s) && count * 4096 <= s.highest && s.lowest < 0xFFFFF000 && r != 0
          && ContiguousStep(s, s', count, true, r)
        ensures r + count * 4096 <= 0x1_0000_0000
      {
        assert FreePage(s, r / 4096 + count - 1);
      }
    } else {
      var s, s' := LowRunCrosses(count);
    }
  }

  lemma LowRunCrosses(count: nat) returns (s: Frames, s': Frames)
    requires count > 2
    ensures FramesOk(s) && count * 4096 <= s.highest && s.lowest < 0xFFFFF000
    ensures ContiguousStep(s, s', count, true, 0xFFFFE000)
    ensures 0xFFFFE000 + count * 4096 > 0x1_0000_0000
  {
    s := Frames({}, 0, 0xFFFFE000, 0xFFFFE000 + count * 4096, 0xFFFFE + count);
    s' := WithRun(s, 0xFFFFE, count);
    assert Candidate(s, count, true, 0xFFFFE);
    assert RunFree(s, 0xFFFFE, count);
  }

  // ---------------------------------------------------------------- the search in 64-bit arithmetic

  const PAGES: nat := 0x10_0000_0000_0000

  /** How many frames of the run at p the search looks at; none when the end of the run wraps around below p. */
  function Tested(p: nat, count: nat): nat {
    var bound := (p + count) % PAGES;
    if bound < p then 0 else bound - p
  }

  /** The frames a run may start at, with the bound as the code computes it. */
  predicate Starts(s: Frames, count: nat, low: bool, p: nat) {
    p == FirstPage(s) || (FirstPage(s) < p && p * 4096 < SearchEnd(s.highest, count, low) % 0x1_0000_0000_0000_0000)
  }

  ghost predicate Accepted(s: Frames, count: nat, low: bool, p: nat) {
    && Starts(s, count, low, p) && RunFree(s, p, Tested(p, count))
    && forall q: nat | Starts(s, count, low, q) && q < p :: !RunFree(s, q, Tested(q, count))
  }

  /** A run that reaches the end of the address space has frames that do not exist. */
  lemma NotFree(s: Frames, p: nat, count: nat)
    requires s.highest <= 0x8000_0000_0000_0000 && 0 < count && s.highest <= (p + count - 1) * 4096
    ensures !RunFree(s, p, count)
  {
    assert !FreePage(s, p + count - 1);
  }

  /** The first run that is not looked at: it ends at 2^64, and every earlier one is too long for the memory. */
  lemma UntestedAccepted(s: Frames, count: nat, low: bool)
    requires FramesOk(s) && 0 < s.highest <= 0x8000_0000_0000_0000 && 0 < count < PAGES
    requires FirstPage(s) + count < PAGES && s.highest < count * 4096 && Starts(s, count, low, PAGES - count)
    ensures Accepted(s, count, low, PAGES - count) && !RunFree(s, PAGES - count, count)
  {
    NotFree(s, PAGES - count, count);
    forall q: nat | Starts(s, count, low, q) && q < PAGES - count
      ensures !RunFree(s, q, Tested(q, count))
    {
      NotFree(s, q, count);
    }
  }

  /** Every frame of the run that pmmAllocateContiguous accepts is free if and only if its search does not wrap around. */
  lemma AcceptedFreeIff(s: Frames, count: nat, low: bool)
    requires FramesOk(s) && s.lowest < 0x1_0000_0000_0000_0000 && 0 < s.highest <= 0x8000_0000_0000_0000 && 0 < count < PAGES
    ensures SearchEnds(s, count, low) <==> forall p: nat | Accepted(s, count, low, p) :: RunFree(s, p, count)
  {
    if SearchEnds(s, count, low) {
      forall p: nat | Accepted(s, count, low, p)
        ensures RunFree(s, p, count)
      {
        assert Tested(p, count) == count;
      }
    } else if FirstPage(s) + count >= PAGES {
      assert Tested(FirstPage(s), count) == 0;
      NotFree(s, FirstPage(s), count);
      assert Accepted(s, count, low, FirstPage(s));
    } else {
      UntestedAccepted(s, count, low);
    }
  }
}
