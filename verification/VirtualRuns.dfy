/** What holds over every run of vmmAllocate, vmmPageFault and page-wise vmmFree calls. */
module VirtualRuns {
  import opened Words
  import Frames
  import opened PageTable
  import opened Spaces
  import opened VirtualSteps
  import opened Outcomes

  datatype Call =
    | Allocate(base: nat, limit: nat, count: nat, req: Request, word: Word, stretch: nat, grant: Grant, result: nat)
    | Fault(q: Path, access: Access, frame: nat)
    | FreePage(q: Path, ok: bool)

  ghost predicate Step(s: Space, c: Call, s': Space) {
    match c
    case Allocate(base, limit, count, req, w, stretch, g, r) =>
      && Within(s, base, limit, count, stretch)
      && Asked(w, req) && AllocateStep(s, s', base, limit, count, w, g, r)
    case Fault(q, a, frame) => LeafPath(q) && FaultStep(s, s', q, a, frame)
    case FreePage(q, ok) => LeafPath(q) && FreePageStep(s, s', q, ok)
  }

  ghost predicate Run(states: seq<Space>, calls: seq<Call>) {
    && |states| == |calls| + 1
    && Separated(states[0])
    && forall i | 0 <= i < |calls| :: StepAt(states, calls, i)
  }

  ghost predicate StepAt(states: seq<Space>, calls: seq<Call>, i: nat)
    requires i < |calls| && |states| == |calls| + 1
  {
    Step(states[i], calls[i], states[i + 1])
  }

  /** The paths a call reserved. */
  ghost function ReservedBy(c: Call): set<Path> {
    if c.Allocate? && c.grant.Run? then RunPaths(c.grant.first, c.grant.done) else {}
  }

  ghost function FreedBy(c: Call): set<Path> {
    if c.FreePage? then {c.q} else {}
  }

  /** A search whose bounds wrap around may reserve pages that are in use. */
  ghost function OverwrittenBy(c: Call): set<Path> {
    if c.Allocate? && !Sound(c.base, c.limit, c.count) then ReservedBy(c) else {}
  }

  /** The pages of a run that a sound search found were all unused. */
  lemma GrantUnused(s: Space, c: Call, s': Space, u: Path)
    requires Step(s, c, s') && u in ReservedBy(c) && LeafPath(u) && u !in OverwrittenBy(c)
    ensures LeafOf(s, u) == ZERO
  {
    var n :| c.grant.first <= n < c.grant.first + c.grant.done && PagePath(n) == u;
    SoundTests(c.base, c.limit, c.count, c.grant.first);
    assert LeafPage(s, n) == ZERO;
  }

  lemma StepSeparates(s: Space, c: Call, s': Space)
    requires Separated(s) && Step(s, c, s')
    ensures Separated(s') && KeepsPages(s, s', FreedBy(c) + OverwrittenBy(c))
  {
    match c
    case Allocate(base, limit, count, req, w, stretch, g, r) =>
      match g {
        case NoRun =>
          forall u | LeafPath(u)
            ensures DataFrame(s, u)
          {
          }
        case Run(first, done) =>
          ReserveOverwrites(s, s', first, done, w);
          forall u | u in ReservedBy(c) && LeafPath(u) && u !in OverwrittenBy(c)
            ensures LeafOf(s, u) == ZERO
          {
            GrantUnused(s, c, s', u);
          }
      }
    case Fault(q, a, frame) =>
      FaultSeparates(s, s', q, a, frame);
    case FreePage(q, ok) =>
      FreeSeparates(s, s', q, ok);
  }

  /**
   Over every run: no two present pages share a frame, no present page uses a frame that holds a
   page table, and all these frames are marked used in the bitmap.
   */
  lemma {:induction false} RunsStaySeparated(states: seq<Space>, calls: seq<Call>, i: nat)
    requires Run(states, calls) && i < |states|
    ensures Separated(states[i])
  {
    if i > 0 {
      RunsStaySeparated(states, calls, i - 1);
      assert StepAt(states, calls, i - 1);
      StepSeparates(states[i - 1], calls[i - 1], states[i]);
    }
  }

  /** Over every run: the processor grants exactly what the leaf of a page allows, whatever tables lie above it. */
  lemma AccessOverRuns(states: seq<Space>, calls: seq<Call>, i: nat, u: Path)
    requires Run(states, calls) && i < |states| && LeafPath(u)
    ensures Translate(states[i].mem, states[i].root, u) == Allowed(LeafOf(states[i], u))
  {
    RunsStaySeparated(states, calls, i);
    AccessIsLeaf(states[i], u);
  }

  /** A call leaves every leaf it is not about alone, and never empties one. */
  lemma StepKeepsUsed(s: Space, c: Call, s': Space, u: Path)
    requires Separated(s) && Step(s, c, s') && LeafPath(u)
    ensures LeafOf(s, u) != ZERO ==> LeafOf(s', u) != ZERO
    ensures LeafOf(s, u) == UNMAPPED && u !in OverwrittenBy(c) ==> LeafOf(s', u) == UNMAPPED
    ensures u in ReservedBy(c) ==> LeafOf(s', u) == c.word
  {
    match c
    case Allocate(base, limit, count, req, w, stretch, g, r) =>
      if u in ReservedBy(c) && u !in OverwrittenBy(c) {
        GrantUnused(s, c, s', u);
      }
    case Fault(q, a, frame) =>
      FaultSeparates(s, s', q, a, frame);
    case FreePage(q, ok) =>
      FreeSeparates(s, s', q, ok);
  }

  /** Used pages stay used, and guard or unmapped pages stay refused unless a wrapped search overwrites them. */
  lemma {:induction false} UsedForever(states: seq<Space>, calls: seq<Call>, i: nat, j: nat, u: Path)
    requires Run(states, calls) && i <= j < |states| && LeafPath(u)
    ensures LeafOf(states[i], u) != ZERO ==> LeafOf(states[j], u) != ZERO
    ensures LeafOf(states[i], u) == UNMAPPED && (forall k | i <= k < j :: u !in OverwrittenBy(calls[k])) ==>
              LeafOf(states[j], u) == UNMAPPED
    decreases j - i
  {
    if i < j {
      RunsStaySeparated(states, calls, i);
      assert StepAt(states, calls, i);
      StepKeepsUsed(states[i], calls[i], states[i + 1], u);
      UsedForever(states, calls, i + 1, j, u);
    }
  }

  lemma ReservedIsUsed(states: seq<Space>, calls: seq<Call>, i: nat, j: nat, u: Path)
    requires Run(states, calls) && i < j < |calls| && u in ReservedBy(calls[i]) && LeafPath(u)
    ensures LeafOf(states[j], u) != ZERO
  {
    RunsStaySeparated(states, calls, i);
    assert StepAt(states, calls, i);
    StepKeepsUsed(states[i], calls[i], states[i + 1], u);
    UsedForever(states, calls, i + 1, j, u);
  }

  /** An allocation with a sound search overlaps no earlier one, not even one that was freed. */
  lemma AllocationsDisjoint(states: seq<Space>, calls: seq<Call>, i: nat, j: nat)
    requires Run(states, calls) && i < j < |calls|
    requires calls[j].Allocate? ==> Sound(calls[j].base, calls[j].limit, calls[j].count)
    ensures forall u | u in ReservedBy(calls[i]) && LeafPath(u) :: u !in ReservedBy(calls[j])
  {
    forall u | u in ReservedBy(calls[i]) && LeafPath(u) && u in ReservedBy(calls[j])
      ensures false
    {
      ReservedIsUsed(states, calls, i, j, u);
      assert StepAt(states, calls, j);
      GrantUnused(states[j], calls[j], states[j + 1], u);
    }
  }

  /** A present page keeps its leaf, its frame and its contents until it is freed itself or a wrapped search takes it. */
  lemma {:induction false} ContentsSurvive(states: seq<Space>, calls: seq<Call>, i: nat, j: nat, u: Path)
    requires Run(states, calls) && i <= j < |states| && LeafPath(u) && LeafOf(states[i], u).p
    requires forall k | i <= k < j :: u !in FreedBy(calls[k]) + OverwrittenBy(calls[k])
    ensures LeafOf(states[j], u) == LeafOf(states[i], u)
    ensures LeafOf(states[i], u).frame < |states[i].mem| == |states[j].mem|
    ensures states[j].mem[LeafOf(states[i], u).frame] == states[i].mem[LeafOf(states[i], u).frame]
    decreases j - i
  {
    RunsStaySeparated(states, calls, i);
    if i < j {
      assert StepAt(states, calls, i) && u !in FreedBy(calls[i]) + OverwrittenBy(calls[i]);
      StepSeparates(states[i], calls[i], states[i + 1]);
      assert LeafOf(states[i + 1], u) == LeafOf(states[i], u);
      ContentsSurvive(states, calls, i + 1, j, u);
    } else {
      assert DataFrame(states[i], u);
    }
  }

  // ---------------------------------------------------------------- where present pages come from

  /** A page becomes present only by a fault on a reservation that allows the access. */
  lemma PresentOnlyByFault(s: Space, c: Call, s': Space, u: Path)
    requires Separated(s) && Step(s, c, s') && LeafPath(u) && !LeafOf(s, u).p && LeafOf(s', u).p
    ensures c.Fault? && c.q == u && c.frame != 0 && Reserved(LeafOf(s, u)) && Allows(LeafOf(s, u), c.access)
    ensures LeafOf(s', u) == Supplied(LeafOf(s, u), c.frame)
  {
    match c
    case Allocate(base, limit, count, req, w, stretch, g, r) =>
    case Fault(q, a, frame) =>
      FaultSeparates(s, s', q, a, frame);
    case FreePage(q, ok) =>
      FreeSeparates(s, s', q, ok);
  }

  /** A reservation is the mark of an allocation: no other call leaves one. */
  lemma ReservedByCall(s: Space, c: Call, s': Space, u: Path)
    requires Separated(s) && Step(s, c, s') && LeafPath(u) && Reserved(LeafOf(s', u))
    ensures if u in ReservedBy(c) then LeafOf(s', u) == c.word else LeafOf(s, u) == LeafOf(s', u)
  {
    match c
    case Allocate(base, limit, count, req, w, stretch, g, r) =>
    case Fault(q, a, frame) =>
      FaultSeparates(s, s', q, a, frame);
    case FreePage(q, ok) =>
      FreeSeparates(s, s', q, ok);
  }

  ghost predicate StemsFrom(c: Call, w: Word, u: Path) {
    u in ReservedBy(c) && w == c.word
  }

  lemma ReservedJustBefore(states: seq<Space>, calls: seq<Call>, i: nat, u: Path)
    requires Run(states, calls) && i < |calls| && LeafPath(u) && Reserved(LeafOf(states[i + 1], u))
    ensures if u in ReservedBy(calls[i]) then StemsFrom(calls[i], LeafOf(states[i + 1], u), u)
            else LeafOf(states[i], u) == LeafOf(states[i + 1], u)
  {
    RunsStaySeparated(states, calls, i);
    assert StepAt(states, calls, i);
    ReservedByCall(states[i], calls[i], states[i + 1], u);
  }

  /** The allocation a reservation stems from, with the attributes that it asked for. */
  lemma {:induction false} ReservedEarlier(states: seq<Space>, calls: seq<Call>, i: nat, u: Path) returns (k: nat)
    requires Run(states, calls) && i < |states| && LeafPath(u)
    requires !Reserved(LeafOf(states[0], u)) && Reserved(LeafOf(states[i], u))
    ensures k < i && StemsFrom(calls[k], LeafOf(states[i], u), u)
  {
    ReservedJustBefore(states, calls, i - 1, u);
    if u in ReservedBy(calls[i - 1]) {
      k := i - 1;
    } else {
      k := ReservedEarlier(states, calls, i - 1, u);
    }
  }

  lemma FaultMadePresent(states: seq<Space>, calls: seq<Call>, i: nat, u: Path)
    requires Run(states, calls) && i < |calls| && LeafPath(u) && !LeafOf(states[i], u).p && LeafOf(states[i + 1], u).p
    ensures SpaceOk(states[i + 1])
    ensures calls[i].Fault? && calls[i].q == u && Reserved(LeafOf(states[i], u)) && Allows(LeafOf(states[i], u), calls[i].access)
    ensures LeafOf(states[i + 1], u) == Supplied(LeafOf(states[i], u), calls[i].frame)
  {
    RunsStaySeparated(states, calls, i);
    RunsStaySeparated(states, calls, i + 1);
    assert StepAt(states, calls, i);
    PresentOnlyByFault(states[i], calls[i], states[i + 1], u);
  }

  lemma AskedEarlier(states: seq<Space>, calls: seq<Call>, k: nat)
    requires Run(states, calls) && k < |calls| && calls[k].Allocate?
    ensures Asked(calls[k].word, calls[k].req)
  {
    assert StepAt(states, calls, k);
  }

  /** A reservation that was served is reached with the rights that were asked for. */
  lemma SuppliedAccess(s: Space, u: Path, w: Word, frame: nat, req: Request, a: Access)
    requires SpaceOk(s) && LeafPath(u) && Asked(w, req) && LeafOf(s, u) == Supplied(w, frame) && Allows(w, a)
    ensures LeafOf(s, u).nc == req.noCache && LeafOf(s, u).wt == req.noCache
    ensures (a.write ==> req.write) && (a.user ==> req.user) && (a.fetch ==> req.exec)
    ensures Translate(s.mem, s.root, u) == Page(frame, req.write, req.user, req.exec)
  {
    AccessIsLeaf(s, u);
  }

  /**
   Over every run: a page that becomes present lies in the run of an earlier allocation, the access
   is one that allocation asked for, and so are the page's permissions.
   */
  lemma PresentWasReserved(states: seq<Space>, calls: seq<Call>, i: nat, u: Path) returns (k: nat)
    requires Run(states, calls) && i < |calls| && LeafPath(u) && !Reserved(LeafOf(states[0], u))
    requires !LeafOf(states[i], u).p && LeafOf(states[i + 1], u).p
    ensures k < i && u in ReservedBy(calls[k]) && calls[k].Allocate? && calls[i].Fault? && calls[i].q == u
    ensures var req, a, w := calls[k].req, calls[i].access, LeafOf(states[i + 1], u);
            && w.nc == req.noCache && w.wt == req.noCache
            && (a.write ==> req.write) && (a.user ==> req.user) && (a.fetch ==> req.exec)
            && Translate(states[i + 1].mem, states[i + 1].root, u) == Page(calls[i].frame, req.write, req.user, req.exec)
  {
    FaultMadePresent(states, calls, i, u);
    k := ReservedEarlier(states, calls, i, u);
    AskedEarlier(states, calls, k);
    SuppliedAccess(states[i + 1], u, LeafOf(states[i], u), calls[i].frame, calls[k].req, calls[i].access);
  }

  // ---------------------------------------------------------------- exact conditions of the search

  /**
   vmmAllocate tries the base before it looks at the limit. A granted run lies below the limit in
   every address space if and only if the request fits between base and limit.
   */
  lemma RunsBelowLimit(base: nat, limit: nat, count: nat)
    requires 0 < count && base < PAGES && limit < PAGES
    ensures base + count <= limit <==>
            forall s: Space, first: nat | SpaceOk(s) && FirstFit(s, base, limit, count, first) :: first + count <= limit
  {
    if base + count <= limit {
      forall s: Space, first: nat | SpaceOk(s) && FirstFit(s, base, limit, count, first)
        ensures first + count <= limit
      {
      }
    } else {
      EmptySpaceOk(0);
      var s := EmptySpace(0);
      assert Passes(s, base, count);
      assert FirstFit(s, base, limit, count, base);
    }
  }

  /** A space in which the search grants a run that is in use, whenever its bounds wrap around. */
  lemma UnsoundGrant(base: nat, limit: nat, count: nat, stretch: nat) returns (s: Space, first: nat)
    requires Searchable(base, limit, count, stretch) && !Sound(base, limit, count)
    ensures SpaceOk(s) && FirstFit(s, base, limit, count, first) && !RunUnused(s, first, count)
  {
    if base + count >= PAGES {
      EmptySpaceOk(3);
      var last := PAGES - 1;
      assert PageOk(last, stretch);
      var ok;
      s, ok := MapOutcome(EmptySpace(3), PagePath(last), UNMAPPED);
      first := base;
      assert LeafPage(s, last) == UNMAPPED;
      forall n: nat | base <= n < base + Tested(base, count)
        ensures LeafPage(s, n) == ZERO
      {
        assert PageOk(n, stretch);
        if PagePath(n) == PagePath(last) {
          PagePathInjective(n, last, stretch);
        }
      }
    } else {
      forall n: nat | base <= n < PAGES
        ensures LeafPath(PagePath(n))
      {
        assert PageOk(n, stretch);
      }
      s := FilledSpace(base, PAGES - base, 0);
      first := FirstPassing(s, base, limit, count, PAGES - count);
      assert LeafPage(s, first) != ZERO;
    }
  }

  /**
   Every page of a granted run was unused, in every address space, if and only if the run at the base
   ends below 2^64 and the request does not exceed the limit. (With limit zero the last start wraps
   around to one whose run just fits.)
   */
  lemma GrantedUnusedIff(base: nat, limit: nat, count: nat, stretch: nat)
    requires Searchable(base, limit, count, stretch)
    ensures Sound(base, limit, count) <==>
            forall s: Space, first: nat | SpaceOk(s) && FirstFit(s, base, limit, count, first) :: RunUnused(s, first, count)
  {
    if Sound(base, limit, count) {
      forall s: Space, first: nat | SpaceOk(s) && FirstFit(s, base, limit, count, first)
        ensures RunUnused(s, first, count)
      {
        SoundTests(base, limit, count, first);
      }
    } else {
      var s, first := UnsoundGrant(base, limit, count, stretch);
    }
  }

  /** In every space whose first page has its table, a request that wraps around takes that page, used or not. */
  lemma WrapOverwrites(s: Space, s': Space, base: nat, limit: nat, count: nat, w: Word, g: Grant, r: nat)
    requires LeafPath(PagePath(base)) && PagePath(base)[..3] in s.tables && 0 < base < PAGES
    requires PAGES <= base + count && count < PAGES && AllocateStep(s, s', base, limit, count, w, g, r)
    ensures g.Run? && g.first == base && 0 < g.done && LeafPage(s', base) == w
  {
    assert Tested(base, count) == 0;
    assert Start(base, limit, count, base) && Passes(s, base, count);
  }

  /** Requests of the kernel heap, of whatever size, search pages of the upper half only. */
  lemma HeapSearch(count: nat)
    ensures Searchable(FIRST, LAST, count, 0xFFFF)
  {
    forall n: nat | FIRST <= n < PAGES
      ensures PageOk(n, 0xFFFF)
    {
      HeapPage(n);
    }
  }

  lemma RunGrows(states: seq<Space>, calls: seq<Call>, s: Space, c: Call, s': Space)
    requires Run(states, calls) && s == states[|calls|] && Step(s, c, s')
    ensures Run(states + [s'], calls + [c])
  {
    var states', calls' := states + [s'], calls + [c];
    forall i | 0 <= i < |calls'|
      ensures StepAt(states', calls', i)
    {
      assert i < |calls| ==> StepAt(states, calls, i);
    }
  }

  const HEAP_REQUEST: Request := Request(false, false, true, false)
  const HEAP_WORD: Word := LazyWord(NO_FLAGS.(write := true))

  /** A page of the heap region, reserved on its own. */
  lemma OneReservation(q: Path) returns (s0: Space, c: Call, s1: Space)
    requires q == PagePath(FIRST)
    ensures Separated(s0) && Step(s0, c, s1) && Frames.FreePages(s1.frames) != {}
    ensures LeafPath(q) && LeafOf(s1, q) == HEAP_WORD
  {
    HeapSearch(1);
    HeapPage(FIRST);
    EmptySpaceOk(4);
    s0 := EmptySpace(4);
    var ok;
    s1, ok := MapOutcome(s0, q, HEAP_WORD);
    ReserveNone(s0, FIRST, HEAP_WORD);
    ReserveGrows(s0, s0, s1, FIRST, 0, HEAP_WORD, ok);
    c := Allocate(FIRST, LAST, 1, HEAP_REQUEST, HEAP_WORD, 0xFFFF, VirtualSteps.Run(FIRST, 1), FIRST * 4096);
  }

  /** A reserved page, supplied by a fault. */
  lemma PageSupplied(s: Space, q: Path) returns (s': Space, c: Call)
    requires Separated(s) && Frames.FreePages(s.frames) != {} && LeafPath(q) && LeafOf(s, q) == HEAP_WORD
    ensures Step(s, c, s') && LeafOf(s', q).p
  {
    var write, g := Access(false, false, true, false), 0;
    assert Reserved(HEAP_WORD) && Allows(HEAP_WORD, write);
    s', g := FaultOutcome(s, q, write);
    FaultSeparates(s, s', q, write, g);
    c := Fault(q, write, g);
  }

  lemma ReservedRun(q: Path) returns (states: seq<Space>, calls: seq<Call>)
    requires q == PagePath(FIRST)
    ensures Run(states, calls) && |calls| == 1 && Frames.FreePages(states[1].frames) != {}
    ensures LeafPath(q) && LeafOf(states[1], q) == HEAP_WORD
  {
    var s0, c, s1 := OneReservation(q);
    RunGrows([s0], [], s0, c, s1);
    states, calls := [s0] + [s1], [] + [c];
  }

  lemma OneLivePage(q: Path) returns (states: seq<Space>, calls: seq<Call>)
    requires q == PagePath(FIRST)
    ensures Run(states, calls) && |calls| == 2 && LeafPath(q) && LeafOf(states[2], q).p
  {
    states, calls := ReservedRun(q);
    RunsStaySeparated(states, calls, 1);
    var s, c := PageSupplied(states[1], q);
    RunGrows(states, calls, states[1], c, s);
    states, calls := states + [s], calls + [c];
  }

  lemma Overwritten(s: Space, q: Path) returns (s': Space, c: Call)
    requires SpaceOk(s) && q == PagePath(FIRST) && LeafPath(q) && LeafOf(s, q).p
    ensures Step(s, c, s') && !LeafOf(s', q).p
    ensures c.Allocate? && (c.base, c.limit, c.count) == (FIRST, LAST, 0x7_1000_0000)
  {
    HeapSearch(0x7_1000_0000);
    var g, r;
    s', g, r := AllocateOutcome(s, FIRST, LAST, 0x7_1000_0000, HEAP_WORD, 0xFFFF);
    WrapOverwrites(s, s', FIRST, LAST, 0x7_1000_0000, HEAP_WORD, g, r);
    c := Allocate(FIRST, LAST, 0x7_1000_0000, HEAP_REQUEST, HEAP_WORD, 0xFFFF, g, r);
  }

  /**
   The request that breaks `ContentsSurvive`: 0x7_1000_0000 pages from the kernel heap base reach 2^64. The
   page at the base is live, nobody frees it, and after the call it is gone.
   */
  lemma LivePageLost() returns (states: seq<Space>, calls: seq<Call>)
    ensures Run(states, calls) && |calls| == 3 && LeafPath(PagePath(FIRST))
    ensures calls[2].Allocate? && (calls[2].base, calls[2].limit, calls[2].count) == (FIRST, LAST, 0x7_1000_0000)
    ensures LeafOf(states[2], PagePath(FIRST)).p && !LeafOf(states[3], PagePath(FIRST)).p
  {
    var q := PagePath(FIRST);
    states, calls := OneLivePage(q);
    RunsStaySeparated(states, calls, 2);
    var s, c := Overwritten(states[2], q);
    RunGrows(states, calls, states[2], c, s);
    states, calls := states + [s], calls + [c];
  }
}
