/**
 Every mapping and every vmmAllocate call has an outcome in every address space, so what holds for all
 outcomes is not vacuous, and spaces with given pages in use can be built.
 */
module Outcomes {
  import opened Words
  import Frames
  import opened PageTable
  import opened Addresses
  import opened Spaces
  import opened VirtualSteps

  /** An allocator with `spare` free frames behind the one in use. */
  function EmptyFrames(spare: nat): Frames.Frames {
    Frames.Frames({1}, 0, 4096, 4096 * (spare + 2), spare + 2)
  }

  lemma SpareFrames(spare: nat)
    ensures |Frames.FreePages(EmptyFrames(spare))| == spare
  {
    if spare == 0 {
      assert Frames.FreePages(EmptyFrames(0)) == {};
    } else {
      SpareFrames(spare - 1);
      forall p: nat
        ensures p in Frames.FreePages(EmptyFrames(spare)) <==> p in Frames.FreePages(EmptyFrames(spare - 1)) || p == spare + 1
      {
        assert Frames.FreePage(EmptyFrames(spare), p) <==> p != 1 && p < spare + 2;
        assert Frames.FreePage(EmptyFrames(spare - 1), p) <==> p != 1 && p < spare + 1;
      }
      assert Frames.FreePages(EmptyFrames(spare)) == Frames.FreePages(EmptyFrames(spare - 1)) + {spare + 1};
    }
  }

  /** An address space with nothing but its root. */
  ghost function EmptySpace(spare: nat): Space {
    Space(seq(spare + 2, _ => Zeros()), map[[] := 1], 1, EmptyFrames(spare))
  }

  lemma EmptySpaceOk(spare: nat)
    ensures Separated(EmptySpace(spare)) && |Frames.FreePages(EmptySpace(spare).frames)| == spare
    ensures forall q | LeafPath(q) :: LeafOf(EmptySpace(spare), q) == ZERO
  {
    var s := EmptySpace(spare);
    assert TableAt(s.mem, s.tables, []) && Named(s.tables, []);
    assert s.tables.Values == {1};
    forall i | IndexOk([], i)
      ensures EntryOk(s.mem, s.tables, [], i)
    {
      assert [] + [i] != [];
    }
    forall q | LeafPath(q)
      ensures LeafOf(s, q) == ZERO && DataFrame(s, q)
    {
      assert q[..3] != [];
    }
    SpareFrames(spare);
  }

  lemma OneTaken(f: Frames.Frames, g: nat)
    requires g in Frames.FreePages(f)
    ensures |Frames.FreePages(Frames.WithPage(f, g))| + 1 == |Frames.FreePages(f)|
  {
    Frames.FreeShrinks(f, f.used + {g});
    assert Frames.FreePages(Frames.WithPage(f, g)) == Frames.FreePages(f) - {g};
  }

  /** One more table, if a frame is free. */
  lemma TableOutcome(s: Space, p: Path, i: nat) returns (s': Space, ok: bool)
    requires SpaceOk(s) && p in s.tables && |p| < 3 && IndexOk(p, i) && p + [i] !in s.tables
    ensures GrowStep(s, s') && SameLeaves(s, s')
    ensures if ok then p + [i] in s'.tables && |Frames.FreePages(s'.frames)| + 1 == |Frames.FreePages(s.frames)|
            else s' == s && Frames.FreePages(s.frames) == {}
  {
    if Frames.FreePages(s.frames) == {} {
      GrowRefl(s);
      return s, false;
    }
    var g :| g in Frames.FreePages(s.frames);
    AttachGrows(s, p, i, g);
    OneTaken(s.frames, g);
    s', ok := Attached(s, p, i, g), true;
  }

  /** The tables on the way to a page, as far as the free frames go. */
  lemma {:induction false} Deepened(s: Space, q: Path, k: nat) returns (s': Space, ok: bool)
    requires SpaceOk(s) && LeafPath(q) && k <= 3
    ensures GrowStep(s, s') && SameLeaves(s, s')
    ensures ok ==> q[..k] in s'.tables && |Frames.FreePages(s'.frames)| + k >= |Frames.FreePages(s.frames)|
    ensures !ok ==> Frames.FreePages(s'.frames) == {} && |Frames.FreePages(s.frames)| < k
    ensures q[..k] in s.tables ==> ok && s' == s
  {
    if q[..k] in s.tables {
      GrowRefl(s);
      return s, true;
    }
    var s1;
    s1, ok := Deepened(s, q, k - 1);
    s' := s1;
    assert q[..k - 1] + [q[k - 1]] == q[..k];
    if ok && q[..k] !in s1.tables {
      s', ok := TableOutcome(s1, q[..k - 1], q[k - 1]);
      GrowTrans(s, s1, s');
    }
  }

  lemma MapOutcome(s: Space, q: Path, w: Word) returns (s': Space, ok: bool)
    requires SpaceOk(s) && LeafPath(q)
    ensures MapStep(s, s', q, w, ok)
    ensures |Frames.FreePages(s'.frames)| + 3 >= |Frames.FreePages(s.frames)|
    ensures |Frames.FreePages(s.frames)| >= 3 ==> ok
  {
    var s1;
    s1, ok := Deepened(s, q, 3);
    if ok {
      LeafWriteMaps(s, s1, q, w);
      s' := LeafWritten(s1, q, w);
    } else {
      s' := s1;
    }
  }

  /** A space in which all pages of a run are in use. */
  lemma {:induction false} FilledSpace(first: nat, count: nat, spare: nat) returns (s: Space)
    requires forall n: nat | first <= n < first + count :: LeafPath(PagePath(n))
    ensures SpaceOk(s) && |Frames.FreePages(s.frames)| >= spare
    ensures forall n: nat | first <= n < first + count :: LeafPage(s, n) != ZERO
  {
    if count == 0 {
      EmptySpaceOk(spare);
      s := EmptySpace(spare);
    } else {
      var s0 := FilledSpace(first, count - 1, spare + 3);
      var ok;
      s, ok := MapOutcome(s0, PagePath(first + count - 1), UNMAPPED);
      forall n: nat | first <= n < first + count
        ensures LeafPage(s, n) != ZERO
      {
        assert LeafPage(s, n) == LeafOf(s, PagePath(n));
        assert n < first + count - 1 ==> LeafPage(s0, n) != ZERO;
      }
    }
  }

  /** The mapping loop of vmmAllocate, continued behind `done` pages. */
  lemma {:induction false} ReserveOutcome(s: Space, s1: Space, first: nat, done: nat, count: nat, w: Word, stretch: nat)
    returns (s': Space, all: nat)
    requires ReserveStep(s, s1, first, done, w) && done <= count && first + done <= PAGES
    requires RunOk(first, count, stretch)
    ensures all <= count && first + all <= PAGES + 1 && ReserveStep(s, s', first, all, w)
    ensures all < count ==> Stopped(s, s', first, all)
    ensures |Frames.FreePages(s1.frames)| >= 3 * (count - done) && first + count <= PAGES ==>
              all == count && |Frames.FreePages(s'.frames)| + 3 * (count - done) >= |Frames.FreePages(s1.frames)|
    decreases count - done
  {
    s', all := s1, done;
    if done < count {
      RunPage(first, count, stretch, first + done);
      var s2, ok := MapOutcome(s1, PagePath(first + done), w);
      ReserveGrows(s, s1, s2, first, done, w, ok);
      if !ok {
        s' := s2;
      } else if first + done == PAGES {
        s', all := s2, done + 1;
      } else {
        s', all := ReserveOutcome(s, s2, first, done + 1, count, w, stretch);
      }
    }
  }

  lemma {:induction false} FirstPassing(s: Space, base: nat, limit: nat, count: nat, n: nat) returns (first: nat)
    requires Start(base, limit, count, n) && Passes(s, n, count)
    ensures FirstFit(s, base, limit, count, first)
    decreases n
  {
    if k: nat :| k < n && Start(base, limit, count, k) && Passes(s, k, count) {
      first := FirstPassing(s, base, limit, count, k);
    } else {
      first := n;
    }
  }

  /** The run that was found, reserved; with three frames for each page it is reserved completely. */
  lemma GrantOutcome(s: Space, base: nat, limit: nat, count: nat, first: nat, w: Word, stretch: nat)
    returns (s': Space, g: Grant, r: nat)
    requires SpaceOk(s) && Searchable(base, limit, count, stretch) && FirstFit(s, base, limit, count, first)
    ensures AllocateStep(s, s', base, limit, count, w, g, r) && g.Run? && g.first == first
    ensures |Frames.FreePages(s.frames)| >= 3 * count && first + count <= PAGES ==>
              r == first * 4096 && |Frames.FreePages(s'.frames)| + 3 * count >= |Frames.FreePages(s.frames)|
  {
    RunSearchable(base, limit, count, stretch, first);
    ReserveNone(s, first, w);
    var done;
    s', done := ReserveOutcome(s, s, first, 0, count, w, stretch);
    g, r := Run(first, done), if done == count && first + count <= PAGES then first * 4096 else 0;
  }

  lemma AllocateOutcome(s: Space, base: nat, limit: nat, count: nat, w: Word, stretch: nat)
    returns (s': Space, g: Grant, r: nat)
    requires SpaceOk(s) && Searchable(base, limit, count, stretch)
    ensures AllocateStep(s, s', base, limit, count, w, g, r)
  {
    if n: nat :| Start(base, limit, count, n) && Passes(s, n, count) {
      var first := FirstPassing(s, base, limit, count, n);
      s', g, r := GrantOutcome(s, base, limit, count, first, w, stretch);
    } else {
      s', g, r := s, NoRun, 0;
    }
  }

  /** A fault on a reserved page is served whenever a frame is free. */
  lemma FaultOutcome(s: Space, q: Path, a: Access) returns (s': Space, g: nat)
    requires SpaceOk(s) && LeafPath(q)
    ensures FaultStep(s, s', q, a, g)
    ensures !a.present && Reserved(LeafOf(s, q)) && Allows(LeafOf(s, q), a) && Frames.FreePages(s.frames) != {} ==> g != 0
    ensures |Frames.FreePages(s'.frames)| + 1 >= |Frames.FreePages(s.frames)|
  {
    var w := LeafOf(s, q);
    if !a.present && Reserved(w) && Allows(w, a) && Frames.FreePages(s.frames) != {} {
      g :| g in Frames.FreePages(s.frames);
      OneTaken(s.frames, g);
      var ok;
      s', ok := MapOutcome(s.(frames := Frames.WithPage(s.frames, g)), q, Supplied(w, g));
    } else {
      s', g := s, 0;
    }
  }
}
