/** Which frames free() gives back. */
module HeapFrames {
  import opened Words
  import Frames
  import opened PageTable
  import opened Spaces
  import opened VirtualSteps
  import opened Contents
  import opened MemoryAccess
  import opened HeapSteps

  /** A present page at n sits in frame f, which pmmFree accepts. */
  ghost predicate Backs(s: Space, n: nat, f: nat) {
    LeafPage(s, n).p && LeafPage(s, n).frame == f && s.frames.lowest < f * 4096 < s.frames.highest
  }

  ghost predicate BacksOne(s: Space, b: nat, j: nat, f: nat) {
    exists n: nat :: b <= n < b + j && Backs(s, n, f)
  }

  /** What is used after j pages from b on were let go. */
  ghost predicate UsedAfter(s: Space, s': Space, b: nat, j: nat) {
    && s'.frames == s.frames.(used := s'.frames.used)
    && forall f :: f in s'.frames.used <==> f in s.frames.used && !BacksOne(s, b, j, f)
  }

  lemma OneMore(s: Space, b: nat, j: nat, f: nat)
    ensures BacksOne(s, b, j + 1, f) <==> BacksOne(s, b, j, f) || Backs(s, b + j, f)
  {
    if BacksOne(s, b, j, f) {
      var n: nat :| b <= n < b + j && Backs(s, n, f);
      assert b <= n < b + (j + 1);
    }
    if Backs(s, b + j, f) {
      assert b <= b + j < b + (j + 1);
    }
  }

  lemma UsedStep(s0: Space, s: Space, s': Space, b: nat, j: nat, ok: bool)
    requires Separated(s) && UsedAfter(s0, s, b, j) && FreeNth(s, s', b + j, ok)
    requires LeafPage(s, b + j) == LeafPage(s0, b + j) != ZERO
    ensures UsedAfter(s0, s', b, j + 1)
  {
    FreeReturns(s, s', PagePath(b + j), ok);
    forall f
      ensures f in s'.frames.used <==> f in s0.frames.used && !BacksOne(s0, b, j + 1, f)
    {
      OneMore(s0, b, j, f);
    }
  }

  lemma {:induction false} TraceFrames(trace: seq<Space>, b: nat, oks: seq<bool>, j: nat)
    requires FreeTrace(trace, b, oks) && j <= |oks| && Separated(trace[0])
    requires FIRST <= b && b + |oks| <= PAGES && RunUsed(trace[0], b, |oks|)
    ensures UsedAfter(trace[0], trace[j], b, j)
    decreases j
  {
    if j > 0 {
      var i := j - 1;
      TraceFrames(trace, b, oks, i);
      TraceUnmaps(trace, b, oks, i, b + i);
      TraceSeparated(trace, b, oks, i);
      assert FreeNth(trace[i], trace[i + 1], b + i, oks[i]);
      assert LeafPage(trace[0], b + i) != ZERO;
      UsedStep(trace[0], trace[i], trace[j], b, i, oks[i]);
    }
  }

  /**
   Freeing a block gives back the frame of every page of it that was present, and no other frame: what was used and is
   free afterwards is exactly the frames behind the block, apart from one that pmmFree refuses.
   */
  lemma FreeGivesBack(h: Heap, h': Heap, b: nat, trace: seq<Space>, oks: seq<bool>, f: nat)
    requires HeapOk(h) && b in h.blocks && FreeBlockStep(h, h', b, trace, oks)
    ensures f in h'.space.frames.used <==>
            f in h.space.frames.used && !BacksOne(h.space, b, h.blocks[b].pages, f)
  {
    assert BlockOk(h, b);
    assert RunUsed(h.space, b, |oks|) by {
      assert forall n: nat | b <= n < b + |oks| :: LivePage(LeafPage(h.space, n));
    }
    TraceFrames(trace, b, oks, |oks|);
  }
}
