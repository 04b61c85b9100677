/** Giving a table's whole subtree back to the frame allocator. */
module ReleaseSpec {
  import opened Words
  import opened Frames
  import opened PageTable
  import opened Spaces
  import opened VirtualSteps
  import opened CloneSpec

  ghost function NodeFrame(s: Space, q: Path): nat
    requires Node(s, q)
  {
    if q in s.tables then s.tables[q] else LeafOf(s, q).frame
  }

  /** Every node strictly below p sits in a used frame that pmmFree does not refuse. */
  ghost predicate Freeables(s: Space, p: Path, frames: Frames) {
    forall q {:trigger Node(s, q)} | Under(p, q) && q != p && Node(s, q) ::
      Freeable(frames, NodeFrame(s, q) * 4096)
  }

  /** The nodes strictly below p and its first k entries, with their frames. */
  ghost predicate Gone(s: Space, p: Path, k: nat, c: Tables) {
    && (forall q {:trigger q in c} {:trigger Node(s, q)} :: q in c <==> Reached(p, k, q) && q != p && Node(s, q))
    && forall q | q in c :: Node(s, q) && c[q] == NodeFrame(s, q)
  }

  /** A child's subtree and the child itself added to what is gone. */
  ghost function Joined(c: Tables, d: Tables, q: Path, f: nat): Tables {
    c + d + map[q := f]
  }

  /** What the recursion does, in order: reading an entry of a table, and giving a frame back. */
  datatype Event = Read(frame: nat) | Freed(frame: nat)

  /** A frame that was given back is neither read nor given back again. */
  ghost predicate InOrder(t: seq<Event>) {
    forall i, j :: 0 <= i < j < |t| && t[i].Freed? ==> t[j].frame != t[i].frame
  }

  /** The frames in `gone` are given back once each, and only they and the table `own` are read. */
  ghost predicate TraceOk(t: seq<Event>, own: nat, gone: set<nat>) {
    && InOrder(t)
    && (forall i :: 0 <= i < |t| ==> t[i].frame in gone || (t[i].Read? && t[i].frame == own))
    && (forall f :: f in gone ==> Freed(f) in t)
  }

  lemma ReadOwn(t: seq<Event>, own: nat, gone: set<nat>)
    requires TraceOk(t, own, gone) && own !in gone
    ensures TraceOk(t + [Read(own)], own, gone)
  {
  }

  /** First everything below a child, then the child's own frame. */
  lemma TraceJoins(t: seq<Event>, own: nat, gone: set<nat>, u: seq<Event>, child: nat, below: set<nat>)
    requires TraceOk(t, own, gone) && TraceOk(u, child, below)
    requires child !in gone && child !in below && gone !! below
    ensures TraceOk(t + u + [Freed(child)], own, gone + below + {child})
  {
    var r := t + u + [Freed(child)];
    forall f | f in gone + below + {child}
      ensures Freed(f) in r
    {
      assert r[|t| + |u|] == Freed(child);
      assert f in gone ==> Freed(f) in t;
      assert f in below ==> Freed(f) in u;
    }
  }

  /** The trace of frees alone: every frame of the subtree exactly once. */
  lemma FreedOnce(t: seq<Event>, own: nat, gone: set<nat>, f: nat)
    requires TraceOk(t, own, gone)
    ensures multiset(t)[Freed(f)] == if f in gone then 1 else 0
  {
    var e := Freed(f);
    if f in gone {
      var k :| 0 <= k < |t| && t[k] == e;
      assert t == t[..k] + [e] + t[k + 1..];
      assert e !in t[..k] && e !in t[k + 1..];
    } else {
      assert e !in t;
    }
  }

  lemma NodeFramesDistinct(s: Space, q: Path, r: Path)
    requires Separated(s) && Node(s, q) && Node(s, r) && NodeFrame(s, q) == NodeFrame(s, r)
    ensures q == r
  {
    assert q in s.tables ==> s.tables[q] in s.tables.Values;
    assert r in s.tables ==> s.tables[r] in s.tables.Values;
    assert q !in s.tables ==> DataFrame(s, q);
    assert r !in s.tables ==> DataFrame(s, r);
  }

  lemma GoneInjective(s: Space, p: Path, k: nat, c: Tables)
    requires Separated(s) && Gone(s, p, k, c)
    ensures Injective(c)
  {
    forall q, r | q in c && r in c && c[q] == c[r]
      ensures q == r
    {
      NodeFramesDistinct(s, q, r);
    }
  }

  /** The frames of other nodes are not among those given back. */
  lemma StillThere(s: Space, p: Path, k: nat, c: Tables, q: Path)
    requires Separated(s) && Gone(s, p, k, c) && Node(s, q) && q !in c
    ensures NodeFrame(s, q) !in c.Values
  {
    forall r | r in c
      ensures c[r] != NodeFrame(s, q)
    {
      if c[r] == NodeFrame(s, q) {
        NodeFramesDistinct(s, r, q);
      }
    }
  }

  lemma GoneNothing(s: Space, p: Path)
    ensures Gone(s, p, 0, map[])
  {
    forall q
      ensures !(Reached(p, 0, q) && q != p)
    {
      if Reached(p, 0, q) {
        assert q[..|p|] == q;
      }
    }
  }

  lemma GoneAbsent(s: Space, p: Path, k: nat, c: Tables)
    requires SpaceOk(s) && Gone(s, p, k, c) && !Node(s, p + [k])
    ensures Gone(s, p, k + 1, c)
  {
    forall q
      ensures q in c <==> Reached(p, k + 1, q) && q != p && Node(s, q)
    {
      ReachedNext(p, k, q);
      if Under(p + [k], q) {
        NothingBelow(s, p + [k], q);
      }
    }
  }

  lemma GonePresent(s: Space, p: Path, k: nat, c: Tables, d: Tables)
    requires SpaceOk(s) && Gone(s, p, k, c) && Gone(s, p + [k], 512, d) && Node(s, p + [k]) && k < 512
    ensures p + [k] !in c && p + [k] !in d && c.Keys !! d.Keys
    ensures Gone(s, p, k + 1, Joined(c, d, p + [k], NodeFrame(s, p + [k])))
  {
    var child := p + [k];
    assert child[..|child|] == child;
    forall q
      ensures (q in c || q in d || q == child) <==> Reached(p, k + 1, q) && q != p && Node(s, q)
      ensures !(q in c && q in d) && !(q in c && q == child)
    {
      ReachedNext(p, k, q);
      if Under(child, q) && Node(s, q) {
        NodeIndex(s, q, |p| + 1);
      }
    }
  }

  lemma NoNodeBelowPage(s: Space, q: Path, r: Path)
    requires SpaceOk(s) && LeafPath(q) && Under(q, r) && Node(s, r)
    ensures r == q
  {
    assert r in s.tables ==> Named(s.tables, r);
    assert r[..4] == q;
  }

  /** Below a page there is nothing more to give back. */
  lemma GonePage(s: Space, q: Path)
    requires SpaceOk(s) && LeafPath(q)
    ensures Gone(s, q, 512, map[])
  {
    forall r
      ensures !(Reached(q, 512, r) && r != q && Node(s, r))
    {
      if Reached(q, 512, r) && Node(s, r) {
        NoNodeBelowPage(s, q, r);
      }
    }
  }

  lemma MergedThree(c: Tables, d: Tables, q: Path, f: nat)
    requires c.Keys !! d.Keys && q !in c && q !in d
    ensures Joined(c, d, q, f).Values == c.Values + d.Values + {f}
  {
    var e := Joined(c, d, q, f);
    forall g
      ensures g in e.Values <==> g in c.Values || g in d.Values || g == f
    {
      if g in c.Values {
        var r :| r in c && c[r] == g;
        assert r in e && e[r] == g;
      }
      if g in d.Values {
        var r :| r in d && d[r] == g;
        assert r in e && e[r] == g;
      }
      assert q in e && e[q] == f;
    }
  }

  lemma {:induction false} ValuesCount(c: Tables)
    requires Injective(c)
    ensures |c.Values| == |c.Keys|
    decreases |c.Keys|
  {
    if c.Keys == {} {
      assert c.Values == {};
    } else {
      var q :| q in c;
      var d := map r | r in c && r != q :: c[r];
      assert d.Keys == c.Keys - {q};
      assert d.Values == c.Values - {c[q]} by {
        forall f
          ensures f in d.Values <==> f in c.Values && f != c[q]
        {
          if f in c.Values && f != c[q] {
            var r :| r in c && c[r] == f;
            assert r in d && d[r] == f;
          }
        }
      }
      ValuesCount(d);
    }
  }
}

/** freePT on the machine. */
module Releasing {
  import opened Words
  import opened Frames
  import opened PageTable
  import opened Spaces
  import opened Paging
  import opened VirtualSteps
  import opened CloneSpec
  import opened ReleaseSpec

  /** After some nodes are gone: their frames are free, all else is as it was. */
  ghost predicate Returned(a: Frames, v: Frames, c: Tables) {
    v == a.(used := a.used - c.Values) && c.Values <= a.used
  }

  method ReadEntry(m: Machine, f: nat, i: nat, ghost t: seq<Event>) returns (e: Word, ghost t': seq<Event>)
    requires f < |m.mem| && i < |m.mem[f]|
    ensures e == m.mem[f][i] && t' == t + [Read(f)]
  {
    e, t' := m.mem[f][i], t + [Read(f)];
  }

  method FreeFrame(m: Machine, frame: nat, ghost t: seq<Event>) returns (r: int, ghost t': seq<Event>)
    requires m.Backed()
    modifies m.pmm, m.pmm.bitmap
    ensures m.Backed() && FreeStep(old(m.pmm.frames), m.pmm.frames, frame * 4096, r) && t' == t + [Freed(frame)]
  {
    r := m.pmm.Free(frame * 4096);
    t' := t + [Freed(frame)];
  }

  lemma EntryFrame(s: Space, p: Path, i: nat)
    requires Separated(s) && p in s.tables && 1 <= |p| <= 3 && i < 512 && TableAt(s.mem, s.tables, p)
    requires s.mem[s.tables[p]][i].p
    ensures Node(s, p + [i]) && NodeFrame(s, p + [i]) == s.mem[s.tables[p]][i].frame
    ensures if |p| < 3 then p + [i] in s.tables else LeafPath(p + [i])
  {
    TablePath(s, p);
    EntryNode(s, p, i);
    assert p + [i] in s.tables ==> Named(s.tables, p + [i]);
  }

  /** What has not been given back yet can still be. */
  lemma FreeablesLeft(s: Space, p: Path, k: nat, c: Tables, a: Frames, v: Frames, child: Path)
    requires Separated(s) && Gone(s, p, k, c) && Freeables(s, p, a) && Returned(a, v, c) && child == p + [k]
    requires Node(s, child)
    ensures Freeables(s, child, v) && Freeable(v, NodeFrame(s, child) * 4096)
  {
    assert child[..|p|] == p && child[..|child|] == child;
    forall q | Under(child, q) && Node(s, q)
      ensures Freeable(v, NodeFrame(s, q) * 4096)
    {
      assert q[..|p|] == child[..|p|];
      ReachedNext(p, k, q);
      StillThere(s, p, k, c, q);
    }
  }

  /** One child: its subtree first, then its own frame. */
  lemma ReturnedMore(s: Space, p: Path, k: nat, c: Tables, d: Tables, a: Frames, v: Frames, v1: Frames, v2: Frames, r: int)
    requires Separated(s) && k < 512 && Gone(s, p, k, c) && Returned(a, v, c) && Node(s, p + [k])
    requires Freeable(v, NodeFrame(s, p + [k]) * 4096)
    requires Gone(s, p + [k], 512, d) && Returned(v, v1, d)
    requires FreeStep(v1, v2, NodeFrame(s, p + [k]) * 4096, r)
    ensures Gone(s, p, k + 1, Joined(c, d, p + [k], NodeFrame(s, p + [k])))
    ensures Returned(a, v2, Joined(c, d, p + [k], NodeFrame(s, p + [k])))
  {
    var child := p + [k];
    var f := NodeFrame(s, child);
    GonePresent(s, p, k, c, d);
    MergedThree(c, d, child, f);
    StillThere(s, child, 512, d, child);
    assert f * 4096 / 4096 == f;
    assert Freeable(v1, f * 4096);
    assert v2.used == a.used - (c.Values + d.Values + {f});
  }

  /** The table itself is not among what is below it. */
  lemma OwnFrameStays(s: Space, p: Path, k: nat, c: Tables, a: Frames, v: Frames)
    requires Separated(s) && p in s.tables && Gone(s, p, k, c) && Returned(a, v, c) && s.tables[p] in a.used
    ensures s.tables[p] in v.used
  {
    StillThere(s, p, k, c, p);
  }

  method FreeEntry(m: Machine, f: nat, depth: int, maxdepth: int, i: nat,
                   ghost s: Space, ghost a: Frames, ghost p: Path, ghost c: Tables, ghost t: seq<Event>)
    returns (ghost c': Tables, ghost t': seq<Event>)
    requires m.Backed() && Separated(s) && m.mem == s.mem && 0 <= depth <= maxdepth && i < 512
    requires p in s.tables && 1 <= |p| == 3 - (maxdepth - depth) && s.tables[p] == f && f in a.used && Freeables(s, p, a)
    requires Gone(s, p, i, c) && Returned(a, m.pmm.frames, c) && TraceOk(t, f, c.Values)
    modifies m.pmm, m.pmm.bitmap
    ensures m.Backed() && Gone(s, p, i + 1, c') && Returned(a, m.pmm.frames, c') && TraceOk(t', f, c'.Values)
    decreases maxdepth - depth, 2
  {
    ghost var v := m.pmm.frames;
    TablePath(s, p);
    EntryNode(s, p, i);
    OwnFrameStays(s, p, i, c, a, v);
    ReadOwn(t, f, c.Values);
    var e;
    e, t' := ReadEntry(m, f, i, t);
    c' := c;
    if e.p {
      EntryFrame(s, p, i);
      FreeablesLeft(s, p, i, c, a, v, p + [i]);
    }
    if e.p && e.frame != 0 && e.frame * 4096 < m.pmm.highest {
      c', t' := FreeChild(m, e.frame, depth, maxdepth, i, s, a, p, c, t', f);
    } else {
      GoneAbsent(s, p, i, c);
    }
  }

  /** The subtree below a present entry, then the frame the entry points to. */
  method FreeChild(m: Machine, frame: nat, depth: int, maxdepth: int, i: nat,
                   ghost s: Space, ghost a: Frames, ghost p: Path, ghost c: Tables, ghost t: seq<Event>, ghost own: nat)
    returns (ghost c': Tables, ghost t': seq<Event>)
    requires m.Backed() && Separated(s) && m.mem == s.mem && 0 <= depth <= maxdepth && i < 512
    requires 1 <= |p| == 3 - (maxdepth - depth) && Node(s, p + [i]) && NodeFrame(s, p + [i]) == frame
    requires if depth < maxdepth then p + [i] in s.tables else LeafPath(p + [i])
    requires Gone(s, p, i, c) && Returned(a, m.pmm.frames, c) && TraceOk(t, own, c.Values)
    requires Freeables(s, p + [i], m.pmm.frames) && Freeable(m.pmm.frames, frame * 4096)
    modifies m.pmm, m.pmm.bitmap
    ensures m.Backed() && Gone(s, p, i + 1, c') && Returned(a, m.pmm.frames, c') && TraceOk(t', own, c'.Values)
    decreases maxdepth - depth, 1
  {
    ghost var v := m.pmm.frames;
    assert frame * 4096 / 4096 == frame;
    ghost var d, u := FreeBelow(m, frame, depth, maxdepth, s, p + [i]);
    ghost var v1 := m.pmm.frames;
    var r;
    r, t' := FreeFrame(m, frame, t + u);
    ReturnedMore(s, p, i, c, d, a, v, v1, m.pmm.frames, r);
    TraceMore(s, p, i, c, d, v, t, own, u);
    c' := Joined(c, d, p + [i], frame);
  }

  /** The trace of one child follows what happened before it. */
  lemma TraceMore(s: Space, p: Path, k: nat, c: Tables, d: Tables, v: Frames, t: seq<Event>, own: nat, u: seq<Event>)
    requires Separated(s) && k < 512 && Gone(s, p, k, c) && Node(s, p + [k]) && Gone(s, p + [k], 512, d)
    requires d.Values <= v.used && v.used !! c.Values
    requires TraceOk(t, own, c.Values) && TraceOk(u, NodeFrame(s, p + [k]), d.Values)
    ensures TraceOk(t + u + [Freed(NodeFrame(s, p + [k]))], own, Joined(c, d, p + [k], NodeFrame(s, p + [k])).Values)
  {
    var child := p + [k];
    var f := NodeFrame(s, child);
    GonePresent(s, p, k, c, d);
    MergedThree(c, d, child, f);
    StillThere(s, child, 512, d, child);
    assert child !in c;
    StillThere(s, p, k, c, child);
    TraceJoins(t, own, c.Values, u, f, d.Values);
  }

  /** The recursive call for a table; a page has nothing below it. */
  method FreeBelow(m: Machine, frame: nat, depth: int, maxdepth: int, ghost s: Space, ghost child: Path)
    returns (ghost d: Tables, ghost u: seq<Event>)
    requires m.Backed() && Separated(s) && m.mem == s.mem && 0 <= depth <= maxdepth && 2 <= |child| == 4 - (maxdepth - depth)
    requires if depth < maxdepth then child in s.tables && s.tables[child] == frame else LeafPath(child)
    requires Freeables(s, child, m.pmm.frames) && frame in m.pmm.frames.used
    modifies m.pmm, m.pmm.bitmap
    ensures m.Backed() && Gone(s, child, 512, d) && Returned(old(m.pmm.frames), m.pmm.frames, d)
    ensures TraceOk(u, frame, d.Values)
    decreases maxdepth - depth, 0
  {
    if depth < maxdepth {
      d, u := FreePT(m, frame, depth + 1, maxdepth, s, child);
    } else {
      d, u := map[], [];
      GonePage(s, child);
      assert m.pmm.frames.used - {} == m.pmm.frames.used;
    }
  }

  /**
   freePT on a table that is as far above the pages as the depth below its maximum. It returns what it gave
   back and, in `t`, every read and every free in order.
   */
  method FreePT(m: Machine, f: nat, depth: int, maxdepth: int, ghost s: Space, ghost p: Path)
    returns (ghost c: Tables, ghost t: seq<Event>)
    requires m.Backed() && Separated(s) && m.mem == s.mem
    requires 0 <= depth <= maxdepth ==> p in s.tables && 1 <= |p| == 3 - (maxdepth - depth) && s.tables[p] == f
    requires 0 <= depth <= maxdepth ==> f in m.pmm.frames.used && Freeables(s, p, m.pmm.frames)
    modifies m.pmm, m.pmm.bitmap
    ensures m.Backed() && TraceOk(t, f, c.Values)
    ensures if 0 <= depth <= maxdepth then Gone(s, p, 512, c) && Returned(old(m.pmm.frames), m.pmm.frames, c)
            else m.pmm.frames == old(m.pmm.frames) && t == []
    decreases maxdepth - depth, 3
  {
    c, t := map[], [];
    if depth < 0 || depth > maxdepth {
      return;
    }
    ghost var a := m.pmm.frames;
    GoneNothing(s, p);
    assert a.used - {} == a.used;
    for i := 0 to 512
      invariant m.Backed() && Gone(s, p, i, c) && Returned(a, m.pmm.frames, c) && TraceOk(t, f, c.Values)
    {
      c, t := FreeEntry(m, f, depth, maxdepth, i, s, a, p, c, t);
    }
  }

  /** The counter drops by exactly the number of tables and pages below, and they are all free now. */
  lemma FreePTCounts(s: Space, p: Path, a: Frames, v: Frames, c: Tables, before: nat, after: nat)
    requires Separated(s) && Gone(s, p, 512, c) && Returned(a, v, c)
    requires Counts(before, a) && Counts(after, v)
    ensures |v.used| == |a.used| - |c.Keys| && after == Wrap(before - |c.Keys|)
  {
    GoneInjective(s, p, 512, c);
    ValuesCount(c);
    assert |a.used - c.Values| == |a.used| - |c.Values|;
    CountsDrop(before, after, a, v, |c.Keys|);
  }

  lemma CountsDrop(before: nat, after: nat, a: Frames, v: Frames, n: nat)
    requires Counts(before, a) && Counts(after, v) && |v.used| == |a.used| - n && v.slack == a.slack
    ensures after == Wrap(before - n)
  {
    WrapAdd(|a.used| + a.slack, 0 - n);
  }

  /** Every table and page below was given back, and no frame but theirs. */
  lemma FreePTExact(s: Space, p: Path, a: Frames, v: Frames, c: Tables, f: nat)
    requires Separated(s) && Gone(s, p, 512, c) && Returned(a, v, c) && f in a.used
    ensures f !in v.used <==> exists q :: Node(s, q) && Under(p, q) && q != p && NodeFrame(s, q) == f
  {
    if f in c.Values {
      var q :| q in c && c[q] == f;
      assert Node(s, q) && Under(p, q) && q != p && NodeFrame(s, q) == f;
    }
    forall q | Node(s, q) && Under(p, q) && q != p && NodeFrame(s, q) == f
      ensures f in c.Values
    {
      NodeIndex(s, q, |p|);
      assert q[..|p|] == p;
      assert Reached(p, 512, q);
      assert c[q] in c.Values;
    }
  }
}
