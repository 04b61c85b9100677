/** What a deep clone of a subtree is: fresh frames for every table and present page below a path. */
module CloneSpec {
  import opened Words
  import opened Frames
  import opened PageTable
  import opened Spaces

  predicate Under(p: Path, q: Path) {
    |p| <= |q| && q[..|p|] == p
  }

  /** The part of the subtree at p that lies below its first k entries, and p itself. */
  predicate Reached(p: Path, k: nat, q: Path) {
    Under(p, q) && (|q| > |p| ==> q[|p|] < k)
  }

  /** What gets a frame of its own in the clone: tables and present pages. */
  ghost predicate Node(s: Space, q: Path) {
    q in s.tables || (LeafPath(q) && LeafOf(s, q).p)
  }

  /** The entry a clone holds for a present entry: same permissions, new frame. */
  function CopyWord(depth: nat, e: Word, f: nat): Word {
    if depth == 3 then LeafLowFlags(e, f) else LowFlags(e, f)
  }

  ghost predicate EntryCloned(s: Space, mem: Mem, c: Tables, q: Path, i: nat)
    requires TableAt(s.mem, s.tables, q) && TableAt(mem, c, q) && i < 512
  {
    var e := s.mem[s.tables[q]][i];
    if e.p then
      q + [i] in c && mem[c[q]][i] == CopyWord(|q|, e, c[q + [i]])
    else
      mem[c[q]][i] == ZERO
  }

  /** One cloned node; of the subtree's own root only the first k entries are done. */
  ghost predicate NodeCloned(s: Space, mem: Mem, p: Path, k: nat, c: Tables, q: Path) {
    && TableAt(mem, c, q)
    && if |q| == 4 then
         LeafPath(q) && LeafOf(s, q).frame < |s.mem| && mem[c[q]] == s.mem[LeafOf(s, q).frame]
       else
         && TableAt(s.mem, s.tables, q)
         && forall i: nat | i < 512 && (q == p ==> i < k) :: EntryCloned(s, mem, c, q, i)
  }

  ghost predicate Cloned(s: Space, mem: Mem, p: Path, k: nat, c: Tables) {
    && (forall q {:trigger q in c} {:trigger Node(s, q)} :: q in c <==> Reached(p, k, q) && Node(s, q))
    && Injective(c)
    && forall q {:trigger NodeCloned(s, mem, p, k, c, q)} | q in c :: NodeCloned(s, mem, p, k, c, q)
  }

  // ---------------------------------------------------------------- paths

  lemma ReachedNext(p: Path, k: nat, q: Path)
    ensures Reached(p, k + 1, q) <==> Reached(p, k, q) || Under(p + [k], q)
    ensures !(Reached(p, k, q) && Under(p + [k], q))
  {
    if |q| > |p| {
      assert q[..|p| + 1] == q[..|p|] + [q[|p|]];
      assert (p + [k])[..|p|] == p && (p + [k])[|p|] == k;
    }
  }

  /** Below an entry without a table there is no node. */
  lemma {:induction false} NothingBelow(s: Space, p: Path, q: Path)
    requires SpaceOk(s) && 0 < |p| && !Node(s, p) && Under(p, q)
    ensures !Node(s, q)
    decreases |q|
  {
    if |q| > |p| {
      var parent := q[..|q| - 1];
      assert parent[..|p|] == q[..|p|];
      NothingBelow(s, p, parent);
      assert q in s.tables ==> Named(s.tables, q);
      assert |q| == 4 ==> q[..3] == parent;
    } else {
      assert q == p;
    }
  }

  /** A present entry of a table is what makes the node below it. */
  lemma EntryNode(s: Space, p: Path, i: nat)
    requires SpaceOk(s) && p in s.tables && IndexOk(p, i) && |p| <= 3
    requires |p| == 3 ==> LeafPath(p + [i])
    ensures TableAt(s.mem, s.tables, p)
    ensures s.mem[s.tables[p]][i].p <==> Node(s, p + [i])
    ensures |p| < 3 && s.mem[s.tables[p]][i].p ==> s.mem[s.tables[p]][i].frame == s.tables[p + [i]] != 0
    ensures |p| == 3 ==> LeafOf(s, p + [i]) == s.mem[s.tables[p]][i]
  {
    assert TableAt(s.mem, s.tables, p);
    assert (p + [i])[..|p|] == p && (p + [i])[|p|] == i;
    if |p| < 3 {
      assert EntryOk(s.mem, s.tables, p, i);
      if p + [i] in s.tables {
        assert TableAt(s.mem, s.tables, p + [i]);
      }
    } else {
      assert p + [i] in s.tables ==> Named(s.tables, p + [i]);
    }
  }

  /** Table names that lead to leaf paths. */
  lemma TablePath(s: Space, p: Path)
    requires SpaceOk(s) && p in s.tables
    ensures |p| <= 3 && forall i | 0 <= i < |p| :: p[i] < 512
    ensures p != [] ==> p[0] != 256
    decreases |p|
  {
    assert Named(s.tables, p);
    if p != [] {
      TablePath(s, p[..|p| - 1]);
      assert |p| > 1 ==> p[0] == p[..|p| - 1][0];
    }
  }

  // ---------------------------------------------------------------- steps of the cloning loop

  /** A clone only looks at its own frames. */
  lemma ClonedElsewhere(s: Space, mem: Mem, mem': Mem, p: Path, k: nat, c: Tables)
    requires Cloned(s, mem, p, k, c) && |mem'| == |mem|
    requires forall f | f in c.Values && f < |mem| :: mem'[f] == mem[f]
    ensures Cloned(s, mem', p, k, c)
  {
    forall q | q in c
      ensures NodeCloned(s, mem', p, k, c, q)
    {
      assert NodeCloned(s, mem, p, k, c, q);
      assert c[q] in c.Values;
      if |q| != 4 {
        forall i: nat | i < 512 && (q == p ==> i < k)
          ensures EntryCloned(s, mem', c, q, i)
        {
          assert EntryCloned(s, mem, c, q, i);
        }
      }
    }
  }

  /** The empty start: a frame for the table itself, no entry done yet. */
  lemma CloneStarts(s: Space, mem: Mem, p: Path, g: nat)
    requires SpaceOk(s) && p in s.tables && 0 < g < |mem| && |mem[g]| == 512
    ensures Cloned(s, mem, p, 0, map[p := g])
  {
    var c := map[p := g];
    assert TableAt(s.mem, s.tables, p) && Named(s.tables, p);
    assert NodeCloned(s, mem, p, 0, c, p);
    forall q
      ensures q in c <==> Reached(p, 0, q) && Node(s, q)
    {
      if Reached(p, 0, q) {
        assert q[..|p|] == q;
      }
    }
  }

  /** A present page cloned on its own. */
  lemma PageCloned(s: Space, mem: Mem, q: Path, g: nat)
    requires SpaceOk(s) && LeafPath(q) && LeafOf(s, q).p && LeafOf(s, q).frame < |s.mem|
    requires 0 < g < |mem| && mem[g] == s.mem[LeafOf(s, q).frame] && |mem[g]| == 512
    ensures Cloned(s, mem, q, 512, map[q := g])
  {
    var c := map[q := g];
    assert NodeCloned(s, mem, q, 512, c, q);
    forall u
      ensures u in c <==> Reached(q, 512, u) && Node(s, u)
    {
      if Reached(q, 512, u) && Node(s, u) {
        assert u in s.tables ==> Named(s.tables, u);
        assert u[..4] == u;
      }
    }
  }

  /** An entry that is not present is cleared in the clone. */
  lemma AbsentDone(s: Space, mem: Mem, p: Path, k: nat, c: Tables)
    requires SpaceOk(s) && Cloned(s, mem, p, k, c) && p in s.tables && IndexOk(p, k) && |p| <= 3
    requires |p| == 3 ==> LeafPath(p + [k])
    requires TableAt(s.mem, s.tables, p) && !s.mem[s.tables[p]][k].p && TableAt(mem, c, p)
    ensures Cloned(s, Write(mem, c[p], k, ZERO), p, k + 1, c)
  {
    var mem' := Write(mem, c[p], k, ZERO);
    EntryNode(s, p, k);
    forall q
      ensures q in c <==> Reached(p, k + 1, q) && Node(s, q)
    {
      ReachedNext(p, k, q);
      if Under(p + [k], q) {
        NothingBelow(s, p + [k], q);
      }
    }
    forall q | q in c
      ensures NodeCloned(s, mem', p, k + 1, c, q)
    {
      assert NodeCloned(s, mem, p, k, c, q);
      assert c[q] == c[p] ==> q == p;
      if |q| != 4 {
        forall i: nat | i < 512 && (q == p ==> i < k + 1)
          ensures EntryCloned(s, mem', c, q, i)
        {
          assert q == p ==> i == k || EntryCloned(s, mem, c, q, i);
          assert q != p ==> EntryCloned(s, mem, c, q, i);
        }
      }
    }
  }

  /** A present entry is done once the subtree below it is cloned into frames of its own. */
  lemma PresentDone(s: Space, mem: Mem, p: Path, k: nat, c: Tables, d: Tables)
    requires SpaceOk(s) && Cloned(s, mem, p, k, c) && Cloned(s, mem, p + [k], 512, d)
    requires p in s.tables && |p| <= 3 && IndexOk(p, k) && c.Values !! d.Values
    requires TableAt(s.mem, s.tables, p) && s.mem[s.tables[p]][k].p && TableAt(mem, c, p) && p + [k] in d
    ensures Cloned(s, Write(mem, c[p], k, CopyWord(|p|, s.mem[s.tables[p]][k], d[p + [k]])), p, k + 1, c + d)
  {
    var mem' := Write(mem, c[p], k, CopyWord(|p|, s.mem[s.tables[p]][k], d[p + [k]]));
    PresentKeys(s, mem, p, k, c, d);
    forall q | q in c + d
      ensures NodeCloned(s, mem', p, k + 1, c + d, q)
    {
      if q in c {
        PresentOwn(s, mem, p, k, c, d, q);
      } else {
        PresentBelow(s, mem, p, k, c, d, q);
      }
    }
    MergedInjective(c, d);
  }

  lemma MergedInjective(c: Tables, d: Tables)
    requires Injective(c) && Injective(d) && c.Values !! d.Values
    ensures Injective(c + d)
  {
    forall q, r | q in c + d && r in c + d && (c + d)[q] == (c + d)[r]
      ensures q == r
    {
      assert q in c ==> c[q] in c.Values;
      assert r in c ==> c[r] in c.Values;
      assert q in d ==> d[q] in d.Values;
      assert r in d ==> d[r] in d.Values;
    }
  }

  lemma PresentKeys(s: Space, mem: Mem, p: Path, k: nat, c: Tables, d: Tables)
    requires Cloned(s, mem, p, k, c) && Cloned(s, mem, p + [k], 512, d) && SpaceOk(s)
    ensures forall q {:trigger q in c + d} {:trigger Node(s, q)} :: q in c + d <==> Reached(p, k + 1, q) && Node(s, q)
    ensures c.Keys !! d.Keys
  {
    forall q
      ensures q in c + d <==> Reached(p, k + 1, q) && Node(s, q)
      ensures !(q in c && q in d)
    {
      ReachedNext(p, k, q);
      if Under(p + [k], q) && Node(s, q) {
        NodeIndex(s, q, |p| + 1);
      }
    }
  }

  /** Every index on the path of a node is below 512. */
  lemma NodeIndex(s: Space, q: Path, i: nat)
    requires SpaceOk(s) && Node(s, q)
    ensures i < |q| ==> q[i] < 512
  {
    if q in s.tables {
      TablePath(s, q);
    }
  }

  lemma PresentOwn(s: Space, mem: Mem, p: Path, k: nat, c: Tables, d: Tables, q: Path)
    requires Cloned(s, mem, p, k, c) && Cloned(s, mem, p + [k], 512, d) && c.Keys !! d.Keys && q in c && |p| <= 3
    requires TableAt(s.mem, s.tables, p) && k < 512 && s.mem[s.tables[p]][k].p && TableAt(mem, c, p) && p + [k] in d
    ensures NodeCloned(s, Write(mem, c[p], k, CopyWord(|p|, s.mem[s.tables[p]][k], d[p + [k]])), p, k + 1, c + d, q)
  {
    var mem' := Write(mem, c[p], k, CopyWord(|p|, s.mem[s.tables[p]][k], d[p + [k]]));
    assert NodeCloned(s, mem, p, k, c, q);
    assert c[q] == c[p] ==> q == p;
    if |q| != 4 {
      forall i: nat | i < 512 && (q == p ==> i < k + 1)
        ensures EntryCloned(s, mem', c + d, q, i)
      {
        assert q == p ==> i == k || EntryCloned(s, mem, c, q, i);
        assert q != p ==> EntryCloned(s, mem, c, q, i);
      }
    }
  }

  lemma PresentBelow(s: Space, mem: Mem, p: Path, k: nat, c: Tables, d: Tables, q: Path)
    requires Cloned(s, mem, p, k, c) && Cloned(s, mem, p + [k], 512, d) && c.Keys !! d.Keys && c.Values !! d.Values && q in d
    requires TableAt(s.mem, s.tables, p) && k < 512 && s.mem[s.tables[p]][k].p && TableAt(mem, c, p) && p + [k] in d
    ensures NodeCloned(s, Write(mem, c[p], k, CopyWord(|p|, s.mem[s.tables[p]][k], d[p + [k]])), p, k + 1, c + d, q)
  {
    var mem' := Write(mem, c[p], k, CopyWord(|p|, s.mem[s.tables[p]][k], d[p + [k]]));
    assert NodeCloned(s, mem, p + [k], 512, d, q);
    assert d[q] in d.Values && c[p] in c.Values;
    assert q != p;
    if |q| != 4 {
      forall i: nat | i < 512
        ensures EntryCloned(s, mem', c + d, q, i)
      {
        assert EntryCloned(s, mem, d, q, i);
      }
    }
  }

  // ---------------------------------------------------------------- frames taken and frames needed

  /** From a to b frames were taken and only they were written. */
  ghost predicate Fresh(a: Space, b: Space) {
    && b.root == a.root && b.tables == a.tables && |b.mem| == |a.mem| && MemOk(b.mem)
    && b.frames == a.frames.(used := b.frames.used)
    && a.frames.used <= b.frames.used
    && b.frames.used - a.frames.used <= FreePages(a.frames)
    && forall f | 0 <= f < |a.mem| && f !in b.frames.used - a.frames.used :: b.mem[f] == a.mem[f]
  }

  lemma FreshTrans(a: Space, b: Space, c: Space)
    requires Fresh(a, b) && Fresh(b, c)
    ensures Fresh(a, c)
  {
    FreeShrinks(a.frames, b.frames.used);
    assert FreePages(b.frames) <= FreePages(a.frames);
    assert c.frames.used - a.frames.used <= (c.frames.used - b.frames.used) + (b.frames.used - a.frames.used);
    assert forall f | 0 <= f < |a.mem| && f !in c.frames.used - a.frames.used ::
        f !in c.frames.used - b.frames.used && f !in b.frames.used - a.frames.used;
  }

  /** Taking and writing fresh frames leaves the space itself intact. */
  lemma FreshKeepsSpace(a: Space, b: Space)
    requires SpaceOk(a) && Fresh(a, b) && b.frames.highest <= 4096 * |b.mem|
    ensures SpaceOk(b)
    ensures forall q | LeafPath(q) :: LeafOf(b, q) == LeafOf(a, q)
  {
    assert forall f | f in b.frames.used :: f in a.frames.used || f in FreePages(a.frames);
    forall q | q in a.tables
      ensures TableAt(b.mem, b.tables, q) && b.mem[a.tables[q]] == a.mem[a.tables[q]] && Named(b.tables, q)
    {
      assert TableAt(a.mem, a.tables, q) && Named(a.tables, q);
      assert a.tables[q] in a.tables.Values;
    }
    forall q, i | q in b.tables && |q| < 3 && IndexOk(q, i)
      ensures EntryOk(b.mem, b.tables, q, i)
    {
      assert EntryOk(a.mem, a.tables, q, i);
    }
    forall q | LeafPath(q)
      ensures LeafOf(b, q) == LeafOf(a, q)
    {
      if q[..3] in a.tables {
        assert TableAt(a.mem, a.tables, q[..3]) && TableAt(b.mem, b.tables, q[..3]);
      }
    }
  }

  ghost function Available(s: Space): nat {
    |FreePages(s.frames)|
  }

  lemma TakeIsFresh(a: Space, b: Space, g: nat)
    requires SpaceOk(a) && TakeStep(a, b, g)
    ensures Fresh(a, b)
    ensures g == 0 <==> Available(a) == 0
    ensures g != 0 ==> Available(b) == Available(a) - 1 && g !in a.frames.used && 0 < g < |b.mem| && g in b.frames.used
  {
    if g != 0 {
      FreeShrinks(a.frames, a.frames.used + {g});
      assert FreePages(b.frames) == FreePages(a.frames) - {g};
      assert g * 4096 >= a.frames.lowest > 0;
    }
  }

  /** The recurrence of the recursion: one frame for a table, per entry one more for a page or a spare. */
  ghost function LayerCost(mem: Mem, f: nat, layer: nat): nat
    requires layer <= 2
    decreases 3 - layer, 513
  {
    1 + EntriesCost(mem, f, layer, 512)
  }

  ghost function EntriesCost(mem: Mem, f: nat, layer: nat, k: nat): nat
    requires layer <= 2 && k <= 512
    decreases 3 - layer, k
  {
    if k == 0 || f >= |mem| || |mem[f]| != 512 || !mem[f][k - 1].p then
      if k == 0 then 0 else EntriesCost(mem, f, layer, k - 1)
    else
      EntriesCost(mem, f, layer, k - 1) + 1 + if layer == 2 then 0 else LayerCost(mem, mem[f][k - 1].frame, layer + 1)
  }

  lemma {:induction false} EntriesCostGrows(mem: Mem, f: nat, layer: nat, j: nat, k: nat)
    requires layer <= 2 && j <= k <= 512
    ensures EntriesCost(mem, f, layer, j) <= EntriesCost(mem, f, layer, k)
    decreases k
  {
    if j < k {
      EntriesCostGrows(mem, f, layer, j, k - 1);
    }
  }

  // ---------------------------------------------------------------- running out of frames

  /** A present entry that points to physical frame zero. */
  predicate DirectHole(mem: Mem, f: nat, i: nat) {
    f < |mem| && i < |mem[f]| && mem[f][i].p && mem[f][i].frame == 0
  }

  ghost predicate Hole(mem: Mem, f: nat, layer: nat, i: nat, old_: set<nat>) {
    DirectHole(mem, f, i)
    || (layer == 0 && f < |mem| && i < |mem[f]| && mem[f][i].p && mem[f][i].frame !in old_ && mem[f][i].frame != f
        && exists j: nat | j < 512 :: DirectHole(mem, mem[f][i].frame, j))
  }

  /** A table, outside the frames `old_`, with an interior entry at or below it that leads to frame zero. */
  ghost predicate Broken(mem: Mem, f: nat, layer: nat, old_: set<nat>) {
    f !in old_ && exists i: nat | i < 512 :: Hole(mem, f, layer, i, old_)
  }
}

/** clonePagingLayer and platformCloneUserSpace on the machine. */
module Cloning {
  import opened Words
  import opened Frames
  import opened PageTable
  import opened Spaces
  import opened Paging
  import opened CloneSpec

  /** The parent: a well-formed space whose present pages sit in used frames. */
  ghost predicate Parent(s: Space) {
    SpaceOk(s) && forall q | LeafPath(q) && LeafOf(s, q).p :: LeafOf(s, q).frame in s.frames.used && LeafOf(s, q).frame < |s.mem|
  }

  /**
   The cloning loop of one table after k entries. `a` is the state when the table's clone was
   started. As long as the frames sufficed, the clone is right so far; otherwise they are used up
   and an entry written already leads to frame zero.
   */
  ghost predicate Progress(s: Space, a: Space, v: Space, p: Path, layer: nat, k: nat, g: nat, c: Tables)
    requires layer <= 2 && k <= 512
  {
    && Fresh(a, v) && g in v.frames.used - a.frames.used && 0 < g < |v.mem| && |v.mem[g]| == 512
    && p in s.tables
    && var need := 1 + EntriesCost(s.mem, s.tables[p], layer, k);
       if need <= Available(a) then
         Cloned(s, v.mem, p, k, c) && p in c && c[p] == g
         && c.Values <= v.frames.used - a.frames.used && Available(v) == Available(a) - need
       else
         Available(v) == 0 && layer < 2 && exists i: nat | i < k :: Hole(v.mem, g, layer, i, a.frames.used)
  }

  /** The outcome of cloning one table. */
  ghost predicate Outcome(s: Space, a: Space, v: Space, p: Path, layer: nat, r: nat, c: Tables)
    requires layer <= 2
  {
    && Fresh(a, v)
    && p in s.tables
    && var need := LayerCost(s.mem, s.tables[p], layer);
       if need <= Available(a) then
         Cloned(s, v.mem, p, 512, c) && p in c && c[p] == r && r != 0
         && c.Values <= v.frames.used - a.frames.used && Available(v) == Available(a) - need
       else
         Available(v) == 0 && (r == 0 || (layer < 2 && Broken(v.mem, r, layer, a.frames.used)))
  }

  lemma ProgressStarts(s: Space, a: Space, v: Space, p: Path, layer: nat, g: nat)
    requires Parent(s) && SpaceOk(a) && layer <= 2 && p in s.tables
    requires TakeStep(a, v, g) && g != 0
    ensures Progress(s, a, v, p, layer, 0, g, map[p := g])
  {
    TakeIsFresh(a, v, g);
    CloneStarts(s, v.mem, p, g);
  }

  /** The loop goes on, or the layer has given up. */
  ghost predicate Stage(s: Space, a: Space, v: Space, p: Path, layer: nat, k: nat, g: nat, c: Tables, ok: bool)
    requires layer <= 2 && k <= 512
  {
    if ok then Progress(s, a, v, p, layer, k, g, c) else Outcome(s, a, v, p, layer, 0, c)
  }

  lemma StageEnds(s: Space, a: Space, v: Space, p: Path, layer: nat, k: nat, g: nat, c: Tables, ok: bool)
    requires layer <= 2 && k <= 512 && Stage(s, a, v, p, layer, k, g, c, ok) && (ok ==> k == 512)
    ensures Outcome(s, a, v, p, layer, if ok then g else 0, c)
  {
    if ok {
      ProgressEnds(s, a, v, p, layer, g, c);
    }
  }

  lemma ProgressEnds(s: Space, a: Space, v: Space, p: Path, layer: nat, g: nat, c: Tables)
    requires layer <= 2 && Progress(s, a, v, p, layer, 512, g, c)
    ensures Outcome(s, a, v, p, layer, g, c)
  {
  }

  /** The state after one word of a fresh frame was written. */
  ghost function Written(v: Space, g: nat, i: nat, w: Word): Space
    requires g < |v.mem| && i < |v.mem[g]|
  {
    v.(mem := Write(v.mem, g, i, w))
  }

  lemma WrittenFresh(a: Space, v: Space, g: nat, i: nat, w: Word)
    requires Fresh(a, v) && g in v.frames.used - a.frames.used && g < |v.mem| && i < |v.mem[g]|
    ensures Fresh(a, Written(v, g, i, w))
  {
  }

  /** The entry the loop looks at, and the cost it adds. */
  lemma EntryFacts(s: Space, p: Path, layer: nat, k: nat)
    requires Parent(s) && layer <= 2 && k < 512 && p in s.tables && |p| == layer + 1
    ensures TableAt(s.mem, s.tables, p) && IndexOk(p, k) && (|p| == 3 ==> LeafPath(p + [k]))
    ensures var e := s.mem[s.tables[p]][k];
            EntriesCost(s.mem, s.tables[p], layer, k + 1)
            == EntriesCost(s.mem, s.tables[p], layer, k)
               + if !e.p then 0 else 1 + if layer == 2 then 0 else LayerCost(s.mem, e.frame, layer + 1)
    ensures EntriesCost(s.mem, s.tables[p], layer, k + 1) <= EntriesCost(s.mem, s.tables[p], layer, 512)
  {
    assert TableAt(s.mem, s.tables, p);
    TablePath(s, p);
    EntriesCostGrows(s.mem, s.tables[p], layer, k + 1, 512);
  }

  lemma AbsentProgress(s: Space, a: Space, v: Space, p: Path, layer: nat, k: nat, g: nat, c: Tables)
    requires Parent(s) && layer <= 2 && k < 512 && |p| == layer + 1 && Progress(s, a, v, p, layer, k, g, c)
    requires TableAt(s.mem, s.tables, p) && !s.mem[s.tables[p]][k].p
    ensures Progress(s, a, Written(v, g, k, ZERO), p, layer, k + 1, g, c)
  {
    EntryFacts(s, p, layer, k);
    WrittenFresh(a, v, g, k, ZERO);
    var v' := Written(v, g, k, ZERO);
    if 1 + EntriesCost(s.mem, s.tables[p], layer, k) <= Available(a) {
      assert NodeCloned(s, v.mem, p, k, c, p);
      AbsentDone(s, v.mem, p, k, c);
    } else {
      var i: nat :| i < k && Hole(v.mem, g, layer, i, a.frames.used);
      HoleStays(v.mem, g, layer, i, k, ZERO, a.frames.used);
    }
  }

  lemma HoleStays(mem: Mem, g: nat, layer: nat, i: nat, k: nat, w: Word, old_: set<nat>)
    requires Hole(mem, g, layer, i, old_) && g < |mem| && k < |mem[g]| && k != i
    ensures Hole(Write(mem, g, k, w), g, layer, i, old_)
  {
    var mem': Mem := Write(mem, g, k, w);
    if !DirectHole(mem, g, i) {
      var j: nat :| j < 512 && DirectHole(mem, mem[g][i].frame, j);
      assert DirectHole(mem', mem'[g][i].frame, j);
    }
  }

  /** A frame was wanted for a present entry and there was none. */
  lemma RunsOut(s: Space, a: Space, v: Space, p: Path, layer: nat, k: nat, g: nat, c: Tables)
    requires Parent(s) && layer <= 2 && k < 512 && |p| == layer + 1 && Progress(s, a, v, p, layer, k, g, c)
    requires TableAt(s.mem, s.tables, p) && s.mem[s.tables[p]][k].p && Available(v) == 0
    ensures Outcome(s, a, v, p, layer, 0, map[])
  {
    EntryFacts(s, p, layer, k);
  }

  /** A present page: its own frame, its contents, its permissions. */
  lemma PageProgress(s: Space, a: Space, v: Space, v1: Space, p: Path, k: nat, g: nat, c: Tables, f: nat)
    requires Parent(s) && k < 512 && |p| == 3 && Progress(s, a, v, p, 2, k, g, c) && SpaceOk(v)
    requires TableAt(s.mem, s.tables, p) && s.mem[s.tables[p]][k].p
    requires TakeStep(v, v1, f) && f != 0
    ensures s.mem[s.tables[p]][k].frame < |s.mem|
    ensures var e := s.mem[s.tables[p]][k];
            var v2 := v1.(mem := v1.mem[f := s.mem[e.frame]]);
            Progress(s, a, Written(v2, g, k, LeafLowFlags(e, f)), p, 2, k + 1, g, c + map[p + [k] := f])
  {
    EntryFacts(s, p, 2, k);
    TakeIsFresh(v, v1, f);
    EntryNode(s, p, k);
    var e := s.mem[s.tables[p]][k];
    assert |s.mem[e.frame]| == 512;
    var v2 := v1.(mem := v1.mem[f := s.mem[e.frame]]);
    assert Fresh(v, v2);
    FreshTrans(a, v, v2);
    WrittenFresh(a, v2, g, k, LeafLowFlags(e, f));
    assert f !in c.Values;
    ClonedElsewhere(s, v.mem, v2.mem, p, k, c);
    PageCloned(s, v2.mem, p + [k], f);
    var d := map[p + [k] := f];
    assert d.Values == {f};
    assert NodeCloned(s, v2.mem, p, k, c, p);
    PresentDone(s, v2.mem, p, k, c, d);
    MergedValues(c, d);
  }

  lemma MergedValues(c: Tables, d: Tables)
    ensures (c + d).Values <= c.Values + d.Values
  {
    forall f | f in (c + d).Values
      ensures f in c.Values + d.Values
    {
      var q :| q in c + d && (c + d)[q] == f;
      assert q in d ==> d[q] in d.Values;
      assert q !in d ==> c[q] in c.Values;
    }
  }

  /** A present table: whatever became of the recursion, its result is written with the flags. */
  lemma TableProgress(s: Space, a: Space, v: Space, v1: Space, v2: Space, p: Path, layer: nat, k: nat, g: nat,
                      c: Tables, spare: nat, r: nat, d: Tables)
    requires Parent(s) && layer < 2 && k < 512 && |p| == layer + 1 && Progress(s, a, v, p, layer, k, g, c) && SpaceOk(v)
    requires TableAt(s.mem, s.tables, p) && s.mem[s.tables[p]][k].p
    requires TakeStep(v, v1, spare) && spare != 0
    requires Outcome(s, v1, v2, p + [k], layer + 1, r, d)
    ensures Progress(s, a, Written(v2, g, k, LowFlags(s.mem[s.tables[p]][k], r)), p, layer, k + 1, g, c + d)
  {
    EntryFacts(s, p, layer, k);
    TakeIsFresh(v, v1, spare);
    EntryNode(s, p, k);
    var e := s.mem[s.tables[p]][k];
    FreshTrans(a, v, v1);
    FreshTrans(a, v1, v2);
    WrittenFresh(a, v2, g, k, LowFlags(e, r));
    var v3 := Written(v2, g, k, LowFlags(e, r));
    if LayerCost(s.mem, e.frame, layer + 1) <= Available(v1) {
      assert forall f | f in c.Values :: f in v1.frames.used;
      ClonedElsewhere(s, v.mem, v2.mem, p, k, c);
      assert NodeCloned(s, v2.mem, p, k, c, p);
      PresentDone(s, v2.mem, p, k, c, d);
      MergedValues(c, d);
    } else {
      TableHole(a.frames.used, v1.frames.used, v2.mem, g, layer, k, e, r);
    }
  }

  lemma TableHole(olds: set<nat>, used: set<nat>, mem: Mem, g: nat, layer: nat, k: nat, e: Word, r: nat)
    requires layer < 2 && g < |mem| && k < |mem[g]| && e.p && g in used && olds <= used
    requires r == 0 || (layer + 1 < 2 && Broken(mem, r, layer + 1, used))
    ensures Hole(Write(mem, g, k, LowFlags(e, r)), g, layer, k, olds)
  {
    var mem': Mem := Write(mem, g, k, LowFlags(e, r));
    if r != 0 {
      var j: nat :| j < 512 && Hole(mem, r, 1, j, used);
      assert DirectHole(mem', mem'[g][k].frame, j);
    }
  }

  /** Writing fresh frames keeps the machine's own address space valid. */
  lemma StillValid(a: Space, v: Space)
    requires SpaceOk(a) && Fresh(a, v)
    ensures SpaceOk(v)
  {
    FreshKeepsSpace(a, v);
  }

  /** Reading the parent through memory that has moved on: its tables and pages are untouched. */
  lemma ParentIntact(s: Space, v: Space, p: Path, i: nat)
    requires Parent(s) && Fresh(s, v) && p in s.tables && i < 512 && |p| <= 3 && IndexOk(p, i)
    requires |p| == 3 ==> LeafPath(p + [i])
    ensures TableAt(s.mem, s.tables, p) && v.mem[s.tables[p]] == s.mem[s.tables[p]]
    ensures |p| == 3 && s.mem[s.tables[p]][i].p ==>
              var f := s.mem[s.tables[p]][i].frame; f < |s.mem| && v.mem[f] == s.mem[f]
  {
    EntryNode(s, p, i);
    assert s.tables[p] in s.tables.Values;
  }

  /** One round of the loop. `ok` false means that the whole layer gives up and returns zero. */
  method CloneEntry(m: Machine, ptr: nat, g: nat, layer: nat, i: nat,
                    ghost s: Space, ghost a: Space, ghost p: Path, ghost c: Tables)
    returns (ok: bool, ghost c': Tables)
    requires m.Backed() && Parent(s) && Fresh(s, a) && layer <= 2 && i < 512
    requires p in s.tables && |p| == layer + 1 && s.tables[p] == ptr
    requires Progress(s, a, m.SpaceAt(s.root, s.tables), p, layer, i, g, c)
    modifies m`mem, m.pmm, m.pmm.bitmap
    ensures m.Backed()
    ensures Stage(s, a, m.SpaceAt(s.root, s.tables), p, layer, i + 1, g, c', ok)
    decreases 3 - layer, 0
  {
    ghost var v := m.SpaceAt(s.root, s.tables);
    c' := c;
    EntryFacts(s, p, layer, i);
    FreshTrans(s, a, v);
    StillValid(s, v);
    ParentIntact(s, v, p, i);
    var e := m.mem[ptr][i];
    if !e.p {
      AbsentProgress(s, a, v, p, layer, i, g, c);
      m.mem := Write(m.mem, g, i, ZERO);
      return true, c;
    }
    var f := m.TakeFrameFor(s.root, s.tables);
    ghost var v1 := m.SpaceAt(s.root, s.tables);
    if f == 0 {
      TakeIsFresh(v, v1, f);
      RunsOut(s, a, v, p, layer, i, g, c);
      return false, map[];
    }
    if layer == 2 {
      PageProgress(s, a, v, v1, p, i, g, c, f);
      m.mem := m.mem[f := m.mem[e.frame]];
      m.mem := Write(m.mem, g, i, LeafLowFlags(e, f));
      return true, c + map[p + [i] := f];
    }
    EntryNode(s, p, i);
    TakeIsFresh(v, v1, f);
    FreshTrans(s, v, v1);
    var r, d := CloneLayer(m, e.frame, layer + 1, s, p + [i]);
    TableProgress(s, a, v, v1, m.SpaceAt(s.root, s.tables), p, layer, i, g, c, f, r, d);
    m.mem := Write(m.mem, g, i, LowFlags(e, r));
    return true, c + d;
  }

  method CloneLayer(m: Machine, ptr: nat, layer: nat, ghost s: Space, ghost p: Path)
    returns (r: nat, ghost c: Tables)
    requires m.Backed() && Parent(s) && Fresh(s, m.SpaceAt(s.root, s.tables))
    requires ptr != 0 && layer <= 2 ==> p in s.tables && |p| == layer + 1 && s.tables[p] == ptr
    modifies m`mem, m.pmm, m.pmm.bitmap
    ensures m.Backed()
    ensures if ptr == 0 || layer > 2 then r == 0 && m.SpaceAt(s.root, s.tables) == old(m.SpaceAt(s.root, s.tables))
            else Outcome(s, old(m.SpaceAt(s.root, s.tables)), m.SpaceAt(s.root, s.tables), p, layer, r, c)
    decreases 3 - layer, 2
  {
    c := map[];
    if ptr == 0 || layer > 2 {
      return 0, c;
    }
    ghost var a := m.SpaceAt(s.root, s.tables);
    StillValid(s, a);
    r := m.TakeFrameFor(s.root, s.tables);
    TakeIsFresh(a, m.SpaceAt(s.root, s.tables), r);
    if r == 0 {
      return;
    }
    ProgressStarts(s, a, m.SpaceAt(s.root, s.tables), p, layer, r);
    var ok;
    ok, c := CloneEntries(m, ptr, r, layer, s, a, p);
    if !ok {
      r := 0;
    }
  }

  /** The loop over the 512 entries of one table. */
  method CloneEntries(m: Machine, ptr: nat, g: nat, layer: nat, ghost s: Space, ghost a: Space, ghost p: Path)
    returns (ok: bool, ghost c: Tables)
    requires m.Backed() && Parent(s) && Fresh(s, a) && layer <= 2
    requires p in s.tables && |p| == layer + 1 && s.tables[p] == ptr
    requires Progress(s, a, m.SpaceAt(s.root, s.tables), p, layer, 0, g, map[p := g])
    modifies m`mem, m.pmm, m.pmm.bitmap
    ensures m.Backed() && Outcome(s, a, m.SpaceAt(s.root, s.tables), p, layer, if ok then g else 0, c)
    decreases 3 - layer, 1
  {
    c, ok := map[p := g], true;
    ghost var v := m.SpaceAt(s.root, s.tables);
    var i := 0;
    while i < 512 && ok
      invariant i <= 512 && m.Backed() && v == m.SpaceAt(s.root, s.tables) && Stage(s, a, v, p, layer, i, g, c, ok)
    {
      ok, c := CloneEntry(m, ptr, g, layer, i, s, a, p, c);
      v, i := m.SpaceAt(s.root, s.tables), i + 1;
    }
    StageEnds(s, a, v, p, layer, i, g, c, ok);
  }
}
