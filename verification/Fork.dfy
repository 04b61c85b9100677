/** The whole user address space cloned: what the child is, and exactly when it is one. */
module ForkSpec {
  import opened Words
  import opened Frames
  import opened PageTable
  import opened Spaces
  import opened CloneSpec
  import opened Cloning

  /** Frames that the user slots of the root need, by the recurrence of the layers below. */
  ghost function RootCost(mem: Mem, root: nat, k: nat): nat
    requires k <= 256
  {
    if k == 0 || root >= |mem| || |mem[root]| != 512 || !mem[root][k - 1].p then
      if k == 0 then 0 else RootCost(mem, root, k - 1)
    else
      RootCost(mem, root, k - 1) + LayerCost(mem, mem[root][k - 1].frame, 0)
  }

  ghost function ForkCost(s: Space): nat {
    1 + RootCost(s.mem, s.root, 256)
  }

  lemma {:induction false} RootCostGrows(mem: Mem, root: nat, j: nat, k: nat)
    requires j <= k <= 256
    ensures RootCost(mem, root, j) <= RootCost(mem, root, k)
    decreases k
  {
    if j < k {
      RootCostGrows(mem, root, j, k - 1);
    }
  }

  /** The table map of the child: cloned user tables, and the parent's own kernel tables. */
  ghost function ChildTables(s: Space, c: Tables): Tables {
    map q | q in c.Keys + s.tables.Keys && |q| <= 3 && (q in c || (q in s.tables && q != [] && q[0] >= 256)) ::
      if q in c then c[q] else s.tables[q]
  }

  ghost predicate KernelShared(s: Space, mem: Mem, g: nat) {
    && g < |mem| == |s.mem| && s.root < |mem| && |mem[g]| == |s.mem[s.root]| == 512
    && forall i | 256 <= i < 512 :: mem[g][i] == s.mem[s.root][i]
  }

  /** A finished clone of s in memory: cloned user half, shared kernel half, everything else as it was. */
  ghost predicate Forked(s: Space, v: Space, g: nat, c: Tables) {
    && Fresh(s, v)
    && Cloned(s, v.mem, [], 256, c) && [] in c && c[[]] == g
    && c.Values <= v.frames.used - s.frames.used
    && KernelShared(s, v.mem, g)
  }

  lemma ChildTable(s: Space, v: Space, g: nat, c: Tables, q: Path)
    requires Parent(s) && Forked(s, v, g, c) && q in ChildTables(s, c)
    ensures TableAt(v.mem, ChildTables(s, c), q) && Named(ChildTables(s, c), q)
    ensures q in c ==> q in s.tables && (q == [] || q[0] < 256)
  {
    var t := ChildTables(s, c);
    if q in c {
      assert NodeCloned(s, v.mem, [], 256, c, q);
      assert Node(s, q);
      assert Reached([], 256, q);
      if q != [] {
        assert Named(s.tables, q);
        var parent := q[..|q| - 1];
        assert Node(s, parent) && Reached([], 256, parent);
        assert parent in c;
      }
    } else {
      assert TableAt(s.mem, s.tables, q) && Named(s.tables, q);
      assert s.tables[q] in s.tables.Values;
      var parent := q[..|q| - 1];
      assert parent == [] || parent[0] == q[0];
    }
  }

  lemma ChildEntry(s: Space, v: Space, g: nat, c: Tables, q: Path, i: nat)
    requires Parent(s) && Forked(s, v, g, c) && q in ChildTables(s, c) && |q| < 3 && IndexOk(q, i)
    ensures TableAt(v.mem, ChildTables(s, c), q) && EntryOk(v.mem, ChildTables(s, c), q, i)
  {
    var t := ChildTables(s, c);
    ChildTable(s, v, g, c, q);
    assert q in s.tables;
    assert TableAt(s.mem, s.tables, q) && EntryOk(s.mem, s.tables, q, i);
    assert q != [] ==> (q + [i])[0] == q[0];
    assert q == [] ==> (q + [i])[0] == i;
    if q in c && !(q == [] && i >= 256) {
      assert NodeCloned(s, v.mem, [], 256, c, q);
      assert EntryCloned(s, v.mem, c, q, i);
      assert Node(s, q + [i]) <==> q + [i] in s.tables;
      assert Reached([], 256, q + [i]);
    } else {
      assert s.tables[q] in s.tables.Values;
      assert !Reached([], 256, q + [i]);
    }
  }

  /** The child is a well-formed address space. */
  lemma ChildIsTree(s: Space, v: Space, g: nat, c: Tables)
    requires Parent(s) && Forked(s, v, g, c)
    ensures Tree(v.mem, ChildTables(s, c), g)
  {
    var t := ChildTables(s, c);
    forall q | q in t
      ensures TableAt(v.mem, t, q) && Named(t, q)
    {
      ChildTable(s, v, g, c, q);
    }
    forall q, i | q in t && |q| < 3 && IndexOk(q, i)
      ensures EntryOk(v.mem, t, q, i)
    {
      ChildEntry(s, v, g, c, q, i);
    }
    forall q, r | q in t && r in t && t[q] == t[r]
      ensures q == r
    {
      assert q in c ==> c[q] in c.Values;
      assert r in c ==> c[r] in c.Values;
      assert q !in c ==> s.tables[q] in s.tables.Values;
      assert r !in c ==> s.tables[r] in s.tables.Values;
    }
  }

  /**
   The child's user pages are the parent's present ones, each on a frame of its own with the same
   contents and attributes; reservations and unmapped pages are empty in the child. Kernel pages
   are the parent's.
   */
  lemma ChildPages(s: Space, v: Space, g: nat, c: Tables, u: Path)
    requires Parent(s) && Forked(s, v, g, c) && LeafPath(u)
    ensures u[0] > 256 ==> Leaf(v.mem, ChildTables(s, c), u) == LeafOf(s, u)
    ensures u[0] < 256 && !LeafOf(s, u).p ==> Leaf(v.mem, ChildTables(s, c), u) == ZERO
    ensures u[0] < 256 && LeafOf(s, u).p ==>
              && u in c && c[u] !in s.frames.used && c[u] in v.frames.used
              && c[u] !in ChildTables(s, c).Values
              && Leaf(v.mem, ChildTables(s, c), u) == LeafLowFlags(LeafOf(s, u), c[u])
              && LeafFlags(Leaf(v.mem, ChildTables(s, c), u)) == LeafFlags(LeafOf(s, u))
              && c[u] < |v.mem| && v.mem[c[u]] == s.mem[LeafOf(s, u).frame]
  {
    var t, p := ChildTables(s, c), u[..3];
    SplitPath(u);
    assert p[0] == u[0];
    if p in s.tables {
      assert TableAt(s.mem, s.tables, p) && Node(s, p);
    }
    if u[0] < 256 {
      assert p in c <==> p in s.tables by {
        assert Reached([], 256, p);
        assert !LeafPath(p);
      }
      if p in c {
        ChildTable(s, v, g, c, p);
        assert NodeCloned(s, v.mem, [], 256, c, p);
        assert EntryCloned(s, v.mem, c, p, u[3]);
      }
      if LeafOf(s, u).p {
        assert Node(s, u) && Reached([], 256, u);
        assert NodeCloned(s, v.mem, [], 256, c, u);
        assert c[u] in c.Values;
        PageNotTable(s, v, g, c, u);
      }
    } else {
      assert !Reached([], 256, p);
      if p in t {
        ChildTable(s, v, g, c, p);
        assert s.tables[p] in s.tables.Values;
      }
    }
  }

  /**
   What the processor grants in the child, through the tables that cloning wrote: each present user page with the
   parent's rights, on the copy; kernel pages as in the parent; nothing else.
   */
  lemma ChildAccess(s: Space, v: Space, g: nat, c: Tables, u: Path)
    requires Parent(s) && Forked(s, v, g, c) && LeafPath(u)
    ensures u[0] > 256 ==> Translate(v.mem, g, u) == Translate(s.mem, s.root, u)
    ensures u[0] < 256 && Translate(s.mem, s.root, u).NotPresent? ==> Translate(v.mem, g, u).NotPresent?
    ensures u[0] < 256 && Translate(s.mem, s.root, u).Page? ==>
              && u in c && c[u] !in s.frames.used && c[u] < |v.mem| && Translate(s.mem, s.root, u).frame < |s.mem|
              && Translate(v.mem, g, u) == Translate(s.mem, s.root, u).(frame := c[u])
              && v.mem[c[u]] == s.mem[Translate(s.mem, s.root, u).frame]
  {
    AccessIsLeaf(s, u);
    ChildIsTree(s, v, g, c);
    TranslateIsLeaf(v.mem, ChildTables(s, c), g, u);
    ChildPages(s, v, g, c, u);
  }

  lemma PageNotTable(s: Space, v: Space, g: nat, c: Tables, u: Path)
    requires Parent(s) && Forked(s, v, g, c) && LeafPath(u) && u in c
    ensures c[u] !in ChildTables(s, c).Values
  {
    var t := ChildTables(s, c);
    assert c[u] in c.Values;
    forall q | q in t
      ensures t[q] != c[u]
    {
      assert q !in c ==> s.tables[q] in s.tables.Values;
    }
  }

  /** Distinct pages of the child have distinct frames. */
  lemma ChildPagesDistinct(s: Space, v: Space, g: nat, c: Tables, u: Path, w: Path)
    requires Parent(s) && Forked(s, v, g, c) && LeafPath(u) && LeafPath(w) && u[0] < 256 && w[0] < 256
    requires LeafOf(s, u).p && LeafOf(s, w).p && u != w
    ensures Leaf(v.mem, ChildTables(s, c), u).frame != Leaf(v.mem, ChildTables(s, c), w).frame
  {
    ChildPages(s, v, g, c, u);
    ChildPages(s, v, g, c, w);
  }

  /** Cloning leaves the parent as it was: tables, leaves and the contents of every used frame. */
  lemma ParentUnchanged(s: Space, v: Space)
    requires Parent(s) && Fresh(s, v)
    ensures SpaceOk(v) && v.tables == s.tables && SameLeaves(s, v)
    ensures forall f | f in s.frames.used && f < |s.mem| :: v.mem[f] == s.mem[f]
  {
    FreshKeepsSpace(s, v);
  }

  // ---------------------------------------------------------------- running out of frames

  /** An entry of the root that leads to frame zero, directly or further down. */
  ghost predicate RootHole(mem: Mem, g: nat, i: nat, olds: set<nat>) {
    DirectHole(mem, g, i) || (g < |mem| && i < |mem[g]| && mem[g][i].p && Broken(mem, mem[g][i].frame, 0, olds))
  }

  ghost predicate Spoiled(mem: Mem, g: nat, olds: set<nat>) {
    exists i: nat | i < 256 :: RootHole(mem, g, i, olds)
  }

  /** A spoiled child is no address space under any naming of its tables. */
  lemma SpoiledIsNoTree(mem: Mem, g: nat, olds: set<nat>, t: Tables)
    requires Spoiled(mem, g, olds)
    ensures !Tree(mem, t, g)
  {
    var i: nat :| i < 256 && RootHole(mem, g, i, olds);
    if Tree(mem, t, g) {
      NoHoleAt(mem, t, g, [], i);
      assert !DirectHole(mem, g, i);
      var f := mem[g][i].frame;
      var j: nat :| j < 512 && Hole(mem, f, 0, j, olds);
      assert t[[] + [i]] == f;
      NoHoleAt(mem, t, g, [] + [i], j);
      assert !DirectHole(mem, f, j);
      var k: nat :| k < 512 && DirectHole(mem, mem[f][j].frame, k);
      NoHoleAt(mem, t, g, [] + [i] + [j], k);
      assert false;
    }
  }

  lemma NoHoleAt(mem: Mem, t: Tables, g: nat, p: Path, i: nat)
    requires Tree(mem, t, g) && p in t && |p| < 3 && IndexOk(p, i)
    ensures TableAt(mem, t, p) && !DirectHole(mem, t[p], i)
    ensures mem[t[p]][i].p ==> p + [i] in t && t[p + [i]] == mem[t[p]][i].frame
  {
    assert TableAt(mem, t, p) && EntryOk(mem, t, p, i);
    if p + [i] in t {
      assert TableAt(mem, t, p + [i]);
    }
  }
}

/** platformCloneUserSpace on the machine. */
module Forking {
  import opened Words
  import opened PageTable
  import opened Spaces
  import opened Paging
  import opened CloneSpec
  import opened Cloning
  import opened ForkSpec

  /** The loop over the user slots after k of them. */
  ghost predicate RootProgress(s: Space, v: Space, k: nat, g: nat, c: Tables)
    requires k <= 256
  {
    && Fresh(s, v) && g in v.frames.used - s.frames.used && 0 < g < |v.mem| && |v.mem[g]| == 512
    && var need := 1 + RootCost(s.mem, s.root, k);
       if need <= Available(s) then
         Cloned(s, v.mem, [], k, c) && [] in c && c[[]] == g
         && c.Values <= v.frames.used - s.frames.used && Available(v) == Available(s) - need
       else
         Available(v) == 0 && exists i: nat | i < k :: RootHole(v.mem, g, i, s.frames.used + {g})
  }

  /** What platformCloneUserSpace leaves behind. */
  ghost predicate ForkStep(s: Space, v: Space, g: nat, c: Tables) {
    && Fresh(s, v)
    && if ForkCost(s) <= Available(s) then
         g != 0 && Forked(s, v, g, c) && Available(v) == Available(s) - ForkCost(s)
       else
         Available(v) == 0 && (g == 0 || Spoiled(v.mem, g, s.frames.used + {g}))
  }

  lemma SlotFacts(s: Space, k: nat)
    requires Parent(s) && k < 256
    ensures TableAt(s.mem, s.tables, []) && IndexOk([], k) && s.tables[[]] == s.root
    ensures var e := s.mem[s.root][k];
            && (e.p <==> [] + [k] in s.tables)
            && (e.p ==> e.frame == s.tables[[] + [k]] != 0)
            && RootCost(s.mem, s.root, k + 1)
               == RootCost(s.mem, s.root, k) + if e.p then LayerCost(s.mem, e.frame, 0) else 0
    ensures RootCost(s.mem, s.root, k + 1) <= RootCost(s.mem, s.root, 256)
  {
    EntryNode(s, [], k);
    assert EntryOk(s.mem, s.tables, [], k);
    RootCostGrows(s.mem, s.root, k + 1, 256);
  }

  lemma AbsentSlot(s: Space, v: Space, k: nat, g: nat, c: Tables)
    requires Parent(s) && k < 256 && RootProgress(s, v, k, g, c)
    requires TableAt(s.mem, s.tables, []) && s.tables[[]] == s.root && !s.mem[s.root][k].p
    ensures RootProgress(s, Written(v, g, k, ZERO), k + 1, g, c)
  {
    SlotFacts(s, k);
    WrittenFresh(s, v, g, k, ZERO);
    if 1 + RootCost(s.mem, s.root, k) <= Available(s) {
      assert NodeCloned(s, v.mem, [], k, c, []);
      AbsentDone(s, v.mem, [], k, c);
    } else {
      var i: nat :| i < k && RootHole(v.mem, g, i, s.frames.used + {g});
      RootHoleStays(v.mem, g, i, k, ZERO, s.frames.used + {g});
    }
  }

  lemma RootHoleStays(mem: Mem, g: nat, i: nat, k: nat, w: Word, olds: set<nat>)
    requires RootHole(mem, g, i, olds) && g in olds && g < |mem| && k < |mem[g]| && k != i
    ensures RootHole(Write(mem, g, k, w), g, i, olds)
  {
    var mem': Mem := Write(mem, g, k, w);
    if !DirectHole(mem, g, i) {
      BrokenStays(mem, g, k, w, mem[g][i].frame, olds);
    }
  }

  /** Writing a frame of `olds` does not mend a table outside of it. */
  lemma BrokenStays(mem: Mem, g: nat, k: nat, w: Word, f: nat, olds: set<nat>)
    requires Broken(mem, f, 0, olds) && g in olds && g < |mem| && k < |mem[g]|
    ensures Broken(Write(mem, g, k, w), f, 0, olds)
  {
    var mem': Mem := Write(mem, g, k, w);
    var j: nat :| j < 512 && Hole(mem, f, 0, j, olds);
    if DirectHole(mem, f, j) {
      assert DirectHole(mem', f, j);
    } else {
      var i: nat :| i < 512 && DirectHole(mem, mem[f][j].frame, i);
      assert DirectHole(mem', mem'[f][j].frame, i);
    }
    assert Hole(mem', f, 0, j, olds);
  }

  lemma PresentSlot(s: Space, v: Space, v1: Space, k: nat, g: nat, c: Tables, r: nat, d: Tables)
    requires Parent(s) && k < 256 && RootProgress(s, v, k, g, c)
    requires TableAt(s.mem, s.tables, []) && s.tables[[]] == s.root && s.mem[s.root][k].p
    requires Outcome(s, v, v1, [] + [k], 0, r, d)
    ensures RootProgress(s, Written(v1, g, k, LowFlags(s.mem[s.root][k], r)), k + 1, g, c + d)
  {
    SlotFacts(s, k);
    FreshTrans(s, v, v1);
    var e := s.mem[s.root][k];
    WrittenFresh(s, v1, g, k, LowFlags(e, r));
    if 1 + RootCost(s.mem, s.root, k + 1) <= Available(s) {
      SlotCloned(s, v, v1, k, g, c, r, d);
    } else if 1 + RootCost(s.mem, s.root, k) <= Available(s) {
      SlotHole(s.frames.used + {g}, v.frames.used, v1.mem, g, k, e, r);
    } else {
      assert v1.mem == v.mem;
      var i: nat :| i < k && RootHole(v.mem, g, i, s.frames.used + {g});
      RootHoleStays(v.mem, g, i, k, LowFlags(e, r), s.frames.used + {g});
    }
  }

  /** Enough frames: the slot's subtree joins the clone. */
  lemma SlotCloned(s: Space, v: Space, v1: Space, k: nat, g: nat, c: Tables, r: nat, d: Tables)
    requires Parent(s) && k < 256 && Fresh(v, v1) && g in v.frames.used && g < |v.mem| && |v.mem[g]| == 512
    requires TableAt(s.mem, s.tables, []) && s.tables[[]] == s.root && s.mem[s.root][k].p
    requires Cloned(s, v.mem, [], k, c) && [] in c && c[[]] == g && c.Values <= v.frames.used
    requires Cloned(s, v1.mem, [] + [k], 512, d) && [] + [k] in d && d[[] + [k]] == r
    requires d.Values <= v1.frames.used - v.frames.used && |v1.mem[g]| == 512
    ensures Cloned(s, Write(v1.mem, g, k, LowFlags(s.mem[s.root][k], r)), [], k + 1, c + d)
    ensures (c + d).Values <= c.Values + d.Values && [] in c + d && (c + d)[[]] == g
  {
    assert forall f | f in c.Values :: f !in v1.frames.used - v.frames.used;
    ClonedElsewhere(s, v.mem, v1.mem, [], k, c);
    assert NodeCloned(s, v1.mem, [], k, c, []);
    PresentDone(s, v1.mem, [], k, c, d);
    MergedValues(c, d);
    PresentKeys(s, v1.mem, [], k, c, d);
  }

  lemma SlotHole(olds: set<nat>, used: set<nat>, mem: Mem, g: nat, k: nat, e: Word, r: nat)
    requires g < |mem| && k < |mem[g]| && e.p && g in olds && olds <= used
    requires r == 0 || Broken(mem, r, 0, used)
    ensures RootHole(Write(mem, g, k, LowFlags(e, r)), g, k, olds)
  {
    if r != 0 {
      BrokenStays(mem, g, k, LowFlags(e, r), r, used);
      BrokenOutside(Write(mem, g, k, LowFlags(e, r)), r, olds, used);
    }
  }

  lemma BrokenOutside(mem: Mem, f: nat, olds: set<nat>, used: set<nat>)
    requires Broken(mem, f, 0, used) && olds <= used
    ensures Broken(mem, f, 0, olds)
  {
    var j: nat :| j < 512 && Hole(mem, f, 0, j, used);
    assert Hole(mem, f, 0, j, olds);
  }

  /** One slot of the kernel half copied. */
  lemma KernelSlot(s: Space, v: Space, k: nat, g: nat, c: Tables, w: Word)
    requires 256 <= k < 512 && RootProgress(s, v, 256, g, c)
    ensures RootProgress(s, Written(v, g, k, w), 256, g, c)
  {
    WrittenFresh(s, v, g, k, w);
    if 1 + RootCost(s.mem, s.root, 256) <= Available(s) {
      KernelSlotCloned(s, v.mem, k, g, c, w);
    } else {
      var i: nat :| i < 256 && RootHole(v.mem, g, i, s.frames.used + {g});
      RootHoleStays(v.mem, g, i, k, w, s.frames.used + {g});
    }
  }

  lemma KernelSlotCloned(s: Space, mem: Mem, k: nat, g: nat, c: Tables, w: Word)
    requires 256 <= k < 512 && Cloned(s, mem, [], 256, c) && [] in c && c[[]] == g && g < |mem| && |mem[g]| == 512
    ensures Cloned(s, Write(mem, g, k, w), [], 256, c)
  {
    var mem' := Write(mem, g, k, w);
    forall q | q in c
      ensures NodeCloned(s, mem', [], 256, c, q)
    {
      assert NodeCloned(s, mem, [], 256, c, q);
      assert c[q] == g ==> q == [];
      if |q| != 4 {
        forall i: nat | i < 512 && (q == [] ==> i < 256)
          ensures EntryCloned(s, mem', c, q, i)
        {
          assert EntryCloned(s, mem, c, q, i);
        }
      }
    }
  }

  lemma ForkEnds(s: Space, v: Space, g: nat, c: Tables)
    requires RootProgress(s, v, 256, g, c) && KernelShared(s, v.mem, g)
    ensures ForkStep(s, v, g, c)
  {
  }

  method CloneSlot(m: Machine, root: nat, g: nat, i: nat, ghost s: Space, ghost c: Tables) returns (ghost c': Tables)
    requires m.Backed() && Parent(s) && root == s.root && i < 256 && RootProgress(s, m.SpaceAt(s.root, s.tables), i, g, c)
    modifies m`mem, m.pmm, m.pmm.bitmap
    ensures m.Backed() && RootProgress(s, m.SpaceAt(s.root, s.tables), i + 1, g, c')
  {
    ghost var v := m.SpaceAt(s.root, s.tables);
    SlotFacts(s, i);
    ParentIntact(s, v, [], i);
    var e := m.mem[root][i];
    if e.p && e.frame != 0 {
      var r, d := CloneLayer(m, e.frame, 0, s, [] + [i]);
      PresentSlot(s, v, m.SpaceAt(s.root, s.tables), i, g, c, r, d);
      m.mem := Write(m.mem, g, i, LowFlags(e, r));
      c' := c + d;
    } else {
      AbsentSlot(s, v, i, g, c);
      m.mem := Write(m.mem, g, i, ZERO);
      c' := c;
    }
    StillValid(s, m.SpaceAt(s.root, s.tables));
  }

  method CloneUserHalf(m: Machine, root: nat, g: nat, ghost s: Space) returns (ghost c: Tables)
    requires m.Backed() && Parent(s) && root == s.root && RootProgress(s, m.SpaceAt(s.root, s.tables), 0, g, map[[] := g])
    modifies m`mem, m.pmm, m.pmm.bitmap
    ensures m.Backed() && RootProgress(s, m.SpaceAt(s.root, s.tables), 256, g, c)
  {
    c := map[[] := g];
    for i := 0 to 256
      invariant m.Backed() && RootProgress(s, m.SpaceAt(s.root, s.tables), i, g, c)
    {
      c := CloneSlot(m, root, g, i, s, c);
    }
  }

  /** The kernel is in every address space. */
  method CopyKernelSlot(m: Machine, root: nat, g: nat, i: nat, ghost s: Space, ghost c: Tables)
    requires m.Backed() && Parent(s) && root == s.root && 256 <= i < 512 && RootProgress(s, m.SpaceAt(s.root, s.tables), 256, g, c)
    modifies m`mem
    ensures m.Backed() && RootProgress(s, m.SpaceAt(s.root, s.tables), 256, g, c)
    ensures TableAt(s.mem, s.tables, []) && s.tables[[]] == s.root
    ensures m.mem == old(m.mem)[g := old(m.mem)[g][i := s.mem[s.root][i]]]
  {
    ghost var v := m.SpaceAt(s.root, s.tables);
    SlotFacts(s, 0);
    ParentIntact(s, v, [], 0);
    KernelSlot(s, v, i, g, c, v.mem[s.root][i]);
    m.mem := Write(m.mem, g, i, m.mem[root][i]);
    StillValid(s, m.SpaceAt(s.root, s.tables));
  }

  method CopyKernelHalf(m: Machine, root: nat, g: nat, ghost s: Space, ghost c: Tables)
    requires m.Backed() && Parent(s) && root == s.root && RootProgress(s, m.SpaceAt(s.root, s.tables), 256, g, c)
    modifies m`mem
    ensures m.Backed() && RootProgress(s, m.SpaceAt(s.root, s.tables), 256, g, c) && KernelShared(s, m.mem, g)
  {
    SlotFacts(s, 0);
    for i := 256 to 512
      invariant m.Backed() && RootProgress(s, m.SpaceAt(s.root, s.tables), 256, g, c)
      invariant forall j | 256 <= j < i :: m.mem[g][j] == s.mem[s.root][j]
    {
      CopyKernelSlot(m, root, g, i, s, c);
    }
  }

  method CloneFrom(m: Machine, root: nat, ghost s: Space) returns (g: nat, ghost c: Tables)
    requires m.Backed() && Parent(s) && root == s.root && m.SpaceAt(s.root, s.tables) == s
    modifies m`mem, m.pmm, m.pmm.bitmap
    ensures m.Backed() && ForkStep(s, m.SpaceAt(s.root, s.tables), g, c)
  {
    c := map[];
    g := m.TakeFrameFor(s.root, s.tables);
    TakeIsFresh(s, m.SpaceAt(s.root, s.tables), g);
    if g == 0 {
      return;
    }
    assert TableAt(s.mem, s.tables, []);
    CloneStarts(s, m.mem, [], g);
    c := CloneUserHalf(m, root, g, s);
    CopyKernelHalf(m, root, g, s, c);
    ForkEnds(s, m.SpaceAt(s.root, s.tables), g, c);
  }

  /** Whatever cloning does to one space, every other space keeps its tables and leaves. */
  lemma OthersUntouched(s: Space, v: Space, own: Space, own': Space)
    requires Fresh(s, v) && SpaceOk(own) && own.mem == s.mem && own.frames == s.frames
    requires own' == own.(mem := v.mem, frames := v.frames)
    ensures SpaceOk(own') && SameLeaves(own, own')
  {
    FreshKeepsSpace(own, own');
  }

  /** Clones the space under any root; zero when not even the new root could be allocated. */
  method CloneUserSpace(m: Machine, parent: nat, ghost t: Tables) returns (g: nat, ghost c: Tables)
    requires m.Valid() && Parent(m.SpaceAt(parent / 4096, t))
    modifies m`mem, m.pmm, m.pmm.bitmap
    ensures m.Valid() && SameLeaves(old(m.View()), m.View())
    ensures ForkStep(old(m.SpaceAt(parent / 4096, t)), m.SpaceAt(parent / 4096, t), g, c)
  {
    ghost var s, own := m.SpaceAt(parent / 4096, t), m.View();
    g, c := CloneFrom(m, parent / 4096, s);
    OthersUntouched(s, m.SpaceAt(s.root, s.tables), own, m.View());
  }

  /**
   platformCloneUserSpace never reports that it ran out of frames below the root. Its result is an
   address space if and only if the frames free beforehand cover the recurrence.
   */
  lemma ChildIffEnoughFrames(s: Space, v: Space, g: nat, c: Tables)
    requires Parent(s) && ForkStep(s, v, g, c) && g != 0
    ensures ForkCost(s) <= Available(s) <==> exists t :: Tree(v.mem, t, g)
  {
    if ForkCost(s) <= Available(s) {
      ChildIsTree(s, v, g, c);
      assert Tree(v.mem, ChildTables(s, c), g);
    } else {
      forall t
        ensures !Tree(v.mem, t, g)
      {
        SpoiledIsNoTree(v.mem, g, s.frames.used + {g}, t);
      }
    }
  }
}
