/** The recurrence in closed form: a frame for every node of the clone and a spare for most tables. */
module ForkCount {
  import opened Words
  import opened PageTable
  import opened Spaces
  import opened CloneSpec
  import opened Cloning
  import opened ForkSpec
  import opened Forking

  /** The nodes of the subtree at p below its first k entries, and p itself. */
  ghost predicate Nodes(s: Space, p: Path, k: nat, nodes: set<Path>) {
    forall q {:trigger q in nodes} {:trigger Node(s, q)} :: q in nodes <==> Reached(p, k, q) && Node(s, q)
  }

  /** Tables more than `depth` levels down: for each of them an unused frame was taken. */
  ghost function Spares(depth: nat, nodes: set<Path>): set<Path> {
    set q | q in nodes && depth < |q| <= 3
  }

  /** The nodes split at entry k: those before it and those of the subtree below it. */
  lemma SplitNodes(s: Space, p: Path, k: nat, nodes: set<Path>) returns (left: set<Path>, below: set<Path>)
    requires SpaceOk(s) && k < 512 && Nodes(s, p, k + 1, nodes)
    ensures Nodes(s, p, k, left) && Nodes(s, p + [k], 512, below)
    ensures nodes == left + below && left !! below
  {
    left := set q | q in nodes && Reached(p, k, q);
    below := set q | q in nodes && Under(p + [k], q);
    forall q
      ensures q in left <==> Reached(p, k, q) && Node(s, q)
      ensures q in below <==> Reached(p + [k], 512, q) && Node(s, q)
      ensures q in nodes <==> q in left || q in below
      ensures !(q in left && q in below)
    {
      ReachedNext(p, k, q);
      if Node(s, q) {
        NodeIndex(s, q, |p| + 1);
      }
    }
  }

  lemma NoneReached(s: Space, p: Path, nodes: set<Path>)
    requires SpaceOk(s) && p in s.tables && Nodes(s, p, 0, nodes)
    ensures nodes == {p}
  {
    forall q
      ensures q in nodes <==> q == p
    {
      if Reached(p, 0, q) {
        assert q[..|p|] == q;
      }
      assert p[..|p|] == p;
    }
  }

  lemma PageAlone(s: Space, q: Path, nodes: set<Path>)
    requires SpaceOk(s) && LeafPath(q) && Node(s, q) && Nodes(s, q, 512, nodes)
    ensures nodes == {q}
  {
    forall u
      ensures u in nodes <==> u == q
    {
      if Reached(q, 512, u) && Node(s, u) {
        assert u in s.tables ==> Named(s.tables, u);
        assert u[..4] == u;
      }
      assert q[..4] == q;
    }
  }

  lemma SparesSplit(depth: nat, left: set<Path>, below: set<Path>, child: Path)
    requires left !! below && child in below && |child| == depth + 1
    requires forall q | q in below :: q == child || |q| > |child|
    ensures |Spares(depth, left + below)|
            == |Spares(depth, left)| + |Spares(depth + 1, below)| + if depth < 3 then 1 else 0
  {
    var own := if depth < 3 then {child} else {};
    assert Spares(depth, left + below) == Spares(depth, left) + (Spares(depth + 1, below) + own);
    assert Spares(depth, left) !! Spares(depth + 1, below) + own;
    assert Spares(depth + 1, below) !! own;
  }

  lemma SparesUnion(depth: nat, left: set<Path>, below: set<Path>)
    requires left !! below
    ensures |Spares(depth, left + below)| == |Spares(depth, left)| + |Spares(depth, below)|
  {
    assert Spares(depth, left + below) == Spares(depth, left) + Spares(depth, below);
  }

  /** Below an absent entry there is nothing; below a present one the child, and longer paths. */
  lemma BelowEntry(s: Space, p: Path, k: nat, below: set<Path>)
    requires SpaceOk(s) && Nodes(s, p + [k], 512, below)
    ensures !Node(s, p + [k]) ==> below == {}
    ensures Node(s, p + [k]) ==> p + [k] in below && forall q | q in below :: q == p + [k] || |q| > |p + [k]|
  {
    var child := p + [k];
    assert child[..|child|] == child;
    forall q | q in below
      ensures Node(s, child) && (q == child || |q| > |child|)
    {
      assert Under(child, q);
      if !Node(s, child) {
        NothingBelow(s, child, q);
      }
      assert |q| == |child| ==> q[..|child|] == q;
    }
  }

  /** A layer costs a frame for every node of its subtree and a spare for every table below its root. */
  lemma {:induction false} LayerCount(s: Space, p: Path, layer: nat, k: nat, nodes: set<Path>)
    requires Parent(s) && layer <= 2 && k <= 512 && p in s.tables && |p| == layer + 1 && Nodes(s, p, k, nodes)
    ensures 1 + EntriesCost(s.mem, s.tables[p], layer, k) == |nodes| + |Spares(|p|, nodes)|
    decreases 3 - layer, k
  {
    if k == 0 {
      NoneReached(s, p, nodes);
      assert Spares(|p|, nodes) == {};
    } else {
      var left, below := SplitNodes(s, p, k - 1, nodes);
      EntryFacts(s, p, layer, k - 1);
      EntryNode(s, p, k - 1);
      BelowEntry(s, p, k - 1, below);
      LayerCount(s, p, layer, k - 1, left);
      if s.mem[s.tables[p]][k - 1].p {
        var child := p + [k - 1];
        if layer == 2 {
          PageAlone(s, child, below);
          assert Spares(|p| + 1, below) == {};
        } else {
          LayerCount(s, child, layer + 1, 512, below);
        }
        SparesSplit(|p|, left, below, child);
      } else {
        assert nodes == left;
      }
    }
  }

  /** The user slots: no spare is taken for the tables directly below the root. */
  lemma {:induction false} RootCount(s: Space, k: nat, nodes: set<Path>)
    requires Parent(s) && k <= 256 && Nodes(s, [], k, nodes)
    ensures 1 + RootCost(s.mem, s.root, k) == |nodes| + |Spares(1, nodes)|
    decreases k
  {
    if k == 0 {
      NoneReached(s, [], nodes);
      assert Spares(1, nodes) == {};
    } else {
      var left, below := SplitNodes(s, [], k - 1, nodes);
      SlotFacts(s, k - 1);
      EntryNode(s, [], k - 1);
      BelowEntry(s, [], k - 1, below);
      RootCount(s, k - 1, left);
      if s.mem[s.root][k - 1].p {
        LayerCount(s, [] + [k - 1], 0, 512, below);
        SparesUnion(1, left, below);
      } else {
        assert nodes == left;
      }
    }
  }

  /** A fork takes one frame per node of the clone, and leaks one per page directory and page table. */
  lemma ForkTakes(s: Space, v: Space, g: nat, c: Tables)
    requires Parent(s) && ForkStep(s, v, g, c) && ForkCost(s) <= Available(s)
    ensures Available(s) - Available(v) == |c.Keys| + |set q | q in c && 2 <= |q| <= 3|
  {
    RootCount(s, 256, c.Keys);
    assert Spares(1, c.Keys) == set q | q in c && 2 <= |q| <= 3;
  }
}
