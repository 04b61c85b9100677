/**
 The 4-level radix tree as a value: which frame holds which table, what a leaf entry is, and what
 the two writes the code performs do to both.

 A table is named by the indices that lead to it: [] is the PML4, [a] a page directory pointer
 table, [a, b] a page directory and [a, b, c] a page table. `Tables` maps these names to frames.
 Slot 256 of the PML4 holds the direct map of physical memory in large pages and is left alone.
 */
module PageTable {
  import opened Words

  type Mem = seq<seq<Word>>
  type Path = seq<nat>
  type Tables = map<Path, nat>

  ghost predicate MemOk(mem: Mem) {
    forall f | 0 <= f < |mem| :: |mem[f]| == 512
  }

  predicate IndexOk(p: Path, i: nat) {
    i < 512 && (p == [] ==> i != 256)
  }

  /** A full path of four indices names one virtual page. */
  predicate LeafPath(q: Path) {
    |q| == 4 && q[0] < 512 && q[0] != 256 && q[1] < 512 && q[2] < 512 && q[3] < 512
  }

  ghost predicate TableAt(mem: Mem, t: Tables, p: Path) {
    p in t && 0 < t[p] < |mem| && |mem[t[p]]| == 512
  }

  /** An interior entry is zero, or leads to the table of that name and takes no right away from what lies below. */
  ghost predicate EntryOk(mem: Mem, t: Tables, p: Path, i: nat)
    requires TableAt(mem, t, p) && i < 512
  {
    var e := mem[t[p]][i];
    && (p + [i] in t <==> e != ZERO)
    && (p + [i] in t ==> e.p && e.rw && e.us && !e.nx && e.frame == t[p + [i]])
  }

  ghost predicate Named(t: Tables, p: Path) {
    |p| <= 3 && (p != [] ==> p[..|p| - 1] in t && IndexOk(p[..|p| - 1], p[|p| - 1]))
  }

  ghost predicate Injective(t: Tables) {
    forall p, q | p in t && q in t && t[p] == t[q] :: p == q
  }

  ghost predicate Tree(mem: Mem, t: Tables, root: nat) {
    && MemOk(mem)
    && [] in t && t[[]] == root
    && (forall p {:trigger TableAt(mem, t, p)} | p in t :: TableAt(mem, t, p))
    && (forall p {:trigger Named(t, p)} | p in t :: Named(t, p))
    && (forall p, i {:trigger EntryOk(mem, t, p, i)} | p in t && |p| < 3 && IndexOk(p, i) :: EntryOk(mem, t, p, i))
    && Injective(t)
  }

  /** The leaf entry of a page, taken as zero when a table on the way is missing. */
  ghost function Leaf(mem: Mem, t: Tables, q: Path): Word
    requires LeafPath(q)
  {
    if TableAt(mem, t, q[..3]) then mem[t[q[..3]]][q[3]] else ZERO
  }

  function Write(mem: Mem, f: nat, i: nat, w: Word): Mem
    requires f < |mem| && i < |mem[f]|
  {
    mem[f := mem[f][i := w]]
  }

  function Zeros(): (s: seq<Word>)
    ensures |s| == 512 && forall i | 0 <= i < 512 :: s[i] == ZERO
  {
    seq(512, _ => ZERO)
  }

  /** Clearing a frame and hanging it below an empty interior entry. */
  function Attach(mem: Mem, f: nat, i: nat, g: nat): (m: Mem)
    requires f < |mem| && i < 512 && |mem[f]| == 512 && g < |mem| && f != g
  {
    Write(mem[g := Zeros()], f, i, TableWord(g))
  }

  lemma NoOrphans(t: Tables, p: Path, i: nat)
    requires forall q {:trigger Named(t, q)} | q in t :: Named(t, q)
    requires p !in t
    ensures p + [i] !in t
  {
    assert p + [i] in t ==> Named(t, p + [i]);
    assert (p + [i])[..|p|] == p;
  }

  lemma PrefixSteps(q: Path)
    requires |q| == 4
    ensures [] + [q[0]] == q[..1] && q[..1] + [q[1]] == q[..2] && q[..2] + [q[2]] == q[..3]
  {
  }

  /** A path with a table missing has none further down. */
  lemma MissingParent(t: Tables, q: Path)
    requires |q| == 4 && forall p {:trigger Named(t, p)} | p in t :: Named(t, p)
    ensures q[..3] in t ==> q[..2] in t
    ensures q[..2] in t ==> q[..1] in t
  {
    assert q[..3] in t ==> Named(t, q[..3]);
    assert q[..2] in t ==> Named(t, q[..2]);
    assert q[..3][..2] == q[..2] && q[..2][..1] == q[..1];
  }

  /** Attaching keeps the tree well formed and changes no leaf. */
  lemma AttachKeepsTree(mem: Mem, t: Tables, root: nat, p: Path, i: nat, g: nat)
    requires Tree(mem, t, root) && p in t && |p| < 3 && IndexOk(p, i) && p + [i] !in t
    requires 0 < g < |mem| && g !in t.Values && t[p] in t.Values && TableAt(mem, t, p)
    ensures Tree(Attach(mem, t[p], i, g), t[p + [i] := g], root)
  {
    var mem', t' := Attach(mem, t[p], i, g), t[p + [i] := g];
    forall q | q in t'
      ensures TableAt(mem', t', q) && Named(t', q)
    {
      if q == p + [i] {
        assert q[..|q| - 1] == p;
      } else {
        assert TableAt(mem, t, q) && Named(t, q);
      }
    }
    forall q, j | q in t' && |q| < 3 && IndexOk(q, j)
      ensures EntryOk(mem', t', q, j)
    {
      AttachEntry(mem, t, root, p, i, g, q, j);
    }
    forall q, r | q in t' && r in t' && t'[q] == t'[r]
      ensures q == r
    {
      assert q in t ==> t[q] in t.Values;
      assert r in t ==> t[r] in t.Values;
    }
  }

  lemma AttachEntry(mem: Mem, t: Tables, root: nat, p: Path, i: nat, g: nat, q: Path, j: nat)
    requires Tree(mem, t, root) && p in t && |p| < 3 && IndexOk(p, i) && p + [i] !in t
    requires 0 < g < |mem| && g !in t.Values && t[p] in t.Values && TableAt(mem, t, p)
    requires (q in t || q == p + [i]) && |q| < 3 && IndexOk(q, j)
    ensures TableAt(Attach(mem, t[p], i, g), t[p + [i] := g], q)
    ensures EntryOk(Attach(mem, t[p], i, g), t[p + [i] := g], q, j)
  {
    if q == p + [i] {
      NoOrphans(t, q, j);
      assert q + [j] != q;
    } else {
      assert TableAt(mem, t, q) && EntryOk(mem, t, q, j);
      assert t[q] in t.Values;
      if q + [j] == p + [i] {
        assert q == (q + [j])[..|q|] == p && j == (q + [j])[|q|] == i;
      } else if t[q] == t[p] {
        assert q == p && j != i;
      }
    }
  }

  lemma AttachKeepsLeaf(mem: Mem, t: Tables, root: nat, p: Path, i: nat, g: nat, q: Path)
    requires Tree(mem, t, root) && p in t && |p| < 3 && IndexOk(p, i) && p + [i] !in t
    requires 0 < g < |mem| && g !in t.Values && LeafPath(q) && TableAt(mem, t, p) && t[p] != g
    ensures Leaf(Attach(mem, t[p], i, g), t[p + [i] := g], q) == Leaf(mem, t, q)
  {
    if q[..3] in t {
      assert TableAt(mem, t, q[..3]);
      assert t[q[..3]] in t.Values;
      assert t[q[..3]] == t[p] ==> q[..3] == p;
    }
  }

  /** Writing a leaf entry keeps every table and changes that one leaf only. */
  lemma WriteLeafKeepsTree(mem: Mem, t: Tables, root: nat, p: Path, i: nat, w: Word)
    requires Tree(mem, t, root) && p in t && |p| == 3 && i < 512 && TableAt(mem, t, p)
    ensures Tree(Write(mem, t[p], i, w), t, root)
  {
    var mem' := Write(mem, t[p], i, w);
    forall q | q in t
      ensures TableAt(mem', t, q)
    {
      assert TableAt(mem, t, q);
    }
    forall q, j | q in t && |q| < 3 && IndexOk(q, j)
      ensures EntryOk(mem', t, q, j)
    {
      assert EntryOk(mem, t, q, j);
      assert t[q] == t[p] ==> q == p;
    }
  }

  lemma WriteLeafChangesOne(mem: Mem, t: Tables, root: nat, p: Path, i: nat, w: Word, q: Path)
    requires Tree(mem, t, root) && p in t && |p| == 3 && i < 512 && TableAt(mem, t, p) && LeafPath(q)
    ensures Leaf(Write(mem, t[p], i, w), t, q) == if q == p + [i] then w else Leaf(mem, t, q)
  {
    assert q == q[..3] + [q[3]];
    if q[..3] in t {
      assert TableAt(mem, t, q[..3]);
      assert t[q[..3]] == t[p] ==> q[..3] == p;
    }
    if q == p + [i] {
      assert q[..3] == p && q[3] == i;
    }
  }

  // ---------------------------------------------------------------- what the processor does with a table

  /** The outcome of a walk of the processor: a page fault, or a frame and the rights along the way. */
  datatype Translation = NotPresent | Page(frame: nat, write: bool, user: bool, exec: bool)

  /**
   The walk from a table down, on memory alone. Writing and user access need the right at every level,
   execution needs the no-execute bit clear at every level (section 4.6.1 of the Intel SDM, Volume 3A).
   */
  function Translate(mem: Mem, f: nat, q: Path): Translation
    requires q != []
    decreases |q|
  {
    if f >= |mem| || q[0] >= |mem[f]| || !mem[f][q[0]].p then NotPresent
    else
      var e := mem[f][q[0]];
      if |q| == 1 then Page(e.frame, e.rw, e.us, !e.nx)
      else
        match Translate(mem, e.frame, q[1..])
        case NotPresent => NotPresent
        case Page(frame, write, user, exec) => Page(frame, e.rw && write, e.us && user, !e.nx && exec)
  }

  /** What a leaf on its own would allow. */
  function Allowed(w: Word): Translation {
    if w.p then Page(w.frame, w.rw, w.us, !w.nx) else NotPresent
  }

  lemma {:induction false} TranslateBelow(mem: Mem, t: Tables, root: nat, q: Path, k: nat)
    requires Tree(mem, t, root) && LeafPath(q) && k <= 3 && q[..k] in t
    ensures Translate(mem, t[q[..k]], q[k..]) == Allowed(Leaf(mem, t, q))
    decreases 3 - k
  {
    var p := q[..k];
    assert TableAt(mem, t, p) && q[k..][0] == q[k];
    if k < 3 {
      assert EntryOk(mem, t, p, q[k]) && p + [q[k]] == q[..k + 1] && q[k..][1..] == q[k + 1..];
      if q[..k + 1] in t {
        TranslateBelow(mem, t, root, q, k + 1);
      } else {
        MissingParent(t, q);
        assert q[..3] !in t;
      }
    }
  }

  /**
   The processor grants exactly what the leaf allows: no table on the way takes a right away, and none
   is missing above a present leaf.
   */
  lemma TranslateIsLeaf(mem: Mem, t: Tables, root: nat, q: Path)
    requires Tree(mem, t, root) && LeafPath(q)
    ensures Translate(mem, root, q) == Allowed(Leaf(mem, t, q))
  {
    assert q[..0] == [] && q[0..] == q;
    TranslateBelow(mem, t, root, q, 0);
  }

  /** The names are determined by the memory: a tree has one table map. */
  lemma {:induction false} TablesUnique(mem: Mem, s: Tables, t: Tables, root: nat, p: Path)
    requires Tree(mem, s, root) && Tree(mem, t, root)
    ensures p in s <==> p in t
    ensures p in s && p in t ==> s[p] == t[p]
    decreases |p|
  {
    if p in s || p in t {
      assert p in s ==> Named(s, p);
      assert p in t ==> Named(t, p);
      if p != [] {
        var parent, i := p[..|p| - 1], p[|p| - 1];
        assert p == parent + [i];
        TablesUnique(mem, s, t, root, parent);
        assert TableAt(mem, s, parent) && TableAt(mem, t, parent);
        assert EntryOk(mem, s, parent, i) && EntryOk(mem, t, parent, i);
      }
    }
  }
}
