/**
 Several address spaces over one physical memory: fork, the virtual memory calls of each process on its user
 half, and freePT at its end. What belongs to one process never reaches another.
 */
module ManySpaces {
  import opened Words
  import Frames
  import opened PageTable
  import opened Spaces
  import opened VirtualSteps
  import VirtualRuns
  import Outcomes
  import opened CloneSpec
  import opened Cloning
  import opened ForkSpec
  import Forking
  import opened ReleaseSpec
  import Releasing

  /** Physical memory, the frame allocator, and the tables of each address space by the frame of its root. */
  datatype World = World(mem: Mem, frames: Frames.Frames, spaces: map<nat, Tables>)

  ghost function At(w: World, r: nat): Space
    requires r in w.spaces
  {
    Space(w.mem, w.spaces[r], r, w.frames)
  }

  /** No user table and no user page of s sits in a frame in which t has a table or page, of either half. */
  ghost predicate Apart(s: Space, t: Space) {
    forall q, r {:trigger Node(s, q), Node(t, r)} | Node(s, q) && UserPath(q) && Node(t, r) ::
      NodeFrame(s, q) != NodeFrame(t, r)
  }

  ghost predicate WorldOk(w: World) {
    && (forall r {:trigger At(w, r)} | r in w.spaces :: Separated(At(w, r)))
    && (forall r, t {:trigger Apart(At(w, r), At(w, t))} | r in w.spaces && t in w.spaces && r != t :: Apart(At(w, r), At(w, t)))
  }

  // ---------------------------------------------------------------- one space changes, another looks on

  /** A frame that is free or belongs to the user half of s. */
  ghost predicate Private(s: Space, f: nat) {
    f !in s.frames.used || exists q :: Node(s, q) && UserPath(q) && NodeFrame(s, q) == f
  }

  /** What s may do to the memory it shares: only private frames are written or given back. */
  ghost predicate Discreet(s: Space, s': Space) {
    && |s'.mem| == |s.mem| && MemOk(s'.mem) && s'.frames == s.frames.(used := s'.frames.used) && Frames.FramesOk(s'.frames)
    && (forall f | 0 <= f < |s.mem| && s'.mem[f] != s.mem[f] :: Private(s, f))
    && (forall f | f in s.frames.used && f !in s'.frames.used :: Private(s, f))
  }

  /** Nodes of s' are nodes of s, or sit in frames that were free. */
  ghost predicate GrewFrom(s: Space, s': Space) {
    forall q {:trigger Node(s', q)} | Node(s', q) ::
      (Node(s, q) && NodeFrame(s', q) == NodeFrame(s, q)) || NodeFrame(s', q) !in s.frames.used
  }

  /** Two spaces over the same memory. */
  ghost predicate Beside(s: Space, t: Space) {
    t.mem == s.mem && t.frames == s.frames && Separated(s) && Separated(t) && Apart(s, t) && Apart(t, s)
  }

  ghost function Seen(t: Space, s': Space): Space {
    t.(mem := s'.mem, frames := s'.frames)
  }

  lemma NodeUsed(t: Space, q: Path)
    requires Separated(t) && Node(t, q)
    ensures NodeFrame(t, q) in t.frames.used && NodeFrame(t, q) < |t.mem|
  {
    if q in t.tables {
      assert TableAt(t.mem, t.tables, q) && t.tables[q] in t.tables.Values;
    } else {
      assert DataFrame(t, q);
    }
  }

  /** Tables and pages of the onlooker are neither written nor given back. */
  lemma NodeUntouched(s: Space, s': Space, t: Space, q: Path)
    requires Beside(s, t) && Discreet(s, s') && Node(t, q)
    ensures NodeFrame(t, q) in s'.frames.used && NodeFrame(t, q) < |t.mem| == |s'.mem|
    ensures s'.mem[NodeFrame(t, q)] == t.mem[NodeFrame(t, q)]
  {
    NodeUsed(t, q);
    assert !Private(s, NodeFrame(t, q));
  }

  lemma LeafUntouched(s: Space, s': Space, t: Space, u: Path)
    requires Beside(s, t) && Discreet(s, s') && LeafPath(u)
    ensures LeafOf(Seen(t, s'), u) == LeafOf(t, u)
  {
    if u[..3] in t.tables {
      assert TableAt(t.mem, t.tables, u[..3]) && Node(t, u[..3]);
      NodeUntouched(s, s', t, u[..3]);
    }
  }

  lemma TreeUntouched(s: Space, s': Space, t: Space)
    requires Beside(s, t) && Discreet(s, s')
    ensures Tree(s'.mem, t.tables, t.root)
  {
    forall p | p in t.tables
      ensures TableAt(s'.mem, t.tables, p) && s'.mem[t.tables[p]] == t.mem[t.tables[p]]
    {
      assert TableAt(t.mem, t.tables, p) && Node(t, p);
      NodeUntouched(s, s', t, p);
    }
    forall p, i | p in t.tables && |p| < 3 && IndexOk(p, i)
      ensures EntryOk(s'.mem, t.tables, p, i)
    {
      assert TableAt(t.mem, t.tables, p) && EntryOk(t.mem, t.tables, p, i);
    }
  }

  /** The onlooker keeps its tables, its pages and their contents. */
  lemma OnlookerKeeps(s: Space, s': Space, t: Space)
    requires Beside(s, t) && Discreet(s, s')
    ensures Separated(Seen(t, s')) && SameLeaves(t, Seen(t, s')) && KeepsPages(t, Seen(t, s'), {})
  {
    var t' := Seen(t, s');
    TreeUntouched(s, s', t);
    forall f | f in t.tables.Values
      ensures f in s'.frames.used
    {
      var p :| p in t.tables && t.tables[p] == f;
      assert Node(t, p);
      NodeUntouched(s, s', t, p);
    }
    forall u | LeafPath(u)
      ensures LeafOf(t', u) == LeafOf(t, u) && DataFrame(t', u)
      ensures LeafOf(t, u).p ==> LeafOf(t, u).frame < |t.mem| && t'.mem[LeafOf(t, u).frame] == t.mem[LeafOf(t, u).frame]
    {
      LeafUntouched(s, s', t, u);
      if LeafOf(t, u).p {
        assert DataFrame(t, u) && Node(t, u);
        PageFrame(t, u);
        NodeUntouched(s, s', t, u);
      }
    }
  }

  lemma PageFrame(t: Space, u: Path)
    requires Separated(t) && LeafPath(u) && LeafOf(t, u).p
    ensures u !in t.tables && Node(t, u) && NodeFrame(t, u) == LeafOf(t, u).frame
  {
    assert u in t.tables ==> Named(t.tables, u);
  }

  lemma SameNodes(t: Space, t': Space, q: Path)
    requires t'.tables == t.tables && SameLeaves(t, t')
    ensures Node(t', q) <==> Node(t, q)
    ensures Node(t, q) ==> NodeFrame(t', q) == NodeFrame(t, q)
  {
  }

  /** The two stay apart. */
  lemma ApartStays(s: Space, s': Space, t: Space)
    requires Beside(s, t) && Discreet(s, s') && GrewFrom(s, s')
    ensures Apart(s', Seen(t, s')) && Apart(Seen(t, s'), s')
  {
    var t' := Seen(t, s');
    OnlookerKeeps(s, s', t);
    forall q, r | Node(s', q) && Node(t', r) && (UserPath(q) || UserPath(r))
      ensures NodeFrame(s', q) != NodeFrame(t', r)
    {
      SameNodes(t, t', r);
      NodeUsed(t, r);
      assert Node(t, r);
    }
  }

  // ---------------------------------------------------------------- virtual memory calls of one process

  /** Calls on pages of the user half. */
  ghost predicate UserCall(c: VirtualRuns.Call) {
    match c
    case Allocate(_, _, _, _, _, stretch, _, _) => stretch == 0
    case Fault(q, _, _) => UserPath(q)
    case FreePage(q, _) => UserPath(q)
  }

  ghost predicate ActStep(s: Space, c: VirtualRuns.Call, s': Space) {
    VirtualRuns.Step(s, c, s') && UserCall(c) && Confined(s, s')
  }

  /** New tables come from free frames. */
  lemma NewTable(s: Space, c: VirtualRuns.Call, s': Space, p: Path)
    requires Separated(s) && VirtualRuns.Step(s, c, s') && p in s'.tables && p !in s.tables
    ensures s'.tables[p] !in s.frames.used && SpaceOk(s')
  {
    VirtualRuns.StepSeparates(s, c, s');
    assert s'.tables[p] in s'.tables.Values;
    match c
    case Allocate(base, limit, count, req, w, stretch, g, r) =>
    case Fault(q, a, frame) =>
    case FreePage(q, ok) =>
  }

  /** A page that is present before and after a call is on the same frame. */
  lemma StillPresent(s: Space, c: VirtualRuns.Call, s': Space, u: Path)
    requires Separated(s) && VirtualRuns.Step(s, c, s') && LeafPath(u) && LeafOf(s, u).p && LeafOf(s', u).p
    ensures LeafOf(s', u) == LeafOf(s, u)
  {
    match c
    case Allocate(base, limit, count, req, w, stretch, g, r) =>
    case Fault(q, a, frame) =>
      FaultSeparates(s, s', q, a, frame);
    case FreePage(q, ok) =>
      FreeSeparates(s, s', q, ok);
  }

  lemma ActGrew(s: Space, c: VirtualRuns.Call, s': Space)
    requires Separated(s) && VirtualRuns.Step(s, c, s') && Confined(s, s')
    ensures GrewFrom(s, s')
  {
    VirtualRuns.StepSeparates(s, c, s');
    forall q | Node(s', q)
      ensures (Node(s, q) && NodeFrame(s', q) == NodeFrame(s, q)) || NodeFrame(s', q) !in s.frames.used
    {
      if q in s'.tables {
        if q !in s.tables {
          NewTable(s, c, s', q);
        }
      } else if LeafOf(s, q).p {
        StillPresent(s, c, s', q);
        PageFrame(s, q);
      } else {
        VirtualRuns.PresentOnlyByFault(s, c, s', q);
      }
    }
  }

  lemma ActWrites(s: Space, c: VirtualRuns.Call, s': Space, f: nat)
    requires Separated(s) && ActStep(s, c, s') && f < |s.mem| == |s'.mem| && s'.mem[f] != s.mem[f]
    ensures Private(s, f)
  {
    assert UserTable(s'.tables, f);
    var p :| p in s'.tables && UserPath(p) && s'.tables[p] == f;
    if p in s.tables {
      assert Node(s, p) && NodeFrame(s, p) == f;
    } else {
      NewTable(s, c, s', p);
    }
  }

  lemma ActGivesBack(s: Space, c: VirtualRuns.Call, s': Space)
    requires Separated(s) && ActStep(s, c, s')
    ensures s'.frames == s.frames.(used := s'.frames.used) && Frames.FramesOk(s'.frames)
    ensures forall f | f in s.frames.used && f !in s'.frames.used :: Private(s, f)
  {
    VirtualRuns.StepSeparates(s, c, s');
    match c
    case Allocate(base, limit, count, req, w, stretch, g, r) =>
    case Fault(q, a, frame) =>
    case FreePage(q, ok) =>
      if LeafOf(s, q).p {
        PageFrame(s, q);
      }
  }

  lemma ActDiscreet(s: Space, c: VirtualRuns.Call, s': Space)
    requires Separated(s) && ActStep(s, c, s')
    ensures Separated(s') && Discreet(s, s') && GrewFrom(s, s')
  {
    VirtualRuns.StepSeparates(s, c, s');
    ActGrew(s, c, s');
    ActGivesBack(s, c, s');
    forall f | 0 <= f < |s.mem| && s'.mem[f] != s.mem[f]
      ensures Private(s, f)
    {
      ActWrites(s, c, s', f);
    }
  }

  // ---------------------------------------------------------------- fork

  ghost function Child(s: Space, v: Space, g: nat, c: Tables): Space {
    Space(v.mem, ChildTables(s, c), g, v.frames)
  }

  lemma FreshDiscreet(s: Space, v: Space)
    requires Separated(s) && Fresh(s, v)
    ensures Discreet(s, v) && Separated(v) && GrewFrom(s, v)
  {
    SeparatedParent(s);
    ParentUnchanged(s, v);
    forall u | LeafPath(u)
      ensures LeafOf(v, u) == LeafOf(s, u) && DataFrame(v, u)
    {
      assert DataFrame(s, u);
    }
    forall f | 0 <= f < |s.mem| && v.mem[f] != s.mem[f]
      ensures Private(s, f)
    {
      assert f in v.frames.used - s.frames.used;
    }
    forall q | Node(v, q)
      ensures Node(s, q) && NodeFrame(v, q) == NodeFrame(s, q)
    {
      SameNodes(s, v, q);
    }
  }

  /** The nodes of the child: kernel nodes are the parent's, user nodes sit in frames that were free. */
  lemma ChildNode(s: Space, v: Space, g: nat, c: Tables, q: Path)
    requires Separated(s) && Forked(s, v, g, c) && Node(Child(s, v, g, c), q)
    ensures if UserPath(q) then NodeFrame(Child(s, v, g, c), q) !in s.frames.used
            else Node(s, q) && NodeFrame(Child(s, v, g, c), q) == NodeFrame(s, q)
    ensures NodeFrame(Child(s, v, g, c), q) in v.frames.used
  {
    var k := Child(s, v, g, c);
    SeparatedParent(s);
    if q in k.tables {
      ChildTable(s, v, g, c, q);
      assert q in c ==> c[q] in c.Values;
      assert q !in c ==> s.tables[q] in s.tables.Values;
    } else {
      ChildPages(s, v, g, c, q);
      if q[0] > 256 {
        PageFrame(s, q);
        assert DataFrame(s, q);
      }
    }
  }

  lemma SeparatedParent(s: Space)
    requires Separated(s)
    ensures Parent(s)
  {
    forall q | LeafPath(q) && LeafOf(s, q).p
      ensures LeafOf(s, q).frame in s.frames.used && LeafOf(s, q).frame < |s.mem|
    {
      assert DataFrame(s, q);
    }
  }

  lemma ChildData(s: Space, v: Space, g: nat, c: Tables, u: Path)
    requires Separated(s) && Forked(s, v, g, c) && LeafPath(u)
    ensures DataFrame(Child(s, v, g, c), u)
  {
    var k := Child(s, v, g, c);
    SeparatedParent(s);
    ChildPages(s, v, g, c, u);
    if LeafOf(k, u).p && u[0] > 256 {
      assert DataFrame(s, u);
      forall q | q in k.tables
        ensures k.tables[q] != LeafOf(s, u).frame
      {
        assert q in c ==> c[q] in c.Values;
        assert q !in c ==> s.tables[q] in s.tables.Values;
      }
    }
  }

  /** The child is an address space of its own: its frames are used, hold one table or page each, and fit its tree. */
  lemma ChildSeparated(s: Space, v: Space, g: nat, c: Tables)
    requires Separated(s) && Forked(s, v, g, c)
    ensures Separated(Child(s, v, g, c))
  {
    var k := Child(s, v, g, c);
    SeparatedParent(s);
    ChildIsTree(s, v, g, c);
    forall f | f in k.tables.Values
      ensures f in v.frames.used
    {
      var q :| q in k.tables && k.tables[q] == f;
      ChildNode(s, v, g, c, q);
    }
    ParentUnchanged(s, v);
    forall u | LeafPath(u)
      ensures DataFrame(k, u)
    {
      ChildData(s, v, g, c, u);
    }
    forall u, w | LeafPath(u) && LeafPath(w) && LeafOf(k, u).p && LeafOf(k, w).p && LeafOf(k, u).frame == LeafOf(k, w).frame
      ensures u == w
    {
      SamePage(s, v, g, c, u, w);
    }
  }

  lemma SamePage(s: Space, v: Space, g: nat, c: Tables, u: Path, w: Path)
    requires Separated(s) && Forked(s, v, g, c) && LeafPath(u) && LeafPath(w)
    requires var k := Child(s, v, g, c); LeafOf(k, u).p && LeafOf(k, w).p && LeafOf(k, u).frame == LeafOf(k, w).frame
    ensures u == w
  {
    SeparatedParent(s);
    ChildPages(s, v, g, c, u);
    ChildPages(s, v, g, c, w);
    assert DataFrame(s, u) && DataFrame(s, w);
  }

  /** The child is apart from every space that was there, its parent included. */
  lemma ChildApart(s: Space, v: Space, g: nat, c: Tables, t: Space)
    requires Separated(s) && Forked(s, v, g, c) && (t == s || Beside(s, t))
    ensures Apart(Child(s, v, g, c), Seen(t, v)) && Apart(Seen(t, v), Child(s, v, g, c))
  {
    var k, t' := Child(s, v, g, c), Seen(t, v);
    FreshDiscreet(s, v);
    if t != s {
      OnlookerKeeps(s, v, t);
    } else {
      SeparatedParent(s);
      ParentUnchanged(s, v);
    }
    forall q, r | Node(k, q) && Node(t', r) && (UserPath(q) || UserPath(r))
      ensures NodeFrame(k, q) != NodeFrame(t', r)
    {
      SameNodes(t, t', r);
      NodeUsed(t, r);
      ChildNode(s, v, g, c, q);
      if !UserPath(q) && t == s && NodeFrame(s, q) == NodeFrame(s, r) {
        NodeFramesDistinct(s, q, r);
      }
    }
  }

  // ---------------------------------------------------------------- the end of a process

  /** freePT on any user slots of the root, each of which has its own tables and pages below. */
  ghost predicate ExitStep(s: Space, gone: map<nat, Tables>, s': Space) {
    && s'.mem == s.mem && s'.frames == s.frames.(used := s'.frames.used) && s'.frames.used <= s.frames.used
    && (forall i | i in gone :: i < 256 && Gone(s, [i], 512, gone[i]))
    && (forall f | f in s.frames.used :: f !in s'.frames.used <==> InSome(gone, f))
  }

  ghost predicate InSome(gone: map<nat, Tables>, f: nat) {
    exists i :: i in gone && f in gone[i].Values
  }

  lemma InSomeMore(gone: map<nat, Tables>, i: nat, c: Tables, f: nat)
    requires i !in gone
    ensures InSome(gone[i := c], f) <==> InSome(gone, f) || f in c.Values
  {
    var all := gone[i := c];
    if InSome(gone, f) {
      var k :| k in gone && f in gone[k].Values;
      assert k in all && f in all[k].Values;
    }
    if f in c.Values {
      assert i in all && f in all[i].Values;
    }
  }

  /** One more freePT call on another slot. */
  lemma ExitGrows(s: Space, gone: map<nat, Tables>, s1: Space, i: nat, c: Tables, s': Space)
    requires ExitStep(s, gone, s1) && i < 256 && i !in gone && Gone(s, [i], 512, c)
    requires Releasing.Returned(s1.frames, s'.frames, c) && s' == s1.(frames := s'.frames)
    ensures ExitStep(s, gone[i := c], s')
  {
    forall f | f in s.frames.used
      ensures f !in s'.frames.used <==> InSome(gone[i := c], f)
    {
      InSomeMore(gone, i, c, f);
    }
  }

  lemma GonePrivate(s: Space, i: nat, c: Tables, f: nat)
    requires i < 256 && Gone(s, [i], 512, c) && f in c.Values
    ensures Private(s, f)
  {
    var q :| q in c && c[q] == f;
    assert Node(s, q) && Reached([i], 512, q);
    assert q[..1] == [i] && q[0] == i;
  }

  lemma ExitDiscreet(s: Space, gone: map<nat, Tables>, s': Space)
    requires Separated(s) && ExitStep(s, gone, s')
    ensures Discreet(s, s')
  {
    forall f | f in s.frames.used && f !in s'.frames.used
      ensures Private(s, f)
    {
      var i :| i in gone && f in gone[i].Values;
      GonePrivate(s, i, gone[i], f);
    }
  }

  // ---------------------------------------------------------------- the world

  datatype Call =
    | Act(root: nat, call: VirtualRuns.Call)
    | Fork(root: nat, child: nat, clones: Tables)
    | Exit(root: nat, gone: map<nat, Tables>)

  /** The space under `r` as it is after a step that may have dropped it. */
  ghost function After(w: World, w': World, r: nat): Space
    requires r in w.spaces
  {
    Space(w'.mem, if r in w'.spaces then w'.spaces[r] else w.spaces[r], r, w'.frames)
  }

  /** A fork that lacks frames leaves no new space behind, only used frames. */
  ghost predicate Step(w: World, c: Call, w': World) {
    && c.root in w.spaces
    && var s, s' := At(w, c.root), After(w, w', c.root);
    match c
    case Act(r, call) =>
      ActStep(s, call, s') && w'.spaces == w.spaces[r := s'.tables]
    case Fork(r, g, clones) =>
      && s'.tables == s.tables && Forking.ForkStep(s, s', g, clones)
      && w'.spaces == if ForkCost(s) <= Available(s) then w.spaces[g := ChildTables(s, clones)] else w.spaces
    case Exit(r, gone) =>
      ExitStep(s, gone, s') && w'.spaces == w.spaces - {r}
  }

  /** What a step does to the space it is about. */
  lemma ActorDiscreet(w: World, c: Call, w': World)
    requires WorldOk(w) && Step(w, c, w')
    ensures var s, s' := At(w, c.root), After(w, w', c.root);
            Discreet(s, s') && (!c.Exit? ==> Separated(s') && GrewFrom(s, s'))
  {
    var s, s' := At(w, c.root), After(w, w', c.root);
    match c
    case Act(r, call) => ActDiscreet(s, call, s');
    case Fork(r, g, clones) => FreshDiscreet(s, s');
    case Exit(r, gone) => ExitDiscreet(s, gone, s');
  }

  lemma WorldBeside(w: World, r: nat, t: nat)
    requires WorldOk(w) && r in w.spaces && t in w.spaces && r != t
    ensures Beside(At(w, r), At(w, t))
  {
    assert Apart(At(w, r), At(w, t)) && Apart(At(w, t), At(w, r));
  }

  /** A new root is in a frame that no space had. */
  lemma NewRoot(w: World, s: Space, v: Space, g: nat, c: Tables)
    requires WorldOk(w) && s.frames == w.frames && Forked(s, v, g, c)
    ensures g !in w.spaces
  {
    assert g in c.Values;
    if g in w.spaces {
      RootUsed(w, g);
    }
  }

  lemma RootUsed(w: World, r: nat)
    requires WorldOk(w) && r in w.spaces
    ensures r in w.frames.used
  {
    var s := At(w, r);
    assert Separated(s) && s.tables[[]] in s.tables.Values;
  }

  /** Nothing happens to a space by the steps of the others: same tables, same leaves, same contents. */
  lemma OthersKeep(w: World, c: Call, w': World, t: nat)
    requires WorldOk(w) && Step(w, c, w') && t in w.spaces && t != c.root
    ensures t in w'.spaces && At(w', t) == Seen(At(w, t), After(w, w', c.root))
    ensures Separated(At(w', t)) && SameLeaves(At(w, t), At(w', t)) && KeepsPages(At(w, t), At(w', t), {})
  {
    var s, s' := At(w, c.root), After(w, w', c.root);
    ActorDiscreet(w, c, w');
    WorldBeside(w, c.root, t);
    OnlookerKeeps(s, s', At(w, t));
    if c.Fork? && ForkCost(s) <= Available(s) {
      NewRoot(w, s, s', c.child, c.clones);
    }
  }

  /** Two onlookers stay apart. */
  lemma OnlookersApart(t: Space, u: Space, t': Space, u': Space)
    requires Apart(t, u) && t'.tables == t.tables && u'.tables == u.tables && SameLeaves(t, t') && SameLeaves(u, u')
    ensures Apart(t', u')
  {
    forall q, r | Node(t', q) && UserPath(q) && Node(u', r)
      ensures NodeFrame(t', q) != NodeFrame(u', r)
    {
      SameNodes(t, t', q);
      SameNodes(u, u', r);
    }
  }

  ghost predicate Old(w: World, c: Call, r: nat) {
    r in w.spaces && !(c.Exit? && r == c.root)
  }

  lemma OldApart(w: World, c: Call, w': World, r: nat, t: nat)
    requires WorldOk(w) && Step(w, c, w') && Old(w, c, r) && Old(w, c, t) && r != t && r in w'.spaces && t in w'.spaces
    ensures Apart(At(w', r), At(w', t))
  {
    var s, s' := At(w, c.root), After(w, w', c.root);
    ActorDiscreet(w, c, w');
    if r != c.root {
      OthersKeep(w, c, w', r);
      WorldBeside(w, c.root, r);
    }
    if t != c.root {
      OthersKeep(w, c, w', t);
      WorldBeside(w, c.root, t);
    }
    if r == c.root {
      ApartStays(s, s', At(w, t));
    } else if t == c.root {
      ApartStays(s, s', At(w, r));
    } else {
      WorldBeside(w, r, t);
      OnlookersApart(At(w, r), At(w, t), At(w', r), At(w', t));
    }
  }

  lemma OldSeparated(w: World, c: Call, w': World, r: nat)
    requires WorldOk(w) && Step(w, c, w') && Old(w, c, r)
    ensures r in w'.spaces && Separated(At(w', r))
  {
    ActorDiscreet(w, c, w');
    if r != c.root {
      OthersKeep(w, c, w', r);
    } else if c.Fork? && ForkCost(At(w, r)) <= Available(At(w, r)) {
      NewRoot(w, At(w, r), After(w, w', r), c.child, c.clones);
    }
  }

  lemma NewSpace(w: World, c: Call, w': World, t: nat)
    requires WorldOk(w) && Step(w, c, w') && c.Fork? && c.child in w'.spaces && c.child !in w.spaces && Old(w, c, t)
    ensures At(w', c.child) == Child(At(w, c.root), After(w, w', c.root), c.child, c.clones)
    ensures Separated(At(w', c.child)) && t in w'.spaces
    ensures Apart(At(w', c.child), At(w', t)) && Apart(At(w', t), At(w', c.child))
  {
    var s, v := At(w, c.root), After(w, w', c.root);
    ChildSeparated(s, v, c.child, c.clones);
    if t != c.root {
      WorldBeside(w, c.root, t);
      OthersKeep(w, c, w', t);
    }
    ChildApart(s, v, c.child, c.clones, At(w, t));
  }

  lemma StepKeeps(w: World, c: Call, w': World)
    requires WorldOk(w) && Step(w, c, w')
    ensures WorldOk(w')
  {
    forall r | r in w'.spaces
      ensures Separated(At(w', r))
    {
      if Old(w, c, r) {
        OldSeparated(w, c, w', r);
      } else {
        NewSpace(w, c, w', c.root);
      }
    }
    forall r, t | r in w'.spaces && t in w'.spaces && r != t
      ensures Apart(At(w', r), At(w', t))
    {
      if Old(w, c, r) && Old(w, c, t) {
        OldApart(w, c, w', r, t);
      } else {
        NewSpace(w, c, w', if Old(w, c, r) then r else t);
      }
    }
  }

  // ---------------------------------------------------------------- runs

  ghost predicate StepAt(worlds: seq<World>, calls: seq<Call>, i: nat) {
    i < |calls| && |worlds| == |calls| + 1 && Step(worlds[i], calls[i], worlds[i + 1])
  }

  ghost predicate Run(worlds: seq<World>, calls: seq<Call>) {
    |worlds| == |calls| + 1 && WorldOk(worlds[0]) && forall i: nat | i < |calls| :: StepAt(worlds, calls, i)
  }

  /**
   Over every run of forks, user memory calls and exits, in any order: in each space pages and tables have frames
   of their own, and no user table or page of one space sits in a frame of another.
   */
  lemma {:induction false} WorldStaysOk(worlds: seq<World>, calls: seq<Call>, i: nat)
    requires Run(worlds, calls) && i < |worlds|
    ensures WorldOk(worlds[i])
  {
    if i > 0 {
      WorldStaysOk(worlds, calls, i - 1);
      assert StepAt(worlds, calls, i - 1);
      StepKeeps(worlds[i - 1], calls[i - 1], worlds[i]);
    }
  }

  /** At no point of a run does a process see a page of another one's user half. */
  lemma PagesDisjoint(worlds: seq<World>, calls: seq<Call>, i: nat, r: nat, t: nat, u: Path, v: Path)
    requires Run(worlds, calls) && i < |worlds| && r in worlds[i].spaces && t in worlds[i].spaces && r != t
    requires LeafPath(u) && LeafPath(v) && u[0] < 256
    requires LeafOf(At(worlds[i], r), u).p && LeafOf(At(worlds[i], t), v).p
    ensures LeafOf(At(worlds[i], r), u).frame != LeafOf(At(worlds[i], t), v).frame
  {
    WorldStaysOk(worlds, calls, i);
    WorldBeside(worlds[i], r, t);
    PageFrame(At(worlds[i], r), u);
    PageFrame(At(worlds[i], t), v);
  }

  /**
   Isolation as the processor sees it, on memory and the two roots alone: no address of one process leads to the
   frame behind a user address of another.
   */
  lemma Isolated(worlds: seq<World>, calls: seq<Call>, i: nat, r: nat, t: nat, u: Path, v: Path)
    requires Run(worlds, calls) && i < |worlds| && r in worlds[i].spaces && t in worlds[i].spaces && r != t
    requires LeafPath(u) && LeafPath(v) && u[0] < 256
    requires Translate(worlds[i].mem, r, u).Page? && Translate(worlds[i].mem, t, v).Page?
    ensures Translate(worlds[i].mem, r, u).frame != Translate(worlds[i].mem, t, v).frame
  {
    WorldStaysOk(worlds, calls, i);
    WorldBeside(worlds[i], r, t);
    AccessIsLeaf(At(worlds[i], r), u);
    AccessIsLeaf(At(worlds[i], t), v);
    PagesDisjoint(worlds, calls, i, r, t, u, v);
  }

  /** A run can start with one space. */
  lemma OneSpaceOk(spare: nat)
    ensures var s := Outcomes.EmptySpace(spare); WorldOk(World(s.mem, s.frames, map[s.root := s.tables]))
  {
    Outcomes.EmptySpaceOk(spare);
    var s := Outcomes.EmptySpace(spare);
    var w := World(s.mem, s.frames, map[s.root := s.tables]);
    assert At(w, s.root) == s;
  }

  /** A call that may take the page u away from the space under r. */
  ghost predicate Takes(c: Call, r: nat, u: Path) {
    c.root == r && (c.Exit? || (c.Act? && u in VirtualRuns.FreedBy(c.call) + VirtualRuns.OverwrittenBy(c.call)))
  }

  /** A page of some space, on a given frame with given contents. */
  ghost predicate PageIs(w: World, r: nat, u: Path, leaf: Word, page: seq<Word>)
    requires LeafPath(u)
  {
    && r in w.spaces && LeafOf(At(w, r), u) == leaf && leaf.p
    && leaf.frame < |w.mem| && w.mem[leaf.frame] == page
  }

  lemma PageStays(w: World, c: Call, w': World, r: nat, u: Path, leaf: Word, page: seq<Word>)
    requires WorldOk(w) && Step(w, c, w') && LeafPath(u) && PageIs(w, r, u, leaf, page) && !Takes(c, r, u)
    ensures PageIs(w', r, u, leaf, page)
  {
    if r != c.root {
      OthersKeep(w, c, w', r);
    } else {
      OldSeparated(w, c, w', r);
      var s, s' := At(w, r), After(w, w', r);
      if c.Act? {
        VirtualRuns.StepSeparates(s, c.call, s');
      } else {
        SeparatedParent(s);
        ParentUnchanged(s, s');
        assert LeafOf(s', u) == leaf && DataFrame(s, u);
      }
    }
  }

  /**
   A page of a process keeps its frame and its contents whatever the other processes do: until its own process
   frees it, overwrites it by a wrapped search, or exits.
   */
  lemma {:induction false} PageSurvives(worlds: seq<World>, calls: seq<Call>, i: nat, j: nat, r: nat, u: Path, leaf: Word, page: seq<Word>)
    requires Run(worlds, calls) && i <= j < |worlds| && LeafPath(u) && PageIs(worlds[i], r, u, leaf, page)
    requires forall k: nat | i <= k < j :: !Takes(calls[k], r, u)
    ensures PageIs(worlds[j], r, u, leaf, page)
    decreases j - i
  {
    if i < j {
      WorldStaysOk(worlds, calls, i);
      assert StepAt(worlds, calls, i) && !Takes(calls[i], r, u);
      PageStays(worlds[i], calls[i], worlds[i + 1], r, u, leaf, page);
      PageSurvives(worlds, calls, i + 1, j, r, u, leaf, page);
    }
  }
}
