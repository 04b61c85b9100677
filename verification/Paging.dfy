/** Virtual addresses: 64-bit integers, of which bits 12 to 47 select the page. */
module Addresses {
  import opened PageTable

  const LEVELS: nat := 4

  /** The k low base-512 digits of a page number, highest first. */
  function Digits(n: nat, k: nat): (q: Path)
    ensures |q| == k && forall i | 0 <= i < k :: q[i] < 512
  {
    if k == 0 then [] else Digits(n / 512, k - 1) + [n % 512]
  }

  /** The table indices of an address; `IndexShifts` gives them as the shifts and masks of the code. */
  function Indices(addr: nat): Path {
    Digits(addr / 4096, LEVELS)
  }

  predicate InDirectMap(addr: nat) {
    Indices(addr)[0] == 256
  }

  function Align(addr: nat): nat {
    addr - addr % 4096
  }

  lemma IndexShifts(addr: nat)
    ensures Indices(addr) == [addr / 0x80_0000_0000 % 512, addr / 0x4000_0000 % 512,
                              addr / 0x20_0000 % 512, addr / 4096 % 512]
  {
    var n := addr / 4096;
    assert n / 512 == addr / 0x20_0000;
    assert n / 512 / 512 == addr / 0x4000_0000;
    assert n / 512 / 512 / 512 == addr / 0x80_0000_0000;
    assert Digits(n / 512 / 512 / 512 / 512, 0) == [];
    assert Digits(n / 512 / 512 / 512, 1) == [n / 512 / 512 / 512 % 512];
    assert Digits(n / 512 / 512, 2) == [n / 512 / 512 / 512 % 512, n / 512 / 512 % 512];
    assert Digits(n / 512, 3) == [n / 512 / 512 / 512 % 512, n / 512 / 512 % 512, n / 512 % 512];
  }

  lemma IndicesOfPage(addr: nat)
    ensures Indices(Align(addr)) == Indices(addr) && Align(Align(addr)) == Align(addr)
  {
    assert Align(addr) / 4096 == addr / 4096;
  }

  function Rest(n: nat, k: nat): nat {
    if k == 0 then n else Rest(n / 512, k - 1)
  }

  lemma {:induction false} DigitsInjective(m: nat, n: nat, k: nat)
    requires Digits(m, k) == Digits(n, k) && Rest(m, k) == Rest(n, k)
    ensures m == n
  {
    if k > 0 {
      var a, b := Digits(m, k), Digits(n, k);
      assert a[..k - 1] == Digits(m / 512, k - 1) && b[..k - 1] == Digits(n / 512, k - 1);
      assert a[k - 1] == m % 512 && b[k - 1] == n % 512;
      DigitsInjective(m / 512, n / 512, k - 1);
    }
  }

  lemma RestIsStretch(n: nat)
    ensures Rest(n, LEVELS) == n / 0x10_0000_0000
  {
    assert Rest(n / 512 / 512 / 512 / 512, 0) == n / 512 / 512 / 512 / 512;
    assert Rest(n / 512 / 512, 2) == Rest(n / 512 / 512 / 512, 1) == n / 512 / 512 / 512 / 512;
    assert Rest(n, LEVELS) == Rest(n / 512, 3) == Rest(n / 512 / 512, 2);
    assert n / 512 / 512 / 512 / 512 == n / 0x10_0000_0000;
  }

  /** Pages of one 256 TiB stretch have different paths. */
  lemma IndicesInjective(m: nat, n: nat)
    requires m / 0x10_0000_0000 == n / 0x10_0000_0000
    requires Digits(m, LEVELS) == Digits(n, LEVELS)
    ensures m == n
  {
    RestIsStretch(m);
    RestIsStretch(n);
    DigitsInjective(m, n, LEVELS);
  }

  /** `logical | 0xFFF0000000000000` for an address whose bit 47 is set. */
  function Canonical(addr: nat): nat {
    if addr / 0x8000_0000_0000 % 2 == 1 then addr % 0x10_0000_0000_0000 + 0xFFF0_0000_0000_0000 else addr
  }
}

/** An address space together with the frame allocator, and how mapping a page changes both. */
module Spaces {
  import opened Words
  import Bits64
  import opened Frames
  import opened PageTable

  datatype Space = Space(mem: Mem, tables: Tables, root: nat, frames: Frames)

  /** Tables sit in used frames, and every frame the allocator may hand out exists. */
  ghost predicate SpaceOk(s: Space) {
    && Tree(s.mem, s.tables, s.root)
    && FramesOk(s.frames)
    && s.frames.highest <= 4096 * |s.mem|
    && s.tables.Values <= s.frames.used
  }

  ghost function LeafOf(s: Space, q: Path): Word
    requires LeafPath(q)
  {
    Leaf(s.mem, s.tables, q)
  }

  /** One frame taken from the allocator, the lowest free one; zero when none is free. */
  ghost predicate TakeStep(s: Space, s': Space, g: nat) {
    if g == 0 then
      s' == s && FreePages(s.frames) == {}
    else
      && g in FreePages(s.frames) && g < |s.mem|
      && (forall p | p in FreePages(s.frames) :: g <= p)
      && s' == s.(frames := WithPage(s.frames, g))
  }

  /** Nothing but new, empty tables in formerly free frames. */
  ghost predicate GrowStep(s: Space, s': Space) {
    SpaceOk(s') && Extends(s, s')
  }

  ghost predicate Extends(s: Space, s': Space) {
    && s'.root == s.root && |s'.mem| == |s.mem|
    && (forall p | p in s.tables :: p in s'.tables && s'.tables[p] == s.tables[p])
    && s'.frames == s.frames.(used := s.frames.used + s'.tables.Values)
    && (forall f | f in s'.tables.Values && f in s.frames.used :: f in s.tables.Values)
    && (forall f | 0 <= f < |s.mem| && f !in s'.tables.Values :: s'.mem[f] == s.mem[f])
  }

  ghost predicate SameLeaves(s: Space, s': Space) {
    forall q {:trigger LeafOf(s', q)} | LeafPath(q) :: LeafOf(s', q) == LeafOf(s, q)
  }

  /**
   Mapping a page: on success its leaf becomes `w` and no other leaf changes; on failure, for want
   of frames, no leaf changes at all. With the page table in place it cannot fail or allocate.
   */
  ghost predicate MapStep(s: Space, s': Space, q: Path, w: Word, ok: bool)
    requires LeafPath(q)
  {
    && GrowStep(s, s')
    && (forall u {:trigger LeafOf(s', u)} | LeafPath(u) :: LeafOf(s', u) == if ok && u == q then w else LeafOf(s, u))
    && (ok ==> q[..3] in s'.tables)
    && (!ok ==> FreePages(s'.frames) == {})
    && (q[..3] in s.tables ==> ok && s'.tables == s.tables && s'.frames == s.frames)
  }

  /** What platformGetPage reports: attributes and physical page. A missing table reads as no flags at all. */
  ghost function Reading(s: Space, q: Path): (Flags, nat)
    requires LeafPath(q)
  {
    if q[..3] in s.tables then (LeafFlags(LeafOf(s, q)), LeafOf(s, q).frame * 4096) else (NO_FLAGS, 0)
  }

  /** A page just mapped reads back as exactly the frame and the attributes that were requested. */
  lemma MapThenGet(s: Space, s': Space, q: Path, physical: nat, flags: Flags)
    requires LeafPath(q) && physical % 4096 == 0 && physical < 0x8000_0000_0000_0000
    requires MapStep(s, s', q, LeafWord(physical, flags), true)
    ensures Reading(s', q).1 == physical
    ensures Reading(s', q).0 == flags.(swap := !flags.present && LeafWord(physical, flags) != ZERO)
  {
    Bits64.LeafRoundTrip(physical, flags);
    assert LeafOf(s', q) == LeafWord(physical, flags);
  }

  /** In every address space the processor grants what the leaf of a page allows. */
  lemma AccessIsLeaf(s: Space, q: Path)
    requires SpaceOk(s) && LeafPath(q)
    ensures Translate(s.mem, s.root, q) == Allowed(LeafOf(s, q))
  {
    TranslateIsLeaf(s.mem, s.tables, s.root, q);
  }

  /** The processor reaches a page just mapped with exactly the rights that were requested, and only if it is present. */
  lemma MapThenAccess(s: Space, s': Space, q: Path, physical: nat, flags: Flags)
    requires LeafPath(q) && physical % 4096 == 0 && physical < 0x8000_0000_0000_0000
    requires MapStep(s, s', q, LeafWord(physical, flags), true)
    ensures Translate(s'.mem, s'.root, q) ==
            if flags.present then Page(physical / 4096, flags.write, flags.user, flags.exec) else NotPresent
  {
    AccessIsLeaf(s', q);
    assert LeafOf(s', q) == LeafWord(physical, flags);
  }

  /** No other page is reached differently than before. */
  lemma OthersAccess(s: Space, s': Space, q: Path, w: Word, ok: bool, u: Path)
    requires LeafPath(q) && LeafPath(u) && SpaceOk(s) && MapStep(s, s', q, w, ok) && !(ok && u == q)
    ensures Translate(s'.mem, s'.root, u) == Translate(s.mem, s.root, u)
  {
    AccessIsLeaf(s, u);
    AccessIsLeaf(s', u);
    assert LeafOf(s', u) == LeafOf(s, u);
  }

  /** Other pages read as before, except that a page table created on the way reads as zero leaves. */
  lemma OthersRead(s: Space, s': Space, q: Path, w: Word, ok: bool, u: Path)
    requires LeafPath(q) && LeafPath(u) && SpaceOk(s) && MapStep(s, s', q, w, ok) && !(ok && u == q)
    ensures Reading(s', u) == Reading(s, u)
            || (u[..3] !in s.tables && Reading(s', u) == (NO_FLAGS.(exec := true), 0))
  {
    assert LeafOf(s', u) == LeafOf(s, u);
  }

  lemma GrowRefl(s: Space)
    requires SpaceOk(s)
    ensures GrowStep(s, s)
  {
    assert s.frames.used + s.tables.Values == s.frames.used;
  }

  lemma ValuesGrow(s: Tables, t: Tables)
    requires forall p | p in s :: p in t && t[p] == s[p]
    ensures s.Values <= t.Values
  {
    forall f | f in s.Values
      ensures f in t.Values
    {
      var p :| p in s && s[p] == f;
      assert p in t && t[p] == f;
    }
  }

  lemma ExtendsTrans(a: Space, b: Space, c: Space)
    requires Extends(a, b) && Extends(b, c)
    ensures Extends(a, c)
  {
    ValuesGrow(b.tables, c.tables);
    assert c.frames.used == a.frames.used + c.tables.Values;
    assert forall f | 0 <= f < |a.mem| && f !in c.tables.Values :: f !in b.tables.Values;
  }

  lemma GrowTrans(a: Space, b: Space, c: Space)
    requires GrowStep(a, b) && GrowStep(b, c)
    ensures GrowStep(a, c)
  {
    ExtendsTrans(a, b, c);
  }

  /** The space after the frame `g` was allocated, cleared and hung below entry i of table p. */
  ghost function Attached(s: Space, p: Path, i: nat, g: nat): Space
    requires SpaceOk(s) && p in s.tables && i < 512 && g < |s.mem| && g !in s.tables.Values
  {
    assert TableAt(s.mem, s.tables, p) && s.tables[p] in s.tables.Values;
    Space(Attach(s.mem, s.tables[p], i, g), s.tables[p + [i] := g], s.root, WithPage(s.frames, g))
  }

  lemma AttachGrows(s: Space, p: Path, i: nat, g: nat)
    requires SpaceOk(s) && p in s.tables && |p| < 3 && IndexOk(p, i) && p + [i] !in s.tables
    requires 0 < g < |s.mem| && FreePage(s.frames, g) && g < s.frames.pages
    ensures g !in s.tables.Values
    ensures GrowStep(s, Attached(s, p, i, g)) && SameLeaves(s, Attached(s, p, i, g))
  {
    assert TableAt(s.mem, s.tables, p) && s.tables[p] in s.tables.Values;
    assert g !in s.frames.used;
    AttachKeepsTree(s.mem, s.tables, s.root, p, i, g);
    var s' := Attached(s, p, i, g);
    assert s'.tables.Values == s.tables.Values + {g} by {
      forall f | f in s'.tables.Values
        ensures f in s.tables.Values + {g}
      {
        var q :| q in s'.tables && s'.tables[q] == f;
      }
      forall f | f in s.tables.Values
        ensures f in s'.tables.Values
      {
        var q :| q in s.tables && s.tables[q] == f;
        assert q in s'.tables && s'.tables[q] == f;
      }
      assert p + [i] in s'.tables && s'.tables[p + [i]] == g;
    }
    assert s.frames.used + {g} == s.frames.used + s'.tables.Values;
    forall q | LeafPath(q)
      ensures LeafOf(s', q) == LeafOf(s, q)
    {
      AttachKeepsLeaf(s.mem, s.tables, s.root, p, i, g, q);
    }
  }

  /** The root and whatever hangs below its lower half. */
  predicate UserPath(p: Path) {
    p == [] || p[0] < 256
  }

  ghost predicate UserTable(t: Tables, f: nat) {
    exists p :: p in t && UserPath(p) && t[p] == f
  }

  /** Nothing but tables of the user half was created or written. */
  ghost predicate Confined(s: Space, s': Space) {
    && |s'.mem| == |s.mem|
    && (forall p {:trigger p in s'.tables} | p in s'.tables && p !in s.tables :: p != [] && UserPath(p))
    && (forall p | p in s.tables :: p in s'.tables && s'.tables[p] == s.tables[p])
    && (forall f | 0 <= f < |s.mem| && !UserTable(s'.tables, f) :: s'.mem[f] == s.mem[f])
  }

  lemma ConfinedRefl(s: Space)
    ensures Confined(s, s)
  {
  }

  lemma ConfinedTrans(a: Space, b: Space, c: Space)
    requires Confined(a, b) && Confined(b, c)
    ensures Confined(a, c)
  {
    forall f | 0 <= f < |a.mem| && !UserTable(c.tables, f)
      ensures c.mem[f] == a.mem[f]
    {
      assert !UserTable(b.tables, f);
    }
  }

  lemma AttachConfined(s: Space, p: Path, i: nat, g: nat)
    requires SpaceOk(s) && p in s.tables && |p| < 3 && i < 512 && p + [i] !in s.tables && g < |s.mem| && g !in s.tables.Values
    requires UserPath(p + [i])
    ensures Confined(s, Attached(s, p, i, g))
  {
    var s' := Attached(s, p, i, g);
    assert TableAt(s.mem, s.tables, p) && s.tables[p] in s.tables.Values;
    assert p + [i] in s'.tables && p in s'.tables && UserPath(p);
    assert UserTable(s'.tables, g) && UserTable(s'.tables, s.tables[p]);
  }

  lemma LeafConfined(s: Space, q: Path, w: Word)
    requires SpaceOk(s) && LeafPath(q) && q[..3] in s.tables && q[0] < 256
    ensures Confined(s, LeafWritten(s, q, w))
  {
    assert TableAt(s.mem, s.tables, q[..3]);
    assert UserPath(q[..3]) && UserTable(s.tables, s.tables[q[..3]]);
  }

  /** The space after a leaf entry was written. */
  ghost function LeafWritten(s: Space, q: Path, w: Word): Space
    requires SpaceOk(s) && LeafPath(q) && q[..3] in s.tables
  {
    assert TableAt(s.mem, s.tables, q[..3]);
    s.(mem := Write(s.mem, s.tables[q[..3]], q[3], w))
  }

  lemma SplitPath(q: Path)
    requires |q| == 4
    ensures q == q[..3] + [q[3]]
  {
  }

  lemma LeafWriteMaps(s: Space, s1: Space, q: Path, w: Word)
    requires SpaceOk(s) && GrowStep(s, s1) && SameLeaves(s, s1)
    requires LeafPath(q) && q[..3] in s1.tables
    requires q[..3] in s.tables ==> s1 == s
    ensures MapStep(s, LeafWritten(s1, q, w), q, w, true)
  {
    assert TableAt(s1.mem, s1.tables, q[..3]);
    var s' := LeafWritten(s1, q, w);
    WriteLeafKeepsTree(s1.mem, s1.tables, s1.root, q[..3], q[3], w);
    assert s1.tables[q[..3]] in s1.tables.Values;
    SplitPath(q);
    forall u | LeafPath(u)
      ensures LeafOf(s', u) == if u == q then w else LeafOf(s, u)
    {
      WriteLeafChangesOne(s1.mem, s1.tables, s1.root, q[..3], q[3], w, u);
      assert LeafOf(s1, u) == LeafOf(s, u);
    }
  }
}

/** The x86_64 paging code, working in place on the frames of physical memory. */
module Paging {
  import opened Words
  import opened Frames
  import opened Physical
  import opened PageTable
  import opened Addresses
  import opened Spaces

  lemma AlignedAccess(s: Space, s': Space, q: Path, physical: nat, flags: Flags)
    requires LeafPath(q) && physical < 0x8000_0000_0000_0000 && MapStep(s, s', q, LeafWord(Align(physical), flags), true)
    ensures Translate(s'.mem, s'.root, q) ==
            if flags.present then Page(physical / 4096, flags.write, flags.user, flags.exec) else NotPresent
  {
    MapThenAccess(s, s', q, Align(physical), flags);
  }

  /** One CPU: its paging root, physical memory as 512-word frames, and the frame allocator. */
  class Machine {
    const pmm: FrameAllocator
    var mem: Mem
    var cr3: nat
    ghost var tables: Tables

    constructor (pmm: FrameAllocator, mem: Mem, cr3: nat, ghost tables: Tables)
      requires pmm.Valid() && cr3 % 4096 == 0 && 4096 * |mem| <= 0x4_0000_0000
      requires SpaceOk(Space(mem, tables, cr3 / 4096, pmm.frames))
      ensures Valid() && this.pmm == pmm
      ensures View() == Space(mem, tables, cr3 / 4096, pmm.frames)
    {
      this.pmm, this.mem, this.cr3, this.tables := pmm, mem, cr3, tables;
    }

    ghost function View(): Space
      reads this, pmm
    {
      Space(mem, tables, cr3 / 4096, pmm.frames)
    }

    /** The address space under any root, as the paging code reaches it through the direct map. */
    ghost function SpaceAt(root: nat, t: Tables): Space
      reads this, pmm
    {
      Space(mem, t, root, pmm.frames)
    }

    /** Physical memory lies below the 16 GiB that vmmMMIO can reach, so no access to it fails. */
    ghost predicate Backed()
      reads this, pmm, pmm.bitmap
    {
      pmm.Valid() && cr3 % 4096 == 0 && pmm.highest <= 4096 * |mem| <= 0x4_0000_0000
    }

    ghost predicate Valid()
      reads this, pmm, pmm.bitmap
    {
      Backed() && SpaceOk(View())
    }

    /** One level down on a read-only walk: the next table, or none. */
    method Next(f: nat, i: nat, ghost p: Path) returns (found: bool, child: nat)
      requires Valid() && p in tables && tables[p] == f && |p| < 3 && IndexOk(p, i)
      ensures found <==> p + [i] in tables
      ensures found ==> tables[p + [i]] == child
    {
      assert TableAt(mem, tables, p) && EntryOk(mem, tables, p, i);
      var e := mem[f][i];
      found, child := e.p, e.frame;
    }

    method GetPage(addr: nat) returns (flags: Flags, phys: nat)
      requires Valid() && addr < 0x1_0000_0000_0000_0000 && !InDirectMap(addr)
      ensures flags == Reading(View(), Indices(addr)).0
      ensures phys == if Indices(addr)[..3] in tables then Reading(View(), Indices(addr)).1 + addr % 4096 else 0
    {
      if 0xFFFF_8000_0000_0000 <= addr <= 0xFFFF_7FFB_FFFF_FFFF {
        assert false;  // KERNEL_BASE_END lies below KERNEL_BASE_ADDRESS, so this test never succeeds
      }
      flags, phys := NO_FLAGS, 0;
      var q := Indices(addr);
      PrefixSteps(q);
      MissingParent(tables, q);
      var found, pdp := Next(cr3 / 4096, q[0], []);
      if !found {
        return;
      }
      var found1, pd := Next(pdp, q[1], q[..1]);
      if !found1 {
        return;
      }
      var found2, pt := Next(pd, q[2], q[..2]);
      if !found2 {
        return;
      }
      assert TableAt(mem, tables, q[..3]);
      var e := mem[pt][q[3]];
      flags := LeafFlags(e);
      phys := e.frame * 4096 + addr % 4096;
    }

    /** pmmAllocate as the paging code uses it: a frame number, zero when no frame is free. */
    method TakeFrameFor(ghost root: nat, ghost t: Tables) returns (g: nat)
      requires Backed()
      modifies pmm, pmm.bitmap
      ensures Backed() && TakeStep(old(SpaceAt(root, t)), SpaceAt(root, t), g)
    {
      var addr := pmm.Allocate();
      g := addr / 4096;
    }

    method TakeFrame() returns (g: nat)
      requires Valid()
      modifies pmm, pmm.bitmap
      ensures Valid() && TakeStep(old(View()), View(), g)
    {
      g := TakeFrameFor(cr3 / 4096, tables);
    }

    /** A fresh, cleared table below a zero entry; zero when no frame is free. */
    method NewTable(f: nat, i: nat, ghost p: Path) returns (child: nat)
      requires Valid() && p in tables && tables[p] == f && |p| < 3 && IndexOk(p, i) && p + [i] !in tables
      modifies this`mem, this`tables, pmm, pmm.bitmap
      ensures Valid() && GrowStep(old(View()), View()) && SameLeaves(old(View()), View())
      ensures if child == 0 then FreePages(View().frames) == {} else p + [i] in tables && tables[p + [i]] == child
      ensures UserPath(p + [i]) ==> Confined(old(View()), View())
    {
      ghost var s := View();
      assert TableAt(mem, tables, p);
      child := TakeFrame();
      if child == 0 {
        GrowRefl(s);
        return;
      }
      AttachGrows(s, p, i, child);
      if UserPath(p + [i]) {
        AttachConfined(s, p, i, child);
      }
      ghost var s' := Attached(s, p, i, child);
      mem := mem[child := Zeros()];
      mem := Write(mem, f, i, TableWord(child));
      tables := tables[p + [i] := child];
      assert View() == s';
    }

    /** One level down on a mapping walk. An entry counts as missing only when it is zero. */
    method Descend(f: nat, i: nat, ghost p: Path) returns (child: nat)
      requires Valid() && p in tables && tables[p] == f && |p| < 3 && IndexOk(p, i)
      modifies this`mem, this`tables, pmm, pmm.bitmap
      ensures Valid() && GrowStep(old(View()), View()) && SameLeaves(old(View()), View())
      ensures if child == 0 then FreePages(View().frames) == {} else p + [i] in tables && tables[p + [i]] == child
      ensures p + [i] in old(tables) ==> child != 0 && View() == old(View())
      ensures UserPath(p + [i]) ==> Confined(old(View()), View())
    {
      assert TableAt(mem, tables, p) && EntryOk(mem, tables, p, i);
      var e := mem[f][i];
      if e == ZERO {
        child := NewTable(f, i, p);
      } else {
        assert TableAt(mem, tables, p + [i]);
        GrowRefl(View());
        child := e.frame;
      }
    }

    /** The three levels above the page table, in the order the code visits them. */
    method Walk(q: Path) returns (pt: nat)
      requires Valid() && LeafPath(q)
      modifies this`mem, this`tables, pmm, pmm.bitmap
      ensures Valid() && GrowStep(old(View()), View()) && SameLeaves(old(View()), View())
      ensures if pt == 0 then FreePages(View().frames) == {} else q[..3] in tables && tables[q[..3]] == pt
      ensures q[..3] in old(tables) ==> pt != 0 && View() == old(View())
      ensures q[0] < 256 ==> Confined(old(View()), View())
    {
      ghost var s := View();
      PrefixSteps(q);
      MissingParent(tables, q);
      var pdp := Descend(cr3 / 4096, q[0], []);
      if pdp == 0 {
        return 0;
      }
      ghost var s1 := View();
      MissingParent(tables, q);
      var pd := Descend(pdp, q[1], q[..1]);
      ghost var s2 := View();
      GrowTrans(s, s1, s2);
      if q[0] < 256 {
        ConfinedTrans(s, s1, s2);
      }
      if pd == 0 {
        return 0;
      }
      pt := Descend(pd, q[2], q[..2]);
      GrowTrans(s, s2, View());
      if q[0] < 256 {
        ConfinedTrans(s, s2, View());
      }
    }

    method MapPage(logical: nat, physical: nat, flags: Flags) returns (r: nat, ghost ok: bool)
      requires Valid() && logical < 0x1_0000_0000_0000_0000 && physical < 0x1_0000_0000_0000_0000
      requires !InDirectMap(logical)
      modifies this`mem, this`tables, pmm, pmm.bitmap
      ensures Valid()
      ensures MapStep(old(View()), View(), Indices(logical), LeafWord(Align(physical), flags), ok)
      ensures r == if ok then Canonical(Align(logical)) else 0
      ensures ok && physical < 0x8000_0000_0000_0000 ==>
                Translate(mem, cr3 / 4096, Indices(logical)) ==
                if flags.present then Page(physical / 4096, flags.write, flags.user, flags.exec) else NotPresent
      ensures Indices(logical)[0] < 256 ==> Confined(old(View()), View())
    {
      ghost var s := View();
      IndicesOfPage(logical);
      var page := Align(logical);
      var q := Indices(page);
      var pt := Walk(q);
      if pt == 0 {
        return 0, false;
      }
      ghost var s1 := View();
      LeafWriteMaps(s, s1, q, LeafWord(Align(physical), flags));
      assert TableAt(mem, tables, q[..3]);
      mem := Write(mem, pt, q[3], LeafWord(Align(physical), flags));
      assert View() == LeafWritten(s1, q, LeafWord(Align(physical), flags));
      if q[0] < 256 {
        LeafConfined(s1, q, LeafWord(Align(physical), flags));
        ConfinedTrans(s, s1, View());
      }
      r, ok := Canonical(page), true;
      if physical < 0x8000_0000_0000_0000 {
        AlignedAccess(s, View(), q, physical, flags);
      }
    }

    /** Unmapping leaves a leaf that holds nothing but the no-execute bit. */
    method UnmapPage(addr: nat) returns (r: int, ghost ok: bool)
      requires Valid() && addr < 0x1_0000_0000_0000_0000 && !InDirectMap(addr)
      modifies this`mem, this`tables, pmm, pmm.bitmap
      ensures Valid()
      ensures MapStep(old(View()), View(), Indices(addr), ZERO.(nx := true), ok)
      ensures r == if Align(addr) == (if ok then Canonical(Align(addr)) else 0) then 0 else 1
      ensures Indices(addr)[0] < 256 ==> Confined(old(View()), View())
    {
      IndicesOfPage(addr);
      var page := Align(addr);
      assert LeafWord(Align(0), NO_FLAGS) == ZERO.(nx := true);
      var back, done := MapPage(page, 0, NO_FLAGS);
      ok := done;
      r := if back == page then 0 else 1;
    }
  }
}
