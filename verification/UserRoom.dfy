/**
 Requests of user memory carry the limit of the whole lower half, yet their search never gets there: there are
 fewer frames than page tables would be needed to fill it.
 */
module UserRoom {
  import opened Words
  import opened PageTable
  import opened Addresses
  import opened Spaces
  import opened VirtualSteps

  /** Page tables of the lower half have different names. */
  lemma NamesDiffer(i: nat, j: nat)
    requires i < 0x400_0000 && j < 0x400_0000 && Digits(i, 3) == Digits(j, 3)
    ensures i == j
  {
    NoRest(i);
    NoRest(j);
    DigitsInjective(i, j, 3);
  }

  lemma NoRest(j: nat)
    requires j < 0x400_0000
    ensures Rest(j, 3) == 0
  {
    assert j / 512 / 512 / 512 == 0;
    assert Rest(j / 512, 2) == Rest(j / 512 / 512, 1) == Rest(j / 512 / 512 / 512, 0);
  }

  ghost predicate HasTable(s: Space, j: nat) {
    Digits(j, 3) in s.tables
  }

  ghost function TableFrame(s: Space, j: nat): nat {
    if HasTable(s, j) then s.tables[Digits(j, 3)] else 0
  }

  ghost predicate FrameFrom(s: Space, from: nat, to: nat, f: nat) {
    exists j: nat :: from <= j < to && TableFrame(s, j) == f
  }

  lemma OneFrameEach(s: Space, i: nat, j: nat)
    requires SpaceOk(s) && HasTable(s, i) && HasTable(s, j) && i < 0x400_0000 && j < 0x400_0000 && i != j
    ensures TableFrame(s, i) != TableFrame(s, j) && TableFrame(s, i) < |s.mem|
  {
    assert TableAt(s.mem, s.tables, Digits(i, 3));
    if Digits(i, 3) == Digits(j, 3) {
      NamesDiffer(i, j);
      assert false;
    }
  }

  lemma TableExists(s: Space, j: nat)
    requires SpaceOk(s) && HasTable(s, j)
    ensures TableFrame(s, j) < |s.mem|
  {
    assert TableAt(s.mem, s.tables, Digits(j, 3));
  }

  /** The frames of k consecutive page tables. */
  lemma {:induction false} FramesOf(s: Space, from: nat, k: nat) returns (fs: set<nat>)
    requires SpaceOk(s) && from + k <= 0x400_0000 && forall j: nat | from <= j < from + k :: HasTable(s, j)
    ensures |fs| == k
    ensures forall f | f in fs :: f < |s.mem| && FrameFrom(s, from, from + k, f)
  {
    fs := {};
    if k != 0 {
      var last := from + k - 1;
      var rest := FramesOf(s, from, k - 1);
      assert HasTable(s, last);
      var f := TableFrame(s, last);
      TableExists(s, last);
      if f in rest {
        var j: nat :| from <= j < last && TableFrame(s, j) == f;
        OneFrameEach(s, j, last);
        assert false;
      }
      fs := rest + {f};
      assert FrameFrom(s, from, from + k, f);
    }
  }

  lemma {:induction false} Below(fs: set<nat>, n: nat)
    requires forall f | f in fs :: f < n
    ensures |fs| <= n
    decreases n
  {
    if n == 0 {
      assert fs == {};
    } else {
      Below(fs - {n - 1}, n - 1);
      assert |fs - {n - 1}| >= |fs| - 1;
    }
  }

  /** Among one more page tables than there are frames, one is missing. */
  lemma MissingTable(s: Space, from: nat) returns (j: nat)
    requires SpaceOk(s) && from + |s.mem| < 0x400_0000
    ensures from <= j <= from + |s.mem| && Digits(j, 3) !in s.tables
  {
    var k := |s.mem| + 1;
    if forall j: nat | from <= j < from + k :: HasTable(s, j) {
      var fs := FramesOf(s, from, k);
      Below(fs, |s.mem|);
      assert false;
    }
    j :| from <= j < from + k && !HasTable(s, j);
  }

  /** The pages of a missing table are unused. */
  lemma UnusedBelow(s: Space, j: nat)
    requires Digits(j, 3) !in s.tables
    ensures RunUnused(s, j * 512, 512)
  {
    forall n: nat | j * 512 <= n < j * 512 + 512
      ensures LeafPage(s, n) == ZERO
    {
      assert n / 512 == j;
      assert PagePath(n)[..3] == Digits(j, 3);
    }
  }

  lemma RunInside(s: Space, first: nat, count: nat)
    requires RunUnused(s, first, 512) && count <= 512 && first + count < PAGES
    ensures Passes(s, first, count)
  {
    TestedAll(first, count);
  }

  /**
   With at most 16 GiB of memory, a request of up to 512 pages finds its run in the lower half, whatever the space,
   if its base lies at least 8.5 TiB below the end: the search stays within user pages.
   */
  lemma UserRequestsStay(s: Space, base: nat, limit: nat, count: nat)
    requires SpaceOk(s) && |s.mem| <= 0x40_0000 && 0 < base <= 0x7_77FF_FC00 && 0 < count <= 512
    requires 0x8_0000_0000 + 512 <= limit < PAGES
    ensures Within(s, base, limit, count, 0)
  {
    var j := MissingTable(s, base / 512 + 1);
    UnusedBelow(s, j);
    var f := j * 512;
    RunInside(s, f, count);
    forall n: nat | base <= n < f + count
      ensures PageOk(n, 0)
    {
      LowerPages(n);
    }
    assert FitsAt(s, base, limit, count, 0, f);
  }
}
