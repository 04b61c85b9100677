/** Bytes of the frame bitmap, seen as eight booleans. */
module Bits {

  /** The byte whose only set bit is bit k. */
  function Mask(k: nat): (m: bv8)
    requires k < 8
  {
    if k == 0 then 1 else if k == 1 then 2 else if k == 2 then 4 else if k == 3 then 8
    else if k == 4 then 16 else if k == 5 then 32 else if k == 6 then 64 else 128
  }

  predicate Bit(b: bv8, k: nat)
    requires k < 8
  {
    b & Mask(k) != 0
  }

  /** The two shift forms the allocator uses: `1 << k` as a mask and `(b >> k) & 1` as a test. */
  lemma ShiftForms(b: bv8, k: nat)
    requires k < 8
    ensures 1 << k == Mask(k)
    ensures (b >> k) & 1 == 1 <==> Bit(b, k)
  {
    if k == 0 {} else if k == 1 {} else if k == 2 {} else if k == 3 {}
    else if k == 4 {} else if k == 5 {} else if k == 6 {} else {}
  }

  /** `|=` with a mask sets its bit, `&= ~` clears it, and both leave the other seven alone. */
  lemma SetClear(b: bv8, k: nat, j: nat)
    requires k < 8 && j < 8
    ensures Bit(b | Mask(k), j) <==> j == k || Bit(b, j)
    ensures Bit(b & !Mask(k), j) <==> j != k && Bit(b, j)
  {
  }
}

/** A byte string read as the set of positions whose bit is set. */
module BitSet {
  import opened Bits

  predicate BitAt(bytes: seq<bv8>, page: nat)
    requires page < 8 * |bytes|
  {
    Bit(bytes[page / 8], page % 8)
  }

  /** The bytes hold exactly the set: a page is a member if and only if its bit is set. */
  ghost predicate Holds(bytes: seq<bv8>, pages: set<nat>) {
    && (forall p | p in pages :: p < 8 * |bytes|)
    && forall p: nat {:trigger BitAt(bytes, p)} | p < 8 * |bytes| :: BitAt(bytes, p) <==> p in pages
  }

  function SetBit(bytes: seq<bv8>, page: nat): (r: seq<bv8>)
    requires page < 8 * |bytes|
  {
    bytes[page / 8 := bytes[page / 8] | Mask(page % 8)]
  }

  function ClearBit(bytes: seq<bv8>, page: nat): (r: seq<bv8>)
    requires page < 8 * |bytes|
  {
    bytes[page / 8 := bytes[page / 8] & !Mask(page % 8)]
  }

  lemma SetBitAdds(bytes: seq<bv8>, page: nat, pages: set<nat>)
    requires page < 8 * |bytes| && Holds(bytes, pages)
    ensures Holds(SetBit(bytes, page), pages + {page})
  {
    var after := SetBit(bytes, page);
    forall p: nat | p < 8 * |bytes|
      ensures BitAt(after, p) <==> p in pages + {page}
    {
      SetClear(bytes[page / 8], page % 8, p % 8);
      assert BitAt(bytes, p) <==> p in pages;
    }
  }

  lemma ClearBitRemoves(bytes: seq<bv8>, page: nat, pages: set<nat>)
    requires page < 8 * |bytes| && Holds(bytes, pages)
    ensures Holds(ClearBit(bytes, page), pages - {page})
  {
    var after := ClearBit(bytes, page);
    forall p: nat | p < 8 * |bytes|
      ensures BitAt(after, p) <==> p in pages - {page}
    {
      SetClear(bytes[page / 8], page % 8, p % 8);
      assert BitAt(bytes, p) <==> p in pages;
    }
  }
}
