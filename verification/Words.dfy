/**
 64-bit page-table words, field by field, following the entry formats of 4-level paging in
 section 4.5 of the Intel SDM, Volume 3A. `Bits64` ties the fields to the integer they make up.
 */
module Words {

  /** Bits 0 to 4, bits 5 to 11, bits 12 to 62 and bit 63. */
  datatype Word = Word(p: bool, rw: bool, us: bool, wt: bool, nc: bool, mid: nat, frame: nat, nx: bool)

  const ZERO: Word := Word(false, false, false, false, false, 0, 0, false)

  /** The platform-independent page attributes. */
  datatype Flags = Flags(present: bool, swap: bool, user: bool, exec: bool, write: bool, noCache: bool)

  const NO_FLAGS: Flags := Flags(false, false, false, false, false, false)

  /** A freshly attached lower table: present, writable, user. */
  function TableWord(frame: nat): Word {
    Word(true, true, true, false, false, 0, frame, false)
  }

  /** `physical | parsedFlags`, for a page-aligned 64-bit physical address. */
  function LeafWord(physical: nat, f: Flags): Word {
    Word(f.present, f.write, f.user, f.noCache, f.noCache, 0,
         physical % 0x8000_0000_0000_0000 / 4096, !f.exec || physical >= 0x8000_0000_0000_0000)
  }

  /** What a leaf entry reads back as. */
  function LeafFlags(w: Word): Flags {
    Flags(w.p, !w.p && w != ZERO, w.us, !w.nx, w.rw, w.nc)
  }

  /** The permissions the clone of an interior entry keeps: PT_PAGE_LOW_FLAGS. */
  function LowFlags(w: Word, frame: nat): Word {
    Word(w.p, w.rw, w.us, false, w.nc, 0, frame, false)
  }

  /** The permissions the clone of a leaf keeps: PT_PAGE_LOW_FLAGS and the no-execute bit. */
  function LeafLowFlags(w: Word, frame: nat): Word {
    LowFlags(w, frame).(nx := w.nx)
  }
}

/** Words as 64-bit integers: the masks the code applies select exactly the fields above. */
module Bits64 {
  import opened Words

  function B(b: bool): nat {
    if b then 1 else 0
  }

  predicate InRange(w: Word) {
    w.mid < 128 && w.frame < 0x8_0000_0000_0000
  }

  /** One more low bit in front of a number, and back. */
  function Push(b: bool, v: nat): (r: nat)
    ensures r / 2 == v && (r % 2 == 1 <==> b)
  {
    B(b) + 2 * v
  }

  /** Bits 12 and up, bits 5 and up, and the whole word. */
  function High(w: Word): nat {
    w.frame + 0x8_0000_0000_0000 * B(w.nx)
  }

  function Upper(w: Word): nat {
    w.mid + 128 * High(w)
  }

  function Value(w: Word): nat {
    Push(w.p, Push(w.rw, Push(w.us, Push(w.wt, Push(w.nc, Upper(w))))))
  }

  function ParseUpper(v: nat): (nat, nat, bool) {
    (v % 128, v / 128 % 0x8_0000_0000_0000, v / 128 >= 0x8_0000_0000_0000)
  }

  function Parse(v: nat): Word {
    var v1 := v / 2;
    var v2 := v1 / 2;
    var v3 := v2 / 2;
    var v4 := v3 / 2;
    var (mid, frame, nx) := ParseUpper(v4 / 2);
    Word(v % 2 == 1, v1 % 2 == 1, v2 % 2 == 1, v3 % 2 == 1, v4 % 2 == 1, mid, frame, nx)
  }

  lemma UpperParts(w: Word)
    requires InRange(w)
    ensures ParseUpper(Upper(w)) == (w.mid, w.frame, w.nx)
  {
  }

  /** Every in-range word is read back from its integer, so distinct words are distinct integers. */
  lemma ParseValue(w: Word)
    requires InRange(w)
    ensures Parse(Value(w)) == w
  {
    UpperParts(w);
    var v5 := Upper(w);
    var v4 := Push(w.nc, v5);
    var v3 := Push(w.wt, v4);
    var v2 := Push(w.us, v3);
    var v1 := Push(w.rw, v2);
    var v := Push(w.p, v1);
    assert v / 2 == v1 && v1 / 2 == v2 && v2 / 2 == v3 && v3 / 2 == v4 && v4 / 2 == v5;
  }

  lemma PopPush(v: nat)
    ensures Push(v % 2 == 1, v / 2) == v
  {
  }

  /** Every 64-bit integer is the value of an in-range word. */
  lemma ValueParse(v: nat)
    requires v < 0x1_0000_0000_0000_0000
    ensures InRange(Parse(v)) && Value(Parse(v)) == v
  {
    var v1 := v / 2;
    var v2 := v1 / 2;
    var v3 := v2 / 2;
    var v4 := v3 / 2;
    var v5 := v4 / 2;
    PopPush(v);
    PopPush(v1);
    PopPush(v2);
    PopPush(v3);
    PopPush(v4);
    assert v5 < 0x800_0000_0000_0000;
    assert Upper(Parse(v)) == v5;
  }

  function Low(w: Word): nat {
    B(w.p) + 2 * B(w.rw) + 4 * B(w.us) + 8 * B(w.wt) + 16 * B(w.nc) + 32 * w.mid
  }

  lemma LowPart(w: Word)
    requires InRange(w)
    ensures Low(w) < 4096 && Value(w) == Low(w) + 4096 * High(w)
  {
  }

  lemma SplitMasks(low: nat, frame: nat, top: nat)
    requires low < 4096 && frame < 0x8_0000_0000_0000 && top <= 1
    ensures var v := low + 4096 * (frame + 0x8_0000_0000_0000 * top);
            && (v >= 0x8000_0000_0000_0000 <==> top == 1)
            && v % 0x8000_0000_0000_0000 / 4096 == frame
  {
    assert (low + 4096 * (frame + 0x8_0000_0000_0000 * top)) % 0x8000_0000_0000_0000 == low + 4096 * frame;
  }

  /** The masks: `& PT_PAGE_PRESENT`, the no-execute bit, and the frame with it cleared. */
  lemma Masks(w: Word)
    requires InRange(w)
    ensures Value(w) % 2 == 1 <==> w.p
    ensures Value(w) >= 0x8000_0000_0000_0000 <==> w.nx
    ensures Value(w) % 0x8000_0000_0000_0000 / 4096 == w.frame
  {
    LowPart(w);
    SplitMasks(Low(w), w.frame, B(w.nx));
  }

  lemma NoBits(w: Word)
    requires Low(w) == 0 && High(w) == 0
    ensures w == ZERO
  {
  }

  /** An entry counts as missing only when the whole word is zero. */
  lemma ZeroValue(w: Word)
    requires InRange(w)
    ensures Value(w) == 0 <==> w == ZERO
  {
    LowPart(w);
    var low, high := Low(w), High(w);
    assert Value(w) == low + 4096 * high;
    if low == 0 && high == 0 {
      NoBits(w);
    }
  }

  /** The word stored for a mapping is the bitwise or of the aligned address and the flag bits. */
  lemma LeafWordValue(physical: nat, f: Flags)
    requires physical % 4096 == 0 && physical < 0x1_0000_0000_0000_0000
    ensures InRange(LeafWord(physical, f))
    ensures Value(LeafWord(physical, f))
            == physical + B(f.present) + 2 * B(f.write) + 4 * B(f.user) + 24 * B(f.noCache)
               + if !f.exec && physical < 0x8000_0000_0000_0000 then 0x8000_0000_0000_0000 else 0
  {
    var w := LeafWord(physical, f);
    LowPart(w);
    assert Low(w) == B(f.present) + 2 * B(f.write) + 4 * B(f.user) + 24 * B(f.noCache);
    assert 4096 * w.frame == physical % 0x8000_0000_0000_0000;
  }

  /** A mapped frame and its attributes read back exactly, for addresses below bit 63. */
  lemma LeafRoundTrip(physical: nat, f: Flags)
    requires physical % 4096 == 0 && physical < 0x8000_0000_0000_0000
    ensures LeafWord(physical, f).frame * 4096 == physical
    ensures LeafFlags(LeafWord(physical, f)) == f.(swap := !f.present && LeafWord(physical, f) != ZERO)
    ensures LeafWord(physical, f) == ZERO <==> physical == 0 && f.(swap := false) == NO_FLAGS.(exec := true)
  {
  }
}
