/** The eight bytes of a memory word. */
module WordBytes {
  import opened Words
  import opened Bits64

  /** Byte `k` of a number, least significant first. */
  function Digit(v: nat, k: nat): (d: nat)
    ensures d < 256
  {
    if k == 0 then v % 256 else Digit(v / 256, k - 1)
  }

  /** The number with byte `k` replaced. */
  function WithDigit(v: nat, k: nat, b: nat): nat {
    if k == 0 then v / 256 * 256 + b else v % 256 + 256 * WithDigit(v / 256, k - 1, b)
  }

  /** Replacing a byte changes that byte and no other. */
  lemma {:induction false} DigitReplaced(v: nat, k: nat, b: nat, j: nat)
    requires b < 256
    ensures Digit(WithDigit(v, k, b), j) == if j == k then b else Digit(v, j)
    decreases k
  {
    var x := WithDigit(v, k, b);
    if k == 0 {
      assert x / 256 == v / 256 && x % 256 == b;
    } else {
      assert x / 256 == WithDigit(v / 256, k - 1, b) && x % 256 == v % 256;
      if j != 0 {
        DigitReplaced(v / 256, k - 1, b, j - 1);
      }
    }
  }

  /** A number of at most `n` bytes. */
  predicate Small(v: nat, n: nat) {
    if n == 0 then v == 0 else Small(v / 256, n - 1)
  }

  lemma {:induction false} StillSmall(v: nat, k: nat, b: nat, n: nat)
    requires Small(v, n) && k < n && b < 256
    ensures Small(WithDigit(v, k, b), n)
    decreases k
  {
    var x := WithDigit(v, k, b);
    if k == 0 {
      assert x / 256 == v / 256;
    } else {
      assert x / 256 == WithDigit(v / 256, k - 1, b);
      StillSmall(v / 256, k - 1, b, n - 1);
    }
  }

  lemma FourBytes(v: nat, n: nat)
    ensures Small(v, n + 4) <==> Small(v / 0x1_0000_0000, n)
  {
    assert v / 256 / 256 / 256 / 256 == v / 0x1_0000_0000;
    assert Small(v, n + 4) == Small(v / 256, n + 3) == Small(v / 256 / 256, n + 2);
    assert Small(v / 256 / 256, n + 2) == Small(v / 256 / 256 / 256, n + 1) == Small(v / 256 / 256 / 256 / 256, n);
  }

  lemma SixtyFourBits(v: nat)
    ensures Small(v, 8) <==> v < 0x1_0000_0000_0000_0000
  {
    FourBytes(v, 4);
    FourBytes(v / 0x1_0000_0000, 0);
  }

  // ---------------------------------------------------------------- words

  function ByteOf(w: Word, k: nat): nat {
    Digit(Value(w), k)
  }

  /** A word after a byte store. */
  function PutByte(w: Word, k: nat, b: nat): Word {
    Parse(WithDigit(Value(w), k, b))
  }

  lemma ValueBound(w: Word)
    requires InRange(w)
    ensures Value(w) < 0x1_0000_0000_0000_0000
  {
    LowPart(w);
    assert High(w) < 0x10_0000_0000_0000;
  }

  /** A byte store changes that byte of the word and no other, and leaves a 64-bit word. */
  lemma PutByteAt(w: Word, k: nat, b: nat, j: nat)
    requires InRange(w) && k < 8 && b < 256
    ensures InRange(PutByte(w, k, b)) && ByteOf(PutByte(w, k, b), j) == if j == k then b else ByteOf(w, j)
  {
    ValueBound(w);
    SixtyFourBits(Value(w));
    StillSmall(Value(w), k, b, 8);
    SixtyFourBits(WithDigit(Value(w), k, b));
    ValueParse(WithDigit(Value(w), k, b));
    DigitReplaced(Value(w), k, b, j);
  }
}
