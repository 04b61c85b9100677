/** Positional notation. */
module Notation {
  /** The number that digits, most significant first, stand for. */
  function Value(ds: seq<nat>, radix: nat): nat {
    if ds == [] then 0 else Value(ds[..|ds| - 1], radix) * radix + ds[|ds| - 1]
  }

  /** Digits below the radix, at least one, and no leading zero unless it is the only digit. */
  ghost predicate Proper(ds: seq<nat>, radix: nat) {
    ds != [] && (forall i :: 0 <= i < |ds| ==> ds[i] < radix) && (1 < |ds| ==> ds[0] != 0)
  }

  function Digits(v: nat, radix: nat): seq<nat>
    requires 2 <= radix
    decreases v
  {
    if v < radix then [v] else Shrinks(v, radix); Digits(v / radix, radix) + [v % radix]
  }

  lemma Shrinks(v: nat, radix: nat)
    requires 2 <= radix && 0 < v
    ensures v / radix < v
  {
  }

  lemma Multiplied(a: nat, b: nat, c: nat)
    requires a <= b
    ensures a * c <= b * c
  {
  }

  lemma Between(q: nat, k: nat, v: nat, radix: nat)
    requires k * radix <= v < (q + 1) * radix
    ensures k <= q
  {
    if q < k {
      Multiplied(q + 1, k, radix);
      assert false;
    }
  }

  lemma Joined(q: nat, d: nat, radix: nat)
    requires d < radix
    ensures (q * radix + d) / radix == q && (q * radix + d) % radix == d
    ensures 0 < q ==> radix <= q * radix + d
  {
    var v := q * radix + d;
    var k := v / radix;
    assert k * radix <= v < (k + 1) * radix;
    Between(q, k, v, radix);
    Between(k, q, v, radix);
    if 0 < q {
      Multiplied(1, q, radix);
    }
  }

  lemma Divided(v: nat, radix: nat)
    requires 2 <= radix
    ensures v / radix * radix + v % radix == v && v % radix < radix
    ensures v < radix ==> v / radix == 0 && v % radix == v
    ensures radix <= v ==> 0 < v / radix < v
  {
    if v < radix {
      Joined(0, v, radix);
    } else {
      Shrinks(v, radix);
      Quotient(v, radix);
    }
  }

  lemma Quotient(v: nat, radix: nat)
    requires 0 < radix <= v
    ensures 0 < v / radix
  {
  }

  lemma {:induction false} DigitsProper(v: nat, radix: nat)
    requires 2 <= radix
    ensures Proper(Digits(v, radix), radix) && Value(Digits(v, radix), radix) == v
    ensures v != 0 ==> Digits(v, radix)[0] != 0
    decreases v
  {
    Divided(v, radix);
    if v < radix {
      assert Value([v], radix) == v;
    } else {
      DigitsProper(v / radix, radix);
      LastDigit(Digits(v / radix, radix), v % radix, radix);
    }
  }

  lemma LastDigit(init: seq<nat>, d: nat, radix: nat)
    ensures Value(init + [d], radix) == Value(init, radix) * radix + d
  {
    var ds := init + [d];
    assert ds[..|ds| - 1] == init && ds[|ds| - 1] == d;
  }

  /** There is only one such representation of a number. */
  lemma {:induction false} DigitsUnique(ds: seq<nat>, radix: nat)
    requires 2 <= radix && Proper(ds, radix)
    ensures ds == Digits(Value(ds, radix), radix)
    decreases |ds|
  {
    var init, d := ds[..|ds| - 1], ds[|ds| - 1];
    assert ds == init + [d];
    LastDigit(init, d, radix);
    if init != [] {
      DigitsUnique(init, radix);
      assert init == Digits(Value(init, radix), radix);
      Joined(Value(init, radix), d, radix);
    }
  }

  /** The digits in the order a division loop produces them, none for zero. */
  function Remainders(v: nat, radix: nat): seq<nat>
    requires 2 <= radix
    decreases v
  {
    if v == 0 then [] else Shrinks(v, radix); [v % radix] + Remainders(v / radix, radix)
  }

  function Reversed<T>(s: seq<T>): (r: seq<T>)
    ensures |r| == |s| && forall i :: 0 <= i < |s| ==> r[i] == s[|s| - 1 - i]
  {
    seq(|s|, i requires 0 <= i < |s| => s[|s| - 1 - i])
  }

  lemma {:induction false} RemaindersReversed(v: nat, radix: nat)
    requires 2 <= radix && 0 < v
    ensures Reversed(Remainders(v, radix)) == Digits(v, radix)
    decreases v
  {
    Divided(v, radix);
    var q := v / radix;
    assert Remainders(v, radix) == [v % radix] + Remainders(q, radix);
    if radix <= v {
      RemaindersReversed(q, radix);
      assert Reversed(Remainders(v, radix)) == Reversed(Remainders(q, radix)) + [v % radix];
    }
  }

  function Pow10(k: nat): nat {
    if k == 0 then 1 else 10 * Pow10(k - 1)
  }

  lemma {:induction false} Pow10Grows(j: nat, k: nat)
    requires j <= k
    ensures 1 <= Pow10(j) <= Pow10(k)
    decreases k
  {
    if j < k {
      Pow10Grows(j, k - 1);
    } else if 0 < k {
      Pow10Grows(j - 1, k - 1);
    }
  }

  /** Eighteen is the last power of ten that fits a signed 64-bit word. */
  lemma Pow10Fits(k: nat)
    ensures Pow10(k) < 0x8000_0000_0000_0000 <==> k <= 18
  {
    assert Pow10(6) == 1_000_000;
    assert Pow10(12) == 1_000_000_000_000;
    assert Pow10(18) == 1_000_000_000_000_000_000;
    if k <= 18 {
      Pow10Grows(k, 18);
    } else {
      Pow10Grows(19, k);
    }
  }

  /** The first `i` decimal digits with their weights. */
  ghost function Weighted(ds: seq<nat>, i: nat): nat
    requires i <= |ds|
  {
    Value(ds[..i], 10) * Pow10(|ds| - i)
  }

  lemma PrefixStep(ds: seq<nat>, i: nat)
    requires i < |ds|
    ensures Weighted(ds, i + 1) == Weighted(ds, i) + ds[i] * Pow10(|ds| - i - 1)
  {
    var v, d, p := Value(ds[..i], 10), ds[i], Pow10(|ds| - i - 1);
    assert ds[..i + 1] == ds[..i] + [d];
    LastDigit(ds[..i], d, 10);
    assert (v * 10 + d) * p == v * (10 * p) + d * p;
  }

  lemma {:induction false} PrefixBelow(ds: seq<nat>, i: nat)
    requires i <= |ds|
    ensures Weighted(ds, i) <= Weighted(ds, |ds|) == Value(ds, 10)
    decreases |ds| - i
  {
    assert ds[..|ds|] == ds;
    if i < |ds| {
      PrefixStep(ds, i);
      PrefixBelow(ds, i + 1);
    }
  }
}

/** ltoa() and atol() (src/libc/stdlib.c). */
module Numbers {
  import opened Notation

  const HEX := 16
  const NUL: char := 0 as char
  const LONG_LIMIT := 0x8000_0000_0000_0000
  const WORD_LIMIT := 0x1_0000_0000_0000_0000

  function Glyph(d: nat): char
    requires d < 16
  {
    if 10 <= d then ('a' as int + d - 10) as char else ('0' as int + d) as char
  }

  function Glyphs(ds: seq<nat>): (r: string)
    requires forall i :: 0 <= i < |ds| ==> ds[i] < 16
    ensures |r| == |ds| && forall i :: 0 <= i < |ds| ==> r[i] == Glyph(ds[i])
  {
    seq(|ds|, i requires 0 <= i < |ds| => Glyph(ds[i]))
  }

  /** The unsigned value of a long. */
  function Unsigned(n: int): int {
    if n < 0 then n + WORD_LIMIT else n
  }

  lemma {:induction false} RemaindersSmall(v: nat, radix: nat)
    requires 2 <= radix <= 16
    ensures forall i :: 0 <= i < |Remainders(v, radix)| ==> Remainders(v, radix)[i] < 16
    decreases v
  {
    if v != 0 {
      Divided(v, radix);
      Shrinks(v, radix);
      RemaindersSmall(v / radix, radix);
    }
  }

  /** What ltoa leaves in the buffer. */
  ghost function Printed(n: int, radix: nat): string
    requires -LONG_LIMIT <= n < LONG_LIMIT && 2 <= radix <= 16
  {
    DigitsProper(Unsigned(n), radix);
    Glyphs(Digits(Unsigned(n), radix))
  }

  /** No other digits without a leading zero stand for the number. */
  lemma PrintedUnique(n: int, radix: nat, ds: seq<nat>)
    requires -LONG_LIMIT <= n < LONG_LIMIT && 2 <= radix <= 16
    requires Proper(ds, radix) && Value(ds, radix) == Unsigned(n)
    ensures Glyphs(ds) == Printed(n, radix)
  {
    DigitsUnique(ds, radix);
  }

  // ---------------------------------------------------------------- reading a text back

  /** What a character counts for: '0' to '9' as 0 to 9, 'a' to 'f' as 10 to 15, anything else as no digit. */
  function Worth(c: char): nat {
    if '0' <= c <= '9' then c as int - 48
    else if 'a' <= c <= 'f' then c as int - 87
    else 16
  }

  function ReadText(s: string, radix: nat): nat {
    if s == [] then 0 else ReadText(s[..|s| - 1], radix) * radix + Worth(s[|s| - 1])
  }

  /** A numeral: digits of the radix, at least one, no leading zero unless it is the only digit. */
  ghost predicate Numeral(s: string, radix: nat) {
    s != [] && (forall i :: 0 <= i < |s| ==> Worth(s[i]) < radix) && (1 < |s| ==> s[0] != '0')
  }

  function Worths(s: string): (ds: seq<nat>)
    ensures |ds| == |s| && forall i :: 0 <= i < |s| ==> ds[i] == Worth(s[i])
  {
    seq(|s|, i requires 0 <= i < |s| => Worth(s[i]))
  }

  lemma {:induction false} ReadValue(s: string, radix: nat)
    ensures ReadText(s, radix) == Value(Worths(s), radix)
  {
    if s != [] {
      ReadValue(s[..|s| - 1], radix);
      assert Worths(s)[..|s| - 1] == Worths(s[..|s| - 1]);
    }
  }

  lemma SameWorth(c: char, d: char)
    requires Worth(c) == Worth(d) < 16
    ensures c == d
  {
  }

  lemma GlyphWorth(d: nat)
    requires d < 16
    ensures Worth(Glyph(d)) == d && (Glyph(d) == '0' <==> d == 0)
  {
  }

  /** Two numerals of the same number are the same text. */
  lemma NumeralUnique(s: string, t: string, radix: nat)
    requires 2 <= radix <= 16 && Numeral(s, radix) && Numeral(t, radix) && ReadText(s, radix) == ReadText(t, radix)
    ensures s == t
  {
    ReadValue(s, radix);
    ReadValue(t, radix);
    NumeralProper(s, radix);
    NumeralProper(t, radix);
    DigitsUnique(Worths(s), radix);
    DigitsUnique(Worths(t), radix);
    forall i | 0 <= i < |s|
      ensures s[i] == t[i]
    {
      assert Worths(s)[i] == Worths(t)[i];
      SameWorth(s[i], t[i]);
    }
  }

  lemma NumeralProper(s: string, radix: nat)
    requires 2 <= radix <= 16 && Numeral(s, radix)
    ensures Proper(Worths(s), radix)
  {
    if Worth(s[0]) == 0 {
      SameWorth(s[0], '0');
    }
  }

  /** For every radix: the text is a numeral, and reading it gives the unsigned value back. */
  lemma PrintedReads(n: int, radix: nat)
    requires -LONG_LIMIT <= n < LONG_LIMIT && 2 <= radix <= 16
    ensures Numeral(Printed(n, radix), radix) && ReadText(Printed(n, radix), radix) == Unsigned(n)
  {
    var ds, s := Digits(Unsigned(n), radix), Printed(n, radix);
    DigitsProper(Unsigned(n), radix);
    forall i | 0 <= i < |ds|
      ensures Worth(s[i]) == ds[i] && (s[i] == '0' <==> ds[i] == 0)
    {
      GlyphWorth(ds[i]);
    }
    ReadValue(s, radix);
    assert Worths(s) == ds;
  }

  /** So distinct numbers are printed as distinct texts. */
  lemma PrintedDistinct(m: int, n: int, radix: nat)
    requires -LONG_LIMIT <= m < LONG_LIMIT && -LONG_LIMIT <= n < LONG_LIMIT && 2 <= radix <= 16
    requires Printed(m, radix) == Printed(n, radix)
    ensures m == n
  {
    PrintedReads(m, radix);
    PrintedReads(n, radix);
  }

  /** The first loop: digits from the least significant one on. */
  method PutRemainders(v: nat, buffer: array<char>, radix: nat) returns (length: nat)
    requires 2 <= radix <= 16 && |Remainders(v, radix)| < buffer.Length
    modifies buffer
    ensures length == |Remainders(v, radix)|
    ensures forall i :: 0 <= i < length ==> Remainders(v, radix)[i] < 16 && buffer[i] == Glyph(Remainders(v, radix)[i])
    ensures forall i :: length <= i < buffer.Length ==> buffer[i] == old(buffer[i])
  {
    RemaindersSmall(v, radix);
    ghost var all := Remainders(v, radix);
    var un := v;
    length := 0;
    while un != 0
      invariant length <= |all| && all[length..] == Remainders(un, radix)
      invariant forall i :: 0 <= i < length ==> buffer[i] == Glyph(all[i])
      invariant forall i :: length <= i < buffer.Length ==> buffer[i] == old(buffer[i])
      decreases un
    {
      var digit, rest := NextDigit(un, radix);
      assert all[length..][0] == digit && all[length..][1..] == all[length + 1..];
      if digit >= 10 {
        buffer[length] := ('a' as int + digit - 10) as char;
      } else {
        buffer[length] := ('0' as int + digit) as char;
      }
      length := length + 1;
      un := rest;
    }
  }

  method NextDigit(un: nat, radix: nat) returns (digit: nat, rest: nat)
    requires 2 <= radix <= 16 && 0 < un
    ensures digit < radix && rest < un && Remainders(un, radix) == [digit] + Remainders(rest, radix)
  {
    Divided(un, radix);
    Shrinks(un, radix);
    digit, rest := un % radix, un / radix;
  }

  /** The second loop: the first `length` characters are reversed in place. */
  method Reverse(buffer: array<char>, length: nat)
    requires length <= buffer.Length
    modifies buffer
    ensures buffer[..length] == Reversed(old(buffer[..length]))
    ensures forall i :: length <= i < buffer.Length ==> buffer[i] == old(buffer[i])
  {
    for i := 0 to length / 2
      invariant forall k :: 0 <= k < i || length - i <= k < length ==> buffer[k] == old(buffer[length - 1 - k])
      invariant forall k :: i <= k < length - i ==> buffer[k] == old(buffer[k])
      invariant forall k :: length <= k < buffer.Length ==> buffer[k] == old(buffer[k])
    {
      var tmp := buffer[i];
      buffer[i] := buffer[length - i - 1];
      buffer[length - i - 1] := tmp;
    }
  }

  /**
   ltoa; false stands for the null result on an unsupported radix. The text left in the buffer, of `length`
   characters, is the one numeral of the unsigned value.
   */
  method Ltoa(n: int, buffer: array<char>, radix: nat) returns (ok: bool, ghost length: nat)
    requires -LONG_LIMIT <= n < LONG_LIMIT && radix != 1
    requires 2 <= radix <= HEX ==> |Printed(n, radix)| < buffer.Length
    modifies buffer
    ensures ok == (2 <= radix <= 16)
    ensures ok ==> length < buffer.Length && buffer[length] == NUL
    ensures ok ==> Numeral(buffer[..length], radix) && ReadText(buffer[..length], radix) == Unsigned(n)
    ensures ok ==> buffer[..length] == Printed(n, radix)
    ensures ok ==> forall i :: length < i < buffer.Length ==> buffer[i] == old(buffer[i])
    ensures !ok ==> buffer[..] == old(buffer[..])
  {
    if radix == 0 || radix > HEX {
      return false, 0;
    }
    PrintedReads(n, radix);
    if n == 0 {
      buffer[0] := '0';
      buffer[1] := NUL;
      assert buffer[..1] == "0";
      return true, 1;
    }
    RemaindersReversed(Unsigned(n), radix);
    var len := PutRemainders(Unsigned(n), buffer, radix);
    buffer[len] := NUL;
    ghost var low := buffer[..len];
    Reverse(buffer, len);
    assert Reversed(low) == Printed(n, radix);
    return true, len;
  }

  predicate IsDigit(c: char) {
    '0' <= c <= '9'
  }

  function DigitOf(c: char): nat
    requires IsDigit(c)
  {
    c as int - '0' as int
  }

  /** How many characters at the start are decimal digits. */
  function Leading(s: string): (k: nat)
    ensures k <= |s| && (forall i :: 0 <= i < k ==> IsDigit(s[i])) && (k < |s| ==> !IsDigit(s[k]))
  {
    if s == [] || !IsDigit(s[0]) then 0 else 1 + Leading(s[1..])
  }

  /** The digits atol sees. */
  function Read(s: string): (ds: seq<nat>)
    ensures |ds| == Leading(s) && forall i :: 0 <= i < |ds| ==> ds[i] == DigitOf(s[i]) < 10
  {
    seq(Leading(s), i requires 0 <= i < Leading(s) => DigitOf(s[i]))
  }

  method CountDigits(s: string) returns (len: nat)
    requires NUL in s
    ensures len == Leading(s) < |s|
  {
    len := 0;
    while IsDigit(s[len])
      invariant len < |s| && forall i :: 0 <= i < len ==> IsDigit(s[i])
      invariant NUL in s[len..]
      decreases |s| - len
    {
      assert s[len..] == [s[len]] + s[len + 1..];
      len := len + 1;
    }
    LeadingAll(s, len);
  }

  /** The weight of the leading digit; fails when it leaves the range of a long. */
  method Weight(len: nat) returns (multiplier: nat, overflow: bool)
    requires 1 <= len
    ensures overflow <==> 19 < len
    ensures !overflow ==> multiplier == Pow10(len - 1)
  {
    multiplier := 1;
    for i := 1 to len
      invariant multiplier == Pow10(i - 1) && i <= 19
    {
      multiplier := multiplier * 10;
      Pow10Fits(i);
      if multiplier >= LONG_LIMIT {
        return 0, true;
      }
    }
    overflow := false;
  }

  /** atol, with `overflow` set as soon as an intermediate result leaves the range of a long. */
  method Atol(s: string) returns (v: nat, overflow: bool)
    requires NUL in s
    ensures !overflow <==> Leading(s) <= 19 && Value(Read(s), 10) < LONG_LIMIT
    ensures !overflow ==> v == Value(Read(s), 10)
  {
    var len := CountDigits(s);
    ghost var ds := Read(s);
    if len == 0 {
      return 0, false;
    }
    if len == 1 {
      LastDigit([], ds[0], 10);
      assert ds == [] + [ds[0]];
      return s[0] as int - '0' as int, false;
    }
    var multiplier;
    multiplier, overflow := Weight(len);
    if overflow {
      return 0, true;
    }
    v, overflow := Accumulate(s, len, multiplier);
  }

  method Accumulate(s: string, len: nat, weight: nat) returns (v: nat, overflow: bool)
    requires 1 <= len == Leading(s) && weight == Pow10(len - 1)
    ensures !overflow <==> Value(Read(s), 10) < LONG_LIMIT
    ensures !overflow ==> v == Value(Read(s), 10)
  {
    ghost var ds := Read(s);
    var multiplier := weight;
    v := 0;
    for i := 0 to len
      invariant v == Weighted(ds, i) && v < LONG_LIMIT
      invariant multiplier == if i < len then Pow10(len - 1 - i) else 0
    {
      var term := (s[i] as int - '0' as int) * multiplier;
      PrefixStep(ds, i);
      PrefixBelow(ds, i + 1);
      v := v + term;
      if term >= LONG_LIMIT || v >= LONG_LIMIT {
        return 0, true;
      }
      multiplier := multiplier / 10;
    }
    PrefixBelow(ds, len);
    overflow := false;
  }

  lemma {:induction false} LeadingAll(s: string, k: nat)
    requires k < |s| && (forall i :: 0 <= i < k ==> IsDigit(s[i])) && !IsDigit(s[k])
    ensures Leading(s) == k
  {
    if 0 < k {
      LeadingAll(s[1..], k - 1);
    }
  }

  lemma {:induction false} DigitsCount(v: nat)
    ensures v < Pow10(|Digits(v, 10)|) && (10 <= v ==> Pow10(|Digits(v, 10)| - 1) <= v)
    decreases v
  {
    if 10 <= v {
      DigitsCount(v / 10);
    }
  }

  /** Printing in base ten and parsing gives every number from 0 to 2^63-1 back, without overflow. */
  lemma RoundTrip(n: nat)
    requires n < LONG_LIMIT
    ensures var s := Printed(n, 10) + [NUL];
            Leading(s) <= 19 && Value(Read(s), 10) == n
  {
    var ds := Digits(n, 10);
    DigitsProper(n, 10);
    var s := Printed(n, 10) + [NUL];
    LeadingAll(s, |ds|);
    assert Read(s) == ds;
    DigitsCount(n);
    if 19 < |ds| {
      Pow10Fits(|ds| - 1);
      assert false;
    }
  }
}
