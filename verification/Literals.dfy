/**
  Printing of four-state integers as based literals (serialize_value in verilog.cpp,
  bit_utils.cpp), and their meaning by section 2.5.1 of IEEE 1364-2001.
*/
module Literals {
  import opened Lists

  datatype Bit = Zero | One | Unknown

  // ---------- Bits of a number ----------

  function Shr(x: nat, k: nat): nat {
    if k == 0 then x else Shr(x / 2, k - 1)
  }

  function Pow2(k: nat): (p: nat)
    ensures p > 0
  {
    if k == 0 then 1 else 2 * Pow2(k - 1)
  }

  /** (1 << len) - 1 */
  function Mask(len: nat): nat {
    Pow2(len) - 1
  }

  /** Masking with all ones below `len` keeps the remainder. */
  function SelectBits(x: nat, start: nat, len: nat): nat {
    Shr(x, start) % Pow2(len)
  }

  function Nibble(x: nat, b: nat): nat {
    SelectBits(x, b * 4, 4)
  }

  function BitAt(x: nat, i: nat): bool {
    Shr(x, i) % 2 == 1
  }

  /** What bit `i` of a value is, where its mask tells defined from undefined. */
  function Meaning(value: nat, mask: nat, i: nat): Bit {
    if !BitAt(mask, i) then Unknown else if BitAt(value, i) then One else Zero
  }

  /** All bits of a value of the width, the lowest first. */
  function FourState(width: nat, value: nat, mask: nat): (r: seq<Bit>)
    ensures |r| == width
  {
    seq(width, i requires 0 <= i < width => Meaning(value, mask, i))
  }

  lemma {:induction false} ShrTwice(x: nat, a: nat, b: nat)
    ensures Shr(Shr(x, a), b) == Shr(x, a + b)
  {
    if a > 0 {
      ShrTwice(x / 2, a - 1, b);
    }
  }

  /** A shifted run of ones is a shorter run of ones. */
  lemma {:induction false} ShrOnes(len: nat, k: nat)
    requires k <= len
    ensures Shr(Mask(len), k) == Mask(len - k)
  {
    if k > 0 {
      assert Mask(len) / 2 == Mask(len - 1);
      ShrOnes(len - 1, k - 1);
    }
  }

  /** Every bit below the width is set in the full mask. */
  lemma OnesAt(len: nat, i: nat)
    requires i < len
    ensures BitAt(Mask(len), i)
  {
    ShrOnes(len, i);
    assert Pow2(len - i) == 2 * Pow2(len - i - 1);
  }

  /** The four bits of a nibble are those of the number it was selected from. */
  lemma NibbleBits(x: nat, b: nat, j: nat)
    requires j < 4
    ensures var n := Nibble(x, b);
      n < 16 && (BitAt(x, 4 * b + j) <==> BitAt(n, j))
  {
    assert Pow2(4) == 16;
    ShrTwice(x, 4 * b, j);
    LowNibble(Shr(x, 4 * b), j);
  }

  lemma LowNibble(y: nat, j: nat)
    requires j < 4
    ensures Shr(y, j) % 2 == Shr(y % 16, j) % 2
  {
    var q, z := y / 16, y % 16;
    ShrFew(y);
    ShrFew(z);
    assert y / 2 == 8 * q + z / 2;
    assert y / 2 / 2 == 4 * q + z / 2 / 2;
    assert y / 2 / 2 / 2 == 2 * q + z / 2 / 2 / 2;
  }

  lemma ShrFew(y: nat)
    ensures Shr(y, 0) == y && Shr(y, 1) == y / 2 && Shr(y, 2) == y / 2 / 2 && Shr(y, 3) == y / 2 / 2 / 2
  {
    assert Shr(y / 2 / 2, 1) == y / 2 / 2 / 2;
    assert Shr(y / 2, 2) == Shr(y / 2 / 2, 1);
  }

  // ---------- Reading ----------

  function DigitOf(c: char): Option<nat> {
    if '0' <= c <= '9' then Some((c as int) - ('0' as int))
    else if 'a' <= c <= 'f' then Some((c as int) - ('a' as int) + 10)
    else None
  }

  /** The bits of one digit, the lowest first; an X is unknown in all of them. */
  function DigitBits(c: char, per: nat): Option<seq<Bit>> {
    if c == 'X' then Some(seq(per, _ => Unknown))
    else if DigitOf(c).Some? && DigitOf(c).value < Pow2(per)
      then Some(seq(per, j requires 0 <= j < per => if BitAt(DigitOf(c).value, j) then One else Zero))
    else None
  }

  function DigitsBits(s: string, per: nat): Option<seq<Bit>> {
    if s == [] then Some([]) else
      var top, low := DigitBits(s[0], per), DigitsBits(s[1..], per);
      if top.Some? && low.Some? then Some(low.value + top.value) else None
  }

  /** Too many bits are cut off at the top; missing ones are zero, or unknown after a leading X. */
  function Sized(bits: seq<Bit>, width: nat): (r: seq<Bit>)
    requires bits != []
    ensures |r| == width
  {
    if |bits| >= width then bits[..width]
    else bits + seq(width - |bits|, _ => if bits[|bits| - 1] == Unknown then Unknown else Zero)
  }

  function ReadDecimal(s: string): Option<nat> {
    if s == [] then Some(0) else
      var front := ReadDecimal(s[..|s| - 1]);
      var last := s[|s| - 1];
      if front.Some? && '0' <= last <= '9' then Some(10 * front.value + (last as int - '0' as int)) else None
  }

  /** Size, apostrophe, base and digits; the size is not zero and there is a digit. */
  function ReadLiteral(s: string): Option<seq<Bit>> {
    var a := Apostrophe(s);
    if a == 0 || a + 2 >= |s| then None else
      var size := ReadDecimal(s[..a]);
      var per := if s[a + 1] == 'b' then 1 else if s[a + 1] == 'h' then 4 else 0;
      if size.None? || size.value == 0 || per == 0 then None else
        var bits := DigitsBits(s[a + 2..], per);
        if bits.None? || bits.value == [] then None else Some(Sized(bits.value, size.value))
  }

  function Apostrophe(s: string): (a: nat)
    ensures a <= |s|
  {
    if s == [] || s[0] == '\'' then 0 else 1 + Apostrophe(s[1..])
  }

  // ---------- Printing ----------

  function Digit(d: nat): (c: char)
    requires d < 16
    ensures c != 'X' && c != '\'' && DigitOf(c) == Some(d)
  {
    if d < 10 then ('0' as int + d) as char else ('a' as int + (d - 10)) as char
  }

  function Decimal(n: nat): (s: string)
    ensures forall c :: c in s ==> '0' <= c <= '9'
  {
    if n == 0 then "" else Decimal(n / 10) + [Digit(n % 10)]
  }

  /** Nibble `b` of the mask can be printed as one hexadecimal digit. */
  predicate NibbleFits(width: nat, mask: nat, b: nat) {
    var m := Nibble(mask, b);
    m == 15 || m == 0 || (b == Nibbles(width) - 1 && m == Nibble(Mask(width), b))
  }

  function Nibbles(width: nat): nat {
    (width + 3) / 4
  }

  predicate UseHex(width: nat, mask: nat) {
    if (mask != 0 && mask != Mask(width)) || width == 1
    then width > 1 && forall b :: 0 <= b < Nibbles(width) ==> NibbleFits(width, mask, b)
    else true
  }

  function HexDigit(value: nat, mask: nat, b: nat): char {
    if Nibble(mask, b) != 0 then Digit(Nibble(value, b)) else 'X'
  }

  function BinDigit(value: nat, mask: nat, b: nat): char {
    if SelectBits(mask, b, 1) == 0 then 'X' else if SelectBits(value, b, 1) != 0 then '1' else '0'
  }

  /** The digits of the lowest `n` places, the highest first. */
  function Digits(hex: bool, value: nat, mask: nat, n: nat): (s: string)
    ensures |s| == n
  {
    if n == 0 then "" else
      [if hex then HexDigit(value, mask, n - 1) else BinDigit(value, mask, n - 1)] + Digits(hex, value, mask, n - 1)
  }

  function Literal(width: nat, value: nat, mask: nat): string {
    var hex := UseHex(width, mask);
    Decimal(width) + ['\'', if hex then 'h' else 'b'] + Digits(hex, value, mask, if hex then Nibbles(width) else width)
  }

  /** The scan for a hexadecimal base goes down from the top nibble; only there a partial mask may be full. */
  method CanBeInHex(width: nat, mask: nat) returns (ok: bool)
    requires width > 1
    ensures ok <==> forall b :: 0 <= b < Nibbles(width) ==> NibbleFits(width, mask, b)
  {
    var rounded := width / 4;
    if rounded * 4 < width {
      rounded := rounded + 1;
    }
    var first := true;
    var b := rounded;
    while b > 0
      invariant 0 <= b <= rounded == Nibbles(width) && (first <==> b == rounded)
      invariant forall k :: b <= k < rounded ==> NibbleFits(width, mask, k)
    {
      b := b - 1;
      var m := Nibble(mask, b);
      if m != 15 && m != 0 {
        if first {
          if m != Nibble(Mask(width), b) {
            assert !NibbleFits(width, mask, b);
            return false;
          }
        } else {
          assert !NibbleFits(width, mask, b);
          return false;
        }
      }
      first := false;
    }
    return true;
  }

  method SerializeValue(width: nat, value: nat, mask: nat) returns (str: string)
    ensures str == Literal(width, value, mask)
  {
    var base := 2;
    if (mask != 0 && mask != Mask(width)) || width == 1 {
      if width > 1 {
        var canBeInHex := CanBeInHex(width, mask);
        if canBeInHex {
          base := 16;
        }
      }
    } else {
      base := 16;
    }
    assert base == 16 <==> UseHex(width, mask);
    str := Decimal(width) + ['\'', if base == 16 then 'h' else 'b'];
    if base == 2 {
      str := WriteBinary(str, value, mask, width);
    } else {
      str := WriteHex(str, value, mask, Nibbles(width));
    }
  }

  method WriteBinary(head: string, value: nat, mask: nat, n: nat) returns (str: string)
    ensures str == head + Digits(false, value, mask, n)
  {
    str := head;
    var b := n;
    while b > 0
      invariant 0 <= b <= n && str + Digits(false, value, mask, b) == head + Digits(false, value, mask, n)
    {
      var rest := Digits(false, value, mask, b - 1);
      assert str + ([BinDigit(value, mask, b - 1)] + rest) == str + [BinDigit(value, mask, b - 1)] + rest;
      b := b - 1;
      str := str + [if SelectBits(mask, b, 1) == 0 then 'X' else if SelectBits(value, b, 1) != 0 then '1' else '0'];
    }
  }

  method WriteHex(head: string, value: nat, mask: nat, n: nat) returns (str: string)
    ensures str == head + Digits(true, value, mask, n)
  {
    str := head;
    var b := n;
    while b > 0
      invariant 0 <= b <= n && str + Digits(true, value, mask, b) == head + Digits(true, value, mask, n)
    {
      var rest := Digits(true, value, mask, b - 1);
      assert str + ([HexDigit(value, mask, b - 1)] + rest) == str + [HexDigit(value, mask, b - 1)] + rest;
      b := b - 1;
      str := str + [if Nibble(mask, b) != 0 then Digit(Nibble(value, b)) else 'X'];
    }
  }

  // ---------- Reading back ----------

  lemma {:induction false} DecimalReads(n: nat)
    ensures ReadDecimal(Decimal(n)) == Some(n)
  {
    if n > 0 {
      DecimalReads(n / 10);
      var s := Decimal(n);
      assert s[..|s| - 1] == Decimal(n / 10) && s[|s| - 1] == Digit(n % 10);
    }
  }

  lemma {:induction false} ApostropheAfter(s: string, t: string)
    requires forall c :: c in s ==> '0' <= c <= '9'
    ensures Apostrophe(s + ['\''] + t) == |s|
  {
    var all := s + ['\''] + t;
    if s != [] {
      assert all[0] == s[0] && all[0] in s;
      assert all[1..] == s[1..] + ['\''] + t;
      assert forall c :: c in s[1..] ==> c in s;
      ApostropheAfter(s[1..], t);
    }
  }

  /** Where a nibble counts as defined, all of its bits below the width are. */
  ghost predicate Uniform(width: nat, mask: nat, b: nat) {
    forall i :: 4 * b <= i < 4 * b + 4 && i < width ==> (BitAt(mask, i) <==> Nibble(mask, b) != 0)
  }

  lemma FitsIsUniform(width: nat, mask: nat, b: nat)
    requires b < Nibbles(width)
    requires NibbleFits(width, mask, b) || mask == 0 || mask == Mask(width)
    ensures Uniform(width, mask, b)
  {
    forall i | 4 * b <= i < 4 * b + 4 && i < width
      ensures BitAt(mask, i) <==> Nibble(mask, b) != 0
    {
      var j := i - 4 * b;
      assert i == 4 * b + j;
      NibbleBits(mask, b, j);
      NibbleBits(Mask(width), b, j);
      OnesAt(width, i);
      ShrFew(15);
      ShrZero(j);
      ZeroSelects(b);
    }
  }

  lemma {:induction false} ShrZero(k: nat)
    ensures Shr(0, k) == 0
  {
    if k > 0 {
      ShrZero(k - 1);
    }
  }

  lemma ZeroSelects(b: nat)
    ensures Nibble(0, b) == 0
  {
    ShrZero(b * 4);
  }

  lemma {:induction false} HexReads(width: nat, value: nat, mask: nat, n: nat)
    requires n <= Nibbles(width) && forall b :: 0 <= b < n ==> Uniform(width, mask, b)
    ensures var bits := DigitsBits(Digits(true, value, mask, n), 4);
      && bits.Some? && |bits.value| == 4 * n
      && forall i :: 0 <= i < 4 * n && i < width ==> bits.value[i] == Meaning(value, mask, i)
  {
    if n > 0 {
      HexReads(width, value, mask, n - 1);
      HexDigitReads(width, value, mask, n - 1);
    }
  }

  lemma HexDigitReads(width: nat, value: nat, mask: nat, b: nat)
    requires Uniform(width, mask, b)
    ensures var bits := DigitBits(HexDigit(value, mask, b), 4);
      && bits.Some? && |bits.value| == 4
      && forall i :: 4 * b <= i < 4 * b + 4 && i < width ==> bits.value[i - 4 * b] == Meaning(value, mask, i)
  {
    assert Pow2(4) == 16;
    forall i | 4 * b <= i < 4 * b + 4 && i < width
      ensures DigitBits(HexDigit(value, mask, b), 4).value[i - 4 * b] == Meaning(value, mask, i)
    {
      var j := i - 4 * b;
      assert 4 * b + j == i;
      NibbleBits(value, b, j);
    }
  }

  lemma {:induction false} BinReads(value: nat, mask: nat, n: nat)
    ensures var bits := DigitsBits(Digits(false, value, mask, n), 1);
      && bits.Some? && |bits.value| == n
      && forall i :: 0 <= i < n ==> bits.value[i] == Meaning(value, mask, i)
  {
    if n > 0 {
      BinReads(value, mask, n - 1);
      assert Pow2(1) == 2 && DigitOf('0') == Some(0) && DigitOf('1') == Some(1);
      assert Shr(0, 0) == 0 && Shr(1, 0) == 1;
      assert DigitBits(BinDigit(value, mask, n - 1), 1).value == [Meaning(value, mask, n - 1)];
    }
  }

  lemma BaseUniform(width: nat, mask: nat)
    requires UseHex(width, mask)
    ensures forall b :: 0 <= b < Nibbles(width) ==> Uniform(width, mask, b)
  {
    forall b | 0 <= b < Nibbles(width) ensures Uniform(width, mask, b) {
      FitsIsUniform(width, mask, b);
    }
  }

  /** Whatever the base, the digits mean the value on its defined bits and unknown on the others. */
  lemma DigitsMean(width: nat, value: nat, mask: nat)
    requires width > 0
    ensures
      var hex := UseHex(width, mask);
      var bits := DigitsBits(Digits(hex, value, mask, if hex then Nibbles(width) else width), if hex then 4 else 1);
      bits.Some? && bits.value != [] && Sized(bits.value, width) == FourState(width, value, mask)
  {
    if UseHex(width, mask) {
      BaseUniform(width, mask);
      HexReads(width, value, mask, Nibbles(width));
    } else {
      BinReads(value, mask, width);
    }
  }

  /** What the reader takes for size, base and digits. */
  lemma ReadParts(d: string, base: char, digits: string, size: nat)
    requires forall c :: c in d ==> '0' <= c <= '9'
    requires ReadDecimal(d) == Some(size)
    ensures var s := d + ['\'', base] + digits; var a := Apostrophe(s);
      a == |d| && s[..a] == d && |s| == a + 2 + |digits| && s[a + 1] == base && s[a + 2..] == digits
  {
    var s := d + ['\'', base] + digits;
    assert s == d + ['\''] + ([base] + digits);
    ApostropheAfter(d, [base] + digits);
  }

  /** Every printed literal of a width that is not zero reads back as the same four-state value. */
  lemma LiteralRoundTrip(width: nat, value: nat, mask: nat)
    ensures width > 0 ==> ReadLiteral(Literal(width, value, mask)) == Some(FourState(width, value, mask))
    ensures width == 0 ==> ReadLiteral(Literal(width, value, mask)) == None
  {
    var hex := UseHex(width, mask);
    var digits := Digits(hex, value, mask, if hex then Nibbles(width) else width);
    DecimalReads(width);
    ReadParts(Decimal(width), if hex then 'h' else 'b', digits, width);
    if width > 0 {
      DigitsMean(width, value, mask);
    }
  }

  // ---------- Which base ----------

  lemma {:induction false} ShrAbove(x: nat, k: nat)
    requires x < Pow2(k)
    ensures Shr(x, k) == 0
  {
    if k > 0 {
      ShrAbove(x / 2, k - 1);
    }
  }

  /** The bits of the full mask are those below the width. */
  lemma OnesExactly(width: nat, i: nat)
    ensures BitAt(Mask(width), i) <==> i < width
  {
    if i < width {
      OnesAt(width, i);
    } else {
      ShrAbove(Mask(width), width);
      ShrTwice(Mask(width), width, i - width);
      ShrZero(i - width);
    }
  }

  /** Four bits are a number. */
  lemma NibbleNumber(n: nat, m: nat)
    requires n < 16 && m < 16
    requires Shr(n, 0) % 2 == Shr(m, 0) % 2 && Shr(n, 1) % 2 == Shr(m, 1) % 2
    requires Shr(n, 2) % 2 == Shr(m, 2) % 2 && Shr(n, 3) % 2 == Shr(m, 3) % 2
    ensures n == m
  {
    ShrFew(n);
    ShrFew(m);
  }

  /** The two numbers have the same four bits from `4 * b` on. */
  predicate SameBits(x: nat, y: nat, b: nat) {
    forall i :: 4 * b <= i < 4 * b + 4 ==> (BitAt(x, i) <==> BitAt(y, i))
  }

  /** Two numbers have one nibble when they have its four bits. */
  lemma NibbleOfBits(x: nat, y: nat, b: nat)
    ensures Nibble(x, b) == Nibble(y, b) <==> SameBits(x, y, b)
  {
    NibbleBits(x, b, 0);
    NibbleBits(x, b, 1);
    NibbleBits(x, b, 2);
    NibbleBits(x, b, 3);
    NibbleBits(y, b, 0);
    NibbleBits(y, b, 1);
    NibbleBits(y, b, 2);
    NibbleBits(y, b, 3);
    if SameBits(x, y, b) {
      var k := 4 * b;
      assert BitAt(x, k + 0) == BitAt(y, k + 0) && BitAt(x, k + 1) == BitAt(y, k + 1);
      assert BitAt(x, k + 2) == BitAt(y, k + 2) && BitAt(x, k + 3) == BitAt(y, k + 3);
      NibbleNumber(Nibble(x, b), Nibble(y, b));
    } else {
      var i :| 4 * b <= i < 4 * b + 4 && BitAt(x, i) != BitAt(y, i);
      NibbleBits(x, b, i - 4 * b);
      NibbleBits(y, b, i - 4 * b);
      assert i == 4 * b + (i - 4 * b);
    }
  }

  /** One digit of four bits: all unknown, all defined, or defined exactly below the width. */
  predicate OneDigit(width: nat, mask: nat, b: nat) {
    || (forall i :: 4 * b <= i < 4 * b + 4 ==> !BitAt(mask, i))
    || (forall i :: 4 * b <= i < 4 * b + 4 ==> BitAt(mask, i))
    || (forall i :: 4 * b <= i < 4 * b + 4 ==> (BitAt(mask, i) <==> i < width))
  }

  lemma FitsIsOneDigit(width: nat, mask: nat, b: nat)
    requires b < Nibbles(width)
    ensures NibbleFits(width, mask, b) <==> OneDigit(width, mask, b)
  {
    var ones := Mask(4 * b + 4);
    forall i: nat | 4 * b <= i < 4 * b + 4
      ensures !BitAt(0, i) && BitAt(ones, i) && (BitAt(Mask(width), i) <==> i < width)
    {
      ShrZero(i);
      OnesExactly(4 * b + 4, i);
      OnesExactly(width, i);
    }
    ZeroSelects(b);
    ShrOnes(4 * b + 4, 4 * b);
    assert Nibble(ones, b) == 15 by {
      assert Pow2(4) == 16;
    }
    NibbleOfBits(mask, 0, b);
    NibbleOfBits(mask, ones, b);
    NibbleOfBits(mask, Mask(width), b);
    NibbleOfBits(ones, Mask(width), b);
  }

  predicate AllOneDigit(width: nat, mask: nat) {
    forall b :: 0 <= b < Nibbles(width) ==> OneDigit(width, mask, b)
  }

  lemma PlainMask(width: nat, mask: nat)
    requires mask == 0 || mask == Mask(width)
    ensures AllOneDigit(width, mask)
  {
    forall b: nat | b < Nibbles(width) ensures OneDigit(width, mask, b) {
      forall i: nat | 4 * b <= i < 4 * b + 4 ensures !BitAt(0, i) && (BitAt(Mask(width), i) <==> i < width) {
        ShrZero(i);
        OnesExactly(width, i);
      }
    }
  }

  lemma HexMeans(width: nat, mask: nat)
    ensures UseHex(width, mask) <==> if width > 1 then AllOneDigit(width, mask) else width == 0 && mask == 0
  {
    if mask == 0 || mask == Mask(width) {
      PlainMask(width, mask);
    } else if width > 1 {
      forall b: nat | b < Nibbles(width) ensures NibbleFits(width, mask, b) <==> OneDigit(width, mask, b) {
        FitsIsOneDigit(width, mask, b);
      }
    }
  }

  /**
    The base is hexadecimal exactly when every four bits make one digit.  A single bit is
    printed in binary, and so is a value of width zero, unless its mask is zero.
  */
  lemma HexExactly(width: nat, value: nat, mask: nat)
    ensures var base := Literal(width, value, mask)[|Decimal(width)| + 1];
      && (base == 'h' || base == 'b')
      && (base == 'h' <==> if width > 1 then AllOneDigit(width, mask) else width == 0 && mask == 0)
  {
    HexMeans(width, mask);
  }
}
