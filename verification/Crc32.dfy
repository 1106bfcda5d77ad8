/** The 32-bit checksum of an address, and how it is written into a route name. */
module Crc32 {

  const POLYNOMIAL: bv32 := 0xD582_8281

  predicate IsOdd(crc: bv32) { crc & 1 == 1 }

  function Half(crc: bv32): bv32 { crc >> 1 }

  function Mixed(crc: bv32): bv32 { crc ^ POLYNOMIAL }

  /** One bit of the text goes through the register. */
  function ShiftBit(crc: bv32): bv32 { if IsOdd(crc) then Mixed(Half(crc)) else Half(crc) }

  function ShiftBits(crc: bv32, bits: nat): bv32
    decreases bits
  {
    if bits == 0 then crc else ShiftBits(ShiftBit(crc), bits - 1)
  }

  /** The number written with its lowest `k` binary digits. */
  function Bits(n: nat, k: nat): bv32 {
    if k == 0 then 0 else (Bits(n / 2, k - 1) << 1) | (if n % 2 == 1 then 1 else 0)
  }

  function ShiftByte(crc: bv32, c: char): bv32 { ShiftBits(crc ^ Bits(c as int, 8), 8) }

  function Update(crc: bv32, text: string): bv32
    decreases |text|
  {
    if text == [] then crc else Update(ShiftByte(crc, text[0]), text[1..])
  }

  /** `crc32.Checksum` with this polynomial, for text of one character per byte. */
  function Checksum(text: string): bv32 { Update(0xFFFF_FFFF, text) ^ 0xFFFF_FFFF }

  // ---------- no bit of the register is lost ----------

  lemma MixedKeeps(x: bv32, y: bv32)
    requires Mixed(x) == Mixed(y)
    ensures x == y
  {
  }

  lemma HalfAndParity(a: bv32, b: bv32)
    requires Half(a) == Half(b) && (IsOdd(a) <==> IsOdd(b))
    ensures a == b
  {
  }

  /** The highest bit tells whether the polynomial was mixed in. */
  lemma MixedShows(a: bv32, b: bv32)
    ensures Mixed(Half(a)) != Half(b)
  {
    assert (b >> 1) & 0x8000_0000 == 0;
    assert ((a >> 1) ^ 0xD582_8281) & 0x8000_0000 == 0x8000_0000;
  }

  lemma ShiftBitKeeps(a: bv32, b: bv32)
    requires ShiftBit(a) == ShiftBit(b)
    ensures a == b
  {
    if IsOdd(a) && IsOdd(b) {
      MixedKeeps(Half(a), Half(b));
      HalfAndParity(a, b);
    } else if !IsOdd(a) && !IsOdd(b) {
      HalfAndParity(a, b);
    } else if IsOdd(a) {
      MixedShows(a, b);
    } else {
      MixedShows(b, a);
    }
  }

  lemma {:induction false} ShiftBitsKeep(a: bv32, b: bv32, bits: nat)
    requires ShiftBits(a, bits) == ShiftBits(b, bits)
    ensures a == b
    decreases bits
  {
    if bits > 0 {
      ShiftBitsKeep(ShiftBit(a), ShiftBit(b), bits - 1);
      ShiftBitKeeps(a, b);
    }
  }

  function Pow2(k: nat): nat { if k == 0 then 1 else 2 * Pow2(k - 1) }

  function Limit(k: nat): bv32 {
    if k == 0 then 1 else if k == 1 then 2 else if k == 2 then 4 else if k == 3 then 8 else if k == 4 then 16
    else if k == 5 then 32 else if k == 6 then 64 else if k == 7 then 128 else 256
  }

  lemma DoubleLimit(a: bv32, limit: bv32, bit: bv32)
    requires limit <= 128 && a < limit && bit <= 1
    ensures (a << 1) | bit < limit << 1
  {
  }

  lemma {:induction false} BitsBelow(n: nat, k: nat)
    requires k <= 8
    ensures Bits(n, k) < Limit(k)
  {
    if k > 0 {
      BitsBelow(n / 2, k - 1);
      DoubleLimit(Bits(n / 2, k - 1), Limit(k - 1), if n % 2 == 1 then 1 else 0);
    }
  }

  lemma LastBit(a: bv32, b: bv32, s: bv32, t: bv32)
    requires a < 256 && b < 256 && s <= 1 && t <= 1 && (a << 1) | s == (b << 1) | t
    ensures a == b && s == t
  {
  }

  lemma {:induction false} BitsTell(x: nat, y: nat, k: nat)
    requires k <= 8 && x < Pow2(k) && y < Pow2(k) && Bits(x, k) == Bits(y, k)
    ensures x == y
  {
    if k > 0 {
      BitsBelow(x / 2, k - 1);
      BitsBelow(y / 2, k - 1);
      LastBit(Bits(x / 2, k - 1), Bits(y / 2, k - 1), if x % 2 == 1 then 1 else 0, if y % 2 == 1 then 1 else 0);
      BitsTell(x / 2, y / 2, k - 1);
    }
  }

  lemma XorKeeps(a: bv32, b: bv32, x: bv32)
    ensures a ^ x == b ^ x ==> a == b
    ensures x ^ a == x ^ b ==> a == b
  {
  }

  lemma ShiftByteKeeps(a: bv32, b: bv32, c: char)
    requires ShiftByte(a, c) == ShiftByte(b, c)
    ensures a == b
  {
    ShiftBitsKeep(a ^ Bits(c as int, 8), b ^ Bits(c as int, 8), 8);
    XorKeeps(a, b, Bits(c as int, 8));
  }

  predicate IsByte(c: char) { c as int < 256 }

  lemma ShiftByteTells(crc: bv32, c: char, d: char)
    requires IsByte(c) && IsByte(d) && ShiftByte(crc, c) == ShiftByte(crc, d)
    ensures c == d
  {
    ShiftBitsKeep(crc ^ Bits(c as int, 8), crc ^ Bits(d as int, 8), 8);
    XorKeeps(Bits(c as int, 8), Bits(d as int, 8), crc);
    assert Pow2(8) == 256 by { assert Pow2(4) == 16; }
    BitsTell(c as int, d as int, 8);
  }

  lemma {:induction false} UpdateKeeps(a: bv32, b: bv32, text: string)
    requires Update(a, text) == Update(b, text)
    ensures a == b
    decreases |text|
  {
    if text != [] {
      UpdateKeeps(ShiftByte(a, text[0]), ShiftByte(b, text[0]), text[1..]);
      ShiftByteKeeps(a, b, text[0]);
    }
  }

  /** `b` is `a` with one character changed. */
  predicate DifferAt(a: string, b: string, i: nat) {
    && |a| == |b| && i < |a| && a[i] != b[i] && IsByte(a[i]) && IsByte(b[i])
    && forall j | 0 <= j < |a| && j != i :: a[j] == b[j]
  }

  lemma {:induction false} UpdateTells(crc: bv32, a: string, b: string, i: nat)
    requires DifferAt(a, b, i)
    ensures Update(crc, a) != Update(crc, b)
    decreases i
  {
    if i > 0 {
      assert a[0] == b[0];
      UpdateTells(ShiftByte(crc, a[0]), a[1..], b[1..], i - 1);
    } else {
      assert a[1..] == b[1..];
      if Update(crc, a) == Update(crc, b) {
        UpdateKeeps(ShiftByte(crc, a[0]), ShiftByte(crc, b[0]), a[1..]);
        ShiftByteTells(crc, a[0], b[0]);
      }
    }
  }

  /** Texts of equal length that differ in one character have different checksums. */
  lemma OneCharacterTells(a: string, b: string, i: nat)
    requires DifferAt(a, b, i)
    ensures Checksum(a) != Checksum(b)
  {
    UpdateTells(0xFFFF_FFFF, a, b, i);
    XorKeeps(Update(0xFFFF_FFFF, a), Update(0xFFFF_FFFF, b), 0xFFFF_FFFF);
  }

  /** The checksums of the empty text and of one letter. */
  lemma SomeChecksums()
    ensures Checksum("") == 0 && Checksum("a") == 0x248ca0a3
  {
    BitsOfLetter();
    ShiftLetter();
    assert "a"[1..] == "";
    assert Update(0xFFFF_FFFF, "a") == ShiftByte(0xFFFF_FFFF, 'a');
  }

  lemma BitsOfLetter()
    ensures Bits('a' as int, 8) == 0x61
  {
    assert Bits(3, 3) == 3;
    assert Bits(12, 5) == 12;
    assert Bits(48, 7) == 48;
  }

  lemma ShiftLetter()
    ensures ShiftBits(0xffff_ff9e, 8) == 0xdb735f5c
  {
    assert ShiftBit(0xffffff9e) == 0x7fffffcf;
    assert ShiftBit(0x7fffffcf) == 0xea7d7d66;
    assert ShiftBit(0xea7d7d66) == 0x753ebeb3;
    assert ShiftBit(0x753ebeb3) == 0xef1dddd8;
    assert ShiftBit(0xef1dddd8) == 0x778eeeec;
    assert ShiftBit(0x778eeeec) == 0x3bc77776;
    assert ShiftBit(0x3bc77776) == 0x1de3bbbb;
    assert ShiftBit(0x1de3bbbb) == 0xdb735f5c;
  }

  // ---------- eight hexadecimal digits ----------

  function HexDigit(n: bv32): char {
    if n == 0 then '0' else if n == 1 then '1' else if n == 2 then '2' else if n == 3 then '3'
    else if n == 4 then '4' else if n == 5 then '5' else if n == 6 then '6' else if n == 7 then '7'
    else if n == 8 then '8' else if n == 9 then '9' else if n == 10 then 'a' else if n == 11 then 'b'
    else if n == 12 then 'c' else if n == 13 then 'd' else if n == 14 then 'e' else 'f'
  }

  function Nibble(value: bv32): bv32 { value & 15 }

  function Rest(value: bv32): bv32 { value >> 4 }

  function HexDigits(value: bv32, digits: nat): (text: string)
    ensures |text| == digits && forall i | 0 <= i < digits :: text[i] in "0123456789abcdef"
  {
    if digits == 0 then "" else HexDigits(Rest(value), digits - 1) + [HexDigit(Nibble(value))]
  }

  lemma HexDigitTells(v: bv32, w: bv32)
    requires HexDigit(Nibble(v)) == HexDigit(Nibble(w))
    ensures Nibble(v) == Nibble(w)
  {
    assert (v & 15) <= 15 && (w & 15) <= 15;
  }

  lemma NibbleAndRest(v: bv32, w: bv32)
    requires Nibble(v) == Nibble(w) && Rest(v) == Rest(w)
    ensures v == w
  {
  }

  /** A number of `digits` hexadecimal digits. */
  predicate HasDigits(value: bv32, digits: nat)
    decreases digits
  {
    if digits == 0 then value == 0 else HasDigits(Rest(value), digits - 1)
  }

  lemma {:induction false} HexDigitsTell(v: bv32, w: bv32, digits: nat)
    requires HasDigits(v, digits) && HasDigits(w, digits) && HexDigits(v, digits) == HexDigits(w, digits)
    ensures v == w
    decreases digits
  {
    if digits > 0 {
      var x, y := HexDigits(v, digits), HexDigits(w, digits);
      assert x[..digits - 1] == HexDigits(Rest(v), digits - 1) && y[..digits - 1] == HexDigits(Rest(w), digits - 1);
      assert x[digits - 1] == HexDigit(Nibble(v)) && y[digits - 1] == HexDigit(Nibble(w));
      HexDigitsTell(Rest(v), Rest(w), digits - 1);
      HexDigitTells(v, w);
      NibbleAndRest(v, w);
    }
  }

  lemma EightDigits(value: bv32)
    ensures HasDigits(value, 8)
  {
    var a, b := Rest(Rest(value)), Rest(Rest(Rest(Rest(value))));
    assert value >> 4 >> 4 >> 4 >> 4 >> 4 >> 4 >> 4 >> 4 == 0;
    assert HasDigits(value, 8) == HasDigits(a, 6);
    assert HasDigits(a, 6) == HasDigits(b, 4);
    assert HasDigits(b, 4) == HasDigits(Rest(Rest(b)), 2);
  }

  /** Eight hexadecimal digits tell the whole checksum. */
  lemma HexTells(v: bv32, w: bv32)
    ensures HexDigits(v, 8) == HexDigits(w, 8) <==> v == w
  {
    if HexDigits(v, 8) == HexDigits(w, 8) {
      EightDigits(v);
      EightDigits(w);
      HexDigitsTell(v, w, 8);
    }
  }
}
