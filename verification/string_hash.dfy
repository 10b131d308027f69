/**
 * The hash that files delete variants in the index: 32-bit FNV-1a over
 * the string's bytes, masked by the engine's compact mask, with
 * min(length, 3) in the two low bits. Unsigned 32-bit words are naturals
 * below 2^32; their bitwise operations are spelled out bit by bit and the
 * wrap-around of the multiplication is an explicit remainder.
 */
module DeleteHash {

  const Two32 := 0x1_0000_0000
  const Two31 := 0x8000_0000

  function Pow2(n: nat): (p: nat)
    ensures p >= 1
  {
    if n == 0 then 1 else 2 * Pow2(n - 1)
  }

  lemma {:induction false} Pow2Add(a: nat, b: nat)
    ensures Pow2(a + b) == Pow2(a) * Pow2(b)
  {
    if a > 0 {
      Pow2Add(a - 1, b);
    }
  }

  lemma Pow2ThirtyTwo()
    ensures Pow2(32) == Two32 && Pow2(30) == Two32 / 4
  {
    assert Pow2(2) == 4 by {
      assert Pow2(1) == 2;
    }
    Pow2Add(2, 2);
    assert Pow2(4) == 16;
    Pow2Add(4, 4);
    assert Pow2(8) == 256;
    Pow2Add(8, 8);
    assert Pow2(16) == 65536;
    Pow2Add(16, 16);
    assert Pow2(32) == Two32;
    Pow2Add(2, 30);
  }

  datatype BitOp = AndOp | OrOp | XorOp

  function BitOf(op: BitOp, x: nat, y: nat): nat
    requires x < 2 && y < 2
  {
    match op
    case AndOp => if x == 1 && y == 1 then 1 else 0
    case OrOp => if x == 1 || y == 1 then 1 else 0
    case XorOp => if x != y then 1 else 0
  }

  /** The bitwise operation on the low n bits of a and b. */
  function Bitwise(op: BitOp, a: nat, b: nat, n: nat): nat
  {
    if n == 0 then 0
    else BitOf(op, a % 2, b % 2) + 2 * Bitwise(op, a / 2, b / 2, n - 1)
  }

  lemma {:induction false} BitwiseBound(op: BitOp, a: nat, b: nat, n: nat)
    ensures Bitwise(op, a, b, n) < Pow2(n)
  {
    if n > 0 {
      BitwiseBound(op, a / 2, b / 2, n - 1);
    }
  }

  /** A bitwise and never exceeds its mask. */
  lemma {:induction false} AndBelowMask(a: nat, m: nat, n: nat)
    ensures Bitwise(AndOp, a, m, n) <= m
  {
    if n > 0 {
      AndBelowMask(a / 2, m / 2, n - 1);
    }
  }

  /** Or with zero keeps a number that fits in n bits. */
  lemma {:induction false} OrZero(a: nat, n: nat)
    requires a < Pow2(n)
    ensures Bitwise(OrOp, a, 0, n) == a
  {
    if n > 0 {
      OrZero(a / 2, n - 1);
    }
  }

  /** The two's-complement byte a character contributes: a character
    * stands for one byte (its low eight bits), and bytes are signed, so a
    * byte of 128 or more is sign-extended to 32 bits. */
  function CharBits(c: char): nat
  {
    var b := (c as int) % 256;
    if b >= 128 then b + 0xFFFF_FF00 else b
  }

  /** One FNV-1a step: xor in the byte, multiply by the FNV prime, keep
    * 32 bits. */
  function Mix(hash: nat, c: char): nat
  {
    (Bitwise(XorOp, hash, CharBits(c), 32) * 16777619) % Two32
  }

  /** FNV-1a over s from the 32-bit offset basis. */
  function Fnv(s: string): nat
    decreases |s|
  {
    if s == [] then 2166136261 else Mix(Fnv(s[..|s| - 1]), s[|s| - 1])
  }

  /** The compact mask of a compaction level: the all-ones word shifted
    * right by 3 + level and then left by 2. */
  function CompactMask(compactLevel: nat): nat
    requires compactLevel <= 16
  {
    ((Two32 - 1) / Pow2(3 + compactLevel)) * 4
  }

  /** A mask clears the sign bit and the two low bits. */
  predicate ValidMask(m: nat)
  {
    m < Two31 && m % 4 == 0
  }

  lemma CompactMaskValid(compactLevel: nat)
    requires compactLevel <= 16
    ensures ValidMask(CompactMask(compactLevel))
  {
    var n := 3 + compactLevel;
    assert Pow2(n) == 8 * Pow2(n - 3) by {
      assert Pow2(n) == 2 * Pow2(n - 1);
      assert Pow2(n - 1) == 2 * Pow2(n - 2);
      assert Pow2(n - 2) == 2 * Pow2(n - 3);
    }
    DivByAtLeast8(Two32 - 1, Pow2(n));
  }

  /** Dividing by at least 8 gives at most the eighth. */
  lemma DivByAtLeast8(a: nat, d: nat)
    requires d >= 8
    ensures a / d <= a / 8
  {
    var q := a / d;
    assert q * d <= a;
    MulMonotone(q, 8, d);
  }

  lemma {:induction false} MulMonotone(q: nat, x: nat, y: nat)
    requires x <= y
    ensures q * x <= q * y
  {
    if q > 0 {
      MulMonotone(q - 1, x, y);
      assert q * x == (q - 1) * x + x;
      assert q * y == (q - 1) * y + y;
    }
  }

  function LenMask(len: nat): nat
  {
    if len > 3 then 3 else len
  }

  /** The masked hash: (fnv & mask) | lenMask, as an unsigned word. */
  function HashBits(s: string, compactMask: nat): nat
  {
    Bitwise(OrOp, Bitwise(AndOp, Fnv(s), compactMask, 32), LenMask(|s|), 32)
  }

  /** The hash as the engine reads it: the 32 bits as a signed integer. */
  function StringHash(s: string, compactMask: nat): int
  {
    var h := HashBits(s, compactMask);
    if h >= Two31 then h - Two32 else h
  }

  /** A mask whose two low bits are clear clears them in the result. */
  lemma AndClearsTag(h: nat, m: nat, n: nat)
    requires m % 4 == 0
    ensures Bitwise(AndOp, h, m, n) % 4 == 0
  {
    var k := m / 4;
    var h2, m2 := h / 2, m / 2;
    assert m == 4 * k && m2 == 2 * k;
    assert m % 2 == 0 && m2 % 2 == 0;
    if n >= 2 {
      var rest := Bitwise(AndOp, h2 / 2, m2 / 2, n - 2);
      assert Bitwise(AndOp, h2, m2, n - 1) == 2 * rest;
      assert Bitwise(AndOp, h, m, n) == 4 * rest;
    } else if n == 1 {
      assert Bitwise(AndOp, h2, m2, 0) == 0;
    }
  }

  /** Or-ing a two-bit tag into a word whose low bits are clear adds it. */
  lemma OrAddsTag(x: nat, l: nat)
    requires x % 4 == 0 && x < Two32 && l < 4
    ensures Bitwise(OrOp, x, l, 32) == x + l
  {
    Pow2ThirtyTwo();
    var q := x / 4;
    var half := x / 2;
    assert x == 4 * q && half == 2 * q && x % 2 == 0 && half % 2 == 0 && half / 2 == q;
    OrZero(q, 30);
    var l1 := l / 2;
    assert l1 / 2 == 0 && l == 2 * l1 + l % 2;
    assert Bitwise(OrOp, half, l1, 31) == BitOf(OrOp, 0, l1 % 2) + 2 * q;
    assert Bitwise(OrOp, x, l, 32) == BitOf(OrOp, 0, l % 2) + 2 * Bitwise(OrOp, half, l1, 31);
  }

  /** Masking clears the low two bits, so or-ing in lenMask adds it. */
  lemma MaskThenTag(h: nat, m: nat, len: nat)
    requires ValidMask(m)
    ensures Bitwise(OrOp, Bitwise(AndOp, h, m, 32), LenMask(len), 32) == Bitwise(AndOp, h, m, 32) + LenMask(len)
  {
    AndClearsTag(h, m, 32);
    AndBelowMask(h, m, 32);
    OrAddsTag(Bitwise(AndOp, h, m, 32), LenMask(len));
  }

  /** Masking any word with a valid mask and tagging it gives a value
    * below 2^31 whose two low bits are the tag. */
  lemma TagShape(h: nat, m: nat, len: nat)
    requires ValidMask(m)
    ensures var x := Bitwise(OrOp, Bitwise(AndOp, h, m, 32), LenMask(len), 32);
      x < Two31 && x % 4 == LenMask(len)
  {
    var masked := Bitwise(AndOp, h, m, 32);
    MaskThenTag(h, m, len);
    AndBelowMask(h, m, 32);
    AndClearsTag(h, m, 32);
    TagArith(masked, m, LenMask(len));
  }

  /** The arithmetic behind TagShape: a multiple of 4 no larger than a
    * valid mask, plus a tag below 4. */
  lemma TagArith(masked: nat, m: nat, tag: nat)
    requires masked % 4 == 0 && masked <= m && ValidMask(m) && tag < 4
    ensures masked + tag < Two31 && (masked + tag) % 4 == tag
  {
    var q := masked / 4;
    assert masked == 4 * q;
    assert m == 4 * (m / 4);
    assert q < 0x2000_0000;
  }

  /** With a valid mask the hash is non-negative, below 2^31, and its two
    * low bits are min(|s|, 3). */
  lemma HashShape(s: string, compactMask: nat)
    requires ValidMask(compactMask)
    ensures 0 <= StringHash(s, compactMask) < Two31
    ensures StringHash(s, compactMask) % 4 == LenMask(|s|)
  {
    TagShape(Fnv(s), compactMask, |s|);
  }

  /** Strings whose lengths fall in different classes (0, 1, 2, or 3 and
    * more) never share a hash. */
  lemma HashSeparatesLengthClasses(s: string, t: string, compactMask: nat)
    requires ValidMask(compactMask) && LenMask(|s|) != LenMask(|t|)
    ensures StringHash(s, compactMask) != StringHash(t, compactMask)
  {
    HashShape(s, compactMask);
    HashShape(t, compactMask);
  }

  /** The hash of s under the engine's compact mask, folded byte by byte. */
  method GetstringHash(s: string, compactMask: nat) returns (r: int)
    ensures r == StringHash(s, compactMask)
  {
    var len := |s|;
    var lenMask := len;
    if lenMask > 3 {
      lenMask := 3;
    }
    var hash: nat := 2166136261;
    var i := 0;
    while i < len
      invariant 0 <= i <= len
      invariant hash == Fnv(s[..i])
    {
      assert s[..i + 1][..i] == s[..i];
      hash := Bitwise(XorOp, hash, CharBits(s[i]), 32);
      hash := (hash * 16777619) % Two32;
      i := i + 1;
    }
    assert s[..len] == s;
    hash := Bitwise(AndOp, hash, compactMask, 32);
    hash := Bitwise(OrOp, hash, lenMask, 32);
    r := if hash >= Two31 then hash - Two32 else hash;
  }
}
