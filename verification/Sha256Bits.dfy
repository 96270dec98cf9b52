/**
 What the words of SHA-256 are as numbers and what its functions do to their bits, said without the
 expressions that compute them.
 */
module Sha256Bits {
  import opened Utf8
  import opened Sha256Constants
  import opened Sha256Spec

  /** The bit at a place; places count from the least significant and wrap around at 32. */
  function Bit(x: Word, i: bv5): bv1 {
    ((x >> i) & 1) as bv1
  }

  // ---------------------------------------------------------------- the functions, bit by bit

  lemma ChosenBit(x: Word, y: Word, z: Word, i: bv5)
    ensures Bit((x & y) ^ (!x & z), i) == if Bit(x, i) == 1 then Bit(y, i) else Bit(z, i)
  {
  }

  /** `Ch` chooses: where `x` has a one the bit of `y`, else that of `z`. */
  lemma ChBit(x: Word, y: Word, z: Word, i: bv5)
    ensures Bit(Ch(x, y, z), i) == if Bit(x, i) == 1 then Bit(y, i) else Bit(z, i)
  {
    ChosenBit(x, y, z, i);
    hide Bit;
  }

  lemma MajorityBit(x: Word, y: Word, z: Word, i: bv5)
    ensures Bit((x & y) ^ (x & z) ^ (y & z), i) == if Bit(x, i) == Bit(y, i) then Bit(x, i) else Bit(z, i)
  {
  }

  /** `Maj` takes the majority. */
  lemma MajBit(x: Word, y: Word, z: Word, i: bv5)
    ensures Bit(Maj(x, y, z), i) == if Bit(x, i) == Bit(y, i) then Bit(x, i) else Bit(z, i)
  {
    MajorityBit(x, y, z, i);
    hide Bit;
  }

  lemma XorBit(x: Word, y: Word, z: Word, i: bv5)
    ensures Bit(x ^ y ^ z, i) == Bit(x, i) ^ Bit(y, i) ^ Bit(z, i)
  {
  }

  lemma Xor3Bit(x: Word, y: Word, z: Word, i: bv5)
    ensures Bit(Xor3(x, y, z), i) == Bit(x, i) ^ Bit(y, i) ^ Bit(z, i)
  {
    XorBit(x, y, z, i);
    hide Bit;
  }

  lemma Rotated2(x: Word, i: bv5)
    ensures Bit(Rotr(x, 2), i) == Bit(x, i + 2)
  {
  }

  lemma Rotated6(x: Word, i: bv5)
    ensures Bit(Rotr(x, 6), i) == Bit(x, i + 6)
  {
  }

  lemma Rotated7(x: Word, i: bv5)
    ensures Bit(Rotr(x, 7), i) == Bit(x, i + 7)
  {
  }

  lemma Rotated11(x: Word, i: bv5)
    ensures Bit(Rotr(x, 11), i) == Bit(x, i + 11)
  {
  }

  lemma Rotated13(x: Word, i: bv5)
    ensures Bit(Rotr(x, 13), i) == Bit(x, i + 13)
  {
  }

  lemma Rotated17(x: Word, i: bv5)
    ensures Bit(Rotr(x, 17), i) == Bit(x, i + 17)
  {
  }

  lemma Rotated18(x: Word, i: bv5)
    ensures Bit(Rotr(x, 18), i) == Bit(x, i + 18)
  {
  }

  lemma Rotated19(x: Word, i: bv5)
    ensures Bit(Rotr(x, 19), i) == Bit(x, i + 19)
  {
  }

  lemma Rotated22(x: Word, i: bv5)
    ensures Bit(Rotr(x, 22), i) == Bit(x, i + 22)
  {
  }

  lemma Rotated25(x: Word, i: bv5)
    ensures Bit(Rotr(x, 25), i) == Bit(x, i + 25)
  {
  }

  lemma Shifted3(x: Word, i: bv5)
    ensures Bit(Shr(x, 3), i) == if i < 29 then Bit(x, i + 3) else 0
  {
  }

  lemma Shifted10(x: Word, i: bv5)
    ensures Bit(Shr(x, 10), i) == if i < 22 then Bit(x, i + 10) else 0
  {
  }

  lemma BigSigma0Bit(x: Word, i: bv5)
    ensures Bit(BigSigma0(x), i) == Bit(x, i + 2) ^ Bit(x, i + 13) ^ Bit(x, i + 22)
  {
    hide Bit, Rotr, Shr, Xor3;
    Rotated2(x, i);
    Rotated13(x, i);
    Rotated22(x, i);
    Xor3Bit(Rotr(x, 2), Rotr(x, 13), Rotr(x, 22), i);
  }

  lemma BigSigma1Bit(x: Word, i: bv5)
    ensures Bit(BigSigma1(x), i) == Bit(x, i + 6) ^ Bit(x, i + 11) ^ Bit(x, i + 25)
  {
    hide Bit, Rotr, Shr, Xor3;
    Rotated6(x, i);
    Rotated11(x, i);
    Rotated25(x, i);
    Xor3Bit(Rotr(x, 6), Rotr(x, 11), Rotr(x, 25), i);
  }

  lemma SmallSigma0Bit(x: Word, i: bv5)
    ensures Bit(SmallSigma0(x), i) == Bit(x, i + 7) ^ Bit(x, i + 18) ^ (if i < 29 then Bit(x, i + 3) else 0)
  {
    hide Bit, Rotr, Shr, Xor3;
    Rotated7(x, i);
    Rotated18(x, i);
    Shifted3(x, i);
    Xor3Bit(Rotr(x, 7), Rotr(x, 18), Shr(x, 3), i);
  }

  lemma SmallSigma1Bit(x: Word, i: bv5)
    ensures Bit(SmallSigma1(x), i) == Bit(x, i + 17) ^ Bit(x, i + 19) ^ (if i < 22 then Bit(x, i + 10) else 0)
  {
    hide Bit, Rotr, Shr, Xor3;
    Rotated17(x, i);
    Rotated19(x, i);
    Shifted10(x, i);
    Xor3Bit(Rotr(x, 17), Rotr(x, 19), Shr(x, 10), i);
  }

  // ---------------------------------------------------------------- words as numbers

  /** The binary digit of a number at a place. */
  predicate Digit(n: nat, p: nat) {
    if p == 0 then n % 2 == 1 else Digit(n / 2, p - 1)
  }

  function Pow2(k: nat): (r: nat)
    ensures r > 0
  {
    if k == 0 then 1 else 2 * Pow2(k - 1)
  }

  /** The word whose bits are the digits of `n`. */
  ghost predicate Represents(w: Word, n: nat) {
    n < 0x1_0000_0000 && forall p :: 0 <= p < 32 ==> Agree(w, n, p)
  }

  predicate Agree(w: Word, n: nat, p: nat)
    requires p < 32
  {
    Bit(w, p as bv5) == 1 <==> Digit(n, p)
  }

  lemma {:induction false} DigitsDecide(m: nat, n: nat, k: nat)
    requires m < Pow2(k) && n < Pow2(k) && forall p :: 0 <= p < k ==> Digit(m, p) == Digit(n, p)
    ensures m == n
  {
    if k > 0 {
      assert Digit(m, 0) == Digit(n, 0);
      forall p | 0 <= p < k - 1 ensures Digit(m / 2, p) == Digit(n / 2, p) {
        assert Digit(m, p + 1) == Digit(n, p + 1);
      }
      DigitsDecide(m / 2, n / 2, k - 1);
    }
  }

  lemma PowersOfTwo()
    ensures Pow2(0) == 0x1 && Pow2(1) == 0x2 && Pow2(2) == 0x4 && Pow2(3) == 0x8
    ensures Pow2(4) == 0x10 && Pow2(5) == 0x20 && Pow2(6) == 0x40 && Pow2(7) == 0x80
    ensures Pow2(8) == 0x100 && Pow2(9) == 0x200 && Pow2(10) == 0x400 && Pow2(11) == 0x800
    ensures Pow2(12) == 0x1000 && Pow2(13) == 0x2000 && Pow2(14) == 0x4000 && Pow2(15) == 0x8000
    ensures Pow2(16) == 0x10000 && Pow2(17) == 0x20000 && Pow2(18) == 0x40000 && Pow2(19) == 0x80000
    ensures Pow2(20) == 0x100000 && Pow2(21) == 0x200000 && Pow2(22) == 0x400000 && Pow2(23) == 0x800000
    ensures Pow2(24) == 0x1000000 && Pow2(25) == 0x2000000 && Pow2(26) == 0x4000000 && Pow2(27) == 0x8000000
    ensures Pow2(28) == 0x10000000 && Pow2(29) == 0x20000000 && Pow2(30) == 0x40000000 && Pow2(31) == 0x80000000
    ensures Pow2(32) == 0x100000000
  {
    assert Pow2(4) == 0x10;
    assert Pow2(8) == 0x100;
    assert Pow2(12) == 0x1000;
    assert Pow2(16) == 0x10000;
    assert Pow2(20) == 0x100000;
    assert Pow2(24) == 0x1000000;
    assert Pow2(28) == 0x10000000;
  }

  /** A word represents one number. */
  lemma RepresentsOnce(w: Word, m: nat, n: nat)
    requires Represents(w, m) && Represents(w, n)
    ensures m == n
  {
    hide Bit, Digit;
    PowersOfTwo();
    hide Pow2;
    forall p | 0 <= p < 32 ensures Digit(m, p) == Digit(n, p) {
      assert Agree(w, m, p) && Agree(w, n, p);
    }
    DigitsDecide(m, n, 32);
  }

  lemma {:induction false} DigitOfSum(high: nat, low: nat, k: nat, p: nat)
    requires low < Pow2(k)
    ensures Digit(high * Pow2(k) + low, p) == if p < k then Digit(low, p) else Digit(high, p - k)
    decreases k
  {
    if k > 0 {
      var n := high * Pow2(k) + low;
      assert n == 2 * (high * Pow2(k - 1)) + low;
      assert n / 2 == high * Pow2(k - 1) + low / 2 && n % 2 == low % 2;
      if p > 0 { DigitOfSum(high, low / 2, k - 1, p - 1); }
    }
  }

  lemma {:induction false} DigitIs(n: nat, p: nat)
    ensures Digit(n, p) <==> (n / Pow2(p)) % 2 == 1
  {
    if p > 0 {
      DigitIs(n / 2, p - 1);
      Halves(n, Pow2(p - 1));
    }
  }

  lemma Halves(n: nat, q: nat)
    requires q > 0
    ensures n / 2 / q == n / (2 * q)
  {
    var k := n / 2 / q;
    assert k * q <= n / 2 < (k + 1) * q;
    assert k * (2 * q) <= n < (k + 1) * (2 * q);
    Quotient(n, 2 * q, k);
  }

  lemma NumberBits1(n: Number32, p: nat)
    requires 0 <= p < 4
    ensures Agree(n as bv32, n, p)
  {
    DigitIs(n, p);
    PowersOfTwo();
    hide Pow2, Digit;
    match p
    case 0 =>
    case 1 =>
    case 2 =>
    case _ =>
  }

  lemma NumberBits2(n: Number32, p: nat)
    requires 4 <= p < 8
    ensures Agree(n as bv32, n, p)
  {
    DigitIs(n, p);
    PowersOfTwo();
    hide Pow2, Digit;
    match p
    case 4 =>
    case 5 =>
    case 6 =>
    case _ =>
  }

  lemma NumberBits3(n: Number32, p: nat)
    requires 8 <= p < 12
    ensures Agree(n as bv32, n, p)
  {
    DigitIs(n, p);
    PowersOfTwo();
    hide Pow2, Digit;
    match p
    case 8 =>
    case 9 =>
    case 10 =>
    case _ =>
  }

  lemma NumberBits4(n: Number32, p: nat)
    requires 12 <= p < 16
    ensures Agree(n as bv32, n, p)
  {
    DigitIs(n, p);
    PowersOfTwo();
    hide Pow2, Digit;
    match p
    case 12 =>
    case 13 =>
    case 14 =>
    case _ =>
  }

  lemma NumberBits5(n: Number32, p: nat)
    requires 16 <= p < 20
    ensures Agree(n as bv32, n, p)
  {
    DigitIs(n, p);
    PowersOfTwo();
    hide Pow2, Digit;
    match p
    case 16 =>
    case 17 =>
    case 18 =>
    case _ =>
  }

  lemma NumberBits6(n: Number32, p: nat)
    requires 20 <= p < 24
    ensures Agree(n as bv32, n, p)
  {
    DigitIs(n, p);
    PowersOfTwo();
    hide Pow2, Digit;
    match p
    case 20 =>
    case 21 =>
    case 22 =>
    case _ =>
  }

  lemma NumberBits7(n: Number32, p: nat)
    requires 24 <= p < 28
    ensures Agree(n as bv32, n, p)
  {
    DigitIs(n, p);
    PowersOfTwo();
    hide Pow2, Digit;
    match p
    case 24 =>
    case 25 =>
    case 26 =>
    case _ =>
  }

  lemma NumberBits8(n: Number32, p: nat)
    requires 28 <= p < 32
    ensures Agree(n as bv32, n, p)
  {
    DigitIs(n, p);
    PowersOfTwo();
    hide Pow2, Digit;
    match p
    case 28 =>
    case 29 =>
    case 30 =>
    case _ =>
  }

  /** A number below 2^32, turned into a word, is that number. */
  lemma NumberIs(n: Number32)
    ensures Represents(n as bv32, n)
  {
    hide Bit, Digit;
    var w := n as bv32;
    forall p | 0 <= p < 32 ensures Agree(w, n, p) {
      if p < 4 {
        NumberBits1(n, p);
      } else if p < 8 {
        NumberBits2(n, p);
      } else if p < 12 {
        NumberBits3(n, p);
      } else if p < 16 {
        NumberBits4(n, p);
      } else if p < 20 {
        NumberBits5(n, p);
      } else if p < 24 {
        NumberBits6(n, p);
      } else if p < 28 {
        NumberBits7(n, p);
      } else {
        NumberBits8(n, p);
      }
    }
  }

  /** The round constants and the initial hash value are the numbers of the standard. */
  lemma RoundConstantIs(t: nat)
    requires t < 64
    ensures Represents(RoundConstant(t), RoundNumber(t))
  {
    hide RoundNumber, Represents;
    NumberIs(RoundNumber(t));
  }

  lemma InitialHashAt(t: nat)
    requires t < 8
    ensures InitialHash()[t] == InitialWord(t)
  {
    hide InitialWord;
  }

  lemma InitialHashIs(t: nat)
    requires t < 8
    ensures Represents(InitialHash()[t], InitialNumber(t))
  {
    hide InitialNumber, Represents, InitialHash;
    InitialHashAt(t);
    NumberIs(InitialNumber(t));
  }

  // ---------------------------------------------------------------- words and bytes

  lemma ByteIsSmall(b: Byte)
    ensures (b as bv32) < 256
  {
  }

  lemma PlaceMinus8(p: nat)
    requires p < 32
    ensures if p < 8 then (p as bv5) < 8 else (p as bv5) >= 8 && (p - 8) as bv5 == (p as bv5) - 8
  {
  }

  lemma JoinedBit(x: Word, y: Word, i: bv5)
    requires x < 0x100_0000 && y < 256
    ensures Bit((x << 8) | y, i) == if i < 8 then Bit(y, i) else Bit(x, i - 8)
  {
  }

  /** A byte behind a number that leaves room for it. */
  lemma AppendByte(x: Word, n: nat, b: Byte)
    requires x < 0x100_0000 && n < 0x100_0000 && Represents(x, n)
    ensures Represents((x << 8) | (b as bv32), Behind(n, b))
  {
    var y := b as bv32;
    ByteIsSmall(b);
    NumberIs(b);
    PowersOfTwo();
    hide Pow2;
    var w, v := (x << 8) | y, Behind(n, b);
    forall p | 0 <= p < 32 ensures Agree(w, v, p) {
      AppendedBit(x, n, b, y, p);
    }
  }

  lemma AppendedBit(x: Word, n: nat, b: Byte, y: Word, p: nat)
    requires x < 0x100_0000 && y < 256 && p < 32 && Represents(x, n) && Represents(y, b) && b < Pow2(8) == 256
    ensures Agree((x << 8) | y, Behind(n, b), p)
  {
    hide Bit, Digit, Pow2;
    PlaceMinus8(p);
    JoinedBit(x, y, p as bv5);
    DigitOfSum(n, b, 8, p);
    if p < 8 {
      assert Agree(y, b, p);
    } else {
      assert Agree(x, n, p - 8);
    }
  }

  function Behind(n: nat, b: Byte): nat {
    n * 256 + b
  }

  /** Four bytes as one number, the first the most significant. */
  function FourBytes(b: seq<Byte>): nat
    requires |b| == 4
  {
    Behind(Behind(Behind(b[0], b[1]), b[2]), b[3])
  }

  lemma Nested(x: Word, y: Word, z: Word, u: Word)
    requires x < 256 && y < 256 && z < 256 && u < 256
    ensures (x << 24) | (y << 16) | (z << 8) | u == (((((x << 8) | y) << 8) | z) << 8) | u
    ensures (x << 8) | y < 0x1_0000 && (((x << 8) | y) << 8) | z < 0x100_0000
  {
  }

  /** A word of the block is the number its four bytes write. */
  lemma WordAtIs(block: seq<Byte>, i: nat)
    requires 4 * i + 3 < |block|
    ensures Represents(WordAt(block, i), FourBytes(block[4 * i..4 * i + 4]))
  {
    var b0, b1, b2, b3 := block[4 * i], block[4 * i + 1], block[4 * i + 2], block[4 * i + 3];
    ByteIsSmall(b0);
    ByteIsSmall(b1);
    ByteIsSmall(b2);
    ByteIsSmall(b3);
    Nested(b0 as bv32, b1 as bv32, b2 as bv32, b3 as bv32);
    NumberIs(b0);
    hide Represents;
    var x := ((b0 as bv32) << 8) | (b1 as bv32);
    AppendByte(b0 as bv32, b0, b1);
    AppendByte(x, Behind(b0, b1), b2);
    AppendByte((x << 8) | (b2 as bv32), Behind(Behind(b0, b1), b2), b3);
  }

  lemma LowByteIs(w: Word)
    ensures (LowByte(w) as bv32) == w & 0xFF
  {
    assert (LowByte(w) as bv8) == (w & 0xFF) as bv8;
    AsByte(LowByte(w));
  }

  lemma AsByte(b: Byte)
    ensures (b as bv8) as bv32 == b as bv32
  {
  }

  lemma Reassembled(w: Word)
    ensures (((w >> 24) & 0xFF) << 24) | (((w >> 16) & 0xFF) << 16) | (((w >> 8) & 0xFF) << 8) | (w & 0xFF) == w
  {
  }

  /** The bytes written for a word make up that word again. */
  lemma WordBytesMakeWord(w: Word)
    ensures WordAt(WordBytes(w), 0) == w
  {
    LowByteIs(w >> 24);
    LowByteIs(w >> 16);
    LowByteIs(w >> 8);
    LowByteIs(w);
    hide LowByte;
    Reassembled(w);
  }

  /** So they write the number the word represents. */
  lemma WordBytesAre(w: Word, n: nat)
    requires Represents(w, n)
    ensures FourBytes(WordBytes(w)) == n
  {
    hide WordBytes, WordAt, Represents, FourBytes;
    WordBytesMakeWord(w);
    WordAtIs(WordBytes(w), 0);
    assert WordBytes(w)[4 * 0..4 * 0 + 4] == WordBytes(w);
    RepresentsOnce(w, n, FourBytes(WordBytes(w)));
  }

  /** Different bytes write different numbers, so reading a word and writing it changes nothing. */
  lemma WordRoundTrip(block: seq<Byte>, i: nat)
    requires 4 * i + 3 < |block|
    ensures WordBytes(WordAt(block, i)) == block[4 * i..4 * i + 4]
  {
    hide WordBytes, WordAt, Represents;
    WordAtIs(block, i);
    WordBytesAre(WordAt(block, i), FourBytes(block[4 * i..4 * i + 4]));
    FourBytesDecide(WordBytes(WordAt(block, i)), block[4 * i..4 * i + 4]);
  }

  /** Every word represents a number. */
  lemma NumberOfWord(w: Word) returns (n: nat)
    ensures Represents(w, n)
  {
    hide WordBytes, WordAt, Represents;
    WordBytesMakeWord(w);
    WordAtIs(WordBytes(w), 0);
    n := FourBytes(WordBytes(w)[4 * 0..4 * 0 + 4]);
  }

  /** And no two words the same one. */
  lemma SameNumber(x: Word, y: Word, n: nat)
    requires Represents(x, n) && Represents(y, n)
    ensures x == y
  {
    hide WordBytes, WordAt, Represents, FourBytes;
    WordBytesAre(x, n);
    WordBytesAre(y, n);
    FourBytesDecide(WordBytes(x), WordBytes(y));
    WordBytesMakeWord(x);
    WordBytesMakeWord(y);
  }

  lemma FourBytesDecide(a: seq<Byte>, b: seq<Byte>)
    requires |a| == 4 && |b| == 4 && FourBytes(a) == FourBytes(b)
    ensures a == b
  {
    hide Behind;
    var x, y := Behind(Behind(a[0], a[1]), a[2]), Behind(Behind(b[0], b[1]), b[2]);
    BehindDecides(x, a[3], y, b[3]);
    BehindDecides(Behind(a[0], a[1]), a[2], Behind(b[0], b[1]), b[2]);
    BehindDecides(a[0], a[1], b[0], b[1]);
  }

  lemma BehindDecides(m: nat, a: Byte, n: nat, b: Byte)
    requires Behind(m, a) == Behind(n, b)
    ensures m == n && a == b
  {
  }

  // ---------------------------------------------------------------- addition

  /** Adding with a carry into the lowest place. */
  lemma {:induction false} SumDigit(m: nat, n: nat, c: nat, p: nat)
    requires c < 2
    ensures Digit(m + n + c, p) <==> (Digit(m, p) != (Digit(n, p) != CarryFrom(m, n, c, p)))
  {
    if p > 0 {
      var d := if m % 2 + n % 2 + c >= 2 then 1 else 0;
      assert (m + n + c) / 2 == m / 2 + n / 2 + d;
      SumDigit(m / 2, n / 2, d, p - 1);
    }
  }

  /** The carry into a place when there is one into the lowest already. */
  predicate CarryFrom(m: nat, n: nat, c: nat, p: nat) {
    if p == 0 then c == 1
    else CarryFrom(m / 2, n / 2, if m % 2 + n % 2 + c >= 2 then 1 else 0, p - 1)
  }

  lemma {:induction false} CarryGoesOn(m: nat, n: nat, c: nat, p: nat)
    requires c < 2
    ensures CarryFrom(m, n, c, p + 1) == if Digit(m, p) == Digit(n, p) then Digit(m, p) else CarryFrom(m, n, c, p)
  {
    if p > 0 {
      CarryGoesOn(m / 2, n / 2, if m % 2 + n % 2 + c >= 2 then 1 else 0, p - 1);
    }
  }

  /** The carries of an addition, each at the place it goes into. */
  function Carries(x: Word, y: Word): Word {
    x ^ y ^ (x + y)
  }

  lemma CarryBit(x: Word, y: Word, i: bv5)
    requires i < 31
    ensures Bit(x ^ y ^ (x + y), i + 1) == if Bit(x, i) == Bit(y, i) then Bit(x, i) else Bit(x ^ y ^ (x + y), i)
  {
  }

  lemma CarryStep(x: Word, y: Word, i: bv5)
    requires i < 31
    ensures Bit(Carries(x, y), i + 1) == if Bit(x, i) == Bit(y, i) then Bit(x, i) else Bit(Carries(x, y), i)
  {
    CarryBit(x, y, i);
    hide Bit;
  }

  lemma NoCarryYet(x: Word, y: Word)
    ensures Bit(Carries(x, y), 0) == 0
  {
  }

  lemma PlusBit(x: Word, y: Word, i: bv5)
    ensures Bit(x + y, i) == Bit(x, i) ^ Bit(y, i) ^ Bit(x ^ y ^ (x + y), i)
  {
  }

  lemma SumBit(x: Word, y: Word, i: bv5)
    ensures Bit(Add(x, y), i) == Bit(x, i) ^ Bit(y, i) ^ Bit(Carries(x, y), i)
  {
    PlusBit(x, y, i);
    hide Bit;
  }

  lemma NextPlace(p: nat)
    requires p < 31
    ensures (p + 1) as bv5 == (p as bv5) + 1 && (p as bv5) < 31
  {
  }

  lemma {:induction false} CarriesAgree(x: Word, y: Word, m: nat, n: nat, p: nat)
    requires Represents(x, m) && Represents(y, n) && p < 32
    ensures Bit(Carries(x, y), p as bv5) == 1 <==> CarryFrom(m, n, 0, p)
  {
    hide Bit, Digit, Carries;
    if p == 0 {
      NoCarryYet(x, y);
    } else {
      CarriesAgree(x, y, m, n, p - 1);
      assert Agree(x, m, p - 1) && Agree(y, n, p - 1);
      CarryGoesOn(m, n, 0, p - 1);
      hide CarryFrom, Represents;
      NextPlace(p - 1);
      CarryStep(x, y, (p - 1) as bv5);
    }
  }

  /** `Add` is addition modulo 2^32. */
  lemma AddIs(x: Word, y: Word, m: nat, n: nat)
    requires Represents(x, m) && Represents(y, n)
    ensures Represents(Add(x, y), (m + n) % 0x1_0000_0000)
  {
    hide Bit, Digit, Carries, Add, Agree;
    var w, v := Add(x, y), (m + n) % 0x1_0000_0000;
    forall p | 0 <= p < 32 ensures Agree(w, v, p) {
      AddAgrees(x, y, m, n, p);
    }
  }

  lemma AddAgrees(x: Word, y: Word, m: nat, n: nat, p: nat)
    requires Represents(x, m) && Represents(y, n) && p < 32
    ensures Agree(Add(x, y), (m + n) % 0x1_0000_0000, p)
  {
    hide Bit, Digit, Carries, Add, CarryFrom;
    CarriesAgree(x, y, m, n, p);
    assert Agree(x, m, p) && Agree(y, n, p);
    hide Represents;
    SumBit(x, y, p as bv5);
    SumDigit(m, n, 0, p);
    LowDigits(m + n, p);
  }

  lemma LowDigits(n: nat, p: nat)
    requires p < 32
    ensures Digit(n % 0x1_0000_0000, p) == Digit(n, p)
  {
    PowersOfTwo();
    hide Pow2;
    DigitOfSum(n / 0x1_0000_0000, n % 0x1_0000_0000, 32, p);
  }

  lemma Sum4Is(x: Word, y: Word, z: Word, u: Word, a: nat, b: nat, c: nat, d: nat)
    requires Represents(x, a) && Represents(y, b) && Represents(z, c) && Represents(u, d)
    ensures Represents(Sum4(x, y, z, u), (a + b + c + d) % 0x1_0000_0000)
  {
    hide Represents, Add;
    AddIs(x, y, a, b);
    AddIs(Add(x, y), z, (a + b) % 0x1_0000_0000, c);
    AddIs(Add(Add(x, y), z), u, (a + b + c) % 0x1_0000_0000, d);
  }

  // ---------------------------------------------------------------- the length field

  /** A number written in bytes, the most significant first. */
  function NumberOf(bytes: seq<Byte>): nat {
    if bytes == [] then 0 else Behind(NumberOf(bytes[..|bytes| - 1]), bytes[|bytes| - 1])
  }

  /** The length field holds the number it is made from. */
  lemma {:induction false} BigEndianIs(value: nat, n: nat)
    requires value < Pow256(n)
    ensures NumberOf(BigEndian(value, n)) == value
  {
    if n > 0 {
      var bytes, front := BigEndian(value, n), BigEndian(value / 256, n - 1);
      forall i | 0 <= i < n - 1 ensures bytes[i] == front[i] {
        assert bytes[i] == ByteAt(value / 256, n - 2 - i);
      }
      assert bytes[..n - 1] == front && bytes[n - 1] == value % 256;
      BigEndianIs(value / 256, n - 1);
    }
  }
}
