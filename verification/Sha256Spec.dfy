/** SHA-256 as FIPS 180-4 defines it: padding (5.1.1), constants (4.2.2, 5.3.3), hash computation (6.2.2). */
module Sha256Spec {
  import opened Utf8
  import opened Sha256Constants

  type Word = bv32

  function InitialWord(t: nat): Word
    requires t < 8
  {
    InitialNumber(t) as Word
  }

  function InitialHash(): (r: seq<Word>)
    ensures |r| == 8
  {
    [InitialWord(0), InitialWord(1), InitialWord(2), InitialWord(3),
     InitialWord(4), InitialWord(5), InitialWord(6), InitialWord(7)]
  }

  function RoundConstant(t: nat): Word
    requires t < 64
  {
    RoundNumber(t) as Word
  }

  function Rotr(x: Word, n: nat): Word
    requires n < 32
  {
    x.RotateRight(n)
  }

  function Shr(x: Word, n: nat): Word
    requires n < 32
  {
    x >> n
  }

  function Xor3(x: Word, y: Word, z: Word): Word {
    x ^ y ^ z
  }

  /** Addition modulo 2^32. */
  function Add(x: Word, y: Word): Word {
    x + y
  }

  function Sum4(x: Word, y: Word, z: Word, u: Word): Word {
    Add(Add(Add(x, y), z), u)
  }

  function Ch(x: Word, y: Word, z: Word): Word {
    (x & y) ^ (!x & z)
  }

  function Maj(x: Word, y: Word, z: Word): Word {
    Xor3(x & y, x & z, y & z)
  }

  function BigSigma0(x: Word): Word {
    Xor3(Rotr(x, 2), Rotr(x, 13), Rotr(x, 22))
  }

  function BigSigma1(x: Word): Word {
    Xor3(Rotr(x, 6), Rotr(x, 11), Rotr(x, 25))
  }

  function SmallSigma0(x: Word): Word {
    Xor3(Rotr(x, 7), Rotr(x, 18), Shr(x, 3))
  }

  function SmallSigma1(x: Word): Word {
    Xor3(Rotr(x, 17), Rotr(x, 19), Shr(x, 10))
  }

  /** Four bytes, the most significant first. */
  function WordAt(block: seq<Byte>, i: nat): Word
    requires 4 * i + 3 < |block|
  {
    ((block[4 * i] as bv32) << 24) | ((block[4 * i + 1] as bv32) << 16) | ((block[4 * i + 2] as bv32) << 8)
    | (block[4 * i + 3] as bv32)
  }

  /** The message schedule. */
  function Schedule(block: seq<Byte>, t: nat): Word
    requires |block| == 64
  {
    if t < 16 then WordAt(block, t)
    else
      Sum4(SmallSigma1(Schedule(block, t - 2)), Schedule(block, t - 7), SmallSigma0(Schedule(block, t - 15)),
           Schedule(block, t - 16))
  }

  /** The eight working variables. */
  datatype Vars = Vars(a: Word, b: Word, c: Word, d: Word, e: Word, f: Word, g: Word, h: Word)

  function Round(v: Vars, k: Word, w: Word): Vars {
    var t1 := Add(Sum4(v.h, BigSigma1(v.e), Ch(v.e, v.f, v.g), k), w);
    var t2 := Add(BigSigma0(v.a), Maj(v.a, v.b, v.c));
    Vars(Add(t1, t2), v.a, v.b, v.c, Add(v.d, t1), v.e, v.f, v.g)
  }

  function Rounds(v: Vars, block: seq<Byte>, t: nat): Vars
    requires |block| == 64 && t <= 64
  {
    if t == 0 then v else Round(Rounds(v, block, t - 1), RoundConstant(t - 1), Schedule(block, t - 1))
  }

  function VarsOf(h: seq<Word>): Vars
    requires |h| == 8
  {
    Vars(h[0], h[1], h[2], h[3], h[4], h[5], h[6], h[7])
  }

  function Sums(h: seq<Word>, v: Vars): (r: seq<Word>)
    requires |h| == 8
    ensures |r| == 8
  {
    var w := [v.a, v.b, v.c, v.d, v.e, v.f, v.g, v.h];
    seq(8, i requires 0 <= i < 8 => Add(h[i], w[i]))
  }

  function Compress(h: seq<Word>, block: seq<Byte>): (r: seq<Word>)
    requires |h| == 8 && |block| == 64
    ensures |r| == 8
  {
    Sums(h, Rounds(VarsOf(h), block, 64))
  }

  /** The hash value after the blocks of `m`, one after the other. */
  function HashBlocks(m: seq<Byte>): (r: seq<Word>)
    requires |m| % 64 == 0
    ensures |r| == 8
  {
    if m == [] then InitialHash()
    else Compress(HashBlocks(m[..|m| - 64]), m[|m| - 64..])
  }

  function Zeros(n: nat): (r: seq<Byte>)
    ensures |r| == n && forall i :: 0 <= i < n ==> r[i] == 0
  {
    if n == 0 then [] else Zeros(n - 1) + [0]
  }

  function Pow256(n: nat): nat {
    if n == 0 then 1 else 256 * Pow256(n - 1)
  }

  /** The byte of `value` at this place, counted from the least significant. */
  function ByteAt(value: nat, place: nat): Byte {
    if place == 0 then value % 256 else ByteAt(value / 256, place - 1)
  }

  /** The lowest `n` bytes of a number, the most significant first. */
  function BigEndian(value: nat, n: nat): (r: seq<Byte>)
    ensures |r| == n && forall i :: 0 <= i < n ==> r[i] == ByteAt(value, n - 1 - i)
  {
    if n == 0 then [] else [ByteAt(value, n - 1)] + BigEndian(value, n - 1)
  }

  /** The number of zero bytes between the final 0x80 and the length. */
  function PadZeros(length: nat): (k: nat)
    ensures (length + 1 + k) % 64 == 56 && k < 64
  {
    (119 - length % 64) % 64
  }

  const TWO64: nat := 0x1_0000_0000_0000_0000

  /** The length in bits, in the 64 bits there are for it. */
  function BitLength(length: nat): nat {
    8 * length % TWO64
  }

  lemma WholeBlocks(n: nat)
    requires n % 64 == 56
    ensures (n + 8) % 64 == 0
  {
  }

  function Pad(m: seq<Byte>): (r: seq<Byte>)
    ensures |r| % 64 == 0
  {
    var r := m + [0x80] + Zeros(PadZeros(|m|)) + BigEndian(BitLength(|m|), 8);
    WholeBlocks(|m| + 1 + PadZeros(|m|));
    assert |r| == |m| + 1 + PadZeros(|m|) + 8;
    r
  }

  lemma {:induction false} BigEndianIsInjective(v: nat, w: nat, n: nat)
    requires v < Pow256(n) && w < Pow256(n) && BigEndian(v, n) == BigEndian(w, n)
    ensures v == w
  {
    if n > 0 {
      var a, b := BigEndian(v, n), BigEndian(w, n);
      assert a[n - 1] == v % 256 && b[n - 1] == w % 256;
      var c, d := BigEndian(v / 256, n - 1), BigEndian(w / 256, n - 1);
      forall i | 0 <= i < n - 1 ensures c[i] == d[i] {
        assert a[i] == ByteAt(v / 256, n - 2 - i) && b[i] == ByteAt(w / 256, n - 2 - i);
      }
      BigEndianIsInjective(v / 256, w / 256, n - 1);
    }
  }

  lemma EightBytes()
    ensures Pow256(8) == TWO64
  {
    assert Pow256(2) == 65536;
    assert Pow256(4) == 65536 * 65536;
    assert Pow256(6) == 65536 * 65536 * 65536;
  }

  const TWO61: nat := 0x2000_0000_0000_0000

  /** The length field holds the length exactly for the messages the standard allows. */
  lemma LengthFieldIsExactIff(length: nat)
    ensures BitLength(length) == 8 * length <==> length < TWO61
  {
  }

  /** Different messages never look alike once they are padded. */
  lemma PaddingIsUnambiguous(m: seq<Byte>, n: seq<Byte>)
    requires |m| < TWO61 && |n| < TWO61 && Pad(m) == Pad(n)
    ensures m == n
  {
    var p := Pad(m);
    assert p[|p| - 8..] == BigEndian(BitLength(|m|), 8) == BigEndian(BitLength(|n|), 8);
    LengthFieldIsExactIff(|m|);
    LengthFieldIsExactIff(|n|);
    EightBytes();
    BigEndianIsInjective(8 * |m|, 8 * |n|, 8);
    assert p[..|m|] == m && p[..|n|] == n;
  }

  function LowByte(w: Word): Byte {
    (w & 0xFF) as bv8 as int
  }

  function WordBytes(w: Word): (r: seq<Byte>)
    ensures |r| == 4
  {
    [LowByte(w >> 24), LowByte(w >> 16), LowByte(w >> 8), LowByte(w)]
  }

  function DigestBytes(h: seq<Word>): (r: seq<Byte>)
    ensures |r| == 4 * |h|
  {
    if h == [] then [] else DigestBytes(h[..|h| - 1]) + WordBytes(h[|h| - 1])
  }

  function Hash(m: seq<Byte>): (r: seq<Byte>)
    ensures |r| == 32
  {
    DigestBytes(HashBlocks(Pad(m)))
  }
}
