/**
 The streaming SHA-256 object: a block that fills up, a running hash value and a count. However a
 message is cut into updates, finishing gives the hash of the whole, and leaves the object as it was.
 */
module Sha256 {
  import opened Utf8
  import opened Sha256Spec
  import opened Sha256Bits

  /** A hash value and a partly filled block that together stand for the message `m`. */
  ghost predicate StandsFor(digest: seq<Word>, partial: seq<Byte>, m: seq<Byte>) {
    && |partial| < 64 && |partial| <= |m| && (|m| - |partial|) % 64 == 0
    && partial == m[|m| - |partial|..]
    && digest == HashBlocks(m[..|m| - |partial|])
  }

  lemma Absorb(digest: seq<Word>, partial: seq<Byte>, m: seq<Byte>, x: seq<Byte>)
    requires StandsFor(digest, partial, m) && |partial| + |x| < 64
    ensures StandsFor(digest, partial + x, m + x)
  {
    hide HashBlocks;
    var n := |m| - |partial|;
    assert (m + x)[..n] == m[..n] && (m + x)[n..] == m[n..] + x;
  }

  lemma AbsorbBlock(digest: seq<Word>, partial: seq<Byte>, m: seq<Byte>, x: seq<Byte>)
    requires StandsFor(digest, partial, m) && |partial| + |x| == 64
    ensures |digest| == 8 && StandsFor(Compress(digest, partial + x), [], m + x)
  {
    hide Compress, InitialHash;
    var n := |m| - |partial|;
    assert (m + x)[..n] == m[..n] && (m + x)[n..] == partial + x;
    assert |m + x| == n + 64;
    assert (m + x)[..|m + x|] == m + x;
  }

  /** The room left in the last block decides how many blocks the padding makes. */
  lemma PaddedTail(m: seq<Byte>, used: nat)
    requires used < 64 && used <= |m| && (|m| - used) % 64 == 0
    ensures PadZeros(|m|) == if used < 56 then 55 - used else 119 - used
  {
    assert |m| % 64 == used;
  }

  lemma FinishInOne(digest: seq<Word>, partial: seq<Byte>, m: seq<Byte>)
    requires StandsFor(digest, partial, m) && |partial| < 56
    ensures |digest| == 8
    ensures var last := partial + [0x80] + Zeros(55 - |partial|) + BigEndian(BitLength(|m|), 8);
            |last| == 64 && HashBlocks(Pad(m)) == Compress(digest, last)
  {
    hide Compress, HashBlocks;
    PaddedTail(m, |partial|);
    var x := [0x80] + Zeros(55 - |partial|) + BigEndian(BitLength(|m|), 8);
    AbsorbBlock(digest, partial, m, x);
    assert Pad(m) == m + x && (m + x)[..|m + x|] == m + x;
    assert partial + x == partial + [0x80] + Zeros(55 - |partial|) + BigEndian(BitLength(|m|), 8);
  }

  lemma ZerosAdd(a: nat, b: nat)
    ensures Zeros(a) + Zeros(b) == Zeros(a + b)
  {
  }

  lemma FinishInTwo(digest: seq<Word>, partial: seq<Byte>, m: seq<Byte>)
    requires StandsFor(digest, partial, m) && |partial| >= 56
    ensures |digest| == 8
    ensures var first := partial + [0x80] + Zeros(63 - |partial|);
            var last := Zeros(56) + BigEndian(BitLength(|m|), 8);
            |first| == |last| == 64 && HashBlocks(Pad(m)) == Compress(Compress(digest, first), last)
  {
    hide Compress, StandsFor, HashBlocks, Zeros, BigEndian, BitLength, Pad;
    PartialBlock(digest, partial, m);
    PadsInTwo(m, |partial|);
    Associates(partial, [0x80], Zeros(63 - |partial|));
    AbsorbTwoBlocks(digest, partial, m, [0x80] + Zeros(63 - |partial|), Zeros(56) + BigEndian(BitLength(|m|), 8));
  }

  lemma Associates(a: seq<Byte>, b: seq<Byte>, c: seq<Byte>)
    ensures a + (b + c) == a + b + c
  {
  }

  lemma PartialBlock(digest: seq<Word>, partial: seq<Byte>, m: seq<Byte>)
    requires StandsFor(digest, partial, m)
    ensures |partial| < 64 && |partial| <= |m| && (|m| - |partial|) % 64 == 0 && |digest| == 8
  {
    hide HashBlocks;
  }

  lemma AbsorbTwoBlocks(digest: seq<Word>, partial: seq<Byte>, m: seq<Byte>, x: seq<Byte>, y: seq<Byte>)
    requires StandsFor(digest, partial, m) && |partial| + |x| == |y| == 64
    ensures |digest| == 8
    ensures |m + x + y| % 64 == 0 && HashBlocks(m + x + y) == Compress(Compress(digest, partial + x), y)
  {
    hide Compress, HashBlocks;
    AbsorbBlock(digest, partial, m, x);
    AbsorbBlock(Compress(digest, partial + x), [], m + x, y);
    assert [] + y == y;
    WholeMessage(Compress(Compress(digest, partial + x), y), m + x + y);
  }

  lemma PadsInTwo(m: seq<Byte>, used: nat)
    requires 56 <= used < 64 && used <= |m| && (|m| - used) % 64 == 0
    ensures Pad(m) == m + ([0x80] + Zeros(63 - used)) + (Zeros(56) + BigEndian(BitLength(|m|), 8))
  {
    PaddedTail(m, used);
    PadUnfold(m);
    hide Pad, PadZeros, BigEndian, BitLength;
    ZerosAdd(63 - used, 56);
    hide Zeros;
    Regrouped(m, [0x80], Zeros(63 - used), Zeros(56), BigEndian(BitLength(|m|), 8));
  }

  lemma PadUnfold(m: seq<Byte>)
    ensures Pad(m) == m + [0x80] + Zeros(PadZeros(|m|)) + BigEndian(BitLength(|m|), 8)
  {
  }

  lemma Regrouped(a: seq<Byte>, b: seq<Byte>, c: seq<Byte>, d: seq<Byte>, e: seq<Byte>)
    ensures a + b + (c + d) + e == a + (b + c) + (d + e)
  {
  }

  /** Nothing is left over. */
  lemma WholeMessage(digest: seq<Word>, m: seq<Byte>)
    requires StandsFor(digest, [], m)
    ensures digest == HashBlocks(m)
  {
    hide HashBlocks;
    assert m[..|m|] == m;
  }

  class Sha256 {
    const digest: array<Word>
    const block: array<Byte>
    var blockSize: nat
    var totalSize: nat
    ghost var message: seq<Byte>

    ghost predicate Valid()
      reads this, digest, block
    {
      && digest.Length == 8 && block.Length == 64 && blockSize < 64
      && totalSize == |message| < TWO64
      && StandsFor(digest[..], block[..blockSize], message)
    }

    constructor ()
      ensures Valid() && message == [] && fresh(digest) && fresh(block)
    {
      hide InitialWord;
      digest := new Word[8](i requires 0 <= i < 8 => InitialWord(i));
      block := new Byte[64](_ => 0);
      blockSize, totalSize, message := 0, 0, [];
      new;
      assert digest[..] == InitialHash();
    }

    /** A copy of `other`. */
    constructor Copy(other: Sha256)
      requires other.Valid()
      ensures Valid() && message == other.message && fresh(digest) && fresh(block)
      ensures blockSize == other.blockSize && totalSize == other.totalSize
    {
      hide HashBlocks;
      var d, b := other.digest[..], other.block[..];
      digest := new Word[8](i requires 0 <= i < 8 => d[i]);
      block := new Byte[64](i requires 0 <= i < 64 => b[i]);
      blockSize, totalSize, message := other.blockSize, other.totalSize, other.message;
      new;
      assert digest[..] == d && block[..] == b;
      assert block[..blockSize] == other.block[..other.blockSize];
    }

    /** The first half of `transform`: the sixty-four words of the block. */
    method ExpandBlock() returns (words: array<Word>)
      requires block.Length == 64
      ensures fresh(words) && words.Length == 64
      ensures forall k :: 0 <= k < 64 ==> words[k] == Schedule(block[..], k)
    {
      hide SmallSigma0, SmallSigma1, WordAt, Sum4;
      words := new Word[64](_ => 0);
      for index := 0 to 16
        invariant forall k :: 0 <= k < index ==> words[k] == Schedule(block[..], k)
      {
        words[index] := WordAt(block[..], index);
      }
      for index := 16 to 64
        invariant forall k :: 0 <= k < index ==> words[k] == Schedule(block[..], k)
      {
        var first := words[index - 15];
        var second := words[index - 2];
        words[index] := Sum4(words[index - 16], SmallSigma0(first), words[index - 7], SmallSigma1(second));
        ScheduleStep(block[..], index);
      }
    }

    /** The second half: sixty-four rounds on the working variables. */
    method RunRounds(words: array<Word>) returns (v: Vars)
      requires digest.Length == 8 && block.Length == 64 && words.Length == 64
      requires forall k :: 0 <= k < 64 ==> words[k] == Schedule(block[..], k)
      ensures v == Rounds(VarsOf(digest[..]), block[..], 64)
    {
      hide BigSigma0, BigSigma1, Ch, Maj, RoundConstant, Schedule, Add, Sum4;
      ghost var start := VarsOf(digest[..]);
      var a, b, c, d := digest[0], digest[1], digest[2], digest[3];
      var e, f, g, h := digest[4], digest[5], digest[6], digest[7];
      for index := 0 to 64
        invariant Vars(a, b, c, d, e, f, g, h) == Rounds(start, block[..], index)
      {
        var temporary1 := Add(Sum4(h, BigSigma1(e), Ch(e, f, g), RoundConstant(index)), words[index]);
        var temporary2 := Add(BigSigma0(a), Maj(a, b, c));
        h := g;
        g := f;
        f := e;
        e := Add(d, temporary1);
        d := c;
        c := b;
        b := a;
        a := Add(temporary1, temporary2);
      }
      return Vars(a, b, c, d, e, f, g, h);
    }

    method Transform()
      requires digest.Length == 8 && block.Length == 64
      modifies digest
      ensures digest[..] == Compress(old(digest[..]), block[..])
    {
      hide Rounds, Schedule, Add;
      var words := ExpandBlock();
      var v := RunRounds(words);
      AddToDigest(v);
    }

    method AddToDigest(v: Vars)
      requires digest.Length == 8
      modifies digest
      ensures digest[..] == Sums(old(digest[..]), v)
    {
      hide Add;
      var w := [v.a, v.b, v.c, v.d, v.e, v.f, v.g, v.h];
      forall i | 0 <= i < 8 {
        digest[i] := Add(digest[i], w[i]);
      }
    }

    /** Copies `x` into the block, and hashes the block once it is full. */
    method TakeIn(x: seq<Byte>, ghost m: seq<Byte>)
      requires digest.Length == 8 && block.Length == 64 && blockSize + |x| <= 64 && blockSize < 64
      requires StandsFor(digest[..], block[..blockSize], m)
      modifies this`blockSize, digest, block
      ensures blockSize < 64 && StandsFor(digest[..], block[..blockSize], m + x)
    {
      hide StandsFor, Compress;
      ghost var d, partial := digest[..], block[..blockSize];
      forall k | 0 <= k < |x| {
        block[blockSize + k] := x[k];
      }
      blockSize := blockSize + |x|;
      assert block[..blockSize] == partial + x;
      if blockSize == 64 {
        assert block[..] == block[..blockSize] && digest[..] == d;
        AbsorbBlock(d, partial, m, x);
        Transform();
        blockSize := 0;
        assert block[..0] == [];
      } else {
        Absorb(d, partial, m, x);
        assert digest[..] == d;
      }
    }

    /** Takes in `bytes`, unless the count would not fit 64 bits. */
    method Update(bytes: seq<Byte>) returns (ok: bool)
      requires Valid()
      modifies this, digest, block
      ensures Valid()
      ensures ok <==> |old(message)| + |bytes| < TWO64
      ensures message == if ok then old(message) + bytes else old(message)
    {
      hide StandsFor, HashBlocks;
      if |bytes| > TWO64 - 1 - totalSize { return false; }
      totalSize := totalSize + |bytes|;
      var rest := bytes;
      ghost var taken: seq<Byte> := [];
      assert message + [] == message;
      while rest != []
        invariant digest.Length == 8 && block.Length == 64 && blockSize < 64
        invariant taken + rest == bytes
        invariant StandsFor(digest[..], block[..blockSize], message + taken)
        invariant totalSize == |message| + |bytes| && message == old(message)
        decreases |rest|
      {
        var copied := if |rest| < 64 - blockSize then |rest| else 64 - blockSize;
        TakeIn(rest[..copied], message + taken);
        assert message + taken + rest[..copied] == message + (taken + rest[..copied]);
        taken := taken + rest[..copied];
        rest := rest[copied..];
      }
      assert taken == bytes;
      message := message + bytes;
      return true;
    }

    /** The hash of everything taken in so far; the object stays as it is. */
    method Finish() returns (output: seq<Byte>)
      requires Valid()
      ensures output == Hash(message)
    {
      hide StandsFor, DigestBytes, HashBlocks, Pad;
      var final := new Sha256.Copy(this);
      final.PadAndTransform();
      output := final.Output();
    }

    /** The digest, each word most significant byte first. */
    method Output() returns (output: seq<Byte>)
      requires digest.Length == 8
      ensures output == DigestBytes(digest[..])
    {
      hide WordBytes;
      output := [];
      for i := 0 to 8
        invariant output == DigestBytes(digest[..i])
      {
        assert digest[..i + 1][..i] == digest[..i];
        output := output + WordBytes(digest[i]);
      }
      assert digest[..8] == digest[..];
    }

    method PadAndTransform()
      requires Valid()
      modifies this, digest, block
      ensures digest[..] == HashBlocks(Pad(message)) && message == old(message)
    {
      hide StandsFor, Compress, HashBlocks, Pad, Zeros, BigEndian;
      ghost var d, partial := digest[..], block[..blockSize];
      var bitLength := totalSize * 8 % TWO64;
      block[blockSize] := 0x80;
      blockSize := blockSize + 1;
      assert block[..blockSize] == partial + [0x80];
      if blockSize > 56 {
        FinishInTwo(d, partial, message);
        FillZeros(blockSize, 64);
        assert block[..64] == block[..] && digest[..] == d;
        Transform();
        blockSize := 0;
        assert block[..0] == [];
        FinishBlock(bitLength);
        assert [] + Zeros(56) == Zeros(56);
      } else {
        FinishInOne(d, partial, message);
        assert digest[..] == d;
        FinishBlock(bitLength);
      }
    }

    /** Zeros up to the last eight bytes, the length, and the block is hashed. */
    method FinishBlock(bitLength: nat)
      requires digest.Length == 8 && block.Length == 64 && blockSize <= 56
      modifies digest, block
      ensures var last := old(block[..blockSize]) + Zeros(56 - blockSize) + BigEndian(bitLength, 8);
              digest[..] == Compress(old(digest[..]), last)
    {
      hide Compress;
      FillZeros(blockSize, 56);
      WriteLength(bitLength);
      assert block[..] == block[..56] + block[56..];
      assert digest[..] == old(digest[..]);
      Transform();
    }

    method WriteLength(bitLength: nat)
      requires block.Length == 64
      modifies block
      ensures block[..56] == old(block[..56]) && block[56..] == BigEndian(bitLength, 8)
    {
      for index := 0 to 8
        invariant block[..56] == old(block[..56])
        invariant forall k :: 56 <= k < 56 + index ==> block[k] == ByteAt(bitLength, 63 - k)
      {
        block[56 + index] := ByteAt(bitLength, 7 - index);
      }
    }

    method FillZeros(from: nat, to: nat)
      requires from <= to <= block.Length
      modifies block
      ensures block[..to] == old(block[..from]) + Zeros(to - from) && block[to..] == old(block[to..])
    {
      forall k | from <= k < to {
        block[k] := 0;
      }
    }
  }

  /** The schedule's sum in the order in which the program adds. */
  lemma ScheduleStep(block: seq<Byte>, t: nat)
    requires |block| == 64 && t >= 16
    ensures Schedule(block, t) == Sum4(Schedule(block, t - 16), SmallSigma0(Schedule(block, t - 15)),
                                       Schedule(block, t - 7), SmallSigma1(Schedule(block, t - 2)))
  {
    hide SmallSigma0, SmallSigma1, WordAt, Sum4;
    ReorderedSum(Schedule(block, t - 16), SmallSigma0(Schedule(block, t - 15)), Schedule(block, t - 7),
                 SmallSigma1(Schedule(block, t - 2)));
  }

  lemma ReorderedSum(a: Word, b: Word, c: Word, d: Word)
    ensures Sum4(a, b, c, d) == Sum4(d, c, b, a)
  {
    hide Represents, Sum4;
    var k := NumberOfWord(a);
    var l := NumberOfWord(b);
    var m := NumberOfWord(c);
    var n := NumberOfWord(d);
    Sum4Is(a, b, c, d, k, l, m, n);
    Sum4Is(d, c, b, a, n, m, l, k);
    SameNumber(Sum4(a, b, c, d), Sum4(d, c, b, a), (k + l + m + n) % 0x1_0000_0000);
  }

  datatype Result = Digest(bytes: seq<Byte>) | InvalidDomain | TooLarge

  /** `domain_separated_sha256`: the hash of the domain, one NUL and the payload. */
  method DomainSeparated(domain: seq<Byte>, payload: seq<Byte>) returns (result: Result)
    ensures result.InvalidDomain? <==> 0 in domain
    ensures result.TooLarge? <==> 0 !in domain && |domain| + 1 + |payload| >= TWO64
    ensures result.Digest? ==> result.bytes == Hash(domain + [0] + payload)
  {
    if 0 in domain { return InvalidDomain; }
    var digest := new Sha256();
    var ok := digest.Update(domain);
    if !ok { return TooLarge; }
    ok := digest.Update([0]);
    if !ok { return TooLarge; }
    ok := digest.Update(payload);
    if !ok { return TooLarge; }
    var bytes := digest.Finish();
    assert [] + domain == domain;
    return Digest(bytes);
  }

  /** What is hashed tells the domain from the payload. */
  lemma {:induction false} DomainsSeparate(d: seq<Byte>, p: seq<Byte>, e: seq<Byte>, q: seq<Byte>)
    requires 0 !in d && 0 !in e && d + [0] + p == e + [0] + q
    ensures d == e && p == q
  {
    var s := d + [0] + p;
    assert s[|d|] == 0 && s[|e|] == 0;
    assert forall i :: 0 <= i < |d| ==> s[i] == d[i] && s[i] in d;
    assert forall i :: 0 <= i < |e| ==> s[i] == e[i] && s[i] in e;
    assert |d| == |e|;
    assert s[..|d|] == d && s[..|e|] == e;
    assert s[|d| + 1..] == p && s[|e| + 1..] == q;
  }
}
