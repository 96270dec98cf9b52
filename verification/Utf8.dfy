/**
 UTF-8 validation. The scan of the program is proved against the byte ranges of section 4 of
 RFC 3629, and those ranges against the encoding of section 3: a byte string is accepted exactly
 when it encodes some sequence of Unicode scalar values, and then only one.
 */
module Utf8 {
  import opened Optional

  type Byte = b: int | 0 <= b < 256

  /** A Unicode scalar value. */
  type Scalar = c: int | 0 <= c <= 0x10FFFF && !(0xD800 <= c <= 0xDFFF)

  /** Section 3 of RFC 3629. */
  function Encode(c: Scalar): (r: seq<Byte>)
    ensures 1 <= |r| <= 4
  {
    if c < 0x80 then [c as Byte]
    else if c < 0x800 then [0xC0 + c / 64, 0x80 + c % 64]
    else if c < 0x10000 then [0xE0 + c / 64 / 64, 0x80 + c / 64 % 64, 0x80 + c % 64]
    else
      assert c / 64 / 64 / 64 <= 4;
      [0xF0 + c / 64 / 64 / 64, 0x80 + c / 64 / 64 % 64, 0x80 + c / 64 % 64, 0x80 + c % 64]
  }

  function EncodeAll(cs: seq<Scalar>): seq<Byte> {
    if cs == [] then [] else Encode(cs[0]) + EncodeAll(cs[1..])
  }

  ghost predicate Valid(s: seq<Byte>) {
    exists cs: seq<Scalar> :: EncodeAll(cs) == s
  }

  predicate Tail(b: Byte) {
    0x80 <= b <= 0xBF
  }

  /** Section 4 of RFC 3629: the length of the well-formed character that `s` starts with. */
  function First(s: seq<Byte>): (n: Option<nat>)
    ensures n.Some? ==> 1 <= n.value <= 4 && n.value <= |s| && !Tail(s[0])
    ensures n.Some? ==> forall k :: 1 <= k < n.value ==> Tail(s[k])
  {
    if |s| >= 1 && s[0] <= 0x7F then Some(1)
    else if |s| >= 2 && 0xC2 <= s[0] <= 0xDF && Tail(s[1]) then Some(2)
    else if |s| >= 3 && ThreeByteHead(s[0], s[1]) && Tail(s[2]) then Some(3)
    else if |s| >= 4 && FourByteHead(s[0], s[1]) && Tail(s[2]) && Tail(s[3]) then Some(4)
    else None
  }

  predicate ThreeByteHead(a: Byte, b: Byte) {
    || (a == 0xE0 && 0xA0 <= b <= 0xBF)
    || (0xE1 <= a <= 0xEC && Tail(b))
    || (a == 0xED && 0x80 <= b <= 0x9F)
    || (0xEE <= a <= 0xEF && Tail(b))
  }

  predicate FourByteHead(a: Byte, b: Byte) {
    || (a == 0xF0 && 0x90 <= b <= 0xBF)
    || (0xF1 <= a <= 0xF3 && Tail(b))
    || (a == 0xF4 && 0x80 <= b <= 0x8F)
  }

  /** The value of the first `n` bytes of a character, from the data bits of its first byte on. */
  function Accumulated(lead: nat, s: seq<Byte>, n: nat): nat
    requires 1 <= n <= |s|
  {
    if n == 1 then lead else Accumulated(lead, s, n - 1) * 64 + DataBits(s[n - 1], 64)
  }

  /** The bits of a byte below the one with this value. */
  function DataBits(b: int, below: nat): int
    requires below > 0
  {
    b % below
  }

  /** The length and the data bits a first byte announces. */
  function Announced(b: Byte): (r: Option<(nat, nat)>)
    ensures r.Some? ==> 1 <= r.value.0 <= 4
  {
    if b <= 0x7F then Some((1, b))
    else if 0xC2 <= b <= 0xDF then Some((2, DataBits(b, 32)))
    else if 0xE0 <= b <= 0xEF then Some((3, DataBits(b, 16)))
    else if 0xF0 <= b <= 0xF4 then Some((4, DataBits(b, 8)))
    else None
  }

  /** What the program rejects by value: overlong forms, surrogates, and past the last scalar. */
  predicate Acceptable(length: nat, codepoint: nat) {
    !((length == 3 && codepoint < 0x800) || (length == 4 && codepoint < 0x10000)
      || (0xD800 <= codepoint <= 0xDFFF) || codepoint > 0x10FFFF)
  }

  predicate PassesChecks(s: seq<Byte>, length: nat, lead: nat)
    requires 1 <= length
  {
    && length <= |s| && (forall k :: 1 <= k < length ==> Tail(s[k]))
    && Acceptable(length, Accumulated(lead, s, length))
  }

  lemma LeadBits(b: Byte)
    ensures 0xC0 <= b < 0xE0 ==> DataBits(b, 32) == b - 0xC0
    ensures 0xE0 <= b < 0xF0 ==> DataBits(b, 16) == b - 0xE0
    ensures 0xF0 <= b < 0xF8 ==> DataBits(b, 8) == b - 0xF0
    ensures Tail(b) ==> DataBits(b, 64) == b - 0x80
    ensures Tail(b) <==> b / 64 == 2
  {
  }

  /** The value as the sum of the bytes' contributions, for every length there is. */
  lemma Unrolled(lead: nat, s: seq<Byte>, n: nat)
    requires 1 <= n <= |s| && n <= 4 && forall k :: 1 <= k < n ==> Tail(s[k])
    ensures n == 1 ==> Accumulated(lead, s, n) == lead
    ensures n == 2 ==> Accumulated(lead, s, n) == lead * 64 + (s[1] as int - 0x80)
    ensures n == 3 ==> Accumulated(lead, s, n) == (lead * 64 + (s[1] as int - 0x80)) * 64 + (s[2] as int - 0x80)
    ensures n == 4 ==>
              Accumulated(lead, s, n) ==
              ((lead * 64 + (s[1] as int - 0x80)) * 64 + (s[2] as int - 0x80)) * 64 + (s[3] as int - 0x80)
  {
    if n > 1 {
      Unrolled(lead, s, n - 1);
      LeadBits(s[n - 1]);
    }
  }

  lemma ThreeByteRange(a: Byte, b: Byte, c: Byte)
    requires 0xE0 <= a <= 0xEF && Tail(b) && Tail(c)
    ensures ThreeByteHead(a, b)
            <==> Acceptable(3, ((a as int - 0xE0) * 64 + (b as int - 0x80)) * 64 + (c as int - 0x80))
  {
  }

  lemma FourByteRange(a: Byte, b: Byte, c: Byte, d: Byte)
    requires 0xF0 <= a <= 0xF4 && Tail(b) && Tail(c) && Tail(d)
    ensures var high := ((a as int - 0xF0) * 64 + (b as int - 0x80)) * 64 + (c as int - 0x80);
            FourByteHead(a, b) <==> Acceptable(4, high * 64 + (d as int - 0x80))
  {
  }

  /** The check by value and the table of byte ranges agree. */
  lemma RangesAreValues(s: seq<Byte>)
    requires |s| > 0
    ensures First(s) == match Announced(s[0])
                        case None => None
                        case Some((length, lead)) => if PassesChecks(s, length, lead) then Some(length) else None
  {
    match Announced(s[0])
    case None =>
    case Some((length, lead)) =>
      hide DataBits;
      LeadBits(s[0]);
      if length <= |s| && forall k :: 1 <= k < length ==> Tail(s[k]) {
        Unrolled(lead, s, length);
        hide Acceptable;
        hide Accumulated;
        if length == 3 {
          ThreeByteRange(s[0], s[1], s[2]);
        } else if length == 4 {
          FourByteRange(s[0], s[1], s[2], s[3]);
        }
      }
  }

  /** The character that `s` starts with. */
  function FirstScalar(s: seq<Byte>): (c: Scalar)
    requires First(s).Some?
  {
    RangesAreValues(s);
    var (length, lead) := Announced(s[0]).value;
    Accumulated(lead, s, length)
  }

  lemma Digits64(x: nat, y: nat)
    requires y < 64
    ensures (x * 64 + y) / 64 == x && (x * 64 + y) % 64 == y
  {
  }

  lemma EncodeOne(c: Scalar)
    requires c < 0x80
    ensures Encode(c) == [c as Byte]
  {
  }

  lemma EncodeTwo(c: Scalar, a: nat, b: nat)
    requires 0x80 <= c < 0x800 && c == a * 64 + b && b < 64
    ensures Encode(c) == [0xC0 + a, 0x80 + b]
  {
    Digits64(a, b);
  }

  lemma EncodeThree(c: Scalar, a: nat, b: nat, d: nat)
    requires 0x800 <= c < 0x10000 && c == (a * 64 + b) * 64 + d && b < 64 && d < 64
    ensures Encode(c) == [0xE0 + a, 0x80 + b, 0x80 + d]
  {
    Digits64(a * 64 + b, d);
    Digits64(a, b);
  }

  lemma EncodeFour(c: Scalar, a: nat, b: nat, d: nat, e: nat)
    requires 0x10000 <= c && c == ((a * 64 + b) * 64 + d) * 64 + e && b < 64 && d < 64 && e < 64
    ensures Encode(c) == [0xF0 + a, 0x80 + b, 0x80 + d, 0x80 + e]
  {
    Digits64((a * 64 + b) * 64 + d, e);
    Digits64(a * 64 + b, d);
    Digits64(a, b);
  }

  lemma FirstEncodes(s: seq<Byte>)
    requires First(s).Some?
    ensures Encode(FirstScalar(s)) == s[..First(s).value]
  {
    hide Encode, DataBits, Accumulated;
    RangesAreValues(s);
    var (length, lead) := Announced(s[0]).value;
    Unrolled(lead, s, length);
    LeadBits(s[0]);
    var c := FirstScalar(s);
    if length == 1 {
      EncodeOne(c);
    } else if length == 2 {
      EncodeTwo(c, s[0] - 0xC0, s[1] - 0x80);
    } else if length == 3 {
      EncodeThree(c, s[0] - 0xE0, s[1] - 0x80, s[2] - 0x80);
    } else if length == 4 {
      EncodeFour(c, s[0] - 0xF0, s[1] - 0x80, s[2] - 0x80, s[3] - 0x80);
    }
  }

  lemma FirstOfThree(s: seq<Byte>, c: Scalar, a: nat, b: nat, d: nat)
    requires 0x800 <= c < 0x10000 && c == (a * 64 + b) * 64 + d && b < 64 && d < 64
    requires |s| >= 3 && s[0] == 0xE0 + a && s[1] == 0x80 + b && s[2] == 0x80 + d
    ensures First(s) == Some(3) && FirstScalar(s) == c
  {
    hide Accumulated, DataBits;
    LeadBits(s[0]);
    Unrolled(a, s, 3);
    ThreeByteRange(s[0], s[1], s[2]);
  }

  lemma FirstOfFour(s: seq<Byte>, c: Scalar, a: nat, b: nat, d: nat, e: nat)
    requires 0x10000 <= c && c == ((a * 64 + b) * 64 + d) * 64 + e && b < 64 && d < 64 && e < 64
    requires |s| >= 4 && s[0] == 0xF0 + a && s[1] == 0x80 + b && s[2] == 0x80 + d && s[3] == 0x80 + e
    ensures First(s) == Some(4) && FirstScalar(s) == c
  {
    hide Accumulated, DataBits;
    LeadBits(s[0]);
    Unrolled(a, s, 4);
    FourByteRange(s[0], s[1], s[2], s[3]);
  }

  lemma FirstOfTwo(s: seq<Byte>, c: Scalar, a: nat, b: nat)
    requires 0x80 <= c < 0x800 && c == a * 64 + b && b < 64
    requires |s| >= 2 && s[0] == 0xC0 + a && s[1] == 0x80 + b
    ensures First(s) == Some(2) && FirstScalar(s) == c
  {
    hide Accumulated, DataBits;
    LeadBits(s[0]);
    Unrolled(a, s, 2);
  }

  lemma EncodedIsFirst(c: Scalar, rest: seq<Byte>)
    ensures First(Encode(c) + rest) == Some(|Encode(c)|)
    ensures FirstScalar(Encode(c) + rest) == c
  {
    hide First, FirstScalar, Encode;
    var s := Encode(c) + rest;
    if c < 0x80 {
      EncodeOne(c);
      FirstOfOne(s, c);
    } else if c < 0x800 {
      EncodeTwo(c, c / 64, c % 64);
      FirstOfTwo(s, c, c / 64, c % 64);
    } else if c < 0x10000 {
      EncodeThree(c, c / 64 / 64, c / 64 % 64, c % 64);
      FirstOfThree(s, c, c / 64 / 64, c / 64 % 64, c % 64);
    } else {
      EncodeFour(c, c / 64 / 64 / 64, c / 64 / 64 % 64, c / 64 % 64, c % 64);
      FirstOfFour(s, c, c / 64 / 64 / 64, c / 64 / 64 % 64, c / 64 % 64, c % 64);
    }
  }

  lemma FirstOfOne(s: seq<Byte>, c: Scalar)
    requires c < 0x80 && |s| >= 1 && s[0] == c
    ensures First(s) == Some(1) && FirstScalar(s) == c
  {
  }

  /** Reads one character after the other. */
  function Decode(s: seq<Byte>): Option<seq<Scalar>> {
    if s == [] then Some([])
    else if First(s).None? then None
    else
      match Decode(s[First(s).value..])
      case None => None
      case Some(rest) => Some([FirstScalar(s)] + rest)
  }

  lemma {:induction false} DecodeThenEncode(s: seq<Byte>)
    requires Decode(s).Some?
    ensures EncodeAll(Decode(s).value) == s
  {
    hide First, FirstScalar, Encode;
    if s != [] {
      var n := First(s).value;
      DecodeThenEncode(s[n..]);
      FirstEncodes(s);
      assert s == s[..n] + s[n..];
    }
  }

  lemma {:induction false} EncodeThenDecode(cs: seq<Scalar>)
    ensures Decode(EncodeAll(cs)) == Some(cs)
  {
    hide First, FirstScalar, Encode;
    if cs != [] {
      var rest := EncodeAll(cs[1..]);
      EncodeThenDecode(cs[1..]);
      EncodedIsFirst(cs[0], rest);
      assert (Encode(cs[0]) + rest)[|Encode(cs[0])|..] == rest;
      assert cs == [cs[0]] + cs[1..];
    }
  }

  /** Valid means decodable, and the decomposition into characters is unique. */
  lemma ValidIffDecodes(s: seq<Byte>)
    ensures Valid(s) <==> Decode(s).Some?
    ensures forall cs: seq<Scalar> :: EncodeAll(cs) == s <==> Decode(s) == Some(cs)
  {
    forall cs: seq<Scalar> ensures EncodeAll(cs) == s <==> Decode(s) == Some(cs) {
      EncodeThenDecode(cs);
      if Decode(s).Some? {
        DecodeThenEncode(s);
      }
    }
    if Decode(s).Some? {
      assert EncodeAll(Decode(s).value) == s;
    }
  }

  lemma UniqueDecomposition(cs: seq<Scalar>, ds: seq<Scalar>)
    requires EncodeAll(cs) == EncodeAll(ds)
    ensures cs == ds
  {
    EncodeThenDecode(cs);
    EncodeThenDecode(ds);
  }

  lemma DecodeOfNothing()
    ensures Decode([]) == Some([])
  {
  }

  lemma DecodeStep(s: seq<Byte>)
    requires s != []
    ensures Decode(s).Some? <==> First(s).Some? && Decode(s[First(s).value..]).Some?
  {
  }

  lemma DecodeAtEnd(value: seq<Byte>)
    ensures Decode(value[|value|..]).Some?
  {
    assert value[|value|..] == [];
    DecodeOfNothing();
  }

  lemma DecodeStepAt(value: seq<Byte>, index: nat)
    requires index < |value|
    ensures var length := First(value[index..]);
            && (length.Some? ==> index + length.value <= |value|)
            && (Decode(value[index..]).Some? <==> length.Some? && Decode(value[index + length.value..]).Some?)
  {
    DecodeStep(value[index..]);
    hide First, Decode;
    var length := First(value[index..]);
    if length.Some? {
      assert value[index..][length.value..] == value[index + length.value..];
    }
  }

  /** One round of the scan: the length of the character at `index`, if it is well formed. */
  method CheckCharacter(value: seq<Byte>, index: nat) returns (checked: Option<nat>)
    requires index < |value|
    ensures checked == First(value[index..])
  {
    hide First, DataBits;
    ghost var s := value[index..];
    RangesAreValues(s);
    var first := value[index];
    var length := 0;
    var codepoint: nat := 0;
    if first <= 0x7F {
      length, codepoint := 1, first;
    } else if 0xC2 <= first <= 0xDF {
      length, codepoint := 2, DataBits(first, 32);
    } else if 0xE0 <= first <= 0xEF {
      length, codepoint := 3, DataBits(first, 16);
    } else if 0xF0 <= first <= 0xF4 {
      length, codepoint := 4, DataBits(first, 8);
    } else {
      return None;
    }
    if index + length > |value| {
      return None;
    }
    ghost var lead := codepoint;
    var continuation := 1;
    while continuation < length
      invariant 1 <= continuation <= length
      invariant codepoint == Accumulated(lead, s, continuation)
      invariant forall k :: 1 <= k < continuation ==> Tail(s[k])
    {
      var byte := value[index + continuation];
      LeadBits(byte);
      if byte / 64 != 2 {
        assert !Tail(s[continuation]);
        return None;
      }
      codepoint := codepoint * 64 + DataBits(byte, 64);
      continuation := continuation + 1;
    }
    if (length == 3 && codepoint < 0x800) || (length == 4 && codepoint < 0x10000)
       || (0xD800 <= codepoint <= 0xDFFF) || codepoint > 0x10FFFF {
      return None;
    }
    return Some(length);
  }

  method ValidUtf8(value: seq<Byte>) returns (ok: bool)
    ensures ok <==> Valid(value)
  {
    hide First, Decode, Valid;
    ValidIffDecodes(value);
    var index := 0;
    while index < |value|
      invariant 0 <= index <= |value|
      invariant Decode(value).Some? <==> Decode(value[index..]).Some?
    {
      DecodeStepAt(value, index);
      var length := CheckCharacter(value, index);
      if length.None? {
        return false;
      }
      index := index + length.value;
    }
    DecodeAtEnd(value);
    return true;
  }

  lemma {:induction false} EncodeAllAppends(cs: seq<Scalar>, ds: seq<Scalar>)
    ensures EncodeAll(cs + ds) == EncodeAll(cs) + EncodeAll(ds)
  {
    hide Encode;
    if cs == [] {
      assert cs + ds == ds;
    } else {
      EncodeAllAppends(cs[1..], ds);
      assert (cs + ds)[1..] == cs[1..] + ds;
    }
  }

  /** A valid string may be cut wherever no character is cut. */
  lemma {:induction false} CutsAtBoundaries(s: seq<Byte>, k: nat)
    requires Valid(s) && k <= |s| && (k == |s| || !Tail(s[k]))
    ensures Valid(s[..k]) && Valid(s[k..])
    decreases |s|
  {
    hide First, FirstScalar, Encode;
    ValidIffDecodes(s);
    if k == 0 {
      assert EncodeAll([]) == s[..0] && s[0..] == s;
    } else {
      var n := First(s).value;
      assert k >= n;
      ValidIffDecodes(s[n..]);
      CutsAtBoundaries(s[n..], k - n);
      assert s[n..][k - n..] == s[k..];
      var rest: seq<Scalar> :| EncodeAll(rest) == s[n..][..k - n];
      FirstEncodes(s);
      var front := [FirstScalar(s)];
      assert front[1..] == [] && EncodeAll(front) == s[..n];
      EncodeAllAppends(front, rest);
      assert s[..k] == s[..n] + s[n..][..k - n];
    }
  }

  /** No character has more than three tail bytes. */
  lemma {:induction false} NoFourTails(s: seq<Byte>, k: nat)
    requires Valid(s) && k + 3 < |s|
    ensures !(Tail(s[k]) && Tail(s[k + 1]) && Tail(s[k + 2]) && Tail(s[k + 3]))
    decreases |s|
  {
    hide First, FirstScalar, Encode;
    ValidIffDecodes(s);
    var n := First(s).value;
    if k >= n {
      ValidIffDecodes(s[n..]);
      NoFourTails(s[n..], k - n);
    } else if k > 0 && n < |s| {
      assert Decode(s[n..]).Some?;
      assert s[n..][0] == s[n];
      assert !Tail(s[n]);
    }
  }
}
