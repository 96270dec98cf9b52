/**
 The compact text of a JSON value, and a reader of JSON text in the sense of RFC 8259 that is
 written independently of it: objects and arrays without blanks, whole numbers, and strings with
 every escape of section 7 except surrogate pairs.
 */
module JsonText {
  import opened Optional
  import opened Utf8
  import opened JsonValue
  import Decimal

  function Ascii(s: string): (r: seq<Byte>)
    requires forall i :: 0 <= i < |s| ==> s[i] < 128 as char
    ensures |r| == |s| && forall i :: 0 <= i < |r| ==> r[i] == s[i] as int
  {
    if s == "" then [] else [s[0] as int as Byte] + Ascii(s[1..])
  }

  const QUOTE: Byte := '\"' as int
  const BACKSLASH: Byte := '\\' as int
  const COMMA: Byte := ',' as int
  const COLON: Byte := ':' as int
  const MINUS: Byte := '-' as int
  const OPEN_ARRAY: Byte := '[' as int
  const CLOSE_ARRAY: Byte := ']' as int
  const OPEN_OBJECT: Byte := '{' as int
  const CLOSE_OBJECT: Byte := '}' as int

  function HexDigit(d: nat): Byte
    requires d < 16
  {
    if d < 10 then '0' as int + d else 'a' as int + (d - 10)
  }

  function EscapedByte(b: Byte): seq<Byte> {
    if b == QUOTE || b == BACKSLASH then [BACKSLASH, b]
    else if b <= 0x1F then [BACKSLASH, 'u' as int, '0' as int, '0' as int, HexDigit(b / 16), HexDigit(b % 16)]
    else [b]
  }

  predicate LowerHex(b: Byte) {
    '0' as int <= b <= '9' as int || 'a' as int <= b <= 'f' as int
  }

  predicate Control(b: Byte) {
    b < 32
  }

  /** What is escaped, and how: as little as RFC 8259 allows, control characters by lower-case code. */
  lemma EscapedByteIs(b: Byte)
    ensures EscapedByte(b) == [b] <==> !Control(b) && b != QUOTE && b != BACKSLASH
    ensures EscapedByte(b) == [BACKSLASH, b] <==> b == QUOTE || b == BACKSLASH
    ensures Control(b) ==>
              && |EscapedByte(b)| == 6 && EscapedByte(b)[..4] == [BACKSLASH, 'u' as int, '0' as int, '0' as int]
              && (forall i :: 4 <= i < 6 ==> LowerHex(EscapedByte(b)[i]))
              && HexValue(EscapedByte(b)[4]).GetOr(0) * 16 + HexValue(EscapedByte(b)[5]).GetOr(0) == b
  {
    if Control(b) {
      assert |EscapedByte(b)| == 6;
    }
  }

  function Escaped(s: seq<Byte>): seq<Byte> {
    if s == [] then [] else EscapedByte(s[0]) + Escaped(s[1..])
  }

  function Quoted(s: seq<Byte>): seq<Byte> {
    [QUOTE] + Escaped(s) + [QUOTE]
  }

  function NumberText(i: int): seq<Byte> {
    if i >= 0 then NaturalText(i) else [MINUS] + NaturalText(-i)
  }

  function NaturalText(n: nat): seq<Byte> {
    Ascii(Decimal.ToText(n))
  }

  function Text(v: Json): seq<Byte> {
    match v
    case Null => Ascii("null")
    case Bool(b) => if b then Ascii("true") else Ascii("false")
    case Unsigned(n) => NumberText(n)
    case Integer(i) => NumberText(i)
    case Str(s) => Quoted(s)
    case Arr(items) => [OPEN_ARRAY] + ItemsText(items, true) + [CLOSE_ARRAY]
    case Obj(ms) => [OPEN_OBJECT] + MembersText(ms, true) + [CLOSE_OBJECT]
    case Unsupported => []
  }

  /** What separates an element from the one before. */
  function Separator(first: bool): seq<Byte> {
    if first then [] else [COMMA]
  }

  function ItemsText(items: seq<Json>, first: bool): seq<Byte> {
    if items == [] then [] else Separator(first) + Text(items[0]) + ItemsText(items[1..], false)
  }

  function MembersText(ms: seq<Member>, first: bool): seq<Byte> {
    if ms == [] then []
    else Separator(first) + MemberText(ms[0]) + MembersText(ms[1..], false)
  }

  function MemberText(m: Member): seq<Byte> {
    Quoted(m.key) + [COLON] + Text(m.value)
  }

  // The reader. Each part returns what it has read and the text left over.

  function HexValue(b: Byte): Option<nat> {
    if '0' as int <= b <= '9' as int then Some(b - '0' as int)
    else if 'a' as int <= b <= 'f' as int then Some(b - 'a' as int + 10)
    else if 'A' as int <= b <= 'F' as int then Some(b - 'A' as int + 10)
    else None
  }

  /** The bytes a two-character escape stands for. */
  function ShortEscape(b: Byte): Option<Byte> {
    if b == QUOTE || b == BACKSLASH || b == '/' as int then Some(b)
    else if b == 'b' as int then Some(8)
    else if b == 'f' as int then Some(12)
    else if b == 'n' as int then Some(10)
    else if b == 'r' as int then Some(13)
    else if b == 't' as int then Some(9)
    else None
  }

  /** The bytes of one character of a string, and the text after it. */
  function ReadChar(s: seq<Byte>): (r: Option<(seq<Byte>, seq<Byte>)>)
    requires s != []
    ensures r.Some? ==> |r.value.1| < |s|
  {
    if s[0] < 0x20 || s[0] == QUOTE then None
    else if s[0] != BACKSLASH then Some(([s[0]], s[1..]))
    else if |s| < 2 then None
    else if s[1] != 'u' as int then
      match ShortEscape(s[1])
      case None => None
      case Some(b) => Some(([b], s[2..]))
    else if |s| < 6 then None
    else
      match (HexValue(s[2]), HexValue(s[3]), HexValue(s[4]), HexValue(s[5]))
      case (Some(a), Some(b), Some(c), Some(d)) =>
        var unit := ((a * 16 + b) * 16 + c) * 16 + d;
        if 0xD800 <= unit <= 0xDFFF || unit > 0xFFFF then None else Some((Encode(unit), s[6..]))
      case _ => None
  }

  /** The rest of a string whose opening quote has been read. */
  function ReadString(s: seq<Byte>): (r: Option<(seq<Byte>, seq<Byte>)>)
    ensures r.Some? ==> |r.value.1| < |s|
    decreases |s|
  {
    if s == [] then None
    else if s[0] == QUOTE then Some(([], s[1..]))
    else
      match ReadChar(s)
      case None => None
      case Some((bytes, rest)) =>
        match ReadString(rest)
        case None => None
        case Some((more, left)) => Some((bytes + more, left))
  }

  predicate IsDigit(b: Byte) {
    '0' as int <= b <= '9' as int
  }

  /** How many digits `s` starts with. */
  function DigitRun(s: seq<Byte>): (n: nat)
    ensures n <= |s| && (forall i :: 0 <= i < n ==> IsDigit(s[i])) && (n < |s| ==> !IsDigit(s[n]))
  {
    if s == [] || !IsDigit(s[0]) then 0 else 1 + DigitRun(s[1..])
  }

  function Chars(s: seq<Byte>): (r: string)
    requires forall i :: 0 <= i < |s| ==> IsDigit(s[i])
    ensures |r| == |s| && forall i :: 0 <= i < |r| ==> r[i] as int == s[i]
  {
    if s == [] then "" else [s[0] as char] + Chars(s[1..])
  }

  function ReadNatural(s: seq<Byte>): (r: Option<(nat, seq<Byte>)>)
    ensures r.Some? ==> |r.value.1| < |s|
  {
    var n := DigitRun(s);
    var text := Chars(s[..n]);
    if Decimal.Canonical(text) then Some((Decimal.Value(text), s[n..])) else None
  }

  function ReadValue(s: seq<Byte>): (r: Option<(Json, seq<Byte>)>)
    ensures r.Some? ==> |r.value.1| < |s|
    decreases |s|, 1
  {
    if s == [] then None
    else if Ascii("null") <= s then Some((Null, s[4..]))
    else if Ascii("true") <= s then Some((Bool(true), s[4..]))
    else if Ascii("false") <= s then Some((Bool(false), s[5..]))
    else if s[0] == QUOTE then
      match ReadString(s[1..])
      case None => None
      case Some((bytes, rest)) => Some((Str(bytes), rest))
    else if s[0] == MINUS then
      match ReadNatural(s[1..])
      case None => None
      case Some((n, rest)) => Some((Integer(0 - n), rest))
    else if IsDigit(s[0]) then
      match ReadNatural(s)
      case None => None
      case Some((n, rest)) => Some((Integer(n), rest))
    else if s[0] == OPEN_ARRAY then
      match ReadItems(s[1..], true)
      case None => None
      case Some((items, rest)) => Some((Arr(items), rest))
    else if s[0] == OPEN_OBJECT then
      match ReadMembers(s[1..], true)
      case None => None
      case Some((ms, rest)) => Some((Obj(ms), rest))
    else None
  }

  /** The elements up to the closing bracket; all but the first come after a comma. */
  function ReadItems(s: seq<Byte>, first: bool): (r: Option<(seq<Json>, seq<Byte>)>)
    ensures r.Some? ==> |r.value.1| < |s|
    decreases |s|, 2
  {
    if s == [] then None
    else if s[0] == CLOSE_ARRAY then Some(([], s[1..]))
    else if !first && s[0] != COMMA then None
    else
      match ReadValue(if first then s else s[1..])
      case None => None
      case Some((item, rest)) =>
        match ReadItems(rest, false)
        case None => None
        case Some((items, left)) => Some(([item] + items, left))
  }

  function ReadMembers(s: seq<Byte>, first: bool): (r: Option<(seq<Member>, seq<Byte>)>)
    ensures r.Some? ==> |r.value.1| < |s|
    decreases |s|, 2
  {
    if s == [] then None
    else if s[0] == CLOSE_OBJECT then Some(([], s[1..]))
    else if !first && s[0] != COMMA then None
    else
      match ReadKey(if first then s else s[1..])
      case None => None
      case Some((key, afterKey)) =>
        match ReadValue(afterKey)
        case None => None
        case Some((value, rest)) =>
          match ReadMembers(rest, false)
          case None => None
          case Some((ms, left)) => Some(([Member(key, value)] + ms, left))
  }

  /** A quoted key and the colon after it. */
  function ReadKey(s: seq<Byte>): (r: Option<(seq<Byte>, seq<Byte>)>)
    ensures r.Some? ==> |r.value.1| < |s|
  {
    if s == [] || s[0] != QUOTE then None
    else
      match ReadString(s[1..])
      case None => None
      case Some((key, rest)) => if rest == [] || rest[0] != COLON then None else Some((key, rest[1..]))
  }

  /** Only what the reader returns: one kind of number, nothing unsupported. */
  predicate Plain(v: Json) {
    match v
    case Unsigned(_) => false
    case Unsupported => false
    case Arr(items) => forall i :: 0 <= i < |items| ==> Plain(items[i])
    case Obj(ms) => forall i :: 0 <= i < |ms| ==> Plain(ms[i].value)
    case _ => true
  }

  lemma HexRoundTrip(d: nat)
    requires d < 16
    ensures HexValue(HexDigit(d)) == Some(d)
  {
  }

  lemma CharRoundTrip(b: Byte, rest: seq<Byte>)
    ensures EscapedByte(b) != [] && EscapedByte(b)[0] != QUOTE
    ensures ReadChar(EscapedByte(b) + rest) == Some(([b], rest))
  {
    var s := EscapedByte(b) + rest;
    if b == QUOTE || b == BACKSLASH {
      assert s[2..] == rest;
    } else if b <= 0x1F {
      HexRoundTrip(b / 16);
      HexRoundTrip(b % 16);
      assert s[6..] == rest;
      assert b == b / 16 * 16 + b % 16;
    } else {
      assert s[1..] == rest;
    }
  }

  lemma {:induction false} StringRoundTrip(s: seq<Byte>, rest: seq<Byte>)
    ensures ReadString(Escaped(s) + [QUOTE] + rest) == Some((s, rest))
  {
    hide ReadChar, EscapedByte;
    var text := Escaped(s) + [QUOTE] + rest;
    if s == [] {
      assert text[1..] == rest;
    } else {
      var tail := Escaped(s[1..]) + [QUOTE] + rest;
      assert text == EscapedByte(s[0]) + tail;
      CharRoundTrip(s[0], tail);
      StringRoundTrip(s[1..], rest);
      assert s == [s[0]] + s[1..];
    }
  }

  lemma {:induction false} DigitRunIs(digits: seq<Byte>, rest: seq<Byte>)
    requires (forall i :: 0 <= i < |digits| ==> IsDigit(digits[i])) && (rest == [] || !IsDigit(rest[0]))
    ensures DigitRun(digits + rest) == |digits|
  {
    if digits == [] {
      assert digits + rest == rest;
    } else {
      assert (digits + rest)[1..] == digits[1..] + rest;
      DigitRunIs(digits[1..], rest);
    }
  }

  lemma NaturalRoundTrip(n: nat, rest: seq<Byte>)
    requires rest == [] || !IsDigit(rest[0])
    ensures ReadNatural(NaturalText(n) + rest) == Some((n, rest))
    ensures NaturalText(n) != [] && IsDigit(NaturalText(n)[0])
  {
    var text := Decimal.ToText(n);
    var digits := NaturalText(n);
    forall i | 0 <= i < |digits| ensures IsDigit(digits[i]) {
      assert Decimal.IsDigit(text[i]);
    }
    DigitRunIs(digits, rest);
    var s := digits + rest;
    assert s[..|digits|] == digits && s[|digits|..] == rest;
    assert Chars(digits) == text;
    Decimal.ValueOfText(n);
  }

  /** Tells the kind of a value from its first byte. */
  lemma FirstByte(v: Json)
    requires Plain(v)
    ensures Text(v) != [] && Text(v)[0] != CLOSE_ARRAY && Text(v)[0] != CLOSE_OBJECT
    ensures v.Str? ==> Text(v)[0] == QUOTE
    ensures v.Integer? && v.number >= 0 ==> IsDigit(Text(v)[0])
    ensures v.Integer? && v.number < 0 ==> Text(v)[0] == MINUS
    ensures v.Arr? ==> Text(v)[0] == OPEN_ARRAY
    ensures v.Obj? ==> Text(v)[0] == OPEN_OBJECT
  {
    if v.Integer? {
      NaturalRoundTrip(if v.number >= 0 then v.number else -v.number, []);
    }
  }

  predicate AfterValue(rest: seq<Byte>) {
    rest == [] || !IsDigit(rest[0])
  }

  lemma Literals()
    ensures |Ascii("null")| == 4 && Ascii("null")[0] == 'n' as int
    ensures |Ascii("true")| == 4 && Ascii("true")[0] == 't' as int
    ensures |Ascii("false")| == 5 && Ascii("false")[0] == 'f' as int
  {
  }

  lemma LiteralRoundTrip(v: Json, rest: seq<Byte>)
    requires v.Null? || v.Bool?
    ensures ReadValue(Text(v) + rest) == Some((v, rest))
  {
    Literals();
    hide Ascii;
    var s := Text(v) + rest;
    assert s[|Text(v)|..] == rest && s[..|Text(v)|] == Text(v) && s[0] == Text(v)[0];
  }

  /** No literal starts like a text that starts with this byte. */
  lemma NoLiteral(s: seq<Byte>)
    requires s != [] && (s[0] == QUOTE || s[0] == MINUS || IsDigit(s[0]) || s[0] == OPEN_ARRAY || s[0] == OPEN_OBJECT)
    ensures !(Ascii("null") <= s) && !(Ascii("true") <= s) && !(Ascii("false") <= s)
  {
    assert Ascii("null")[0] != s[0] && Ascii("true")[0] != s[0] && Ascii("false")[0] != s[0];
  }

  lemma ScalarRoundTrip(v: Json, rest: seq<Byte>)
    requires Plain(v) && AfterValue(rest) && (v.Str? || v.Integer?)
    ensures ReadValue(Text(v) + rest) == Some((v, rest))
  {
    hide Ascii, ReadString, Escaped, ReadNatural, NaturalText;
    var s := Text(v) + rest;
    FirstByte(v);
    NoLiteral(s);
    match v
    case Str(bytes) =>
      assert s[1..] == Escaped(bytes) + [QUOTE] + rest;
      StringRoundTrip(bytes, rest);
    case Integer(i) =>
      if i >= 0 {
        NaturalRoundTrip(i, rest);
      } else {
        assert s[1..] == NaturalText(-i) + rest;
        NaturalRoundTrip(-i, rest);
      }
  }

  lemma KeyRoundTrip(key: seq<Byte>, rest: seq<Byte>)
    ensures ReadKey(Quoted(key) + [COLON] + rest) == Some((key, rest))
  {
    hide ReadString, Escaped;
    var s := Quoted(key) + [COLON] + rest;
    assert s[1..] == Escaped(key) + [QUOTE] + ([COLON] + rest);
    StringRoundTrip(key, [COLON] + rest);
  }

  lemma ArrayStep(items: seq<Json>, rest: seq<Byte>)
    requires ReadItems(ItemsText(items, true) + [CLOSE_ARRAY] + rest, true) == Some((items, rest))
    ensures ReadValue(Text(Arr(items)) + rest) == Some((Arr(items), rest))
  {
    hide Ascii, ReadItems, ItemsText;
    var s := Text(Arr(items)) + rest;
    assert s[0] == OPEN_ARRAY;
    assert s[1..] == ItemsText(items, true) + [CLOSE_ARRAY] + rest;
    NoLiteral(s);
  }

  lemma ObjectStep(ms: seq<Member>, rest: seq<Byte>)
    requires ReadMembers(MembersText(ms, true) + [CLOSE_OBJECT] + rest, true) == Some((ms, rest))
    ensures ReadValue(Text(Obj(ms)) + rest) == Some((Obj(ms), rest))
  {
    hide Ascii, ReadMembers, MembersText;
    var s := Text(Obj(ms)) + rest;
    assert s[0] == OPEN_OBJECT;
    assert s[1..] == MembersText(ms, true) + [CLOSE_OBJECT] + rest;
    NoLiteral(s);
  }

  /** Where the parts of the first item end up. */
  lemma ItemsUnfold(items: seq<Json>, first: bool, rest: seq<Byte>, left: seq<Byte>)
    requires items != [] && left == ItemsText(items[1..], false) + [CLOSE_ARRAY] + rest
    ensures ItemsText(items, first) + [CLOSE_ARRAY] + rest == Separator(first) + (Text(items[0]) + left)
  {
    hide Text, Separator;
    Regroup(Separator(first), Text(items[0]), ItemsText(items[1..], false), [CLOSE_ARRAY], rest);
  }

  lemma ItemStep(items: seq<Json>, first: bool, rest: seq<Byte>, left: seq<Byte>)
    requires items != [] && Text(items[0]) != [] && Text(items[0])[0] != CLOSE_ARRAY
    requires left == ItemsText(items[1..], false) + [CLOSE_ARRAY] + rest
    requires ReadValue(Text(items[0]) + left) == Some((items[0], left))
    requires ReadItems(left, false) == Some((items[1..], rest))
    ensures ReadItems(ItemsText(items, first) + [CLOSE_ARRAY] + rest, first) == Some((items, rest))
  {
    ItemsUnfold(items, first, rest, left);
    hide ReadValue, Text, ItemsText;
    var s := ItemsText(items, first) + [CLOSE_ARRAY] + rest;
    assert (if first then s else s[1..]) == Text(items[0]) + left;
    assert items == [items[0]] + items[1..];
  }

  lemma Regroup<T>(a: seq<T>, b: seq<T>, c: seq<T>, d: seq<T>, e: seq<T>)
    ensures a + b + c + d + e == a + (b + (c + d + e))
  {
  }

  /** Where the parts of the first member end up. */
  lemma MembersUnfold(ms: seq<Member>, first: bool, rest: seq<Byte>, left: seq<Byte>)
    requires ms != [] && left == MembersText(ms[1..], false) + [CLOSE_OBJECT] + rest
    ensures MembersText(ms, first) + [CLOSE_OBJECT] + rest
         == Separator(first) + (Quoted(ms[0].key) + [COLON] + (Text(ms[0].value) + left))
  {
    hide Text, Quoted, Separator;
    Regroup(Separator(first), MemberText(ms[0]), MembersText(ms[1..], false), [CLOSE_OBJECT], rest);
    MemberUnfold(ms[0], left);
  }

  lemma MemberUnfold(m: Member, left: seq<Byte>)
    ensures MemberText(m) + left == Quoted(m.key) + [COLON] + (Text(m.value) + left)
  {
    hide Text, Quoted;
  }

  lemma AfterSeparator(first: bool, body: seq<Byte>)
    ensures var s := Separator(first) + body; (if first then s else s[1..]) == body
  {
  }

  /** One member read, and the others behind it. */
  lemma ReadMemberStep(first: bool, body: seq<Byte>, m: Member, afterKey: seq<Byte>, left: seq<Byte>,
                       ms: seq<Member>, rest: seq<Byte>)
    requires body != [] && body[0] == QUOTE && ReadKey(body) == Some((m.key, afterKey))
    requires ReadValue(afterKey) == Some((m.value, left)) && ReadMembers(left, false) == Some((ms, rest))
    ensures ReadMembers(Separator(first) + body, first) == Some(([m] + ms, rest))
  {
    AfterSeparator(first, body);
    assert (Separator(first) + body)[0] == if first then QUOTE else COMMA;
    hide ReadKey, ReadValue;
  }

  lemma MemberStep(ms: seq<Member>, first: bool, rest: seq<Byte>, left: seq<Byte>)
    requires ms != []
    requires left == MembersText(ms[1..], false) + [CLOSE_OBJECT] + rest
    requires ReadValue(Text(ms[0].value) + left) == Some((ms[0].value, left))
    requires ReadMembers(left, false) == Some((ms[1..], rest))
    ensures ReadMembers(MembersText(ms, first) + [CLOSE_OBJECT] + rest, first) == Some((ms, rest))
  {
    var m := ms[0];
    var body := Quoted(m.key) + [COLON] + (Text(m.value) + left);
    assert body[0] == QUOTE;
    MembersUnfold(ms, first, rest, left);
    KeyRoundTrip(m.key, Text(m.value) + left);
    hide ReadValue, Text, ReadKey, Quoted, MembersText, ReadMembers, Separator;
    ReadMemberStep(first, body, m, Text(m.value) + left, left, ms[1..], rest);
    assert ms == [m] + ms[1..];
  }

  /** The reader gives back every value from its text. */
  lemma {:induction false} RoundTrip(v: Json, rest: seq<Byte>)
    requires Plain(v) && AfterValue(rest)
    ensures ReadValue(Text(v) + rest) == Some((v, rest))
    decreases v
  {
    hide ReadValue, Text, ReadItems, ItemsText, ReadMembers, MembersText, AfterValue;
    match v
    case Null => LiteralRoundTrip(v, rest);
    case Bool(_) => LiteralRoundTrip(v, rest);
    case Integer(_) => ScalarRoundTrip(v, rest);
    case Str(_) => ScalarRoundTrip(v, rest);
    case Arr(items) =>
      ItemsRoundTrip(items, true, rest);
      ArrayStep(items, rest);
    case Obj(ms) =>
      MembersRoundTrip(ms, true, rest);
      ObjectStep(ms, rest);
  }

  lemma {:induction false} ItemsRoundTrip(items: seq<Json>, first: bool, rest: seq<Byte>)
    requires forall i :: 0 <= i < |items| ==> Plain(items[i])
    ensures ReadItems(ItemsText(items, first) + [CLOSE_ARRAY] + rest, first) == Some((items, rest))
    decreases items
  {
    if items == [] {
      ItemsEnd(first, rest);
    } else {
      var left := ItemsText(items[1..], false) + [CLOSE_ARRAY] + rest;
      AfterItem(items[1..], rest);
      hide ReadValue, Text, ReadItems, ItemsText, AfterValue;
      RoundTrip(items[0], left);
      ItemsRoundTrip(items[1..], false, rest);
      FirstByte(items[0]);
      ItemStep(items, first, rest, left);
    }
  }

  lemma ItemsEnd(first: bool, rest: seq<Byte>)
    ensures ReadItems(ItemsText([], first) + [CLOSE_ARRAY] + rest, first) == Some(([], rest))
  {
    var s := ItemsText([], first) + [CLOSE_ARRAY] + rest;
    assert s[1..] == rest;
  }

  lemma AfterItem(items: seq<Json>, rest: seq<Byte>)
    ensures AfterValue(ItemsText(items, false) + [CLOSE_ARRAY] + rest)
  {
    hide Text;
  }

  lemma {:induction false} MembersRoundTrip(ms: seq<Member>, first: bool, rest: seq<Byte>)
    requires forall i :: 0 <= i < |ms| ==> Plain(ms[i].value)
    ensures ReadMembers(MembersText(ms, first) + [CLOSE_OBJECT] + rest, first) == Some((ms, rest))
    decreases ms
  {
    if ms == [] {
      MembersEnd(first, rest);
    } else {
      var left := MembersText(ms[1..], false) + [CLOSE_OBJECT] + rest;
      AfterMember(ms[1..], rest);
      hide ReadValue, Text, ReadMembers, MembersText, AfterValue;
      RoundTrip(ms[0].value, left);
      MembersRoundTrip(ms[1..], false, rest);
      MemberStep(ms, first, rest, left);
    }
  }

  lemma MembersEnd(first: bool, rest: seq<Byte>)
    ensures ReadMembers(MembersText([], first) + [CLOSE_OBJECT] + rest, first) == Some(([], rest))
  {
    var s := MembersText([], first) + [CLOSE_OBJECT] + rest;
    assert s[1..] == rest;
  }

  lemma AfterMember(ms: seq<Member>, rest: seq<Byte>)
    ensures AfterValue(MembersText(ms, false) + [CLOSE_OBJECT] + rest)
  {
    hide Text, MemberText;
  }
}
