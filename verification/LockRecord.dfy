/**
 The identity record in the daemon lock file: one line with a tag, the owner's pid, its process
 start token and its control token.
 */
module LockRecord {
  import opened Optional
  import opened Search
  import opened Decimal

  const TAG := "tgcli-lock-v1"
  const TOKEN_LENGTH := 32
  const MAX_RECORD_BYTES := 256
  const MAX_PID := 0x7FFF_FFFF
  const MAX_UINT64 := 0xFFFF_FFFF_FFFF_FFFF

  datatype Platform = Linux | MacOs

  datatype Identity = Identity(pid: int, processStart: string, controlToken: string)

  predicate IsHex(c: char) {
    '0' <= c <= '9' || 'a' <= c <= 'f'
  }

  predicate ValidToken(s: string) {
    |s| == TOKEN_LENGTH && forall i :: 0 <= i < |s| ==> IsHex(s[i])
  }

  predicate StartsWith(s: string, prefix: string) {
    prefix <= s
  }

  predicate ParseProcessStart(platform: Platform, value: string) {
    match platform
    case Linux =>
      StartsWith(value, "linux:") && ParseUnsigned(value[6..], 1, MAX_UINT64).Some?
    case MacOs =>
      && StartsWith(value, "macos:")
      && var rest := value[6..];
      var separator := FindChar(rest, ':', 0);
      && separator.Some? && FindChar(rest, ':', separator.value + 1).None?
      && ParseUnsigned(rest[..separator.value], 1, MAX_UINT64).Some?
      && ParseUnsigned(rest[separator.value + 1..], 0, 999999).Some?
  }

  function Format(id: Identity): string
    requires id.pid >= 0
  {
    TAG + " " + ToText(id.pid) + " " + id.processStart + " " + id.controlToken + "\n"
  }

  predicate ValidIdentity(platform: Platform, id: Identity) {
    1 <= id.pid <= MAX_PID && ParseProcessStart(platform, id.processStart) && ValidToken(id.controlToken)
  }

  function ParseRecord(platform: Platform, record: string): Option<Identity> {
    if !StartsWith(record, TAG + " ") then None
    else
      var pidStart := |TAG| + 1;
      var pidEnd := FindChar(record, ' ', pidStart);
      if pidEnd.None? then None
      else
        var processStart := pidEnd.value + 1;
        var processEnd := FindChar(record, ' ', processStart);
        if processEnd.None? then None
        else
          var tokenStart := processEnd.value + 1;
          if |record| != tokenStart + TOKEN_LENGTH + 1 || record[|record| - 1] != '\n' then None
          else
            var pid := ParseUnsigned(record[pidStart..pidEnd.value], 1, MAX_PID);
            var start := record[processStart..processEnd.value];
            var token := record[tokenStart..tokenStart + TOKEN_LENGTH];
            if pid.None? || !ParseProcessStart(platform, start) || !ValidToken(token) then None
            else Some(Identity(pid.value, start, token))
  }

  lemma DigitsHaveNo(s: string, c: char)
    requires AllDigits(s) && !IsDigit(c)
    ensures c !in s
  {
  }

  lemma NotInEither(c: char, a: string, b: string)
    requires c !in a && c !in b
    ensures c !in a + b
  {
  }

  lemma LinuxStartIsOneWord(value: string, c: char)
    requires ParseProcessStart(Linux, value) && c in {' ', '\n'}
    ensures c !in value
  {
    DigitsHaveNo(value[6..], c);
    assert value[..6] == "linux:";
    NotInEither(c, value[..6], value[6..]);
    assert value[..6] + value[6..] == value;
  }

  lemma MacOsStartIsOneWord(value: string, c: char)
    requires ParseProcessStart(MacOs, value) && c in {' ', '\n'}
    ensures c !in value
  {
    var rest := value[6..];
    var k := FindChar(rest, ':', 0).value;
    DigitsHaveNo(rest[..k], c);
    DigitsHaveNo(rest[k + 1..], c);
    assert value[..6] == "macos:";
    hide ParseProcessStart, FindChar, ParseUnsigned;
    NotInEither(c, rest[..k], [rest[k]]);
    NotInEither(c, rest[..k] + [rest[k]], rest[k + 1..]);
    assert rest[..k] + [rest[k]] + rest[k + 1..] == rest;
    NotInEither(c, value[..6], rest);
    assert value[..6] + rest == value;
  }

  /** A start token has no space and no newline in it. */
  lemma StartIsOneWord(platform: Platform, value: string, c: char)
    requires ParseProcessStart(platform, value) && c in {' ', '\n'}
    ensures c !in value
  {
    match platform
    case Linux => LinuxStartIsOneWord(value, c);
    case MacOs => MacOsStartIsOneWord(value, c);
  }

  /** `FindChar` stops at the first separator after a word without it. */
  lemma {:induction false} FindAfterWord(s: string, from: nat, to: nat, c: char)
    requires from <= to < |s| && s[to] == c && c !in s[from..to]
    ensures FindChar(s, c, from) == Some(to)
    decreases |s| - from
  {
    if from < to {
      assert s[from] == s[from..to][0];
      assert s[from + 1..to] == s[from..to][1..];
      FindAfterWord(s, from + 1, to, c);
    }
  }

  /** Reading back a formatted identity gives that identity. */
  lemma FormatThenParse(platform: Platform, id: Identity)
    requires ValidIdentity(platform, id)
    ensures ParseRecord(platform, Format(id)) == Some(id)
  {
    hide ParseProcessStart, ParseUnsigned, FindChar, ToText, ValidToken;
    var record, pid := Format(id), ToText(id.pid);
    var head := TAG + " ";
    var a := |head|;
    var b := a + |pid|;
    var c := b + 1 + |id.processStart|;
    assert record[..a] == head;
    assert record[a..b] == pid;
    assert record[b + 1..c] == id.processStart;
    assert record[c + 1..c + 1 + |id.controlToken|] == id.controlToken;
    assert |id.controlToken| == TOKEN_LENGTH by { TokenLength(id.controlToken); }
    DigitsHaveNo(pid, ' ');
    StartIsOneWord(platform, id.processStart, ' ');
    FindAfterWord(record, a, b, ' ');
    FindAfterWord(record, b + 1, c, ' ');
    TextParses(id.pid, 1, MAX_PID);
  }

  lemma TokenLength(token: string)
    requires ValidToken(token)
    ensures |token| == TOKEN_LENGTH && '\n' !in token
  {
  }

  /** Every record the parser accepts is the formatted text of the identity it returns. */
  lemma ParseThenFormat(platform: Platform, record: string)
    requires ParseRecord(platform, record).Some?
    ensures var id := ParseRecord(platform, record).value;
            ValidIdentity(platform, id) && Format(id) == record
  {
    hide ParseProcessStart, FindChar, ToText, ValidToken, Value;
    var a := |TAG| + 1;
    var b := FindSpace(record, a);
    var c := FindSpace(record, b + 1);
    TextOfValue(record[a..b]);
    assert record[..a] == TAG + " ";
    InFields(record, a, b, c, c + 1 + TOKEN_LENGTH);
  }

  lemma InFields(s: string, a: nat, b: nat, c: nat, d: nat)
    requires a <= b < c < d && d + 1 == |s| && s[b] == ' ' && s[c] == ' ' && s[d] == '\n'
    ensures s == s[..a] + s[a..b] + " " + s[b + 1..c] + " " + s[c + 1..d] + "\n"
  {
    assert s == s[..b] + [s[b]] + s[b + 1..c] + [s[c]] + s[c + 1..d] + [s[d]];
  }

  function FindSpace(record: string, from: nat): (k: nat)
    requires FindChar(record, ' ', from).Some?
    ensures from <= k < |record| && record[k] == ' ' && FindChar(record, ' ', from) == Some(k)
  {
    FindChar(record, ' ', from).value
  }

  /** A record has one newline, at its end. */
  lemma OneLine(platform: Platform, id: Identity, k: nat)
    requires ValidIdentity(platform, id) && k + 1 < |Format(id)|
    ensures Format(id)[k] != '\n'
  {
    hide ParseProcessStart, ToText, ValidToken;
    DigitsHaveNo(ToText(id.pid), '\n');
    StartIsOneWord(platform, id.processStart, '\n');
    TokenLength(id.controlToken);
    var line := TAG + " " + ToText(id.pid) + " " + id.processStart + " " + id.controlToken;
    assert Format(id) == line + "\n";
    assert '\n' !in TAG + " ";
    assert line[k] in line;
  }

  /** A record cut short is never taken for a record. */
  lemma TruncatedNeverParses(platform: Platform, id: Identity, written: nat)
    requires ValidIdentity(platform, id) && written < |Format(id)|
    ensures ParseRecord(platform, Format(id)[..written]).None?
  {
    hide ParseProcessStart, ToText, ValidToken, FindChar, ParseUnsigned, ValidIdentity;
    if written > 0 {
      OneLine(platform, id, written - 1);
    }
  }

  lemma TextParses(n: nat, minimum: nat, maximum: nat)
    requires minimum <= n <= maximum <= MAX_UINT64
    ensures ParseUnsigned(ToText(n), minimum, maximum) == Some(n)
  {
    ValueOfText(n);
  }

  lemma UnsignedIff(s: string, minimum: nat, maximum: nat)
    requires maximum <= MAX_UINT64
    ensures ParseUnsigned(s, minimum, maximum).Some? <==> exists n: nat :: minimum <= n <= maximum && s == ToText(n)
  {
    if ParseUnsigned(s, minimum, maximum).Some? {
      TextOfValue(s);
    }
    forall n: nat | minimum <= n <= maximum && s == ToText(n) ensures ParseUnsigned(s, minimum, maximum).Some? {
      TextParses(n, minimum, maximum);
    }
  }

  /** Seconds and microseconds, as macOS reports the start of a process. */
  predicate IsMacOsStart(value: string, seconds: nat, micros: nat) {
    && 1 <= seconds <= 18446744073709551615 && micros <= 999999
    && value == "macos:" + ToText(seconds) + ":" + ToText(micros)
  }

  lemma MacOsStartParses(value: string, seconds: nat, micros: nat)
    requires IsMacOsStart(value, seconds, micros)
    ensures ParseProcessStart(MacOs, value)
  {
    hide ParseUnsigned, FindChar, ToText;
    var a, b := ToText(seconds), ToText(micros);
    Colons(value, a, b);
    TextParses(seconds, 1, MAX_UINT64);
    TextParses(micros, 0, 999999);
  }

  /** Where the fields of a macOS token begin and end. */
  lemma Colons(value: string, a: string, b: string)
    requires AllDigits(a) && AllDigits(b) && value == "macos:" + a + ":" + b
    ensures var rest := value[6..];
            && "macos:" <= value && |rest| > |a| && rest[..|a|] == a && rest[|a| + 1..] == b
            && FindChar(rest, ':', 0) == Some(|a|) && FindChar(rest, ':', |a| + 1).None?
  {
    hide FindChar;
    var rest := value[6..];
    assert rest == a + ":" + b by {
      assert value == "macos:" + (a + ":" + b);
    }
    DigitsHaveNo(a, ':');
    DigitsHaveNo(b, ':');
    assert rest[0..|a|] == a && rest[|a| + 1..] == b;
    FindAfterWord(rest, 0, |a|, ':');
    NotFound(rest, |a| + 1, ':');
  }

  lemma {:induction false} NotFound(s: string, from: nat, c: char)
    requires from <= |s| && c !in s[from..]
    ensures FindChar(s, c, from).None?
    decreases |s| - from
  {
    if from < |s| {
      assert s[from] == s[from..][0] && s[from + 1..] == s[from..][1..];
      NotFound(s, from + 1, c);
    }
  }

  lemma LinuxStartIff(value: string)
    ensures ParseProcessStart(Linux, value) <==>
              exists n: nat :: 1 <= n <= MAX_UINT64 && value == "linux:" + ToText(n)
  {
    hide ParseUnsigned, ToText;
    if |value| >= 6 {
      UnsignedIff(value[6..], 1, MAX_UINT64);
      assert value == value[..6] + value[6..];
    }
  }

  lemma MacOsStartIs(value: string)
    requires ParseProcessStart(MacOs, value)
    ensures exists s, u :: IsMacOsStart(value, s, u)
  {
    var rest := value[6..];
    var k := FindChar(rest, ':', 0).value;
    FoundIs(rest, ':', 0);
    hide FindChar, ToText, ParseProcessStart;
    TextOfValue(rest[..k]);
    TextOfValue(rest[k + 1..]);
    hide ParseUnsigned, Canonical, AllDigits;
    ThreeParts(value, k);
    assert IsMacOsStart(value, Value(rest[..k]), Value(rest[k + 1..]));
  }

  lemma ThreeParts(value: string, k: nat)
    requires 6 + k < |value| && "macos:" <= value && value[6..][k] == ':'
    ensures value == "macos:" + value[6..][..k] + ":" + value[6..][k + 1..]
  {
    var rest := value[6..];
    assert rest == rest[..k] + [rest[k]] + rest[k + 1..];
    assert value == value[..6] + rest;
  }

  /** The start tokens that are accepted, written out. */
  lemma StartIff(value: string)
    ensures ParseProcessStart(Linux, value) <==>
              exists n: nat :: 1 <= n <= 18446744073709551615 && value == "linux:" + ToText(n)
    ensures ParseProcessStart(MacOs, value) <==> exists s, u :: IsMacOsStart(value, s, u)
  {
    hide ParseProcessStart, IsMacOsStart, ToText;
    LinuxStartIff(value);
    if ParseProcessStart(MacOs, value) {
      MacOsStartIs(value);
    }
    forall s, u | IsMacOsStart(value, s, u) ensures ParseProcessStart(MacOs, value) {
      MacOsStartParses(value, s, u);
    }
  }

  lemma {:induction false} FoundIs(s: string, c: char, from: nat)
    ensures FindChar(s, c, from).Some? ==>
              from <= FindChar(s, c, from).value < |s| && s[FindChar(s, c, from).value] == c
    decreases |s| - from
  {
    if from < |s| {
      FoundIs(s, c, from + 1);
    }
  }

  lemma DigitCount(s: string, minimum: nat, maximum: nat)
    requires ParseUnsigned(s, minimum, maximum).Some?
    ensures |s| <= 20
  {
    assert Pow10(20) == 100_000_000_000_000_000_000 by {
      assert Pow10(4) == 10_000;
      assert Pow10(8) == 100_000_000;
      assert Pow10(12) == 1_000_000_000_000;
      assert Pow10(16) == 10_000_000_000_000_000;
    }
    LengthBound(s, 20);
  }

  lemma StartLength(platform: Platform, value: string)
    requires ParseProcessStart(platform, value)
    ensures |value| <= 47
  {
    var rest := value[6..];
    match platform {
      case Linux => DigitCount(rest, 1, MAX_UINT64);
      case MacOs =>
        var k := FindChar(rest, ':', 0).value;
        DigitCount(rest[..k], 1, MAX_UINT64);
        DigitCount(rest[k + 1..], 0, 999999);
    }
  }

  /** Every record fits the size limit that readers impose. */
  lemma RecordFits(platform: Platform, id: Identity)
    requires ValidIdentity(platform, id)
    ensures 0 < |Format(id)| <= MAX_RECORD_BYTES
  {
    hide ParseProcessStart, ToText, ValidToken, ParseUnsigned;
    TextParses(id.pid, 1, MAX_PID);
    DigitCount(ToText(id.pid), 1, MAX_PID);
    StartLength(platform, id.processStart);
    TokenLength(id.controlToken);
  }
}
