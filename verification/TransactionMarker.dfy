/**
 The text of the transaction marker that `Store::mutate` leaves beside
 config.toml: three newline-terminated lines holding the state, the digest of
 the old document (empty when there was none) and the digest of the new one.
 The file is created first and filled afterwards, so what matters is how the
 parser treats every prefix of that text.
 */
module TransactionMarker {
  import opened Optional

  const DIGEST_LENGTH := 64

  datatype State = PendingPresent | PendingMissing | CommittedPresent | CommittedMissing

  datatype Record = Record(state: State, oldHash: string, newHash: string)

  predicate NoNewline(s: string) {
    '\n' !in s
  }

  predicate IsDigest(s: string) {
    |s| == DIGEST_LENGTH && NoNewline(s)
  }

  /** `std::getline`: fails only when nothing at all is left; the last line needs no newline. */
  function GetLine(s: string): (r: Option<(string, string)>)
    ensures r.Some? ==> |r.value.1| < |s| && NoNewline(r.value.0)
  {
    if s == "" then None
    else if s[0] == '\n' then Some(("", s[1..]))
    else
      match GetLine(s[1..])
      case None => Some((s, ""))
      case Some((line, rest)) => Some(([s[0]] + line, rest))
  }

  function StateName(state: State): string {
    match state
    case PendingPresent => "pending-present"
    case PendingMissing => "pending-missing"
    case CommittedPresent => "committed-present"
    case CommittedMissing => "committed-missing"
  }

  function ParseState(line: string): Option<State> {
    if line == "pending-present" then Some(PendingPresent)
    else if line == "pending-missing" then Some(PendingMissing)
    else if line == "committed-present" then Some(CommittedPresent)
    else if line == "committed-missing" then Some(CommittedMissing)
    else None
  }

  function ParseTransaction(bytes: string): Option<Record> {
    match GetLine(bytes)
    case None => None
    case Some((state, rest1)) =>
      match GetLine(rest1)
      case None => None
      case Some((oldHash, rest2)) =>
        match GetLine(rest2)
        case None => None
        case Some((newHash, rest3)) =>
          if GetLine(rest3).Some? then None
          else if |newHash| != DIGEST_LENGTH || (oldHash != "" && |oldHash| != DIGEST_LENGTH) then None
          else if ParseState(state).None? then None
          else Some(Record(ParseState(state).value, oldHash, newHash))
  }

  function RecordState(committed: bool, oldPresent: bool): State {
    if committed then (if oldPresent then CommittedPresent else CommittedMissing)
    else if oldPresent then PendingPresent else PendingMissing
  }

  function TransactionBytes(committed: bool, oldPresent: bool, oldHash: string, newHash: string): string {
    (if committed then "committed-" else "pending-") + (if oldPresent then "present\n" else "missing\n")
    + oldHash + "\n" + newHash + "\n"
  }

  lemma {:induction false} GetLineSplits(line: string, rest: string)
    requires NoNewline(line)
    ensures GetLine(line + "\n" + rest) == Some((line, rest))
  {
    var s := line + "\n" + rest;
    if line == "" {
      assert s == "\n" + rest;
    } else {
      GetLineSplits(line[1..], rest);
      assert s[1..] == line[1..] + "\n" + rest;
      assert [line[0]] + line[1..] == line;
    }
  }

  lemma {:induction false} GetLineUnterminated(line: string)
    requires NoNewline(line) && line != ""
    ensures GetLine(line) == Some((line, ""))
  {
    if |line| > 1 {
      GetLineUnterminated(line[1..]);
      assert [line[0]] + line[1..] == line;
    } else {
      assert line[1..] == "";
    }
  }

  lemma StateLine(committed: bool, oldPresent: bool)
    ensures (if committed then "committed-" else "pending-") + (if oldPresent then "present\n" else "missing\n")
         == StateName(RecordState(committed, oldPresent)) + "\n"
    ensures NoNewline(StateName(RecordState(committed, oldPresent)))
    ensures ParseState(StateName(RecordState(committed, oldPresent))) == Some(RecordState(committed, oldPresent))
  {
    assert "committed-" + "present\n" == "committed-present" + "\n";
    assert "committed-" + "missing\n" == "committed-missing" + "\n";
    assert "pending-" + "present\n" == "pending-present" + "\n";
    assert "pending-" + "missing\n" == "pending-missing" + "\n";
  }

  predicate WellFormed(oldPresent: bool, oldHash: string, newHash: string) {
    IsDigest(newHash) && (if oldPresent then IsDigest(oldHash) else oldHash == "")
  }

  /**
   Exactly which prefixes of a marker parse: the complete text, and the text that
   lacks only its last newline. Every shorter prefix is rejected, so a marker whose
   bytes were cut short never passes for a different record.
   */
  lemma PrefixParses(committed: bool, oldPresent: bool, oldHash: string, newHash: string, written: nat)
    requires WellFormed(oldPresent, oldHash, newHash)
    requires written <= |TransactionBytes(committed, oldPresent, oldHash, newHash)|
    ensures var bytes := TransactionBytes(committed, oldPresent, oldHash, newHash);
            var record := Record(RecordState(committed, oldPresent), oldHash, newHash);
            ParseTransaction(bytes[..written]) == (if written + 1 < |bytes| then None else Some(record))
  {
    var bytes := TransactionBytes(committed, oldPresent, oldHash, newHash);
    var head := StateName(RecordState(committed, oldPresent));
    StateLine(committed, oldPresent);
    var tail := oldHash + "\n" + newHash + "\n";
    assert bytes == head + "\n" + tail;
    var cut := bytes[..written];
    if written <= |head| {
      assert cut == head[..written];
      if written > 0 { GetLineUnterminated(cut); }
    } else {
      var k := written - |head| - 1;
      assert cut == head + "\n" + tail[..k];
      GetLineSplits(head, tail[..k]);
      DigestLines(oldHash, newHash, k);
      assert |bytes| == |head| + 1 + |oldHash| + 1 + DIGEST_LENGTH + 1;
      assert newHash[..DIGEST_LENGTH] == newHash;
      assert GetLine(cut) == Some((head, tail[..k]));
    }
  }

  /** The two digest lines, cut after `k` characters: what the second and third reads see. */
  lemma DigestLines(oldHash: string, newHash: string, k: nat)
    requires NoNewline(oldHash) && IsDigest(newHash)
    requires k <= |oldHash| + 1 + DIGEST_LENGTH + 1
    ensures var tail := (oldHash + "\n" + newHash + "\n")[..k];
            if k < |oldHash| + 2 then
              GetLine(tail).None? || GetLine(GetLine(tail).value.1).None?
            else
              && GetLine(tail).Some? && GetLine(tail).value.0 == oldHash
              && var line3 := GetLine(GetLine(tail).value.1);
              && line3.Some? && line3.value.1 == ""
              && line3.value.0 == newHash[..if k - |oldHash| <= DIGEST_LENGTH then k - |oldHash| - 1 else DIGEST_LENGTH]
  {
    var whole := oldHash + "\n" + newHash + "\n";
    var tail := whole[..k];
    if k <= |oldHash| {
      assert tail == oldHash[..k];
      if k > 0 { GetLineUnterminated(tail); }
    } else {
      var j := k - |oldHash| - 1;
      var rest := (newHash + "\n")[..j];
      assert whole == oldHash + "\n" + (newHash + "\n");
      assert tail == oldHash + "\n" + rest;
      GetLineSplits(oldHash, rest);
      if j == DIGEST_LENGTH + 1 {
        assert rest == newHash + "\n" + "";
        GetLineSplits(newHash, "");
        assert newHash[..DIGEST_LENGTH] == newHash;
      } else if j > 0 {
        assert rest == newHash[..j];
        GetLineUnterminated(rest);
      }
    }
  }

  /** What was read is the line and what is left, with or without a newline at the very end. */
  lemma {:induction false} GetLineInverse(s: string)
    ensures GetLine(s).None? <==> s == ""
    ensures GetLine(s).Some? ==>
              var (line, rest) := GetLine(s).value;
              s == line + "\n" + rest || (s == line && rest == "")
  {
    if s != "" && s[0] != '\n' {
      GetLineInverse(s[1..]);
      if s[1..] != "" {
        var (line, rest) := GetLine(s[1..]).value;
        assert s == [s[0]] + s[1..];
        assert [s[0]] + (line + "\n" + rest) == [s[0]] + line + "\n" + rest;
      }
    } else if s != "" {
      assert s == "" + "\n" + s[1..];
    }
  }

  /** Three lines. */
  function ThreeLines(a: string, b: string, c: string): string {
    a + "\n" + b + "\n" + c + "\n"
  }

  lemma ReadThreeLines(a: string, b: string, c: string, last: string)
    requires NoNewline(a) && NoNewline(b) && NoNewline(c) && c != "" && last in {"", "\n"}
    ensures var bytes := a + "\n" + b + "\n" + c + last;
            var second := b + "\n" + c + last;
            && GetLine(bytes) == Some((a, second)) && GetLine(second) == Some((b, c + last))
            && GetLine(c + last) == Some((c, ""))
  {
    GetLineSplits(a, b + "\n" + c + last);
    assert a + "\n" + b + "\n" + c + last == a + "\n" + (b + "\n" + c + last);
    GetLineSplits(b, c + last);
    assert b + "\n" + c + last == b + "\n" + (c + last);
    if last == "" {
      assert c + last == c;
      GetLineUnterminated(c);
    } else {
      assert c + last == c + "\n" + "";
      GetLineSplits(c, "");
    }
  }

  /** A marker's text may lack its last newline. */
  predicate IsText(bytes: string, whole: string) {
    bytes == whole || bytes + "\n" == whole
  }

  lemma ParsedIsText(bytes: string, record: Record)
    requires ParseTransaction(bytes) == Some(record)
    ensures NoNewline(record.oldHash) && NoNewline(record.newHash)
    ensures IsText(bytes, ThreeLines(StateName(record.state), record.oldHash, record.newHash))
  {
    GetLineInverse(bytes);
    var (a, rest1) := GetLine(bytes).value;
    GetLineInverse(rest1);
    var (b, rest2) := GetLine(rest1).value;
    GetLineInverse(rest2);
    var (c, rest3) := GetLine(rest2).value;
    GetLineInverse(rest3);
    NamesParse(a);
    hide GetLine, ParseTransaction, ParseState, StateName;
    assert bytes == a + "\n" + rest1 && rest1 == b + "\n" + rest2;
    assert rest2 == c + "\n" || rest2 == c by { assert c + "\n" + "" == c + "\n"; }
    assert a + "\n" + (b + "\n" + rest2) == a + "\n" + b + "\n" + rest2;
    assert a + "\n" + b + "\n" + (c + "\n") == a + "\n" + b + "\n" + c + "\n";
  }

  lemma NamesParse(line: string)
    ensures ParseState(line).Some? ==> StateName(ParseState(line).value) == line
  {
  }

  lemma TextParses(bytes: string, record: Record)
    requires |record.newHash| == DIGEST_LENGTH && |record.oldHash| in {0, DIGEST_LENGTH}
    requires NoNewline(record.oldHash) && NoNewline(record.newHash)
    requires IsText(bytes, ThreeLines(StateName(record.state), record.oldHash, record.newHash))
    ensures ParseTransaction(bytes) == Some(record)
  {
    var name := StateName(record.state);
    StateNames(record.state);
    hide GetLine, ParseState, StateName;
    var front := name + "\n" + record.oldHash + "\n" + record.newHash;
    var last := if bytes == front + "\n" then "\n" else "";
    assert bytes == front + last by {
      if bytes != front + "\n" {
        assert bytes + "\n" == front + "\n";
        assert (bytes + "\n")[..|bytes|] == bytes && (front + "\n")[..|front|] == front;
      }
    }
    ReadThreeLines(name, record.oldHash, record.newHash, last);
    Empty();
  }

  lemma Empty()
    ensures GetLine("").None?
  {
  }

  lemma StateNames(state: State)
    ensures NoNewline(StateName(state)) && ParseState(StateName(state)) == Some(state)
  {
  }

  /** Exactly which bytes parse, and to what: three lines, the last one with or without its newline. */
  lemma ParsesIff(bytes: string, record: Record)
    ensures ParseTransaction(bytes) == Some(record) <==>
            && |record.newHash| == DIGEST_LENGTH && |record.oldHash| in {0, DIGEST_LENGTH}
            && NoNewline(record.oldHash) && NoNewline(record.newHash)
            && IsText(bytes, ThreeLines(StateName(record.state), record.oldHash, record.newHash))
  {
    if ParseTransaction(bytes) == Some(record) {
      ParsedIsText(bytes, record);
      DigestLengths(bytes, record);
    }
    hide ParseTransaction, ThreeLines, StateName, IsText;
    if && |record.newHash| == DIGEST_LENGTH && |record.oldHash| in {0, DIGEST_LENGTH}
       && NoNewline(record.oldHash) && NoNewline(record.newHash)
       && IsText(bytes, ThreeLines(StateName(record.state), record.oldHash, record.newHash)) {
      TextParses(bytes, record);
    }
  }

  lemma DigestLengths(bytes: string, record: Record)
    requires ParseTransaction(bytes) == Some(record)
    ensures |record.newHash| == DIGEST_LENGTH && |record.oldHash| in {0, DIGEST_LENGTH}
  {
    hide GetLine, ParseState;
  }
}
