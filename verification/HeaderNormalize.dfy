/**
 `normalize_doxygen_header`: the header without its Doxygen comments. A small lexer runs over the
 lines that are kept, so that a comment is only taken for one where the language has one.
 */
module HeaderNormalize {
  import opened Optional
  import opened Search
  import opened HeaderLines

  datatype Mode =
    | Normal
    | LineComment
    | BlockComment
    | StringLiteral
    | CharacterLiteral
    | RawString(delimiter: string)

  const RAW_PREFIXES: seq<string> := ["u8R", "uR", "UR", "LR", "R"]
  const DELIMITER_PUNCTUATION := "_{}[]#<>%:;.?*+-/^&|~!=,\"'"

  predicate DelimiterChar(c: char) {
    'a' <= c <= 'z' || 'A' <= c <= 'Z' || '0' <= c <= '9' || c in DELIMITER_PUNCTUATION
  }

  predicate StartsAt(body: string, pattern: string, index: nat) {
    Occurs(body, pattern, index)
  }

  predicate EndsWithBackslash(body: string) {
    body != "" && body[|body| - 1] == '\\'
  }

  datatype Opener = NotRaw | Raw(contentStart: nat, delimiter: string) | BadDelimiter

  /** `raw_string_opener`; which characters are alphanumeric is Python's business. */
  function RawStringOpener(body: string, index: nat, alnum: char -> bool): (r: Opener)
    requires index < |body|
    ensures r.Raw? ==> index < r.contentStart <= |body|
  {
    if index != 0 && (alnum(body[index - 1]) || body[index - 1] == '_') then NotRaw
    else FirstPrefix(body, index, 0)
  }

  function FirstPrefix(body: string, index: nat, k: nat): (r: Opener)
    requires index < |body| && k <= 5
    ensures r.Raw? ==> index < r.contentStart <= |body|
    decreases 5 - k
  {
    if k == 5 then NotRaw
    else
      var marker := RAW_PREFIXES[k] + "\"";
      if !StartsAt(body, marker, index) then FirstPrefix(body, index, k + 1)
      else Delimited(body, index + |marker|)
  }

  /** The delimiter that starts here, up to a parenthesis. */
  function Delimited(body: string, start: nat): (r: Opener)
    ensures r.Raw? ==> start < r.contentStart <= |body|
  {
    match FindText(body, "(", start)
    case None => BadDelimiter
    case Some(opening) =>
      var delimiter := body[start..opening];
      if |delimiter| <= 16 && forall i :: 0 <= i < |delimiter| ==> DelimiterChar(delimiter[i])
      then Raw(opening + 1, delimiter) else BadDelimiter
  }

  function Terminator(delimiter: string): string {
    ")" + delimiter + "\""
  }

  /** What one step of the scan does: go on elsewhere, end the line in a mode, or refuse the header. */
  datatype Step = Go(mode: Mode, index: nat) | Stop(mode: Mode) | Refuse

  function RestOfComment(body: string): Mode {
    if EndsWithBackslash(body) then LineComment else Normal
  }

  function RawStep(body: string, contentStart: nat, delimiter: string): (r: Step)
    ensures r.Go? ==> contentStart < r.index <= |body|
  {
    match FindText(body, Terminator(delimiter), contentStart)
    case None => Stop(RawString(delimiter))
    case Some(closing) => Go(Normal, closing + |Terminator(delimiter)|)
  }

  function NormalStep(body: string, index: nat, reject: bool, alnum: char -> bool): (r: Step)
    requires index < |body|
    ensures r.Go? ==> index < r.index <= |body|
  {
    if StartsAt(body, "*/", index) then Refuse
    else if reject && StartsAt(body, "/**", index) then Refuse
    else if reject && StartsAt(body, "////", index) then Stop(RestOfComment(body))
    else if reject && StartsAt(body, "///", index) then Refuse
    else if StartsAt(body, "//", index) then Stop(RestOfComment(body))
    else if StartsAt(body, "/*", index) then Go(BlockComment, index + 2)
    else
      match RawStringOpener(body, index, alnum)
      case BadDelimiter => Refuse
      case Raw(contentStart, delimiter) => RawStep(body, contentStart, delimiter)
      case NotRaw =>
        if body[index] == '\"' then Go(StringLiteral, index + 1)
        else if body[index] == '\'' then Go(CharacterLiteral, index + 1)
        else Go(Normal, index + 1)
  }

  function ScanStep(body: string, mode: Mode, index: nat, reject: bool, alnum: char -> bool): (r: Step)
    requires index < |body|
    ensures r.Go? ==> index < r.index <= |body|
  {
    match mode
    case Normal => NormalStep(body, index, reject, alnum)
    case BlockComment => if StartsAt(body, "*/", index) then Go(Normal, index + 2) else Go(mode, index + 1)
    case StringLiteral => LiteralStep(body, mode, '\"', index)
    case CharacterLiteral => LiteralStep(body, mode, '\'', index)
    case _ => Go(mode, index + 1)
  }

  function LiteralStep(body: string, mode: Mode, quote: char, index: nat): (r: Step)
    requires index < |body|
    ensures r.Go? ==> index < r.index <= |body|
  {
    if body[index] == '\\' && index + 1 < |body| then Go(mode, index + 2)
    else if body[index] == quote then Go(Normal, index + 1)
    else Go(mode, index + 1)
  }

  /** The mode at the end of a line that is in `mode` at `index`. */
  function Scan(body: string, mode: Mode, index: nat, reject: bool, alnum: char -> bool): Option<Mode>
    requires index <= |body|
    decreases |body| - index
  {
    if index == |body| then Some(mode)
    else
      match ScanStep(body, mode, index, reject, alnum)
      case Refuse => None
      case Stop(end) => Some(end)
      case Go(next, at) => Scan(body, next, at, reject, alnum)
  }

  function ScanLine(body: string, mode: Mode, reject: bool, alnum: char -> bool): Option<Mode> {
    match mode
    case LineComment => Some(RestOfComment(body))
    case RawString(delimiter) =>
      (match RawStep(body, 0, delimiter)
       case Go(next, at) => Scan(body, next, at, true, alnum)
       case _ => Some(mode))
    case _ => Scan(body, mode, 0, reject, alnum)
  }

  /** `scan_preserved_header_line`. */
  method ScanPreservedHeaderLine(body: string, mode: Mode, reject: bool, alnum: char -> bool)
      returns (end: Option<Mode>)
    ensures end == ScanLine(body, mode, reject, alnum)
  {
    if mode.LineComment? {
      return Some(RestOfComment(body));
    }
    var index, now, rejecting := 0, mode, reject;
    if mode.RawString? {
      var closing := FindText(body, Terminator(mode.delimiter), 0);
      if closing.None? { return Some(mode); }
      index, now, rejecting := closing.value + |Terminator(mode.delimiter)|, Normal, true;
    }
    while index < |body|
      invariant 0 <= index <= |body|
      invariant ScanLine(body, mode, reject, alnum) == Scan(body, now, index, rejecting, alnum)
      decreases |body| - index
    {
      match ScanStep(body, now, index, rejecting, alnum) {
        case Refuse => return None;
        case Stop(last) => return Some(last);
        case Go(next, at) => now, index := next, at;
      }
    }
    return Some(now);
  }

  // Doxygen comments, a line at a time.

  predicate Blank(s: string) {
    forall i :: 0 <= i < |s| ==> s[i] == ' ' || s[i] == '\t'
  }

  /** How many blanks `s` starts with. */
  function Indent(s: string): (n: nat)
    ensures n <= |s|
  {
    if s != "" && (s[0] == ' ' || s[0] == '\t') then 1 + Indent(s[1..]) else 0
  }

  /** Blanks around this token and nothing else. */
  predicate OnlyToken(body: string, token: string) {
    var rest := body[Indent(body)..];
    token <= rest && Blank(rest[|token|..])
  }

  predicate BlockOpener(body: string) {
    OnlyToken(body, "/**")
  }

  predicate DocumentationLine(body: string) {
    var rest := body[Indent(body)..];
    "///" <= rest && (|rest| == 3 || rest[3] == ' ')
  }

  /** The lexer between two lines: its mode, and whether the last kept line is continued. */
  datatype State = State(mode: Mode, continued: bool)

  predicate Eligible(s: State) {
    s.mode.Normal? && !s.continued
  }

  datatype Effect = Keep(next: State) | Drop | OpenBlock | Reject

  /** What happens to a line outside Doxygen blocks. */
  function LineEffect(l: Line, s: State, alnum: char -> bool): Effect {
    if Eligible(s) && BlockOpener(l.body) then
      if l.ending == "" then Reject else OpenBlock
    else if Eligible(s) && DocumentationLine(l.body) then
      if l.ending == "" || EndsWithBackslash(l.body) then Reject else Drop
    else
      match ScanLine(l.body, s.mode, Eligible(s), alnum)
      case None => Reject
      case Some(mode) => Keep(State(mode, EndsWithBackslash(l.body)))
  }

  /** What happens to a line inside a Doxygen block: whether it closes, or None if it is refused. */
  function BlockEffect(l: Line): Option<bool> {
    if l.ending == "" || EndsWithBackslash(l.body) || FindText(l.body, "/**", 0).Some? then None
    else if FindText(l.body, "*/", 0).None? then Some(false)
    else if OnlyToken(l.body, "*/") then Some(true)
    else None
  }

  /** The lines kept, and the state after the last; None if the header is refused. */
  function Run(lines: seq<Line>, s: State, inBlock: bool, alnum: char -> bool): Option<(seq<Line>, State)> {
    if lines == [] then
      if inBlock || s.mode.RawString? then None else Some(([], s))
    else if inBlock then
      match BlockEffect(lines[0])
      case None => None
      case Some(closed) => Run(lines[1..], s, !closed, alnum)
    else
      match LineEffect(lines[0], s, alnum)
      case Reject => None
      case Drop => Run(lines[1..], s, false, alnum)
      case OpenBlock => Run(lines[1..], s, true, alnum)
      case Keep(next) =>
        match Run(lines[1..], next, false, alnum)
        case None => None
        case Some((kept, end)) => Some(([lines[0]] + kept, end))
  }

  const START := State(Normal, false)

  function Normalize(text: string, alnum: char -> bool): Option<string> {
    match Run(Lines(text), START, false, alnum)
    case None => None
    case Some((kept, _)) => Some(Joined(kept))
  }

  // What the lines of a text look like, and what becomes of them once some are gone.

  /** Two lines that read as one when they come next to each other. */
  predicate Junction(a: Line, b: Line) {
    a.ending == "\r" && b == Line("", "\n")
  }

  /** Lines as a text has them, except that some may have to be read together. */
  predicate Neat(lines: seq<Line>) {
    lines != [] ==>
      && Shaped(lines[0]) && lines[0].body + lines[0].ending != ""
      && (|lines| > 1 ==> lines[0].ending != "") && Neat(lines[1..])
  }

  predicate NoJunction(lines: seq<Line>) {
    lines != [] ==> (|lines| > 1 ==> !Junction(lines[0], lines[1])) && NoJunction(lines[1..])
  }

  lemma FirstLineIsShaped(text: string)
    requires text != ""
    ensures Shaped(FirstLine(text))
    ensures var l := FirstLine(text);
            var rest := text[|l.body| + |l.ending|..];
            l.ending == "\r" && rest != "" ==> rest[0] != '\n'
  {
    var n := BodyLength(text);
    var e := EndingOf(text[n..]);
    if e == "\r" && n + 1 < |text| {
      assert text[n..][1] == text[n + 1] && text[n..][0] == '\r';
      assert text[n + 1] != '\n';
    }
  }

  lemma BareNewline(text: string)
    requires text != "" && FirstLine(text) == Line("", "\n")
    ensures text[0] == '\n'
  {
    assert "" + "\n" <= text;
  }

  lemma {:induction false} LinesAreNeat(text: string)
    ensures Neat(Lines(text)) && NoJunction(Lines(text))
  {
    hide FirstLine, Shaped;
    if text != "" {
      FirstLineIsShaped(text);
      var l := FirstLine(text);
      var rest := text[|l.body| + |l.ending|..];
      LinesAreNeat(rest);
      assert Lines(text)[1..] == Lines(rest);
      if rest != "" && FirstLine(rest) == Line("", "\n") {
        BareNewline(rest);
      }
    }
  }

  /** All of `kept` is kept, from `s` to `end`, and wherever two lines will be joined nothing is open. */
  predicate Settled(kept: seq<Line>, s: State, end: State, alnum: char -> bool) {
    if kept == [] then s == end && !end.mode.RawString?
    else
      match LineEffect(kept[0], s, alnum)
      case Keep(next) => (|kept| > 1 && Junction(kept[0], kept[1]) ==> Eligible(next))
          && Settled(kept[1..], next, end, alnum)
      case _ => false
  }

  /** Lines are only dropped where nothing is open, so dropping them changes no state. */
  lemma {:induction false} RunSettles(lines: seq<Line>, s: State, inBlock: bool, alnum: char -> bool)
    requires Neat(lines) && NoJunction(lines) && Run(lines, s, inBlock, alnum).Some? && (inBlock ==> Eligible(s))
    ensures var (kept, end) := Run(lines, s, inBlock, alnum).value;
            && Settled(kept, s, end, alnum) && Neat(kept)
            && (kept != [] ==> lines != [] && (Eligible(s) || kept[0] == lines[0]))
  {
    hide LineEffect, BlockEffect, Shaped, Eligible;
    if lines != [] {
      if inBlock {
        RunSettles(lines[1..], s, !BlockEffect(lines[0]).value, alnum);
      } else {
        DroppedWhereEligible(lines[0], s, alnum);
        match LineEffect(lines[0], s, alnum)
        case Reject =>
        case Drop => RunSettles(lines[1..], s, false, alnum);
        case OpenBlock => RunSettles(lines[1..], s, true, alnum);
        case Keep(next) =>
          RunSettles(lines[1..], next, false, alnum);
          var kept := Run(lines[1..], next, false, alnum).value.0;
          assert ([lines[0]] + kept)[1..] == kept;
      }
    }
  }

  lemma DroppedWhereEligible(l: Line, s: State, alnum: char -> bool)
    ensures LineEffect(l, s, alnum) in {Drop, OpenBlock} ==> Eligible(s)
  {
  }

  /** The lines as they read once they are put together. */
  function Merge(kept: seq<Line>): seq<Line> {
    if kept == [] then []
    else if |kept| > 1 && Junction(kept[0], kept[1]) then [Line(kept[0].body, "\r\n")] + Merge(kept[2..])
    else [kept[0]] + Merge(kept[1..])
  }

  lemma {:induction false} MergeJoins(kept: seq<Line>)
    ensures Joined(Merge(kept)) == Joined(kept)
  {
    if kept != [] {
      if |kept| > 1 && Junction(kept[0], kept[1]) {
        MergeJoins(kept[2..]);
        assert kept[1..][1..] == kept[2..];
        assert Joined(kept[1..]) == "\n" + Joined(kept[2..]);
        var first := Line(kept[0].body, "\r\n");
        assert Joined([first] + Merge(kept[2..])) == first.body + "\r\n" + Joined(kept[2..]);
        assert first.body + "\r\n" + Joined(kept[2..]) == first.body + "\r" + ("\n" + Joined(kept[2..]));
      } else {
        MergeJoins(kept[1..]);
      }
    }
  }

  lemma EmptyLineChangesNothing(l: Line, s: State, alnum: char -> bool)
    requires Eligible(s) && l.body == ""
    ensures LineEffect(l, s, alnum) == Keep(s)
  {
    hide Indent, Scan;
    assert Scan(l.body, s.mode, 0, true, alnum) == Some(s.mode) by { NothingToScan(l.body, s.mode, alnum); }
    assert Indent(l.body) == 0;
  }

  lemma NothingToScan(body: string, mode: Mode, alnum: char -> bool)
    requires body == ""
    ensures Scan(body, mode, 0, true, alnum) == Some(mode)
  {
  }

  lemma EndingDoesNotMatter(body: string, s: State, alnum: char -> bool)
    requires LineEffect(Line(body, "\r"), s, alnum).Keep?
    ensures LineEffect(Line(body, "\r\n"), s, alnum) == LineEffect(Line(body, "\r"), s, alnum)
  {
  }

  lemma {:induction false} MergedRuns(kept: seq<Line>, s: State, end: State, alnum: char -> bool)
    requires Settled(kept, s, end, alnum)
    ensures Run(Merge(kept), s, false, alnum) == Some((Merge(kept), end))
  {
    hide LineEffect, Eligible;
    if kept != [] {
      var next := LineEffect(kept[0], s, alnum).next;
      if |kept| > 1 && Junction(kept[0], kept[1]) {
        EndingDoesNotMatter(kept[0].body, s, alnum);
        EmptyLineChangesNothing(kept[1], next, alnum);
        assert kept[1..][0] == kept[1] && kept[1..][1..] == kept[2..];
        MergedRuns(kept[2..], next, end, alnum);
      } else {
        MergedRuns(kept[1..], next, end, alnum);
      }
    }
  }

  function Widened(l: Line, rest: string): Line {
    if l.ending == "\r" && rest != "" && rest[0] == '\n' then Line(l.body, "\r\n") else l
  }

  lemma EndingWith(ending: string, rest: string)
    requires IsEnding(ending) && ending != ""
    ensures EndingOf(ending + rest) == Widened(Line("", ending), rest).ending
  {
    var t := ending + rest;
    if ending == "\r" && rest != "" && rest[0] == '\n' {
      assert t[..2] == "\r\n";
    } else if ending == "\r\n" {
      assert t[..2] == ending;
    } else {
      assert [t[0]] == ending;
      assert |t| > 1 ==> t[1] == rest[0];
    }
  }

  /** The line a text starts with takes in a newline right after its carriage return. */
  lemma FirstLineOf(l: Line, rest: string)
    requires Shaped(l) && l.body + l.ending != "" && (l.ending == "" ==> rest == "")
    ensures FirstLine(l.body + l.ending + rest) == Widened(l, rest)
  {
    var text := l.body + l.ending + rest;
    assert l.ending != "" ==> text[|l.body|] == l.ending[0];
    BodyLengthIs(text, |l.body|);
    assert text[..|l.body|] == l.body && text[|l.body|..] == l.ending + rest;
    hide EndingOf;
    if l.ending != "" {
      EndingWith(l.ending, rest);
    }
  }

  /** The first line of neat lines put together. */
  lemma FirstOfJoined(kept: seq<Line>)
    requires Neat(kept) && kept != []
    ensures var text := Joined(kept);
            text != "" && FirstLine(text) == Merge(kept)[0]
  {
    hide FirstLine, Shaped;
    assert |kept| == 1 ==> Joined(kept[1..]) == "";
    FirstLineOf(kept[0], Joined(kept[1..]));
    if |kept| > 1 {
      FirstChar(kept[1..]);
    }
  }

  /** Only a bare newline starts with a newline. */
  lemma FirstChar(kept: seq<Line>)
    requires Neat(kept) && kept != []
    ensures Joined(kept) != "" && (Joined(kept)[0] == '\n' <==> kept[0] == Line("", "\n"))
  {
    var l := kept[0];
    if l.body == "" {
      assert Joined(kept)[0] == l.ending[0];
    } else {
      assert Joined(kept)[0] == l.body[0];
    }
  }

  /** The text behind the first line. */
  lemma RestOfJoined(kept: seq<Line>)
    requires kept != []
    ensures var text, first := Joined(kept), Merge(kept)[0];
            var rest := if |kept| > 1 && Junction(kept[0], kept[1]) then kept[2..] else kept[1..];
            |first.body| + |first.ending| <= |text| && text[|first.body| + |first.ending|..] == Joined(rest)
            && Merge(kept) == [first] + Merge(rest)
  {
    if |kept| > 1 && Junction(kept[0], kept[1]) {
      assert kept[1..][1..] == kept[2..];
      assert Joined(kept[1..]) == "\n" + Joined(kept[2..]);
    }
  }

  /** Put together and read again, neat lines are the merged lines. */
  lemma {:induction false} MergeIsLines(kept: seq<Line>)
    requires Neat(kept)
    ensures Lines(Joined(kept)) == Merge(kept)
  {
    if kept != [] {
      FirstOfJoined(kept);
      RestOfJoined(kept);
      var rest := if |kept| > 1 && Junction(kept[0], kept[1]) then kept[2..] else kept[1..];
      assert Neat(kept[1..]) && (|kept| > 1 ==> kept[1..][1..] == kept[2..]);
      assert Neat(rest);
      MergeIsLines(rest);
      hide FirstLine, Lines, Joined, Merge;
      LinesUnfold(Joined(kept), Merge(kept)[0], Joined(rest));
    }
  }

  /** A normalized header normalizes to itself. */
  lemma NormalizeIsIdempotent(text: string, alnum: char -> bool)
    requires Normalize(text, alnum).Some?
    ensures Normalize(Normalize(text, alnum).value, alnum) == Normalize(text, alnum)
  {
    hide Run, Lines, Joined, Neat, Settled;
    LinesAreNeat(text);
    RunSettles(Lines(text), START, false, alnum);
    var (kept, end) := Run(Lines(text), START, false, alnum).value;
    MergedRuns(kept, START, end, alnum);
    MergeIsLines(kept);
    MergeJoins(kept);
  }

  // What is removed, and that nothing else is.

  predicate Documentation(l: Line) {
    BlockOpener(l.body) || DocumentationLine(l.body)
  }

  lemma {:induction false} KeptIsShorter(lines: seq<Line>, s: State, inBlock: bool, alnum: char -> bool)
    requires Run(lines, s, inBlock, alnum).Some?
    ensures |Run(lines, s, inBlock, alnum).value.0| <= |lines|
  {
    hide LineEffect, BlockEffect;
    if lines != [] {
      if inBlock {
        KeptIsShorter(lines[1..], s, !BlockEffect(lines[0]).value, alnum);
      } else {
        match LineEffect(lines[0], s, alnum)
        case Keep(next) => KeptIsShorter(lines[1..], next, false, alnum);
        case OpenBlock => KeptIsShorter(lines[1..], s, true, alnum);
        case Drop => KeptIsShorter(lines[1..], s, false, alnum);
        case Reject =>
      }
    }
  }

  /** The state before line `i`, all lines up to there being kept. */
  function StateBefore(lines: seq<Line>, s: State, i: nat, alnum: char -> bool): State
    requires i <= |lines|
  {
    if i == 0 then s
    else
      var effect := LineEffect(lines[0], s, alnum);
      StateBefore(lines[1..], if effect.Keep? then effect.next else s, i - 1, alnum)
  }

  /** Lines that are all kept have no documentation where it would count as such. */
  lemma {:induction false} KeptLinesAreNotDocumentation(lines: seq<Line>, s: State, end: State, i: nat,
      alnum: char -> bool)
    requires Run(lines, s, false, alnum) == Some((lines, end)) && i < |lines|
    ensures !(Eligible(StateBefore(lines, s, i, alnum)) && Documentation(lines[i]))
  {
    match LineEffect(lines[0], s, alnum)
    case Keep(next) =>
      hide BlockOpener, DocumentationLine, ScanLine, EndsWithBackslash;
      if i > 0 {
        var kept := Run(lines[1..], next, false, alnum).value.0;
        assert lines[1..] == ([lines[0]] + kept)[1..] == kept;
        KeptLinesAreNotDocumentation(lines[1..], next, end, i - 1, alnum);
      }
    case Drop =>
      KeptIsShorter(lines[1..], s, false, alnum);
    case OpenBlock =>
      KeptIsShorter(lines[1..], s, true, alnum);
  }

  /** Every Doxygen comment is gone from a normalized header. */
  lemma DocumentationIsGone(text: string, i: nat, alnum: char -> bool)
    requires Normalize(text, alnum).Some? && i < |Lines(Normalize(text, alnum).value)|
    ensures var lines := Lines(Normalize(text, alnum).value);
            !(Eligible(StateBefore(lines, START, i, alnum)) && Documentation(lines[i]))
  {
    hide Run, Lines, Joined, Neat, Settled, StateBefore, Documentation, Eligible;
    LinesAreNeat(text);
    RunSettles(Lines(text), START, false, alnum);
    var (kept, end) := Run(Lines(text), START, false, alnum).value;
    MergedRuns(kept, START, end, alnum);
    MergeIsLines(kept);
    KeptLinesAreNotDocumentation(Merge(kept), START, end, i, alnum);
  }

  /** Where the lines before `i` leave the lexer, and whether line `i` is inside a Doxygen block. */
  function Before(lines: seq<Line>, i: nat, alnum: char -> bool): (State, bool)
    requires i <= |lines|
  {
    if i == 0 then (START, false)
    else
      var (s, inBlock) := Before(lines, i - 1, alnum);
      var l := lines[i - 1];
      if inBlock then (s, !OnlyToken(l.body, "*/"))
      else if Eligible(s) && Documentation(l) then (s, BlockOpener(l.body))
      else (After(l, s, alnum), false)
  }

  /** The lexer after a line that is no comment. */
  function After(l: Line, s: State, alnum: char -> bool): State {
    State(ScanLine(l.body, s.mode, Eligible(s), alnum).GetOr(s.mode), EndsWithBackslash(l.body))
  }

  /** Line `i` is part of a Doxygen comment: inside a block, its opener, or a documentation line. */
  predicate InComment(lines: seq<Line>, i: nat, alnum: char -> bool)
    requires i < |lines|
  {
    var (s, inBlock) := Before(lines, i, alnum);
    inBlock || (Eligible(s) && Documentation(lines[i]))
  }

  /** The first `n` lines without those that are part of a comment. */
  function OutsideComments(lines: seq<Line>, n: nat, alnum: char -> bool): seq<Line>
    requires n <= |lines|
  {
    if n == 0 then []
    else OutsideComments(lines, n - 1, alnum) + (if InComment(lines, n - 1, alnum) then [] else [lines[n - 1]])
  }

  /** Line by line, the run drops what is part of a comment and keeps the rest. */
  lemma RunStep(lines: seq<Line>, i: nat, alnum: char -> bool)
    requires i < |lines|
    requires var (s, inBlock) := Before(lines, i, alnum); Run(lines[i..], s, inBlock, alnum).Some?
    ensures var (s, inBlock) := Before(lines, i, alnum);
            var (next, nextInBlock) := Before(lines, i + 1, alnum);
            var rest := Run(lines[i + 1..], next, nextInBlock, alnum);
            && rest.Some?
            && Run(lines[i..], s, inBlock, alnum).value.0
            == (if InComment(lines, i, alnum) then [] else [lines[i]]) + rest.value.0
  {
    hide ScanLine, DocumentationLine, BlockOpener, OnlyToken, EndsWithBackslash, FindText;
    assert lines[i..][1..] == lines[i + 1..];
    var (s, inBlock) := Before(lines, i, alnum);
    if inBlock {
      Closing(lines[i]);
    }
  }

  /** The mark that closes a block is in the line that consists of it. */
  lemma Closing(l: Line)
    requires BlockEffect(l).Some?
    ensures BlockEffect(l).value == OnlyToken(l.body, "*/")
  {
    if OnlyToken(l.body, "*/") {
      var n := Indent(l.body);
      assert l.body[n..][..2] == l.body[n..n + 2];
      assert Occurs(l.body, "*/", n);
    }
  }

  lemma {:induction false} RunKeepsTheRest(lines: seq<Line>, i: nat, alnum: char -> bool)
    requires i <= |lines|
    requires var (s, inBlock) := Before(lines, i, alnum); Run(lines[i..], s, inBlock, alnum).Some?
    ensures var (s, inBlock) := Before(lines, i, alnum);
            var kept := Run(lines[i..], s, inBlock, alnum).value.0;
            OutsideComments(lines, i, alnum) + kept == OutsideComments(lines, |lines|, alnum)
    decreases |lines| - i
  {
    hide Before, Run, InComment;
    if i < |lines| {
      RunStep(lines, i, alnum);
      RunKeepsTheRest(lines, i + 1, alnum);
    } else {
      RunOfNothing(lines[i..], Before(lines, i, alnum).0, Before(lines, i, alnum).1, alnum);
    }
  }

  lemma RunOfNothing(lines: seq<Line>, s: State, inBlock: bool, alnum: char -> bool)
    requires lines == [] && Run(lines, s, inBlock, alnum).Some?
    ensures Run(lines, s, inBlock, alnum).value.0 == []
  {
  }

  /** Without documentation lines there are no comments. */
  lemma {:induction false} NoComments(lines: seq<Line>, n: nat, alnum: char -> bool)
    requires n <= |lines| && forall i :: 0 <= i < |lines| ==> !Documentation(lines[i])
    ensures OutsideComments(lines, n, alnum) == lines[..n] && !Before(lines, n, alnum).1
  {
    hide Documentation, ScanLine;
    if n > 0 {
      NoComments(lines, n - 1, alnum);
      assert lines[..n] == lines[..n - 1] + [lines[n - 1]];
    }
  }

  /** A header without Doxygen comments stays as it is, to the character. */
  lemma NothingElseIsLost(text: string, alnum: char -> bool)
    requires Normalize(text, alnum).Some? && forall i :: 0 <= i < |Lines(text)| ==> !Documentation(Lines(text)[i])
    ensures Normalize(text, alnum) == Some(text)
  {
    hide Normalize, Documentation, Lines, OutsideComments, Before, Joined;
    var lines := Lines(text);
    OnlyCommentsAreTaken(text, alnum);
    NoComments(lines, |lines|, alnum);
    assert lines[..|lines|] == lines;
    LinesJoin(text);
  }

  /** Whenever normalization succeeds, it takes out the Doxygen comments and nothing else. */
  lemma OnlyCommentsAreTaken(text: string, alnum: char -> bool)
    requires Normalize(text, alnum).Some?
    ensures Normalize(text, alnum) == Some(Joined(OutsideComments(Lines(text), |Lines(text)|, alnum)))
  {
    hide Run, InComment, Joined, Lines;
    var lines := Lines(text);
    assert Before(lines, 0, alnum) == (START, false) && lines[0..] == lines && OutsideComments(lines, 0, alnum) == [];
    RunKeepsTheRest(lines, 0, alnum);
    var kept := Run(lines, START, false, alnum).value.0;
    assert [] + kept == kept;
  }

  /** What is still to come, behind what has been put out. */
  function Remaining(output: string, lines: seq<Line>, s: State, inBlock: bool, alnum: char -> bool): Option<string> {
    match Run(lines, s, inBlock, alnum)
    case None => None
    case Some((kept, _)) => Some(output + Joined(kept))
  }

  lemma RemainingBlockLine(output: string, lines: seq<Line>, s: State, alnum: char -> bool)
    requires lines != []
    ensures Remaining(output, lines, s, true, alnum) ==
            match BlockEffect(lines[0])
            case None => None
            case Some(closed) => Remaining(output, lines[1..], s, !closed, alnum)
  {
  }

  lemma RemainingLine(output: string, lines: seq<Line>, s: State, alnum: char -> bool)
    requires lines != []
    ensures Remaining(output, lines, s, false, alnum) ==
            match LineEffect(lines[0], s, alnum)
            case Reject => None
            case Drop => Remaining(output, lines[1..], s, false, alnum)
            case OpenBlock => Remaining(output, lines[1..], s, true, alnum)
            case Keep(next) =>
              Remaining(output + (lines[0].body + lines[0].ending), lines[1..], next, false, alnum)
  {
    hide LineEffect;
    if LineEffect(lines[0], s, alnum).Keep? {
      var rest := Run(lines[1..], LineEffect(lines[0], s, alnum).next, false, alnum);
      if rest.Some? {
        var l, kept := lines[0], rest.value.0;
        assert ([l] + kept)[1..] == kept;
        assert output + (l.body + l.ending + Joined(kept)) == output + (l.body + l.ending) + Joined(kept);
      }
    }
  }

  lemma {:induction false} TextOfLine(lines: seq<Line>, i: nat)
    requires Neat(lines) && i < |lines|
    ensures |Texts(lines)| == |lines| && Texts(lines)[i] == lines[i].body + lines[i].ending && Shaped(lines[i])
  {
    hide Shaped;
    TextsLength(lines);
    if i > 0 {
      TextOfLine(lines[1..], i - 1);
    }
  }

  /** `normalize_doxygen_header`. */
  method NormalizeDoxygenHeader(text: string, alnum: char -> bool) returns (result: Option<string>)
    ensures result == Normalize(text, alnum)
  {
    hide Run, LineEffect, BlockEffect, Lines, Neat, Texts, SplitEnding, Remaining;
    ghost var ls := Lines(text);
    LinesAreNeat(text);
    var lines := PhysicalHeaderLines(text);
    var output := "";
    var state := START;
    var inBlock := false;
    AtStart(text, alnum);
    TextsLength(ls);
    for i := 0 to |lines|
      invariant Remaining(output, ls[i..], state, inBlock, alnum) == Normalize(text, alnum)
    {
      TextOfLine(ls, i);
      SplitEndingOf(ls[i]);
      var l := SplitEnding(lines[i]);
      assert ls[i..][0] == l && ls[i..][1..] == ls[i + 1..];
      if inBlock {
        RemainingBlockLine(output, ls[i..], state, alnum);
        var closed := BlockEffect(l);
        if closed.None? { return None; }
        inBlock := !closed.value;
        continue;
      }
      RemainingLine(output, ls[i..], state, alnum);
      match LineEffect(l, state, alnum) {
        case Reject => return None;
        case Drop =>
        case OpenBlock => inBlock := true;
        case Keep(next) =>
          state := next;
          output := output + lines[i];
      }
    }
    AtEnd(output, ls, state, inBlock, alnum);
    return if inBlock || state.mode.RawString? then None else Some(output);
  }

  lemma AtStart(text: string, alnum: char -> bool)
    ensures Lines(text)[0..] == Lines(text) && Remaining("", Lines(text), START, false, alnum) == Normalize(text, alnum)
  {
    hide Run, Lines, Joined;
    match Run(Lines(text), START, false, alnum)
    case None =>
    case Some((kept, _)) => assert "" + Joined(kept) == Joined(kept);
  }

  lemma AtEnd(output: string, lines: seq<Line>, s: State, inBlock: bool, alnum: char -> bool)
    ensures Remaining(output, lines[|lines|..], s, inBlock, alnum)
         == if inBlock || s.mode.RawString? then None else Some(output)
  {
    assert output + "" == output;
  }

  lemma {:induction false} TextsLength(lines: seq<Line>)
    ensures |Texts(lines)| == |lines|
  {
    if lines != [] {
      TextsLength(lines[1..]);
    }
  }
}
