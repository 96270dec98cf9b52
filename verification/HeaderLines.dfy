/** The physical lines of a header: bodies and the endings that CR, LF and CR LF give them. */
module HeaderLines {
  datatype Line = Line(body: string, ending: string)

  predicate IsBreak(c: char) {
    c == '\r' || c == '\n'
  }

  /** The length of the line body that `text` starts with. */
  function BodyLength(text: string): (n: nat)
    ensures n <= |text| && (forall i :: 0 <= i < n ==> !IsBreak(text[i])) && (n < |text| ==> IsBreak(text[n]))
  {
    if text == "" || IsBreak(text[0]) then 0 else 1 + BodyLength(text[1..])
  }

  /** Nothing, CR, LF, or CR LF. */
  predicate IsEnding(e: string) {
    |e| <= 2 && (|e| == 1 ==> IsBreak(e[0])) && (|e| == 2 ==> e[0] == '\r' && e[1] == '\n')
  }

  /** The line ending at the start of `text`. */
  function EndingOf(text: string): (e: string)
    requires text != "" ==> IsBreak(text[0])
    ensures e <= text && (text != "" ==> e != "")
    ensures IsEnding(e)
  {
    if text == "" then ""
    else if text[0] == '\r' && |text| > 1 && text[1] == '\n' then text[..2]
    else [text[0]]
  }

  function FirstLine(text: string): (l: Line)
    requires text != ""
    ensures l.body + l.ending <= text && l.body + l.ending != ""
    ensures l.ending == "" ==> l.body == text
  {
    var n := BodyLength(text);
    Line(text[..n], EndingOf(text[n..]))
  }

  function Lines(text: string): seq<Line> {
    if text == "" then []
    else
      var l := FirstLine(text);
      [l] + Lines(text[|l.body| + |l.ending|..])
  }

  function Joined(lines: seq<Line>): string {
    if lines == [] then "" else lines[0].body + lines[0].ending + Joined(lines[1..])
  }

  lemma LinesUnfold(text: string, l: Line, rest: string)
    requires text != "" && FirstLine(text) == l && text[|l.body| + |l.ending|..] == rest
    ensures Lines(text) == [l] + Lines(rest)
  {
    hide FirstLine;
  }

  lemma JoinedUnfold(l: Line, rest: seq<Line>)
    ensures Joined([l] + rest) == l.body + l.ending + Joined(rest)
  {
    assert ([l] + rest)[1..] == rest;
  }

  lemma PrefixAndRest(text: string, prefix: string)
    requires prefix <= text
    ensures prefix + text[|prefix|..] == text
  {
  }

  lemma {:induction false} LinesJoin(text: string)
    ensures Joined(Lines(text)) == text
  {
    if text != "" {
      var l := FirstLine(text);
      var rest := text[|l.body| + |l.ending|..];
      PrefixAndRest(text, l.body + l.ending);
      hide FirstLine;
      LinesJoin(rest);
      LinesUnfold(text, l, rest);
      hide Lines, Joined;
      JoinedUnfold(l, Lines(rest));
    }
  }

  /** `split_header_line_ending`. */
  function SplitEnding(line: string): Line {
    var n := |line|;
    if n >= 2 && line[n - 2] == '\r' && line[n - 1] == '\n' then Line(line[..n - 2], line[n - 2..])
    else if n >= 1 && IsBreak(line[n - 1]) then Line(line[..n - 1], line[n - 1..])
    else Line(line, "")
  }

  predicate PlainBody(body: string) {
    forall i :: 0 <= i < |body| ==> !IsBreak(body[i])
  }

  predicate Shaped(l: Line) {
    PlainBody(l.body) && IsEnding(l.ending)
  }

  lemma SplitEndingOf(l: Line)
    requires Shaped(l)
    ensures SplitEnding(l.body + l.ending) == l
  {
    var s, k := l.body + l.ending, |l.body|;
    assert s[..k] == l.body && s[k..] == l.ending;
    if l.ending == "" {
      assert k > 0 ==> s[k - 1] == l.body[k - 1];
    } else if |l.ending| == 1 {
      assert s[k] == l.ending[0] && (k > 0 ==> s[k - 1] == l.body[k - 1]);
    } else {
      assert s[k] == l.ending[0] && s[k + 1] == l.ending[1];
    }
  }

  function Texts(lines: seq<Line>): seq<string> {
    if lines == [] then [] else [lines[0].body + lines[0].ending] + Texts(lines[1..])
  }

  /** `physical_header_lines`. */
  method PhysicalHeaderLines(text: string) returns (lines: seq<string>)
    ensures lines == Texts(Lines(text))
  {
    hide Lines, Texts;
    lines := [];
    var start := 0;
    var index := 0;
    assert text[0..] == text && lines + Texts(Lines(text)) == Texts(Lines(text));
    while index < |text|
      invariant 0 <= start <= index <= |text|
      invariant forall i :: start <= i < index ==> !IsBreak(text[i])
      invariant lines + Texts(Lines(text[start..])) == Texts(Lines(text))
      decreases |text| - index
    {
      if !IsBreak(text[index]) {
        index := index + 1;
        continue;
      }
      var end := index + 1;
      if text[index] == '\r' && end < |text| && text[end] == '\n' {
        end := end + 1;
      }
      assert LineSpan(text, start, index, end);
      TextsStep(lines, text, start, index, end);
      lines := lines + [text[start..end]];
      start := end;
      index := end;
    }
    if start < |text| {
      assert LineSpan(text, start, |text|, |text|);
      TextsStep(lines, text, start, |text|, |text|);
      lines := lines + [text[start..]];
      assert text[start..|text|] == text[start..];
      start := |text|;
    }
    NoLines(text);
    assert lines + [] == lines;
  }

  lemma NoLines(text: string)
    ensures Texts(Lines(text[|text|..])) == []
  {
  }

  /** The line that starts at `start` has its ending from `index` to `end`. */
  predicate LineSpan(text: string, start: nat, index: nat, end: nat) {
    && start <= index <= end <= |text| && start < end
    && (forall i :: start <= i < index ==> !IsBreak(text[i]))
    && (index < |text| ==> IsBreak(text[index]))
    && end == if index == |text| then index
              else if text[index] == '\r' && index + 1 < |text| && text[index + 1] == '\n' then index + 2 else index + 1
  }

  lemma TextsStep(done: seq<string>, text: string, start: nat, index: nat, end: nat)
    requires LineSpan(text, start, index, end)
    ensures done + Texts(Lines(text[start..])) == done + [text[start..end]] + Texts(Lines(text[end..]))
  {
    LineAt(text, start, index, end);
    Halves(text, start, index, end);
    hide Lines, LineSpan, Texts;
    TextsCons(done, Line(text[start..index], text[index..end]), Lines(text[end..]));
  }

  lemma Halves(text: string, start: nat, index: nat, end: nat)
    requires start <= index <= end <= |text|
    ensures text[start..index] + text[index..end] == text[start..end]
  {
  }

  lemma TextsCons(done: seq<string>, l: Line, rest: seq<Line>)
    ensures done + Texts([l] + rest) == done + [l.body + l.ending] + Texts(rest)
  {
    assert ([l] + rest)[1..] == rest;
  }

  lemma {:induction false} BodyLengthIs(text: string, n: nat)
    requires n <= |text| && (forall i :: 0 <= i < n ==> !IsBreak(text[i])) && (n < |text| ==> IsBreak(text[n]))
    ensures BodyLength(text) == n
  {
  }

  lemma EndingAt(text: string, start: nat, index: nat, end: nat)
    requires LineSpan(text, start, index, end)
    ensures EndingOf(text[index..]) == text[index..end]
  {
    var t := text[index..];
    assert |t| > 0 ==> t[0] == text[index];
    assert |t| > 1 ==> t[1] == text[index + 1];
  }

  lemma FirstLineAt(text: string, start: nat, index: nat, end: nat)
    requires LineSpan(text, start, index, end)
    ensures FirstLine(text[start..]) == Line(text[start..index], text[index..end])
  {
    var rest := text[start..];
    BodyLengthIs(rest, index - start);
    EndingAt(text, start, index, end);
    hide EndingOf, BodyLength;
    assert rest[..index - start] == text[start..index] && rest[index - start..] == text[index..];
  }

  lemma LineAt(text: string, start: nat, index: nat, end: nat)
    requires LineSpan(text, start, index, end)
    ensures Lines(text[start..]) == [Line(text[start..index], text[index..end])] + Lines(text[end..])
  {
    FirstLineAt(text, start, index, end);
    hide FirstLine, Lines;
    assert text[start..][end - start..] == text[end..];
    LinesUnfold(text[start..], Line(text[start..index], text[index..end]), text[end..]);
  }
}
