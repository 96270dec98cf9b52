/**
 What the lexer of `normalize_doxygen_header` computes, said without following its steps: a line
 divides into tokens in exactly one way, each token ends at the first place where its kind can end,
 and a line leaves nothing open exactly when all its tokens are closed.
 */
module HeaderTokens {
  import opened Optional
  import opened Search
  import opened HeaderLines
  import opened HeaderNormalize

  datatype Kind =
    | Code                          // one character outside everything else
    | LineText                      // a // comment
    | BlockText                     // a /* comment
    | Quoted(quote: char)           // a string or character literal
    | RawText(delimiter: string)    // a raw string
    | Malformed                     // what the header is refused for

  /** From `first` up to `last`; the contents start behind what opens the token. */
  datatype Token = Token(kind: Kind, first: nat, contents: nat, last: nat, closed: bool)

  // ---------------------------------------------------------------- where tokens end

  /** How many backslashes stand directly before `k`, counted back to `from` at most. */
  function Backslashes(body: string, from: nat, k: nat): nat
    requires k <= |body|
    decreases k
  {
    if from < k && body[k - 1] == '\\' then 1 + Backslashes(body, from, k - 1) else 0
  }

  /** The contents of such a token can end here. */
  predicate ClosesAt(body: string, kind: Kind, contents: nat, k: int) {
    && contents <= k
    && match kind
       case Quoted(quote) => k < |body| && body[k] == quote && Backslashes(body, contents, k) % 2 == 0
       case BlockText => Occurs(body, "*/", k)
       case RawText(delimiter) => Occurs(body, Terminator(delimiter), k)
       case _ => false
  }

  function CloserLength(kind: Kind): nat {
    match kind
    case Quoted(_) => 1
    case BlockText => 2
    case RawText(delimiter) => |delimiter| + 2
    case _ => 0
  }

  predicate Enclosing(kind: Kind) {
    kind.Quoted? || kind.BlockText? || kind.RawText?
  }

  /** The token ends at the first place where it can, or is open to the end of the line. */
  ghost predicate Ends(body: string, t: Token) {
    var k := t.last - CloserLength(t.kind);
    if t.closed
    then ClosesAt(body, t.kind, t.contents, k) && forall j :: j < k ==> !ClosesAt(body, t.kind, t.contents, j)
    else t.last == |body| && forall j :: !ClosesAt(body, t.kind, t.contents, j)
  }

  // ---------------------------------------------------------------- where tokens begin

  /** No name runs into what starts at `i`. */
  predicate AtBoundary(body: string, i: nat, alnum: char -> bool)
    requires i < |body|
  {
    i == 0 || !(alnum(body[i - 1]) || body[i - 1] == '_')
  }

  ghost predicate RawStart(body: string, i: nat, alnum: char -> bool)
    requires i < |body|
  {
    AtBoundary(body, i, alnum) && exists n :: 0 <= n < 5 && Occurs(body, RAW_PREFIXES[n] + "\"", i)
  }

  /** A raw string with this delimiter opens at `i`. */
  ghost predicate RawOpens(body: string, i: nat, delimiter: string, contents: nat, alnum: char -> bool)
    requires i < |body|
  {
    && AtBoundary(body, i, alnum)
    && |delimiter| <= 16 && (forall k :: 0 <= k < |delimiter| ==> DelimiterChar(delimiter[k]))
    && exists n :: 0 <= n < 5 && RawOpensWith(body, i, RAW_PREFIXES[n], delimiter, contents)
  }

  predicate RawOpensWith(body: string, i: nat, prefix: string, delimiter: string, contents: nat) {
    Occurs(body, prefix + "\"" + delimiter + "(", i) && contents == i + |prefix| + 1 + |delimiter| + 1
  }

  /** The header is refused for this: a stray end of comment, documentation out of place, a bad raw string. */
  ghost predicate BadAt(body: string, i: nat, reject: bool, alnum: char -> bool)
    requires i < |body|
  {
    || Occurs(body, "*/", i)
    || (reject && (Occurs(body, "/**", i) || (Occurs(body, "///", i) && !Occurs(body, "////", i))))
    || (RawStart(body, i, alnum) && forall delimiter, contents :: !RawOpens(body, i, delimiter, contents, alnum))
  }

  ghost predicate IsToken(body: string, t: Token, reject: bool, alnum: char -> bool) {
    && t.first < |body|
    && (BadAt(body, t.first, reject, alnum) <==> t.kind.Malformed?)
    && match t.kind
       case Malformed => t.contents == t.first && t.last == |body| && !t.closed
       case Code =>
         && t.contents == t.first && t.last == t.first + 1 && t.closed
         && body[t.first] != '\"' && body[t.first] != '\''
         && !Occurs(body, "//", t.first) && !Occurs(body, "/*", t.first) && !RawStart(body, t.first, alnum)
       case LineText => Occurs(body, "//", t.first) && t.contents == t.first + 2 && IsLineText(body, t)
       case BlockText => Occurs(body, "/*", t.first) && t.contents == t.first + 2 && Ends(body, t)
       case Quoted(quote) =>
         quote in {'\"', '\''} && body[t.first] == quote && t.contents == t.first + 1 && Ends(body, t)
       case RawText(delimiter) => RawOpens(body, t.first, delimiter, t.contents, alnum) && Ends(body, t)
  }

  /** A line comment takes the rest of the line, and the next line too if this one is continued. */
  predicate IsLineText(body: string, t: Token) {
    t.last == |body| && t.closed == !Continued(body)
  }

  predicate Continued(body: string) {
    Occurs(body, "\\", |body| - 1)
  }

  lemma ContinuedIff(body: string)
    ensures EndsWithBackslash(body) <==> Continued(body)
  {
    OccursIff(body, "\\", |body| - 1);
  }

  // ---------------------------------------------------------------- how a line divides

  /** The line from `index` on is these tokens, one after the other; only the last can be open. */
  ghost predicate Divides(tokens: seq<Token>, body: string, index: nat, reject: bool, alnum: char -> bool) {
    if tokens == [] then index == |body|
    else
      var t := tokens[0];
      && t.first == index && IsToken(body, t, reject, alnum)
      && if t.closed then Divides(tokens[1..], body, t.last, reject, alnum) else |tokens| == 1
  }

  /** What is open when a line begins in this mode. */
  function OpenKind(mode: Mode): Option<Kind> {
    match mode
    case Normal => None
    case LineComment => Some(LineText)
    case BlockComment => Some(BlockText)
    case StringLiteral => Some(Quoted('\"'))
    case CharacterLiteral => Some(Quoted('\''))
    case RawString(delimiter) => Some(RawText(delimiter))
  }

  /** The whole line, whose first token goes on from the line before if something is open. */
  ghost predicate LineDivides(tokens: seq<Token>, body: string, mode: Mode, reject: bool, alnum: char -> bool) {
    match OpenKind(mode)
    case None => Divides(tokens, body, 0, reject, alnum)
    case Some(kind) =>
      && tokens != [] && tokens[0].kind == kind && tokens[0].first == tokens[0].contents == 0
      && (if kind.LineText? then IsLineText(body, tokens[0]) else Ends(body, tokens[0]))
      && if tokens[0].closed
         then Divides(tokens[1..], body, tokens[0].last, reject || mode.RawString?, alnum) else |tokens| == 1
  }

  predicate AllClosed(tokens: seq<Token>) {
    forall i :: 0 <= i < |tokens| ==> tokens[i].closed
  }

  predicate AllGood(tokens: seq<Token>) {
    forall i :: 0 <= i < |tokens| ==> !tokens[i].kind.Malformed?
  }

  /** The mode a line ends in, and the next begins in, is that of the token left open. */
  predicate LeavesOpen(tokens: seq<Token>, mode: Mode) {
    if AllClosed(tokens) then mode.Normal?
    else tokens != [] && OpenKind(mode) == Some(tokens[|tokens| - 1].kind)
  }

  // ---------------------------------------------------------------- the scan of one token

  lemma BackslashStep(body: string, from: nat, k: nat)
    requires from <= k < |body|
    ensures Backslashes(body, from, k + 1) == if body[k] == '\\' then 1 + Backslashes(body, from, k) else 0
  {
  }

  /** Inside a literal, from a place that is not escaped. */
  lemma {:induction false} QuotedScan(body: string, mode: Mode, quote: char, t: Token, at: nat, reject: bool,
      alnum: char -> bool)
    requires mode == (if quote == '\"' then StringLiteral else CharacterLiteral) && quote in {'\"', '\''}
    requires t.kind == Quoted(quote) && Ends(body, t) && t.contents <= at <= |body|
    requires Backslashes(body, t.contents, at) % 2 == 0 && (t.closed ==> at < t.last)
    ensures t.closed ==> t.last <= |body|
    ensures Scan(body, mode, at, reject, alnum)
         == if t.closed then Scan(body, Normal, t.last, reject, alnum) else Some(mode)
    decreases |body| - at
  {
    hide NormalStep;
    if at < |body| {
      BackslashStep(body, t.contents, at);
      if body[at] == '\\' && at + 1 < |body| {
        BackslashStep(body, t.contents, at + 1);
        QuotedScan(body, mode, quote, t, at + 2, reject, alnum);
      } else if body[at] == quote {
        assert ClosesAt(body, t.kind, t.contents, at);
      } else if at + 1 < |body| {
        QuotedScan(body, mode, quote, t, at + 1, reject, alnum);
      }
    }
  }

  lemma {:induction false} BlockScan(body: string, t: Token, at: nat, reject: bool, alnum: char -> bool)
    requires t.kind.BlockText? && Ends(body, t) && t.contents <= at <= |body| && (t.closed ==> at + 2 <= t.last)
    ensures t.closed ==> t.last <= |body|
    ensures Scan(body, BlockComment, at, reject, alnum)
         == if t.closed then Scan(body, Normal, t.last, reject, alnum) else Some(BlockComment)
    decreases |body| - at
  {
    hide NormalStep;
    if at < |body| {
      if Occurs(body, "*/", at) {
        assert ClosesAt(body, t.kind, t.contents, at);
      } else {
        BlockScan(body, t, at + 1, reject, alnum);
      }
    }
  }

  /** The search for the terminator finds the end of a raw string. */
  lemma RawFind(body: string, t: Token)
    requires t.kind.RawText? && Ends(body, t)
    ensures FindText(body, Terminator(t.kind.delimiter), t.contents)
         == if t.closed then Some(t.last - CloserLength(t.kind)) else None
    ensures t.closed ==> t.last <= |body|
  {
    hide FindText, Occurs;
    RawCloses(body, t);
    var pattern := Terminator(t.kind.delimiter);
    assert |pattern| == CloserLength(t.kind);
    hide Ends, ClosesAt, Terminator, CloserLength;
    if t.closed {
      FirstFound(body, pattern, t.contents, t.last - CloserLength(t.kind));
    }
  }

  lemma FirstFound(text: string, pattern: string, from: nat, k: int)
    requires from <= k && Occurs(text, pattern, k) && forall j :: from <= j < k ==> !Occurs(text, pattern, j)
    ensures FindText(text, pattern, from) == Some(k) && k + |pattern| <= |text|
  {
    var found := FindText(text, pattern, from);
    hide FindText;
    assert found.Some? ==> Occurs(text, pattern, found.value);
  }

  lemma RawCloses(body: string, t: Token)
    requires t.kind.RawText? && Ends(body, t)
    ensures var k, pattern := t.last - CloserLength(t.kind), Terminator(t.kind.delimiter);
            if t.closed then t.contents <= k && Occurs(body, pattern, k)
                             && forall j :: t.contents <= j < k ==> !Occurs(body, pattern, j)
            else forall j :: t.contents <= j ==> !Occurs(body, pattern, j)
  {
    hide Terminator;
    var k, pattern := t.last - CloserLength(t.kind), Terminator(t.kind.delimiter);
    forall j | t.contents <= j && (t.closed ==> j < k) ensures !Occurs(body, pattern, j) {
      assert !ClosesAt(body, t.kind, t.contents, j);
    }
  }

  // ---------------------------------------------------------------- raw strings

  lemma PrefixesDiffer(body: string, i: nat, n: nat, m: nat)
    requires n < 5 && m < 5 && Occurs(body, RAW_PREFIXES[n] + "\"", i) && Occurs(body, RAW_PREFIXES[m] + "\"", i)
    ensures n == m
  {
    var p, q := RAW_PREFIXES[n], RAW_PREFIXES[m];
    SamePrefix(body, i, p, q);
    assert p[0] == q[0] && |p| == |q|;
  }

  lemma SamePrefix(body: string, i: nat, p: string, q: string)
    requires Occurs(body, p + "\"", i) && Occurs(body, q + "\"", i) && '\"' !in p && '\"' !in q
    ensures p == q
  {
    OccursIff(body, p + "\"", i);
    OccursIff(body, q + "\"", i);
    assert (p + "\"")[|p|] == '\"' == body[i + |p|] && (q + "\"")[|q|] == '\"' == body[i + |q|];
    assert forall k :: 0 <= k < |p| ==> p[k] == (p + "\"")[k] == body[i + k];
    assert forall k :: 0 <= k < |q| ==> q[k] == (q + "\"")[k] == body[i + k];
  }

  /** A raw string opens with its prefix, a quote, the delimiter and a parenthesis, in their places. */
  lemma RawParts(body: string, i: nat, prefix: string, delimiter: string, contents: nat)
    ensures RawOpensWith(body, i, prefix, delimiter, contents) <==>
            && Occurs(body, prefix + "\"", i) && contents == i + |prefix| + 1 + |delimiter| + 1 <= |body|
            && body[i + |prefix| + 1..contents - 1] == delimiter && body[contents - 1] == '('
  {
    var whole, marker := prefix + "\"" + delimiter + "(", prefix + "\"";
    assert whole == marker + delimiter + "(";
    if RawOpensWith(body, i, prefix, delimiter, contents) {
      SplitInThree(body, i, marker, delimiter, "(");
      OccursIff(body, "(", contents - 1);
    } else if Occurs(body, marker, i) && contents == i + |whole| <= |body|
              && body[i + |marker|..contents - 1] == delimiter && body[contents - 1] == '(' {
      JoinThree(body, i, marker, delimiter, "(");
    }
  }

  lemma SplitInThree(body: string, i: nat, a: string, b: string, c: string)
    requires Occurs(body, a + b + c, i)
    ensures Occurs(body, a, i) && Occurs(body, b, i + |a|) && Occurs(body, c, i + |a| + |b|)
  {
    var whole := a + b + c;
    OccursIff(body, whole, i);
    OccursIff(body, a, i);
    OccursIff(body, b, i + |a|);
    OccursIff(body, c, i + |a| + |b|);
    forall k | 0 <= k < |a| ensures a[k] == body[i + k] { assert a[k] == whole[k]; }
    forall k | 0 <= k < |b| ensures b[k] == body[i + |a| + k] { assert b[k] == whole[|a| + k]; }
    forall k | 0 <= k < |c| ensures c[k] == body[i + |a| + |b| + k] { assert c[k] == whole[|a| + |b| + k]; }
  }

  lemma JoinThree(body: string, i: nat, a: string, b: string, c: string)
    requires Occurs(body, a, i) && Occurs(body, b, i + |a|) && Occurs(body, c, i + |a| + |b|)
    ensures Occurs(body, a + b + c, i)
  {
    var whole := a + b + c;
    OccursIff(body, whole, i);
    OccursIff(body, a, i);
    OccursIff(body, b, i + |a|);
    OccursIff(body, c, i + |a| + |b|);
    forall k | 0 <= k < |whole| ensures whole[k] == body[i + k] {
      if |a| <= k < |a| + |b| {
        assert b[k - |a|] == body[i + |a| + (k - |a|)];
      } else if |a| + |b| <= k {
        assert c[k - |a| - |b|] == body[i + |a| + |b| + (k - |a| - |b|)];
      }
    }
  }

  predicate GoodDelimiter(delimiter: string) {
    |delimiter| <= 16 && forall k :: 0 <= k < |delimiter| ==> DelimiterChar(delimiter[k])
  }

  lemma NoParenthesis(delimiter: string)
    requires GoodDelimiter(delimiter)
    ensures '(' !in delimiter
  {
    assert !DelimiterChar('(');
  }

  /** The search for the parenthesis finds the delimiter, if there is a good one. */
  lemma DelimiterIsFound(body: string, i: nat, prefix: string, delimiter: string, contents: nat)
    requires Occurs(body, prefix + "\"", i) && RawOpensWith(body, i, prefix, delimiter, contents)
    requires GoodDelimiter(delimiter)
    ensures FindText(body, "(", i + |prefix| + 1) == Some(contents - 1)
    ensures body[i + |prefix| + 1..contents - 1] == delimiter
  {
    RawParts(body, i, prefix, delimiter, contents);
    NoParenthesis(delimiter);
    var start := i + |prefix| + 1;
    hide FindText, GoodDelimiter, RawOpensWith;
    forall p | start <= p < |body| ensures Occurs(body, "(", p) <==> body[p] == '(' {
      OccursIff(body, "(", p);
    }
    forall p | start <= p < contents - 1 ensures !Occurs(body, "(", p) {
      assert body[start..contents - 1][p - start] == body[p] && delimiter[p - start] in delimiter;
    }
  }

  /** And what it finds is one, if it is good. */
  lemma FoundIsDelimiter(body: string, i: nat, prefix: string, opening: nat)
    requires Occurs(body, prefix + "\"", i) && FindText(body, "(", i + |prefix| + 1) == Some(opening)
    ensures RawOpensWith(body, i, prefix, body[i + |prefix| + 1..opening], opening + 1)
  {
    hide FindText;
    OccursIff(body, "(", opening);
    RawParts(body, i, prefix, body[i + |prefix| + 1..opening], opening + 1);
  }

  /** What `raw_string_opener` says of this prefix. */
  ghost predicate OpenerIs(opener: Opener, body: string, i: nat, prefix: string) {
    match opener
    case NotRaw => false
    case Raw(contents, delimiter) => GoodDelimiter(delimiter) && RawOpensWith(body, i, prefix, delimiter, contents)
    case BadDelimiter =>
      forall delimiter, contents :: GoodDelimiter(delimiter) ==> !RawOpensWith(body, i, prefix, delimiter, contents)
  }

  lemma {:induction false} FirstPrefixIs(body: string, i: nat, k: nat, n: nat)
    requires i < |body| && k <= n < 5 && Occurs(body, RAW_PREFIXES[n] + "\"", i)
    ensures OpenerIs(FirstPrefix(body, i, k), body, i, RAW_PREFIXES[n])
    decreases 5 - k
  {
    if k < n {
      if Occurs(body, RAW_PREFIXES[k] + "\"", i) { PrefixesDiffer(body, i, k, n); }
      hide OpenerIs;
      FirstPrefixIs(body, i, k + 1, n);
    } else {
      ThisPrefixIs(body, i, n);
    }
  }

  lemma ThisPrefixIs(body: string, i: nat, n: nat)
    requires i < |body| && n < 5 && Occurs(body, RAW_PREFIXES[n] + "\"", i)
    ensures OpenerIs(FirstPrefix(body, i, n), body, i, RAW_PREFIXES[n])
  {
    var prefix := RAW_PREFIXES[n];
    PrefixUnfolds(body, i, n, prefix);
    hide FirstPrefix, FindText, RawOpensWith;
    var found := FindText(body, "(", i + |prefix| + 1);
    forall delimiter, contents | GoodDelimiter(delimiter) && RawOpensWith(body, i, prefix, delimiter, contents)
      ensures found == Some(contents - 1) && body[i + |prefix| + 1..contents - 1] == delimiter
    {
      DelimiterIsFound(body, i, prefix, delimiter, contents);
    }
    if found.Some? { FoundIsDelimiter(body, i, prefix, found.value); }
  }

  lemma PrefixUnfolds(body: string, i: nat, n: nat, prefix: string)
    requires i < |body| && n < 5 && prefix == RAW_PREFIXES[n] && Occurs(body, prefix + "\"", i)
    ensures FirstPrefix(body, i, n) == Delimited(body, i + |prefix| + 1)
  {
    hide Delimited;
  }

  lemma {:induction false} NoPrefix(body: string, i: nat, k: nat)
    requires i < |body| && k <= 5 && forall n :: k <= n < 5 ==> !Occurs(body, RAW_PREFIXES[n] + "\"", i)
    ensures FirstPrefix(body, i, k).NotRaw?
    decreases 5 - k
  {
    if k < 5 { NoPrefix(body, i, k + 1); }
  }

  /** What `raw_string_opener` returns, and when it refuses. */
  lemma RawStringOpenerIs(body: string, i: nat, alnum: char -> bool)
    requires i < |body|
    ensures var opener := RawStringOpener(body, i, alnum);
            && (opener.NotRaw? <==> !RawStart(body, i, alnum))
            && (opener.Raw? ==> RawOpens(body, i, opener.delimiter, opener.contentStart, alnum))
            && (opener.BadDelimiter? ==> forall d, c :: !RawOpens(body, i, d, c, alnum))
  {
    hide FirstPrefix, RawOpensWith;
    if AtBoundary(body, i, alnum) {
      if n :| 0 <= n < 5 && Occurs(body, RAW_PREFIXES[n] + "\"", i) {
        FirstPrefixIs(body, i, 0, n);
        forall d, c, m | 0 <= m < 5 && RawOpensWith(body, i, RAW_PREFIXES[m], d, c) ensures m == n {
          RawParts(body, i, RAW_PREFIXES[m], d, c);
          PrefixesDiffer(body, i, m, n);
        }
      } else {
        NoPrefix(body, i, 0);
      }
    }
  }

  lemma SameOpening(body: string, i: nat, n: nat, m: nat, d: string, c: nat, d': string, c': nat)
    requires n < 5 && m < 5 && GoodDelimiter(d) && GoodDelimiter(d')
    requires RawOpensWith(body, i, RAW_PREFIXES[n], d, c) && RawOpensWith(body, i, RAW_PREFIXES[m], d', c')
    ensures d == d' && c == c'
  {
    hide RawOpensWith, Occurs, GoodDelimiter, FindText;
    RawParts(body, i, RAW_PREFIXES[n], d, c);
    RawParts(body, i, RAW_PREFIXES[m], d', c');
    PrefixesDiffer(body, i, n, m);
    DelimiterIsFound(body, i, RAW_PREFIXES[n], d, c);
    DelimiterIsFound(body, i, RAW_PREFIXES[n], d', c');
  }

  /** At most one raw string opens at a place. */
  lemma RawOpensOnce(body: string, i: nat, d: string, c: nat, alnum: char -> bool)
    requires i < |body| && RawOpens(body, i, d, c, alnum)
    ensures RawStringOpener(body, i, alnum) == Raw(c, d)
  {
    hide RawOpensWith, RawStringOpener, RawStart;
    RawStringOpenerIs(body, i, alnum);
    RawOpensAtStart(body, i, d, c, alnum);
    var opener := RawStringOpener(body, i, alnum);
    var n :| 0 <= n < 5 && RawOpensWith(body, i, RAW_PREFIXES[n], d, c);
    var m :| 0 <= m < 5 && RawOpensWith(body, i, RAW_PREFIXES[m], opener.delimiter, opener.contentStart);
    SameOpening(body, i, n, m, d, c, opener.delimiter, opener.contentStart);
  }

  // ---------------------------------------------------------------- the scan follows the tokens

  /** The marks a comment can begin or end with, character by character. */
  lemma Marks(body: string, i: nat)
    requires i < |body|
    ensures Occurs(body, "*/", i) <==> i + 1 < |body| && body[i] == '*' && body[i + 1] == '/'
    ensures Occurs(body, "/*", i) <==> i + 1 < |body| && body[i] == '/' && body[i + 1] == '*'
    ensures Occurs(body, "//", i) <==> i + 1 < |body| && body[i] == '/' && body[i + 1] == '/'
    ensures Occurs(body, "/**", i) ==> Occurs(body, "/*", i)
    ensures Occurs(body, "///", i) ==> Occurs(body, "//", i)
    ensures Occurs(body, "////", i) ==> Occurs(body, "///", i)
  {
    TwoCharacters(body, "*/", i);
    TwoCharacters(body, "/*", i);
    TwoCharacters(body, "//", i);
    hide Occurs;
    OccursPrefix(body, "/*", "/**", i);
    OccursPrefix(body, "//", "///", i);
    OccursPrefix(body, "///", "////", i);
  }

  lemma TwoCharacters(body: string, mark: string, i: nat)
    requires |mark| == 2
    ensures Occurs(body, mark, i) <==> i + 1 < |body| && body[i] == mark[0] && body[i + 1] == mark[1]
  {
    OccursIff(body, mark, i);
  }

  lemma OccursPrefix(body: string, short: string, long: string, i: nat)
    requires short <= long
    ensures Occurs(body, long, i) ==> Occurs(body, short, i)
  {
    OccursIff(body, long, i);
    OccursIff(body, short, i);
  }

  lemma RawStartChar(body: string, i: nat, alnum: char -> bool)
    requires i < |body| && RawStart(body, i, alnum)
    ensures body[i] in {'u', 'U', 'L', 'R'}
  {
    var n :| 0 <= n < 5 && Occurs(body, RAW_PREFIXES[n] + "\"", i);
    OccursIff(body, RAW_PREFIXES[n] + "\"", i);
    assert body[i] == (RAW_PREFIXES[n] + "\"")[0] == RAW_PREFIXES[n][0];
  }

  lemma RawOpensAtStart(body: string, i: nat, delimiter: string, contents: nat, alnum: char -> bool)
    requires i < |body| && RawOpens(body, i, delimiter, contents, alnum)
    ensures RawStart(body, i, alnum) && i < contents
  {
    hide RawOpensWith;
    var n :| 0 <= n < 5 && RawOpensWith(body, i, RAW_PREFIXES[n], delimiter, contents);
    RawParts(body, i, RAW_PREFIXES[n], delimiter, contents);
  }

  /** The mode of a line that ends inside such a token. */
  function ModeOf(kind: Kind): Mode {
    match kind
    case LineText => LineComment
    case BlockText => BlockComment
    case Quoted(quote) => if quote == '\"' then StringLiteral else CharacterLiteral
    case RawText(delimiter) => RawString(delimiter)
    case _ => Normal
  }

  /** What scanning a token comes to. */
  ghost predicate Scanned(body: string, mode: Mode, at: nat, t: Token, reject: bool, alnum: char -> bool)
    requires at <= |body|
  {
    && (t.closed ==> t.last <= |body|)
    && Scan(body, mode, at, reject, alnum)
       == (if t.kind.Malformed? then None
           else if t.closed then Scan(body, Normal, t.last, reject, alnum)
           else Some(ModeOf(t.kind)))
  }

  lemma ScanUnfolds(body: string, mode: Mode, i: nat, reject: bool, alnum: char -> bool)
    requires i < |body|
    ensures Scan(body, mode, i, reject, alnum)
         == match ScanStep(body, mode, i, reject, alnum)
            case Refuse => None
            case Stop(end) => Some(end)
            case Go(next, at) => Scan(body, next, at, reject, alnum)
  {
    hide ScanStep;
  }

  lemma MalformedScan(body: string, t: Token, reject: bool, alnum: char -> bool)
    requires IsToken(body, t, reject, alnum) && t.kind.Malformed?
    ensures Scanned(body, Normal, t.first, t, reject, alnum)
  {
    ScanUnfolds(body, Normal, t.first, reject, alnum);
    Marks(body, t.first);
    RawStringOpenerIs(body, t.first, alnum);
    if RawStart(body, t.first, alnum) { RawStartChar(body, t.first, alnum); }
    hide Scan, Occurs, RawStringOpener, RawStart, RawOpens;
  }

  lemma CodeScan(body: string, t: Token, reject: bool, alnum: char -> bool)
    requires IsToken(body, t, reject, alnum) && t.kind.Code?
    ensures Scanned(body, Normal, t.first, t, reject, alnum)
  {
    ScanUnfolds(body, Normal, t.first, reject, alnum);
    Marks(body, t.first);
    RawStringOpenerIs(body, t.first, alnum);
    hide Scan, Occurs, RawStringOpener, RawStart, RawOpens;
  }

  lemma LineTextScan(body: string, t: Token, reject: bool, alnum: char -> bool)
    requires IsToken(body, t, reject, alnum) && t.kind.LineText?
    ensures Scanned(body, Normal, t.first, t, reject, alnum)
  {
    ScanUnfolds(body, Normal, t.first, reject, alnum);
    Marks(body, t.first);
    AtEnd(body, Normal, reject, alnum);
    ContinuedIff(body);
    hide Scan, Occurs, RawStringOpener, RawStart, RawOpens;
  }

  lemma AtEnd(body: string, mode: Mode, reject: bool, alnum: char -> bool)
    ensures Scan(body, mode, |body|, reject, alnum) == Some(mode)
  {
  }

  lemma BlockTextScan(body: string, t: Token, reject: bool, alnum: char -> bool)
    requires IsToken(body, t, reject, alnum) && t.kind.BlockText?
    ensures Scanned(body, Normal, t.first, t, reject, alnum)
  {
    ScanUnfolds(body, Normal, t.first, reject, alnum);
    Marks(body, t.first);
    BlockScan(body, t, t.first + 2, reject, alnum);
    hide Scan, Occurs, RawStringOpener, RawStart, RawOpens, Ends;
  }

  lemma LiteralScan(body: string, t: Token, reject: bool, alnum: char -> bool)
    requires IsToken(body, t, reject, alnum) && t.kind.Quoted?
    ensures Scanned(body, Normal, t.first, t, reject, alnum)
  {
    hide Occurs, RawStringOpener, RawStart, RawOpens;
    ScanUnfolds(body, Normal, t.first, reject, alnum);
    Marks(body, t.first);
    RawStringOpenerIs(body, t.first, alnum);
    if RawStart(body, t.first, alnum) { RawStartChar(body, t.first, alnum); }
    QuotedScan(body, ModeOf(t.kind), t.kind.quote, t, t.contents, reject, alnum);
    hide Scan, Ends;
  }

  lemma RawTextScan(body: string, t: Token, reject: bool, alnum: char -> bool)
    requires IsToken(body, t, reject, alnum) && t.kind.RawText?
    ensures Scanned(body, Normal, t.first, t, reject, alnum)
  {
    ScanUnfolds(body, Normal, t.first, reject, alnum);
    Marks(body, t.first);
    RawOpensOnce(body, t.first, t.kind.delimiter, t.contents, alnum);
    RawOpensAtStart(body, t.first, t.kind.delimiter, t.contents, alnum);
    RawStartChar(body, t.first, alnum);
    RawStepIs(body, t);
    hide Scan, Occurs, RawStringOpener, RawStart, RawOpens, Ends, RawStep;
  }

  lemma RawStepIs(body: string, t: Token)
    requires t.kind.RawText? && Ends(body, t)
    ensures RawStep(body, t.contents, t.kind.delimiter)
         == if t.closed then Go(Normal, t.last) else Stop(RawString(t.kind.delimiter))
    ensures t.closed ==> t.last <= |body|
  {
    RawFind(body, t);
    assert |Terminator(t.kind.delimiter)| == CloserLength(t.kind);
    hide FindText, Terminator, Ends;
  }

  lemma TokenScan(body: string, t: Token, reject: bool, alnum: char -> bool)
    requires IsToken(body, t, reject, alnum)
    ensures Scanned(body, Normal, t.first, t, reject, alnum)
  {
    hide Scanned, IsToken;
    match t.kind
    case Malformed => MalformedScan(body, t, reject, alnum);
    case Code => CodeScan(body, t, reject, alnum);
    case LineText => LineTextScan(body, t, reject, alnum);
    case BlockText => BlockTextScan(body, t, reject, alnum);
    case Quoted(_) => LiteralScan(body, t, reject, alnum);
    case RawText(_) => RawTextScan(body, t, reject, alnum);
  }

  /** The mode at the end of a line that divides like this, or a refusal. */
  ghost predicate ResultIs(end: Option<Mode>, tokens: seq<Token>) {
    && (end.Some? <==> AllGood(tokens))
    && (end.Some? ==> LeavesOpen(tokens, end.value))
    && (end == Some(Normal) <==> AllClosed(tokens))
  }

  lemma {:induction false} ScanDivides(tokens: seq<Token>, body: string, index: nat, reject: bool, alnum: char -> bool)
    requires Divides(tokens, body, index, reject, alnum)
    ensures index <= |body| && ResultIs(Scan(body, Normal, index, reject, alnum), tokens)
    decreases |tokens|
  {
    if tokens == [] {
      AtEnd(body, Normal, reject, alnum);
    } else {
      var t := tokens[0];
      TokenScan(body, t, reject, alnum);
      OneToken(body, t, reject, alnum);
      if t.closed {
        ScanDivides(tokens[1..], body, t.last, reject, alnum);
        hide Scan, IsToken, Divides;
        ResultGrows(Scan(body, Normal, t.last, reject, alnum), t, tokens[1..]);
        assert tokens == [t] + tokens[1..];
      } else {
        hide Scan, IsToken;
        assert tokens == [t];
      }
    }
  }

  /** A malformed token is open, and an open token has a mode of its own. */
  lemma OneToken(body: string, t: Token, reject: bool, alnum: char -> bool)
    requires IsToken(body, t, reject, alnum)
    ensures t.kind.Malformed? ==> !t.closed
    ensures !t.closed && !t.kind.Malformed? ==> OpenKind(ModeOf(t.kind)) == Some(t.kind)
  {
  }

  lemma ResultGrows(end: Option<Mode>, t: Token, rest: seq<Token>)
    requires ResultIs(end, rest) && t.closed && !t.kind.Malformed?
    ensures ResultIs(end, [t] + rest)
  {
    var tokens := [t] + rest;
    assert forall i :: 0 <= i < |rest| ==> tokens[i + 1] == rest[i];
    assert AllGood(tokens) <==> AllGood(rest) by {
      if AllGood(tokens) {
        forall i | 0 <= i < |rest| ensures !rest[i].kind.Malformed? { assert tokens[i + 1] == rest[i]; }
      }
    }
    assert AllClosed(tokens) <==> AllClosed(rest) by {
      if AllClosed(tokens) {
        forall i | 0 <= i < |rest| ensures rest[i].closed { assert tokens[i + 1] == rest[i]; }
      }
    }
  }

  /**
   However a line divides into tokens, the scan refuses it exactly if one of them is malformed, ends
   in normal mode exactly if all are closed, and otherwise ends in the mode of the open one.
   */
  lemma ScanFollowsTokens(tokens: seq<Token>, body: string, mode: Mode, reject: bool, alnum: char -> bool)
    requires LineDivides(tokens, body, mode, reject, alnum)
    ensures ResultIs(ScanLine(body, mode, reject, alnum), tokens)
  {
    hide Scan, Divides, Ends, IsLineText, ResultIs, Continued;
    match OpenKind(mode)
    case None => ScanDivides(tokens, body, 0, reject, alnum);
    case Some(kind) =>
      hide ScanLine;
      var t := tokens[0];
      ContinuedScan(body, mode, t, reject, alnum);
      if t.closed {
        ScanDivides(tokens[1..], body, t.last, reject || mode.RawString?, alnum);
        ResultGrows(ScanLine(body, mode, reject, alnum), t, tokens[1..]);
        assert tokens == [t] + tokens[1..];
      } else {
        LeftOpen(t, mode);
        assert tokens == [t];
      }
  }

  lemma LeftOpen(t: Token, mode: Mode)
    requires OpenKind(mode) == Some(t.kind) && !t.closed
    ensures ResultIs(Some(mode), [t])
  {
    assert !AllClosed([t]) by { assert [t][0] == t; }
  }

  /** A token that goes on from the line before. */
  lemma ContinuedScan(body: string, mode: Mode, t: Token, reject: bool, alnum: char -> bool)
    requires OpenKind(mode) == Some(t.kind) && t.contents == 0
    requires if t.kind.LineText? then IsLineText(body, t) else Ends(body, t)
    ensures t.closed ==> t.last <= |body|
    ensures ScanLine(body, mode, reject, alnum)
         == if t.closed then Scan(body, Normal, t.last, reject || mode.RawString?, alnum) else Some(mode)
  {
    hide Scan, RawStep;
    ContinuedIff(body);
    match t.kind
    case LineText => AtEnd(body, Normal, reject, alnum);
    case BlockText => ContinuedBlock(body, t, reject, alnum);
    case Quoted(quote) => ContinuedLiteral(body, mode, t, reject, alnum);
    case RawText(delimiter) =>
      RawStepIs(body, t);
      hide Ends;
    case _ =>
  }

  lemma ContinuedBlock(body: string, t: Token, reject: bool, alnum: char -> bool)
    requires t.kind.BlockText? && t.contents == 0 && Ends(body, t)
    ensures t.closed ==> t.last <= |body|
    ensures Scan(body, BlockComment, 0, reject, alnum)
         == if t.closed then Scan(body, Normal, t.last, reject, alnum) else Some(BlockComment)
  {
    hide Scan;
    BlockScan(body, t, 0, reject, alnum);
  }

  lemma ContinuedLiteral(body: string, mode: Mode, t: Token, reject: bool, alnum: char -> bool)
    requires OpenKind(mode) == Some(t.kind) && t.kind.Quoted? && t.contents == 0 && Ends(body, t)
    ensures t.closed ==> t.last <= |body|
    ensures Scan(body, mode, 0, reject, alnum)
         == if t.closed then Scan(body, Normal, t.last, reject, alnum) else Some(mode)
  {
    hide Scan;
    QuotedScan(body, mode, t.kind.quote, t, 0, reject, alnum);
  }

  // ---------------------------------------------------------------- every line divides, in one way

  lemma ClosesInside(body: string, kind: Kind, contents: nat, k: int)
    requires ClosesAt(body, kind, contents, k)
    ensures contents <= k && k + CloserLength(kind) <= |body| && CloserLength(kind) > 0
  {
  }

  lemma EndOf(body: string, kind: Kind, first: nat, contents: nat) returns (t: Token)
    requires contents <= |body|
    ensures t == Token(kind, first, contents, t.last, t.closed) && Ends(body, t)
    ensures t.closed ==> contents < t.last <= |body|
  {
    hide ClosesAt, CloserLength;
    var k := contents;
    forall j | j < k ensures !ClosesAt(body, kind, contents, j) {
      if ClosesAt(body, kind, contents, j) { ClosesInside(body, kind, contents, j); }
    }
    while k < |body| && !ClosesAt(body, kind, contents, k)
      invariant contents <= k <= |body|
      invariant forall j :: j < k ==> !ClosesAt(body, kind, contents, j)
    {
      k := k + 1;
    }
    if k < |body| {
      ClosesInside(body, kind, contents, k);
      t := Token(kind, first, contents, k + CloserLength(kind), true);
    } else {
      forall j ensures !ClosesAt(body, kind, contents, j) {
        if ClosesAt(body, kind, contents, j) { ClosesInside(body, kind, contents, j); }
      }
      t := Token(kind, first, contents, |body|, false);
    }
  }

  lemma EndsOnce(body: string, t: Token, u: Token)
    requires t.kind == u.kind && t.contents == u.contents && Ends(body, t) && Ends(body, u)
    ensures t.last == u.last && t.closed == u.closed
  {
    hide ClosesAt, CloserLength;
  }

  lemma TokenAt(body: string, i: nat, reject: bool, alnum: char -> bool) returns (t: Token)
    requires i < |body|
    ensures t.first == i && IsToken(body, t, reject, alnum) && (t.closed ==> i < t.last <= |body|)
  {
    Marks(body, i);
    hide Occurs, RawStart, RawOpens, Ends;
    if BadAt(body, i, reject, alnum) {
      t := Token(Malformed, i, i, |body|, false);
    } else if Occurs(body, "//", i) {
      t := Token(LineText, i, i + 2, |body|, !Continued(body));
    } else if Occurs(body, "/*", i) {
      t := EndOf(body, BlockText, i, i + 2);
    } else if RawStart(body, i, alnum) {
      var delimiter, contents :| RawOpens(body, i, delimiter, contents, alnum);
      RawContents(body, i, delimiter, contents, alnum);
      t := EndOf(body, RawText(delimiter), i, contents);
    } else if body[i] == '\"' || body[i] == '\'' {
      t := EndOf(body, Quoted(body[i]), i, i + 1);
    } else {
      t := Token(Code, i, i, i + 1, true);
    }
  }

  lemma RawContents(body: string, i: nat, delimiter: string, contents: nat, alnum: char -> bool)
    requires i < |body| && RawOpens(body, i, delimiter, contents, alnum)
    ensures i < contents <= |body|
  {
    hide RawOpensWith;
    var n :| 0 <= n < 5 && RawOpensWith(body, i, RAW_PREFIXES[n], delimiter, contents);
    RawParts(body, i, RAW_PREFIXES[n], delimiter, contents);
  }

  lemma TokenIsUnique(body: string, t: Token, u: Token, reject: bool, alnum: char -> bool)
    requires IsToken(body, t, reject, alnum) && IsToken(body, u, reject, alnum) && t.first == u.first
    ensures t == u
  {
    Marks(body, t.first);
    if RawStart(body, t.first, alnum) { RawStartChar(body, t.first, alnum); }
    forall x | x in {t, u} && x.kind.RawText?
      ensures RawStart(body, t.first, alnum)
      ensures RawStringOpener(body, t.first, alnum) == Raw(x.contents, x.kind.delimiter)
    {
      RawOpensAtStart(body, x.first, x.kind.delimiter, x.contents, alnum);
      RawOpensOnce(body, x.first, x.kind.delimiter, x.contents, alnum);
    }
    hide Occurs, RawStart, RawOpens, Ends, RawStringOpener, BadAt;
    if t.kind.BlockText? || t.kind.Quoted? || t.kind.RawText? {
      EndsOnce(body, t, u);
    }
  }

  lemma {:induction false} RestDivides(body: string, index: nat, reject: bool, alnum: char -> bool)
    returns (tokens: seq<Token>)
    requires index <= |body|
    ensures Divides(tokens, body, index, reject, alnum)
    decreases |body| - index
  {
    hide IsToken;
    tokens := [];
    if index < |body| {
      var t := TokenAt(body, index, reject, alnum);
      tokens := [t];
      if t.closed {
        var rest := RestDivides(body, t.last, reject, alnum);
        tokens := [t] + rest;
        assert tokens[1..] == rest;
      }
    }
  }

  lemma {:induction false} RestDividesOnce(a: seq<Token>, b: seq<Token>, body: string, index: nat, reject: bool,
      alnum: char -> bool)
    requires Divides(a, body, index, reject, alnum) && Divides(b, body, index, reject, alnum)
    ensures a == b
    decreases |a|
  {
    hide IsToken;
    if a != [] && b != [] {
      TokenIsUnique(body, a[0], b[0], reject, alnum);
      if a[0].closed {
        RestDividesOnce(a[1..], b[1..], body, a[0].last, reject, alnum);
      }
      assert a == [a[0]] + a[1..] && b == [b[0]] + b[1..];
    } else if a != [] {
      InsideLine(body, a[0], reject, alnum);
    } else if b != [] {
      InsideLine(body, b[0], reject, alnum);
    }
  }

  lemma InsideLine(body: string, t: Token, reject: bool, alnum: char -> bool)
    requires IsToken(body, t, reject, alnum)
    ensures t.first < |body|
  {
  }

  /** Every line divides into tokens, and in one way only. */
  lemma LineDividesOnce(body: string, mode: Mode, reject: bool, alnum: char -> bool)
    ensures exists tokens :: LineDivides(tokens, body, mode, reject, alnum)
    ensures forall a, b ::
              LineDivides(a, body, mode, reject, alnum) && LineDivides(b, body, mode, reject, alnum) ==> a == b
  {
    hide Divides, Ends;
    var tokens := LineTokens(body, mode, reject, alnum);
    forall a, b | LineDivides(a, body, mode, reject, alnum) && LineDivides(b, body, mode, reject, alnum)
      ensures a == b
    {
      SameTokens(a, b, body, mode, reject, alnum);
    }
  }

  lemma LineTokens(body: string, mode: Mode, reject: bool, alnum: char -> bool) returns (tokens: seq<Token>)
    ensures LineDivides(tokens, body, mode, reject, alnum)
  {
    hide Divides, Ends;
    match OpenKind(mode)
    case None => tokens := RestDivides(body, 0, reject, alnum);
    case Some(kind) =>
      var t := Token(kind, 0, 0, |body|, !Continued(body));
      if !kind.LineText? { t := EndOf(body, kind, 0, 0); }
      tokens := [t];
      if t.closed {
        var rest := RestDivides(body, t.last, reject || mode.RawString?, alnum);
        tokens := [t] + rest;
        assert tokens[1..] == rest;
      }
  }

  lemma SameTokens(a: seq<Token>, b: seq<Token>, body: string, mode: Mode, reject: bool, alnum: char -> bool)
    requires LineDivides(a, body, mode, reject, alnum) && LineDivides(b, body, mode, reject, alnum)
    ensures a == b
  {
    hide Divides, Ends;
    match OpenKind(mode)
    case None => RestDividesOnce(a, b, body, 0, reject, alnum);
    case Some(kind) =>
      if !kind.LineText? { EndsOnce(body, a[0], b[0]); }
      if a[0].closed {
        RestDividesOnce(a[1..], b[1..], body, a[0].last, reject || mode.RawString?, alnum);
      }
      assert a == [a[0]] + a[1..] && b == [b[0]] + b[1..];
  }

  // ---------------------------------------------------------------- the whole header

  /** Where the reader stands between two lines. */
  datatype Place = Place(mode: Mode, continued: bool, inBlock: bool)

  predicate AllBlank(s: string) {
    forall i :: 0 <= i < |s| ==> s[i] in {' ', '\t'}
  }

  ghost predicate Contains(body: string, mark: string) {
    exists k :: Occurs(body, mark, k)
  }

  lemma ContainsIff(body: string, mark: string)
    ensures FindText(body, mark, 0).Some? <==> Contains(body, mark)
  {
    hide FindText, Occurs;
    if k :| Occurs(body, mark, k) {
      OccursIff(body, mark, k);
    }
  }

  /** Blanks, the mark, and blanks. */
  ghost predicate IsMark(body: string, mark: string) {
    exists a, b :: AllBlank(a) && AllBlank(b) && body == a + mark + b
  }

  /** Blanks, three slashes, and nothing more or a space and anything. */
  ghost predicate IsDocumentationLine(body: string) {
    exists a, b :: AllBlank(a) && StartsWithSpace(b) && body == a + "///" + b
  }

  predicate StartsWithSpace(b: string) {
    b == "" || b[0] == ' '
  }

  /** Nothing is open, so a Doxygen comment can begin here. */
  predicate Free(p: Place) {
    !p.inBlock && p.mode.Normal? && !p.continued
  }

  /** This line is part of a Doxygen comment. */
  ghost predicate InDoxygen(p: Place, l: Line) {
    p.inBlock || (Free(p) && (IsMark(l.body, "/**") || IsDocumentationLine(l.body)))
  }

  /** The line is one that may stand here, and leads from one place to the other. */
  ghost predicate Follows(p: Place, l: Line, q: Place, alnum: char -> bool) {
    if p.inBlock then
      && l.ending != "" && !Continued(l.body) && !Contains(l.body, "/**")
      && (Contains(l.body, "*/") <==> IsMark(l.body, "*/"))
      && q == p.(inBlock := !IsMark(l.body, "*/"))
    else if Free(p) && IsMark(l.body, "/**") then l.ending != "" && q == p.(inBlock := true)
    else if Free(p) && IsDocumentationLine(l.body) then l.ending != "" && !Continued(l.body) && q == p
    else
      && !q.inBlock && q.continued == Continued(l.body)
      && exists tokens :: LineDivides(tokens, l.body, p.mode, Free(p), alnum) && LeavesOpen(tokens, q.mode)
  }

  /** The header can be read from the first place to the last. */
  ghost predicate Reading(places: seq<Place>, lines: seq<Line>, alnum: char -> bool) {
    && |places| == |lines| + 1
    && forall i, j :: 0 <= i < j < |places| && j == i + 1 ==> Follows(places[i], lines[i], places[j], alnum)
  }

  /** Nothing is left unfinished. */
  predicate Finished(p: Place) {
    !p.inBlock && !p.mode.RawString?
  }

  ghost function Outside(places: seq<Place>, lines: seq<Line>): seq<Line>
    requires |places| == |lines| + 1
  {
    if lines == [] then []
    else (if InDoxygen(places[0], lines[0]) then [] else [lines[0]]) + Outside(places[1..], lines[1..])
  }

  lemma BlankIff(s: string)
    ensures Blank(s) <==> AllBlank(s)
  {
  }

  lemma {:induction false} IndentIs(a: string, rest: string)
    requires AllBlank(a) && (rest == "" || rest[0] !in {' ', '\t'})
    ensures Indent(a + rest) == |a|
  {
    if a == "" {
      assert a + rest == rest;
    } else {
      assert a[0] in a && (a + rest)[0] == a[0] && (a + rest)[1..] == a[1..] + rest;
      IndentIs(a[1..], rest);
    }
  }

  lemma {:induction false} IndentIsBlank(s: string)
    ensures AllBlank(s[..Indent(s)])
  {
    if s != "" && (s[0] == ' ' || s[0] == '\t') {
      IndentIsBlank(s[1..]);
      var n := Indent(s);
      assert s[..n] == [s[0]] + s[1..][..n - 1];
    }
  }

  lemma OnlyTokenIff(body: string, mark: string)
    requires mark != "" && mark[0] !in {' ', '\t'}
    ensures OnlyToken(body, mark) <==> IsMark(body, mark)
  {
    if OnlyToken(body, mark) {
      var n := Indent(body);
      var rest := body[n..];
      IndentIsBlank(body);
      BlankIff(rest[|mark|..]);
      assert body == body[..n] + mark + rest[|mark|..];
    }
    if IsMark(body, mark) {
      var a, b :| AllBlank(a) && AllBlank(b) && body == a + mark + b;
      assert body == a + (mark + b) && (mark + b)[0] == mark[0];
      IndentIs(a, mark + b);
      BlankIff(b);
      assert body[|a|..] == mark + b && (mark + b)[|mark|..] == b;
    }
  }

  lemma DocumentationLineIff(body: string)
    ensures DocumentationLine(body) <==> IsDocumentationLine(body)
  {
    if DocumentationLine(body) {
      var n := Indent(body);
      var rest := body[n..];
      IndentIsBlank(body);
      assert StartsWithSpace(rest[3..]) && body == body[..n] + "///" + rest[3..];
    }
    if IsDocumentationLine(body) {
      var a, b :| AllBlank(a) && StartsWithSpace(b) && body == a + "///" + b;
      assert body == a + ("///" + b) && ("///" + b)[0] == '/';
      IndentIs(a, "///" + b);
      assert body[|a|..] == "///" + b;
      assert b != "" ==> ("///" + b)[3] == b[0];
    }
  }

  lemma MarkOccurs(body: string, mark: string)
    requires IsMark(body, mark)
    ensures Contains(body, mark)
  {
    var a, b :| AllBlank(a) && AllBlank(b) && body == a + mark + b;
    assert body[|a|..|a| + |mark|] == mark;
    assert Occurs(body, mark, |a|);
  }

  /** Inside a Doxygen block. */
  lemma BlockStepIs(p: Place, l: Line, q: Place, alnum: char -> bool)
    requires p.inBlock
    ensures Follows(p, l, q, alnum) <==> BlockEffect(l).Some? && q == p.(inBlock := !BlockEffect(l).value)
  {
    ContinuedIff(l.body);
    OnlyTokenIff(l.body, "*/");
    ContainsIff(l.body, "/**");
    ContainsIff(l.body, "*/");
    if IsMark(l.body, "*/") { MarkOccurs(l.body, "*/"); }
    hide Contains, FindText, OnlyToken, IsMark, EndsWithBackslash, Continued;
  }

  /** The step of a line outside of them, in the words of `Follows`. */
  ghost predicate Leads(effect: Effect, p: Place, q: Place) {
    match effect
    case Reject => false
    case Drop => q == p
    case OpenBlock => q == p.(inBlock := true)
    case Keep(next) => q == Place(next.mode, next.continued, false)
  }

  lemma LineStepIs(p: Place, l: Line, q: Place, alnum: char -> bool)
    requires !p.inBlock
    ensures Follows(p, l, q, alnum) <==> Leads(LineEffect(l, State(p.mode, p.continued), alnum), p, q)
    ensures !LineEffect(l, State(p.mode, p.continued), alnum).Reject? ==>
              (InDoxygen(p, l) <==> !LineEffect(l, State(p.mode, p.continued), alnum).Keep?)
  {
    ContinuedIff(l.body);
    OnlyTokenIff(l.body, "/**");
    DocumentationLineIff(l.body);
    KeptStepIs(p, l, q, alnum);
    hide ScanLine, OnlyToken, IsMark, DocumentationLine, IsDocumentationLine, EndsWithBackslash, Continued, LineDivides,
        LeavesOpen;
  }

  lemma KeptStepIs(p: Place, l: Line, q: Place, alnum: char -> bool)
    ensures (exists tokens :: LineDivides(tokens, l.body, p.mode, Free(p), alnum) && LeavesOpen(tokens, q.mode))
            <==> ScanLine(l.body, p.mode, Free(p), alnum) == Some(q.mode)
  {
    hide LineDivides, ScanLine;
    LineDividesOnce(l.body, p.mode, Free(p), alnum);
    var tokens :| LineDivides(tokens, l.body, p.mode, Free(p), alnum);
    ScanFollowsTokens(tokens, l.body, p.mode, Free(p), alnum);
    OneOpenMode(ScanLine(l.body, p.mode, Free(p), alnum), tokens, q.mode, l.body, p.mode, Free(p), alnum);
  }

  /** The tokens of a line leave one mode open, and none if one of them is malformed. */
  lemma OneOpenMode(end: Option<Mode>, tokens: seq<Token>, mode: Mode, body: string, before: Mode, reject: bool,
      alnum: char -> bool)
    requires LineDivides(tokens, body, before, reject, alnum) && ResultIs(end, tokens)
    ensures LeavesOpen(tokens, mode) <==> end == Some(mode)
  {
    hide LineDivides, AllClosed, AllGood;
    if end.None? {
      LastIsMalformed(tokens, body, before, reject, alnum);
    }
  }

  lemma LastIsMalformed(tokens: seq<Token>, body: string, before: Mode, reject: bool, alnum: char -> bool)
    requires LineDivides(tokens, body, before, reject, alnum) && !AllGood(tokens)
    ensures tokens != [] && tokens[|tokens| - 1].kind.Malformed? && !AllClosed(tokens)
  {
    hide IsToken, Divides;
    match OpenKind(before)
    case None => MalformedIsLast(tokens, body, 0, reject, alnum);
    case Some(_) =>
      if tokens[0].closed {
        assert !AllGood(tokens[1..]) by {
          var i :| 0 <= i < |tokens| && tokens[i].kind.Malformed?;
          assert tokens[1..][i - 1] == tokens[i];
        }
        MalformedIsLast(tokens[1..], body, tokens[0].last, reject || before.RawString?, alnum);
        assert tokens[1..][|tokens| - 2] == tokens[|tokens| - 1];
      }
  }

  lemma {:induction false} MalformedIsLast(tokens: seq<Token>, body: string, index: nat, reject: bool,
      alnum: char -> bool)
    requires Divides(tokens, body, index, reject, alnum) && !AllGood(tokens)
    ensures tokens != [] && tokens[|tokens| - 1].kind.Malformed? && !tokens[|tokens| - 1].closed
    decreases |tokens|
  {
    OneToken(body, tokens[0], reject, alnum);
    hide IsToken;
    if tokens[0].closed {
      BadIsBehind(tokens);
      hide AllGood;
      MalformedIsLast(tokens[1..], body, tokens[0].last, reject, alnum);
    }
  }

  lemma BadIsBehind(tokens: seq<Token>)
    requires !AllGood(tokens) && !tokens[0].kind.Malformed?
    ensures |tokens| > 1 && !AllGood(tokens[1..])
  {
    var i :| 0 <= i < |tokens| && tokens[i].kind.Malformed?;
    assert tokens[1..][i - 1] == tokens[i];
  }

  /** From a place on, the header normalizes exactly if it can be read to a finished end. */
  lemma {:induction false} RunReads(places: seq<Place>, lines: seq<Line>, alnum: char -> bool)
    requires Reading(places, lines, alnum) && Finished(places[|lines|])
    ensures var p := places[0];
            var run := Run(lines, State(p.mode, p.continued), p.inBlock, alnum);
            run.Some? && run.value.0 == Outside(places, lines)
    decreases |lines|
  {
    hide Follows, LineEffect, BlockEffect, InDoxygen;
    if lines != [] {
      ReadingTail(places, lines, alnum);
      RunReads(places[1..], lines[1..], alnum);
      if places[0].inBlock {
        BlockStepIs(places[0], lines[0], places[1], alnum);
        BlockIsDoxygen(places[0], lines[0]);
      } else {
        LineStepIs(places[0], lines[0], places[1], alnum);
      }
    }
  }

  lemma BlockIsDoxygen(p: Place, l: Line)
    requires p.inBlock
    ensures InDoxygen(p, l)
  {
  }

  lemma ReadingTail(places: seq<Place>, lines: seq<Line>, alnum: char -> bool)
    requires Reading(places, lines, alnum) && lines != []
    ensures Follows(places[0], lines[0], places[1], alnum) && Reading(places[1..], lines[1..], alnum)
  {
    hide Follows;
    assert places[1..][0] == places[1];
  }

  lemma {:induction false} ReadingOf(p: Place, lines: seq<Line>, alnum: char -> bool) returns (places: seq<Place>)
    requires Run(lines, State(p.mode, p.continued), p.inBlock, alnum).Some?
    ensures Reading(places, lines, alnum) && places[0] == p && Finished(places[|lines|])
    decreases |lines|
  {
    hide Follows, LineEffect, BlockEffect;
    if lines == [] {
      places := [p];
    } else {
      var q;
      if p.inBlock {
        q := p.(inBlock := !BlockEffect(lines[0]).value);
        BlockStepIs(p, lines[0], q, alnum);
      } else {
        var effect := LineEffect(lines[0], State(p.mode, p.continued), alnum);
        q := match effect
             case Keep(next) => Place(next.mode, next.continued, false)
             case OpenBlock => p.(inBlock := true)
             case _ => p;
        LineStepIs(p, lines[0], q, alnum);
      }
      var rest := ReadingOf(q, lines[1..], alnum);
      places := [p] + rest;
      ReadingGrows(p, rest, lines, alnum);
    }
  }

  lemma ReadingGrows(p: Place, rest: seq<Place>, lines: seq<Line>, alnum: char -> bool)
    requires lines != [] && Reading(rest, lines[1..], alnum) && Follows(p, lines[0], rest[0], alnum)
    ensures Reading([p] + rest, lines, alnum) && ([p] + rest)[|lines|] == rest[|lines| - 1]
  {
    hide Follows;
    var places := [p] + rest;
    forall i, j | 0 <= i < j < |places| && j == i + 1 ensures Follows(places[i], lines[i], places[j], alnum) {
      if i > 0 {
        assert places[i] == rest[i - 1] && places[j] == rest[j - 1] && lines[i] == lines[1..][i - 1];
      }
    }
  }

  const BEGINNING := Place(Normal, false, false)

  /**
   A header is normalized exactly if it can be read from its beginning to a finished end, and the
   result is then its lines outside Doxygen comments, in order and to the character.
   */
  lemma NormalizeIsRight(text: string, alnum: char -> bool)
    ensures Normalize(text, alnum).Some? <==>
            exists places :: Reads(places, text, alnum)
    ensures forall places :: Reads(places, text, alnum) ==>
              Normalize(text, alnum) == Some(Joined(Outside(places, Lines(text))))
  {
    hide Run, Lines, Joined, Follows, Outside;
    if Normalize(text, alnum).Some? {
      var places := ReadingOf(BEGINNING, Lines(text), alnum);
      assert Reads(places, text, alnum);
    }
    forall places | Reads(places, text, alnum)
      ensures Normalize(text, alnum) == Some(Joined(Outside(places, Lines(text))))
    {
      RunReads(places, Lines(text), alnum);
    }
  }

  ghost predicate Reads(places: seq<Place>, text: string, alnum: char -> bool) {
    Reading(places, Lines(text), alnum) && places[0] == BEGINNING && Finished(places[|Lines(text)|])
  }

  // ---------------------------------------------------------------- lines

  /** A line without breaks in it, and one of the four endings. */
  predicate IsLine(l: Line) {
    && (forall c :: c in l.body ==> c != '\r' && c != '\n')
    && l.ending in {"", "\r", "\n", "\r\n"} && l.body + l.ending != ""
  }

  /** Only the last line may lack its ending, and no CR and LF that belong together are torn apart. */
  ghost predicate AreLines(lines: seq<Line>) {
    && (forall i :: 0 <= i < |lines| ==> IsLine(lines[i]))
    && (forall i, j :: 0 <= i < j < |lines| && j == i + 1 ==> FollowedBy(lines[i], lines[j]))
  }

  predicate FollowedBy(a: Line, b: Line) {
    a.ending != "" && !Torn(a, b)
  }

  predicate Torn(a: Line, b: Line) {
    a.ending == "\r" && b.body == "" && b.ending == "\n"
  }

  lemma IsLineIff(l: Line)
    ensures IsLine(l) <==> Shaped(l) && l.body + l.ending != ""
  {
    if IsLine(l) {
      assert forall i :: 0 <= i < |l.body| ==> l.body[i] in l.body;
    }
    if Shaped(l) && l.body + l.ending != "" {
      EndingsAre(l.ending);
    }
  }

  lemma EndingsAre(e: string)
    requires IsEnding(e)
    ensures e in {"", "\r", "\n", "\r\n"}
  {
    if |e| == 1 {
      assert e == [e[0]];
    } else if |e| == 2 {
      assert e == [e[0], e[1]];
    }
  }

  lemma {:induction false} AreLinesIff(lines: seq<Line>)
    ensures AreLines(lines) <==> Neat(lines) && NoJunction(lines)
    decreases |lines|
  {
    if lines != [] {
      AreLinesIff(lines[1..]);
      IsLineIff(lines[0]);
      hide Shaped, IsLine, Torn;
      FirstOfLines(lines);
      if |lines| > 1 { TornIff(lines[0], lines[1]); }
    }
  }

  lemma TornIff(a: Line, b: Line)
    ensures Torn(a, b) <==> Junction(a, b)
  {
  }

  lemma FirstOfLines(lines: seq<Line>)
    requires lines != []
    ensures AreLines(lines) <==>
            && IsLine(lines[0]) && AreLines(lines[1..])
            && (|lines| > 1 ==> FollowedBy(lines[0], lines[1]))
  {
    hide IsLine, FollowedBy;
    var rest := lines[1..];
    if AreLines(lines) {
      forall i | 0 <= i < |rest| ensures IsLine(rest[i]) {
        assert rest[i] == lines[i + 1];
      }
      forall i, j | 0 <= i < j < |rest| && j == i + 1 ensures FollowedBy(rest[i], rest[j]) {
        assert rest[i] == lines[i + 1] && rest[j] == lines[j + 1];
      }
    }
    if IsLine(lines[0]) && AreLines(rest) && (|lines| > 1 ==> FollowedBy(lines[0], lines[1])) {
      forall i | 0 <= i < |lines| ensures IsLine(lines[i]) {
        if i > 0 { assert rest[i - 1] == lines[i]; }
      }
      forall i, j | 0 <= i < j < |lines| && j == i + 1 ensures FollowedBy(lines[i], lines[j]) {
        if i > 0 { assert rest[i - 1] == lines[i] && rest[j - 1] == lines[j]; }
      }
    }
  }

  lemma {:induction false} NothingToMerge(lines: seq<Line>)
    requires NoJunction(lines)
    ensures Merge(lines) == lines
    decreases |lines|
  {
    if lines != [] {
      NothingToMerge(lines[1..]);
      assert lines == [lines[0]] + lines[1..];
    }
  }

  /** The lines of a text are the only ones that join to it. */
  lemma LinesIff(text: string, lines: seq<Line>)
    ensures lines == Lines(text) <==> AreLines(lines) && Joined(lines) == text
  {
    AreLinesIff(lines);
    LinesAreNeat(text);
    LinesJoin(text);
    hide Lines, Joined, Neat, Shaped, AreLines;
    if Neat(lines) && NoJunction(lines) && Joined(lines) == text {
      NothingToMerge(lines);
      MergeIsLines(lines);
    }
  }
}
