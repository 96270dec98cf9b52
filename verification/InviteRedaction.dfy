/**
 The registry of live invite links and the redaction of text by it: the leftmost occurrence of any
 live alias is replaced, the longest one there, and the scan goes on behind it.
 */
module InviteRedaction {
  import opened Optional
  import opened Search
  import opened InviteLink

  const REPLACEMENT := "<redacted:invite-link>"
  const MAX_REGISTRATION: nat := 0xFFFF_FFFF_FFFF_FFFF

  // What redaction means, from the set of aliases alone.

  /** The length of the longest alias of at most `n` characters that occurs at `i`, or 0. */
  function Longest(v: string, aliases: set<string>, i: nat, n: nat): (r: nat)
    requires i + n <= |v|
    ensures r <= n
    ensures r > 0 ==> v[i..i + r] in aliases
    ensures forall e :: i + r < e <= i + n ==> v[i..e] !in aliases
  {
    if n == 0 then 0 else if v[i..i + n] in aliases then n else Longest(v, aliases, i, n - 1)
  }

  function LongestAt(v: string, aliases: set<string>, i: nat): nat
    requires i <= |v|
  {
    Longest(v, aliases, i, |v| - i)
  }

  /** The first position at or after `i` where some alias occurs. */
  function FirstMatch(v: string, aliases: set<string>, i: nat): (r: Option<nat>)
    requires i <= |v|
    ensures r.Some? ==> i <= r.value < |v| && LongestAt(v, aliases, r.value) > 0
    ensures forall p :: i <= p < (if r.Some? then r.value else |v|) ==> LongestAt(v, aliases, p) == 0
    decreases |v| - i
  {
    if i == |v| then None
    else if LongestAt(v, aliases, i) > 0 then Some(i)
    else FirstMatch(v, aliases, i + 1)
  }

  /** A text taken apart into gaps and aliases. */
  datatype Parts = End(gap: string) | More(gap: string, link: string, rest: Parts)

  function Split(v: string, aliases: set<string>, i: nat): Parts
    requires i <= |v|
    decreases |v| - i
  {
    match FirstMatch(v, aliases, i)
    case None => End(v[i..])
    case Some(p) =>
      var n := LongestAt(v, aliases, p);
      More(v[i..p], v[p..p + n], Split(v, aliases, p + n))
  }

  function Original(parts: Parts): string {
    match parts
    case End(gap) => gap
    case More(gap, link, rest) => gap + link + Original(rest)
  }

  function Rendered(parts: Parts): string {
    match parts
    case End(gap) => gap
    case More(gap, _, rest) => gap + REPLACEMENT + Rendered(rest)
  }

  function Redacted(v: string, aliases: set<string>): string {
    Rendered(Split(v, aliases, 0))
  }

  /** No alias occurs in `text`. */
  ghost predicate Free(text: string, aliases: set<string>) {
    forall a, p :: a in aliases ==> !Occurs(text, a, p)
  }

  /** Nothing of the aliases is left in the gaps, and only aliases are taken out. */
  ghost predicate WellSplit(parts: Parts, aliases: set<string>) {
    match parts
    case End(gap) => Free(gap, aliases)
    case More(gap, link, rest) => Free(gap, aliases) && link in aliases && WellSplit(rest, aliases)
  }

  lemma NoMatchMeansNone(v: string, aliases: set<string>, i: nat, a: string)
    requires i <= |v| && LongestAt(v, aliases, i) == 0 && a in aliases && a != ""
    ensures !Occurs(v, a, i)
  {
    if i + |a| <= |v| {
      assert v[i..i + |a|] !in aliases;
    }
  }

  lemma GapIsFree(v: string, aliases: set<string>, i: nat, p: nat)
    requires i <= p <= |v| && "" !in aliases
    requires forall q :: i <= q < p ==> LongestAt(v, aliases, q) == 0
    ensures Free(v[i..p], aliases)
  {
    forall a, q | a in aliases ensures !Occurs(v[i..p], a, q) {
      if Occurs(v[i..p], a, q) {
        OccursInSlice(v, i, p, a, q);
        NoMatchMeansNone(v, aliases, i + q, a);
      }
    }
  }

  lemma ThreeSlices(v: string, i: nat, p: nat, n: nat)
    requires i <= p <= p + n <= |v|
    ensures v[i..p] + v[p..p + n] + v[p + n..] == v[i..]
  {
  }

  /** The parts make up the text, no gap contains an alias, and what is taken out are aliases. */
  lemma {:induction false} SplitIsRight(v: string, aliases: set<string>, i: nat)
    requires i <= |v| && "" !in aliases
    ensures Original(Split(v, aliases, i)) == v[i..] && WellSplit(Split(v, aliases, i), aliases)
    decreases |v| - i
  {
    hide Free, FirstMatch, LongestAt;
    match FirstMatch(v, aliases, i)
    case None =>
      GapIsFree(v, aliases, i, |v|);
      assert v[i..|v|] == v[i..];
    case Some(p) =>
      var n := LongestAt(v, aliases, p);
      LongestIsAlias(v, aliases, p);
      GapIsFree(v, aliases, i, p);
      SplitIsRight(v, aliases, p + n);
      ThreeSlices(v, i, p, n);
  }

  /** Every alias taken out is the leftmost in what was left of the text, and the longest there. */
  ghost predicate LeftmostLongest(parts: Parts, aliases: set<string>) {
    match parts
    case End(gap) => Free(gap, aliases)
    case More(gap, link, rest) =>
      && link in aliases && LeftmostLongest(rest, aliases)
      && forall a, p :: a in aliases && Occurs(Original(parts), a, p) ==> Within(a, p, gap, link)
  }

  /** An occurrence of `a` at `p` neither comes before the link behind `gap` nor is longer than it there. */
  predicate Within(a: string, p: int, gap: string, link: string) {
    |gap| <= p && (p == |gap| ==> |a| <= |link|)
  }

  lemma MatchIsLongest(v: string, aliases: set<string>, p: nat, a: string)
    requires p <= |v| && a in aliases && Occurs(v, a, p)
    ensures |a| <= LongestAt(v, aliases, p)
  {
    assert v[p..p + |a|] == a;
  }

  lemma {:induction false} SplitIsLeftmostLongest(v: string, aliases: set<string>, i: nat)
    requires i <= |v| && "" !in aliases
    ensures LeftmostLongest(Split(v, aliases, i), aliases)
    decreases |v| - i
  {
    hide FirstMatch, LongestAt, Occurs;
    SplitIsRight(v, aliases, i);
    match FirstMatch(v, aliases, i)
    case None =>
    case Some(q) =>
      var n := LongestAt(v, aliases, q);
      LongestIsAlias(v, aliases, q);
      SplitIsLeftmostLongest(v, aliases, q + n);
      forall a, p | a in aliases && Occurs(v[i..], a, p) ensures Within(a, p, v[i..q], v[q..q + n]) {
        OccursInTail(v, i, a, p);
        MatchesAreWithin(v, aliases, i, q, a, p);
      }
  }

  lemma OccursInTail(v: string, i: nat, a: string, p: int)
    requires i <= |v| && Occurs(v[i..], a, p)
    ensures 0 <= p && Occurs(v, a, i + p)
  {
    assert v[i..] == v[i..|v|];
    OccursInSlice(v, i, |v|, a, p);
  }

  lemma MatchesAreWithin(v: string, aliases: set<string>, i: nat, q: nat, a: string, p: nat)
    requires i <= q <= |v| && "" !in aliases && a in aliases && Occurs(v, a, i + p)
    requires q + LongestAt(v, aliases, q) <= |v|
    requires forall k :: i <= k < q ==> LongestAt(v, aliases, k) == 0
    ensures Within(a, p, v[i..q], v[q..q + LongestAt(v, aliases, q)])
  {
    hide LongestAt;
    if i + p < q {
      NoMatchMeansNone(v, aliases, i + p, a);
    } else if i + p == q {
      MatchIsLongest(v, aliases, q, a);
    }
  }

  /** The text is in the way it is taken apart, and there is no other way. */
  lemma {:induction false} LeftmostLongestOnce(x: Parts, y: Parts, aliases: set<string>)
    requires "" !in aliases && LeftmostLongest(x, aliases) && LeftmostLongest(y, aliases)
    requires Original(x) == Original(y)
    ensures x == y
    decreases x
  {
    hide Occurs;
    if x.More? { LinkIsInside(x, aliases); }
    if y.More? { LinkIsInside(y, aliases); }
    match x
    case End(_) =>
    case More(gap, link, rest) =>
      match y
      case End(_) =>
      case More(gap', link', rest') =>
        assert Within(link, |gap|, gap', link') && Within(link', |gap'|, gap, link);
        SameParts(gap, link, Original(rest), gap', link', Original(rest'));
        LeftmostLongestOnce(rest, rest', aliases);
  }

  /** So redaction is what replacing the links of any such division gives. */
  lemma RedactedIs(v: string, aliases: set<string>, parts: Parts)
    requires "" !in aliases && Original(parts) == v && LeftmostLongest(parts, aliases)
    ensures Redacted(v, aliases) == Rendered(parts)
  {
    SplitIsRight(v, aliases, 0);
    SplitIsLeftmostLongest(v, aliases, 0);
    assert v[0..] == v;
    LeftmostLongestOnce(parts, Split(v, aliases, 0), aliases);
  }

  lemma LinkIsInside(x: Parts, aliases: set<string>)
    requires x.More? && LeftmostLongest(x, aliases)
    ensures x.link in aliases && Occurs(Original(x), x.link, |x.gap|)
  {
    var text := x.gap + x.link + Original(x.rest);
    assert text[|x.gap|..|x.gap| + |x.link|] == x.link;
  }

  lemma SameParts(a: string, b: string, c: string, a': string, b': string, c': string)
    requires a + b + c == a' + b' + c' && |a| == |a'| && |b| == |b'|
    ensures a == a' && b == b' && c == c'
  {
    var t, t' := a + b + c, a' + b' + c';
    assert t[..|a|] == a && t'[..|a'|] == a';
    assert t[|a|..|a| + |b|] == b && t'[|a'|..|a'| + |b'|] == b';
    assert t[|a| + |b|..] == c && t'[|a'| + |b'|..] == c';
  }

  /** Laid over the replacement from `shift` on, `a` agrees with it wherever the two meet. */
  predicate AgreesAt(a: string, shift: int) {
    forall k :: 0 <= k < |a| && 0 <= shift + k < |REPLACEMENT| ==> a[k] == REPLACEMENT[shift + k]
  }

  /**
   `a` occurs in the replacement, contains it, ends as it begins or begins as it ends: at some shift
   at which the two meet, they agree.
   */
  predicate Overlaps(a: string) {
    exists shift :: -|a| < shift < |REPLACEMENT| && AgreesAt(a, shift)
  }

  /** No text and no other links make `a` appear in a text that was redacted while `a` was live. */
  ghost predicate Erased(a: string) {
    forall v, aliases, at :: a in aliases && "" !in aliases ==> !Occurs(Redacted(v, aliases), a, at)
  }

  lemma {:induction false} RenderedIsFree(parts: Parts, aliases: set<string>, a: string, at: int)
    requires WellSplit(parts, aliases) && a in aliases && !Overlaps(a)
    ensures !Occurs(Rendered(parts), a, at)
    decreases parts
  {
    match parts
    case End(_) =>
    case More(gap, _, rest) =>
      RenderedIsFree(rest, aliases, a, at - |gap| - |REPLACEMENT|);
      if Occurs(gap + REPLACEMENT + Rendered(rest), a, at) {
        OccursAround(gap, Rendered(rest), a, at);
      }
  }

  lemma OccursAround(gap: string, rest: string, a: string, at: int)
    requires Occurs(gap + REPLACEMENT + rest, a, at)
    ensures Occurs(gap, a, at) || Occurs(rest, a, at - |gap| - |REPLACEMENT|) || Overlaps(a)
  {
    OccursInParts(gap, REPLACEMENT, rest, a, at);
    if |gap| < at + |a| && at < |gap| + |REPLACEMENT| {
      assert AgreesAt(a, at - |gap|);
    }
  }

  /** An alias without overlap is gone from every text redacted while it is live. */
  lemma DetachedIsErased(a: string)
    requires !Overlaps(a)
    ensures Erased(a)
  {
    forall v, aliases, at | a in aliases && "" !in aliases ensures !Occurs(Redacted(v, aliases), a, at) {
      SplitIsRight(v, aliases, 0);
      RenderedIsFree(Split(v, aliases, 0), aliases, a, at);
    }
  }

  /** What of `a` is in front of the replacement, and what is behind it. */
  function Front(a: string, shift: int): (p: string)
    requires -|a| < shift
    ensures |p| < |a| || a == ""
  {
    if shift < 0 then a[..-shift] else ""
  }

  function Back(a: string, shift: int): (q: string)
    requires -|a| < shift < |REPLACEMENT|
    ensures |q| < |a| || a == ""
  {
    if |REPLACEMENT| < shift + |a| then a[|REPLACEMENT| - shift..] else ""
  }

  lemma OverlapAt(a: string, shift: int, k: nat)
    requires -|a| < shift < |REPLACEMENT| && AgreesAt(a, shift) && k < |a|
    ensures var p, q := Front(a, shift), Back(a, shift);
            && 0 <= |p| + shift + k < |p + REPLACEMENT + q|
            && a[k] == (p + REPLACEMENT + q)[|p| + shift + k]
  {
    var p, q := Front(a, shift), Back(a, shift);
    var text, i := p + REPLACEMENT + q, |p| + shift + k;
    if i < |p| {
      assert text[i] == p[i];
    } else if i < |p| + |REPLACEMENT| {
      assert text[i] == REPLACEMENT[shift + k];
    } else {
      assert text[i] == q[shift + k - |REPLACEMENT|];
    }
  }

  lemma OverlapOccurs(a: string, shift: int)
    requires -|a| < shift < |REPLACEMENT| && AgreesAt(a, shift)
    ensures Occurs(Front(a, shift) + REPLACEMENT + Back(a, shift), a, |Front(a, shift)| + shift)
  {
    hide AgreesAt, Occurs;
    var p, q := Front(a, shift), Back(a, shift);
    var text, at := p + REPLACEMENT + q, |p| + shift;
    forall k | 0 <= k < |a| ensures 0 <= at + k < |text| && a[k] == text[at + k] {
      OverlapAt(a, shift, k);
    }
    OccursIff(text, a, at);
  }

  function Repeated(d: char, n: nat): (s: string)
    ensures |s| == n && forall i :: 0 <= i < n ==> s[i] == d
  {
    if n == 0 then "" else [d] + Repeated(d, n - 1)
  }

  /** A character that `a` and `p` do not end in. */
  function OtherEnd(a: string, p: string): (d: char)
    ensures a != "" ==> d != a[|a| - 1]
    ensures p != "" ==> d != p[|p| - 1]
  {
    if !EndsIn(a, 'x') && !EndsIn(p, 'x') then 'x' else if !EndsIn(a, 'y') && !EndsIn(p, 'y') then 'y' else 'z'
  }

  predicate EndsIn(s: string, c: char) {
    s != "" && s[|s| - 1] == c
  }

  /** Before the link: `a` would have to end inside it. */
  lemma NotBeforeLink(a: string, p: string, b: string, q: string, i: nat)
    requires i < |p| < |a| == |b| && forall k :: 0 <= k < |b| ==> b[k] != a[|a| - 1]
    ensures !Occurs(p + b + q, a, i)
  {
    OccursIff(p + b + q, a, i);
    var last := |a| - 1;
    assert (p + b + q)[i + last] == b[i + last - |p|];
  }

  /** And the link would have to start in front of itself. */
  lemma LinkNotBeforeLink(p: string, b: string, q: string, i: nat)
    requires i < |p| < |b| && forall k :: 0 <= k < |b| ==> b[k] != p[|p| - 1]
    ensures !Occurs(p + b + q, b, i)
  {
    OccursIff(p + b + q, b, i);
    var last := |p| - 1 - i;
    assert (p + b + q)[i + last] == p[|p| - 1];
  }

  lemma LinkOccurs(p: string, b: string, q: string)
    ensures Occurs(p + b + q, b, |p|)
  {
    var v := p + b + q;
    OccursIff(v, b, |p|);
    assert forall k :: 0 <= k < |b| ==> v[|p| + k] == b[k];
  }

  /** Between texts shorter than `a`, a link as long as `a` and unlike it is the only match there is. */
  lemma OnlyTheLink(a: string, p: string, q: string, d: char, i: nat)
    requires |p| < |a| && |q| < |a| && d != a[|a| - 1] && (p != "" ==> d != p[|p| - 1])
    requires i <= |p| || |p| + |a| <= i <= |p + Repeated(d, |a|) + q|
    ensures var b := Repeated(d, |a|); LongestAt(p + b + q, {a, b}, i) == if i == |p| then |a| else 0
  {
    hide LongestAt, Repeated, Occurs;
    var b := Repeated(d, |a|);
    if i < |p| {
      NotBeforeLink(a, p, b, q, i);
      LinkNotBeforeLink(p, b, q, i);
      NeitherMatches(p + b + q, a, b, i);
    } else if i == |p| {
      LinkOccurs(p, b, q);
      OneMatches(p + b + q, a, b, i);
    } else {
      TooShort(p + b + q, a, i);
      TooShort(p + b + q, b, i);
      NeitherMatches(p + b + q, a, b, i);
    }
  }

  lemma TooShort(v: string, a: string, i: nat)
    requires |v| < i + |a|
    ensures !Occurs(v, a, i)
  {
  }

  lemma NeitherMatches(v: string, a: string, b: string, i: nat)
    requires i <= |v| && a != "" && b != "" && !Occurs(v, a, i) && !Occurs(v, b, i)
    ensures LongestAt(v, {a, b}, i) == 0
  {
    hide LongestAt;
    if LongestAt(v, {a, b}, i) > 0 {
      LongestIsAlias(v, {a, b}, i);
    }
  }

  lemma OneMatches(v: string, a: string, b: string, i: nat)
    requires i <= |v| && |a| == |b| > 0 && Occurs(v, b, i)
    ensures LongestAt(v, {a, b}, i) == |a|
  {
    hide LongestAt, Occurs;
    MatchIffOccurs(v, [a, b], {a, b}, i);
    assert Occurs(v, [a, b][1], i);
    LongestIsAlias(v, {a, b}, i);
  }

  lemma RedactedAroundLink(a: string, p: string, q: string, d: char)
    requires |p| < |a| && |q| < |a| && d != a[|a| - 1] && (p != "" ==> d != p[|p| - 1])
    ensures var b := Repeated(d, |a|); Redacted(p + b + q, {a, b}) == p + REPLACEMENT + q
  {
    hide LongestAt, FirstMatch, Split, Rendered, Repeated;
    var b := Repeated(d, |a|);
    var v, aliases, n := p + b + q, {a, b}, |p| + |a|;
    forall i: nat | i <= |p| || n <= i <= |v| ensures LongestAt(v, aliases, i) == if i == |p| then |a| else 0 {
      OnlyTheLink(a, p, q, d, i);
    }
    FirstMatchIs(v, aliases, 0, |p|);
    RenderedStep(v, aliases, 0, |p|, |a|, "");
    FirstMatchIsNone(v, aliases, n);
    RenderedEnd(v, aliases, n);
    assert v[0..|p|] == p && v[n..] == q;
    assert "" + p == p && "" + Rendered(Split(v, aliases, 0)) == Rendered(Split(v, aliases, 0));
  }

  /** An alias with an overlap does reappear, next to another link: here is the text. */
  lemma OverlapReappears(a: string, shift: int)
    requires -|a| < shift < |REPLACEMENT| && AgreesAt(a, shift) && a != ""
    ensures var p := Front(a, shift);
            var b := Repeated(OtherEnd(a, p), |a|);
            && Redacted(p + b + Back(a, shift), {a, b}) == p + REPLACEMENT + Back(a, shift)
            && Occurs(Redacted(p + b + Back(a, shift), {a, b}), a, |p| + shift)
  {
    hide Redacted, AgreesAt, Occurs, Repeated;
    RedactedAroundLink(a, Front(a, shift), Back(a, shift), OtherEnd(a, Front(a, shift)));
    OverlapOccurs(a, shift);
  }

  /** An alias is erased whatever is redacted and whatever else is registered exactly if it has no overlap. */
  lemma ErasedIffNoOverlap(a: string)
    requires a != ""
    ensures Erased(a) <==> !Overlaps(a)
  {
    hide Redacted, AgreesAt, Occurs;
    if Overlaps(a) {
      var shift :| -|a| < shift < |REPLACEMENT| && AgreesAt(a, shift);
      OverlapReappears(a, shift);
      var p := Front(a, shift);
      var b := Repeated(OtherEnd(a, p), |a|);
      assert a in {a, b} && "" !in {a, b};
    } else {
      DetachedIsErased(a);
    }
  }

  /** Some need no second link: this one is part of the replacement itself. */
  lemma InviteReappears(v: string)
    requires v == "invite"
    ensures Redacted(v, {v}) == REPLACEMENT && Occurs(Redacted(v, {v}), v, 10)
  {
    RedactedAlone(v);
    hide Redacted, Occurs;
    OccursIff(REPLACEMENT, v, 10);
  }

  lemma RedactedAlone(v: string)
    requires v != ""
    ensures Redacted(v, {v}) == REPLACEMENT
  {
    hide LongestAt, FirstMatch, Split, Rendered;
    LinkOccurs("", v, "");
    assert "" + v + "" == v && {v, v} == {v};
    OneMatches(v, v, v, 0);
    FirstMatchIs(v, {v}, 0, 0);
    RenderedStep(v, {v}, 0, 0, |v|, "");
    NothingLeft(v, {v});
    assert "" + v[0..0] + REPLACEMENT + "" == REPLACEMENT;
    assert "" + Rendered(Split(v, {v}, 0)) == Rendered(Split(v, {v}, 0));
  }

  /** No spelling of any token overlaps. */
  lemma SpellingsAreErased(token: string, a: string)
    requires ValidToken(token) && a in Spellings(token)
    ensures Erased(a) && a != ""
  {
    SpellingsArePlain(token, a);
    forall shift | -|a| < shift < |REPLACEMENT| ensures !AgreesAt(a, shift) {
      PlainDisagrees(a, shift);
    }
    DetachedIsErased(a);
  }

  lemma PlainDisagrees(a: string, shift: int)
    requires '<' !in a && '>' !in a && '/' in a && -|a| < shift < |REPLACEMENT|
    ensures !AgreesAt(a, shift)
  {
    var last := |REPLACEMENT| - 1;
    if shift <= 0 {
      assert a[0 - shift] != REPLACEMENT[0];
    } else if last < shift + |a| {
      assert a[last - shift] != REPLACEMENT[last];
    } else {
      var k :| 0 <= k < |a| && a[k] == '/';
      assert '/' !in REPLACEMENT;
      assert REPLACEMENT[shift + k] in REPLACEMENT;
    }
  }

  lemma SpellingsArePlain(token: string, a: string)
    requires ValidToken(token) && a in Spellings(token)
    ensures '<' !in a && '>' !in a && '/' in a
  {
    forall c | c in {'<', '>'} ensures c !in a {
      assert forall i :: 0 <= i < |token| ==> token[i] != c;
    }
    assert exists k :: 0 <= k < 4 && PREFIXES[k] <= a;
  }

  /** What the search of one round has found among the first `k` aliases. */
  ghost predicate BestOf(v: string, ordered: seq<string>, k: nat, offset: nat, best: Option<(nat, string)>)
    requires k <= |ordered|
  {
    match best
    case None => forall j, p :: 0 <= j < k && offset <= p ==> !Occurs(v, ordered[j], p)
    case Some((next, matched)) =>
      && matched in ordered && offset <= next && Occurs(v, matched, next)
      && (forall j, p :: 0 <= j < k && offset <= p < next ==> !Occurs(v, ordered[j], p))
      && (forall j :: 0 <= j < k && Occurs(v, ordered[j], next) ==> |ordered[j]| <= |matched|)
  }

  /** A position has a match exactly when some alias occurs there. */
  lemma MatchIffOccurs(v: string, ordered: seq<string>, aliases: set<string>, p: nat)
    requires p <= |v| && Elements(ordered) == aliases && "" !in aliases
    ensures LongestAt(v, aliases, p) > 0 <==> exists j :: 0 <= j < |ordered| && Occurs(v, ordered[j], p)
    ensures forall j :: 0 <= j < |ordered| && Occurs(v, ordered[j], p) ==> |ordered[j]| <= LongestAt(v, aliases, p)
  {
    var n := LongestAt(v, aliases, p);
    if n > 0 {
      assert v[p..p + n] in ordered;
    }
    forall j | 0 <= j < |ordered| && Occurs(v, ordered[j], p) ensures 0 < |ordered[j]| <= n {
      assert ordered[j] in aliases;
      assert v[p..p + |ordered[j]|] in aliases;
    }
  }

  lemma {:induction false} FirstMatchIs(v: string, aliases: set<string>, i: nat, p: nat)
    requires i <= p < |v| && LongestAt(v, aliases, p) > 0
    requires forall q :: i <= q < p ==> LongestAt(v, aliases, q) == 0
    ensures FirstMatch(v, aliases, i) == Some(p)
    decreases p - i
  {
    hide LongestAt;
    if i < p {
      FirstMatchIs(v, aliases, i + 1, p);
    }
  }

  lemma {:induction false} FirstMatchIsNone(v: string, aliases: set<string>, i: nat)
    requires i <= |v| && forall q :: i <= q < |v| ==> LongestAt(v, aliases, q) == 0
    ensures FirstMatch(v, aliases, i).None?
    decreases |v| - i
  {
    hide LongestAt;
    if i < |v| {
      FirstMatchIsNone(v, aliases, i + 1);
    }
  }

  /** The best of all the aliases is the leftmost and longest match. */
  lemma BestIsFirstMatch(v: string, ordered: seq<string>, aliases: set<string>, offset: nat,
      best: Option<(nat, string)>)
    requires BestOf(v, ordered, |ordered|, offset, best) && Elements(ordered) == aliases && "" !in aliases
             && offset <= |v|
    ensures best.None? ==> FirstMatch(v, aliases, offset).None?
    ensures best.Some? ==>
              && FirstMatch(v, aliases, offset) == Some(best.value.0)
              && LongestAt(v, aliases, best.value.0) == |best.value.1| > 0
              && best.value.0 + |best.value.1| <= |v|
  {
    hide LongestAt, FirstMatch;
    forall q | offset <= q < (if best.Some? then best.value.0 else |v|) ensures LongestAt(v, aliases, q) == 0 {
      MatchIffOccurs(v, ordered, aliases, q);
    }
    match best
    case None =>
      FirstMatchIsNone(v, aliases, offset);
    case Some((next, matched)) =>
      assert matched in aliases;
      MatchIffOccurs(v, ordered, aliases, next);
      LongestIsAlias(v, aliases, next);
      FirstMatchIs(v, aliases, offset, next);
  }

  lemma LongestIsAlias(v: string, aliases: set<string>, p: nat)
    requires p <= |v| && LongestAt(v, aliases, p) > 0
    ensures var n := LongestAt(v, aliases, p); p + n <= |v| && v[p..p + n] in aliases && Occurs(v, v[p..p + n], p)
  {
  }

  ghost predicate IsRegistered(aliases: seq<string>) {
    exists link :: link != "" && Elements(aliases) == AliasesOf(link)
  }

  /** With one spelling of a token registered, all of them are. */
  lemma SpellingsComeTogether(aliases: seq<string>, token: string, a: string)
    requires IsRegistered(aliases) && ValidToken(token) && a in aliases && a in Spellings(token)
    ensures Elements(aliases) == Spellings(token)
  {
    var link :| link != "" && Elements(aliases) == AliasesOf(link);
    assert a in Elements(aliases);
    hide Elements, Spellings, Token;
    TokenIffSpelling(a, token);
    if Token(link).Some? {
      TokenIffSpelling(a, Token(link).value);
      TokenIffSpelling(link, Token(link).value);
    }
  }

  class Registry {
    var links: map<nat, seq<string>>
    var nextRegistration: nat

    /** Registrations are below the next one, and each has the aliases of a link, none of them empty. */
    ghost predicate Valid()
      reads this
    {
      && 1 <= nextRegistration <= MAX_REGISTRATION
      && (forall id :: id in links ==> id < nextRegistration)
      && (forall id :: id in links ==> "" !in links[id] && IsRegistered(links[id]))
    }

    ghost function Live(): set<string>
      reads this
    {
      set id, a | id in links && a in links[id] :: a
    }

    constructor ()
      ensures Valid() && links == map[]
    {
      links := map[];
      nextRegistration := 1;
    }

    method RegisterLink(link: string) returns (registration: Option<nat>)
      requires Valid()
      modifies this
      ensures Valid()
      ensures registration.None? <==> link == "" || old(nextRegistration) == MAX_REGISTRATION
      ensures registration.None? ==> links == old(links) && nextRegistration == old(nextRegistration)
      ensures registration.Some? ==>
                && registration.value == old(nextRegistration) && nextRegistration == old(nextRegistration) + 1
                && registration.value !in old(links)
                && links.Keys == old(links).Keys + {registration.value}
                && (forall id :: id in old(links) ==> links[id] == old(links)[id])
                && Elements(links[registration.value]) == AliasesOf(link)
    {
      if link == "" { return None; }
      var aliases := ExactAliases(link);
      if aliases == [] {
        aliases := [link];
      }
      AliasesAreNotEmpty(link);
      assert Elements(aliases) == AliasesOf(link);
      assert "" !in aliases;
      if nextRegistration == 0 || nextRegistration == MAX_REGISTRATION { return None; }
      registration := Some(nextRegistration);
      nextRegistration := nextRegistration + 1;
      links := links[registration.value := aliases];
    }

    method Release(registration: nat)
      requires Valid()
      modifies this
      ensures Valid() && nextRegistration == old(nextRegistration)
      ensures links == old(links) - {registration}
    {
      if registration in links {
        links := links - {registration};
      }
    }

    /** The live aliases in some order; the program sorts them by length, and no order changes the result. */
    method CollectAliases() returns (ordered: seq<string>)
      requires Valid()
      ensures Elements(ordered) == Live()
    {
      ordered := [];
      var ids := links.Keys;
      while ids != {}
        invariant ids <= links.Keys
        invariant Elements(ordered) == set id, a | id in links.Keys - ids && a in links[id] :: a
        decreases ids
      {
        var id :| id in ids;
        ghost var before := ordered;
        ordered := ordered + links[id];
        assert Elements(ordered) == Elements(before) + Elements(links[id]);
        ids := ids - {id};
      }
      assert links.Keys - {} == links.Keys;
    }

    /** One round of the search: the best match at or after `offset` among all the aliases. */
    static method Search(value: string, ordered: seq<string>, offset: nat) returns (best: Option<(nat, string)>)
      ensures BestOf(value, ordered, |ordered|, offset, best)
    {
      best := None;
      for k := 0 to |ordered|
        invariant BestOf(value, ordered, k, offset, best)
      {
        var found := FindText(value, ordered[k], offset);
        if found.Some? && (best.None? || found.value < best.value.0
                           || (found.value == best.value.0 && |ordered[k]| > |best.value.1|)) {
          best := Some((found.value, ordered[k]));
        }
      }
    }

    /** While a Telegram link is registered, no spelling of it is in any text that was redacted. */
    lemma RegisteredLinkIsErased(token: string, a: string, b: string, value: string, at: int)
      requires Valid() && ValidToken(token) && a in Live() && a in Spellings(token) && b in Spellings(token)
      ensures !Occurs(Redacted(value, Live()), b, at)
    {
      hide Spellings, AliasesOf, IsRegistered, ValidToken;
      var id :| id in links && a in links[id];
      SpellingsComeTogether(links[id], token, a);
      assert b in Elements(links[id]);
      SpellingsAreErased(token, b);
    }

    method Redact(value: string) returns (result: string)
      requires Valid()
      ensures result == Redacted(value, Live())
    {
      hide BestOf, FirstMatch, LongestAt, Split, Rendered;
      var ordered := CollectAliases();
      ghost var aliases := Live();
      result := "";
      var offset := 0;
      while offset < |value|
        invariant 0 <= offset <= |value|
        invariant result + Rendered(Split(value, aliases, offset)) == Redacted(value, aliases)
        decreases |value| - offset
      {
        var best := Search(value, ordered, offset);
        BestIsFirstMatch(value, ordered, aliases, offset, best);
        if best.None? {
          RenderedEnd(value, aliases, offset);
          result := result + value[offset..];
          return;
        }
        var (next, matched) := best.value;
        RenderedStep(value, aliases, offset, next, |matched|, result);
        result := result + value[offset..next];
        result := result + REPLACEMENT;
        offset := next + |matched|;
      }
      NothingLeft(value, aliases);
      assert result + "" == result;
    }
  }

  lemma RenderedStep(v: string, aliases: set<string>, i: nat, p: nat, n: nat, done: string)
    requires i <= |v| && FirstMatch(v, aliases, i) == Some(p) && LongestAt(v, aliases, p) == n && p + n <= |v|
    ensures done + Rendered(Split(v, aliases, i)) == done + v[i..p] + REPLACEMENT + Rendered(Split(v, aliases, p + n))
  {
    hide FirstMatch, LongestAt;
    var rest := Rendered(Split(v, aliases, p + n));
    assert Rendered(Split(v, aliases, i)) == v[i..p] + REPLACEMENT + rest;
    Regroup(done, v[i..p], REPLACEMENT, rest);
  }

  lemma Regroup(a: string, b: string, c: string, d: string)
    ensures a + (b + c + d) == a + b + c + d
  {
  }

  lemma RenderedEnd(v: string, aliases: set<string>, i: nat)
    requires i <= |v| && FirstMatch(v, aliases, i).None?
    ensures Rendered(Split(v, aliases, i)) == v[i..]
  {
  }

  lemma NothingLeft(v: string, aliases: set<string>)
    ensures Rendered(Split(v, aliases, |v|)) == ""
  {
  }

  /** What a link stands for once it is registered. */
  function AliasesOf(link: string): set<string> {
    if Token(link).Some? then Spellings(Token(link).value) else {link}
  }

  lemma AliasesAreNotEmpty(link: string)
    requires link != ""
    ensures "" !in AliasesOf(link)
  {
  }

  /** All spellings of one token register the same aliases. */
  lemma SpellingsAreEquivalent(token: string, a: string, b: string)
    requires ValidToken(token) && a in Spellings(token) && b in Spellings(token)
    ensures AliasesOf(a) == AliasesOf(b) == Spellings(token)
  {
    TokenIffSpelling(a, token);
    TokenIffSpelling(b, token);
  }
}
