/** Telegram invite links: the token in a link, and the four ways to spell a link with that token. */
module InviteLink {
  import opened Optional

  predicate TokenChar(c: char) {
    'A' <= c <= 'Z' || 'a' <= c <= 'z' || '0' <= c <= '9' || c == '_' || c == '-'
  }

  predicate ValidToken(token: string) {
    token != "" && forall i :: 0 <= i < |token| ==> TokenChar(token[i])
  }

  const HTTPS := "https://t.me/"
  const BARE := "t.me/"
  const JOINCHAT := "joinchat/"

  function AfterHost(link: string): Option<string> {
    if HTTPS <= link then Some(link[|HTTPS|..])
    else if BARE <= link then Some(link[|BARE|..])
    else None
  }

  /** `telegram_invite_token`. */
  function Token(link: string): Option<string> {
    match AfterHost(link)
    case None => None
    case Some(remainder) =>
      if "+" <= remainder then CheckedToken(remainder[1..])
      else if JOINCHAT <= remainder then CheckedToken(remainder[|JOINCHAT|..])
      else None
  }

  function CheckedToken(token: string): Option<string> {
    if ValidToken(token) then Some(token) else None
  }

  const PREFIXES: seq<string> := [HTTPS + "+", BARE + "+", HTTPS + JOINCHAT, BARE + JOINCHAT]

  /** The four spellings. */
  function Spellings(token: string): set<string> {
    {PREFIXES[0] + token, PREFIXES[1] + token, PREFIXES[2] + token, PREFIXES[3] + token}
  }

  /** The four spellings, written out. */
  lemma SpellingsAre(token: string)
    ensures Spellings(token) == {"https://t.me/+" + token, "t.me/+" + token,
                                 "https://t.me/joinchat/" + token, "t.me/joinchat/" + token}
  {
    assert HTTPS + JOINCHAT == "https://t.me/joinchat/" && BARE + JOINCHAT == "t.me/joinchat/";
    assert HTTPS + "+" == "https://t.me/+" && BARE + "+" == "t.me/+";
  }

  lemma Split3(a: string, b: string, c: string)
    ensures a <= a + b + c && (a + b + c)[|a|..] == b + c
    ensures b <= b + c && (b + c)[|b|..] == c
  {
  }

  lemma SpellingHasToken(host: string, form: string, token: string)
    requires host in {HTTPS, BARE} && form in {"+", JOINCHAT} && ValidToken(token)
    ensures Token(host + form + token) == Some(token)
  {
    var link := host + form + token;
    Split3(host, form, token);
    assert link[0] == host[0] && HTTPS[0] != BARE[0];
    assert AfterHost(link) == Some(form + token);
    assert (form + token)[0] == form[0] && JOINCHAT[0] != "+"[0];
  }

  lemma SpellingsHaveToken(token: string, link: string)
    requires ValidToken(token) && link in Spellings(token)
    ensures Token(link) == Some(token)
  {
    hide Token, ValidToken;
    SpellingHasToken(HTTPS, "+", token);
    SpellingHasToken(BARE, "+", token);
    SpellingHasToken(HTTPS, JOINCHAT, token);
    SpellingHasToken(BARE, JOINCHAT, token);
  }

  /** A link has a token exactly when it is one of that token's spellings. */
  lemma TokenIffSpelling(link: string, token: string)
    ensures Token(link) == Some(token) <==> ValidToken(token) && link in Spellings(token)
  {
    if Token(link) == Some(token) {
      var remainder := AfterHost(link).value;
      var host := if HTTPS <= link then HTTPS else BARE;
      assert link == host + remainder;
      if "+" <= remainder {
        assert remainder == "+" + token;
        assert link == host + "+" + token;
      } else {
        assert remainder == JOINCHAT + token;
        assert link == host + JOINCHAT + token;
      }
    } else if ValidToken(token) && link in Spellings(token) {
      SpellingsHaveToken(token, link);
    }
  }

  function Elements(s: seq<string>): set<string> {
    set x | x in s
  }

  lemma AddElement(s: seq<string>, x: string)
    ensures Elements(s + [x]) == Elements(s) + {x}
  {
  }

  predicate NoDuplicates(s: seq<string>) {
    forall i, j :: 0 <= i < j < |s| ==> s[i] != s[j]
  }

  /** `exact_telegram_invite_aliases`: the spellings of the link's token, each once, the link itself first. */
  method ExactAliases(link: string) returns (aliases: seq<string>)
    ensures NoDuplicates(aliases)
    ensures Elements(aliases) == if Token(link).Some? then Spellings(Token(link).value) else {}
    ensures if Token(link).Some? then aliases != [] && aliases[0] == link else aliases == []
  {
    var token := Token(link);
    if token.None? {
      return [];
    }
    var candidates := [link];
    for i := 0 to 4
      invariant |candidates| == i + 1 && candidates[0] == link
      invariant forall k :: 0 <= k < i ==> candidates[k + 1] == PREFIXES[k] + token.value
    {
      candidates := candidates + [PREFIXES[i] + token.value];
    }
    TokenIffSpelling(link, token.value);
    assert Elements(candidates) == Spellings(token.value) by {
      assert candidates == [link, candidates[1], candidates[2], candidates[3], candidates[4]];
      assert candidates[0 + 1] == PREFIXES[0] + token.value;
      assert candidates[1 + 1] == PREFIXES[1] + token.value;
      assert candidates[2 + 1] == PREFIXES[2] + token.value;
      assert candidates[3 + 1] == PREFIXES[3] + token.value;
    }
    aliases := [];
    for i := 0 to |candidates|
      invariant NoDuplicates(aliases) && Elements(aliases) == Elements(candidates[..i])
      invariant if i == 0 then aliases == [] else aliases != [] && aliases[0] == link
    {
      assert candidates[..i + 1] == candidates[..i] + [candidates[i]];
      AddElement(candidates[..i], candidates[i]);
      if candidates[i] !in aliases {
        AddElement(aliases, candidates[i]);
        aliases := aliases + [candidates[i]];
      } else {
        assert Elements(aliases) + {candidates[i]} == Elements(aliases);
      }
    }
    assert candidates[..|candidates|] == candidates;
  }
}
