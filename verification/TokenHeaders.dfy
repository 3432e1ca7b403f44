/**
 Where a request carries its token: the `saps-token` cookie, the `token` header, the WebSocket
 subprotocol, or the Authorization header, in this order.
 */
module TokenHeaders {
  import opened Common
  import opened Cookies

  /** A header as the extractor sees it; `Opaque` is one that is not readable text. */
  datatype Header = Absent | Opaque | Text(text: string)

  datatype Request = Request(cookie: Header, token: Header, protocol: Header, authorization: Header)

  /** What one place gives: a token, nothing, or an error that ends the search. */
  type Finding = Result<Option<string>, ()>

  function Lower(c: char): char {
    if 'A' <= c <= 'Z' then (c as int + 32) as char else c
  }

  predicate EqIgnoreCase(a: string, b: string) {
    |a| == |b| && forall i :: 0 <= i < |a| ==> Lower(a[i]) == Lower(b[i])
  }

  /** The text up to the first white space. */
  function Word(s: string): string {
    if s == [] || IsSpace(s[0]) then "" else [s[0]] + Word(s[1..])
  }

  lemma {:induction false} WordIsPrefix(s: string)
    ensures Word(s) <= s
  {
    if s != [] && !IsSpace(s[0]) { WordIsPrefix(s[1..]); }
  }

  /** One step of `split_whitespace`: the next word, empty at the end, and what follows it. */
  function NextWord(s: string): (string, string) {
    var start := TrimStart(s);
    WordIsPrefix(start);
    (Word(start), start[|Word(start)|..])
  }

  function CookieToken(h: Header): Finding {
    match h
    case Absent => Ok(None)
    case Opaque => Err(())
    case Text(text) => Ok(ParseCookieValue(text, AUTH_TOKEN_COOKIE_KEY))
  }

  function HeaderToken(h: Header): Finding {
    match h
    case Absent => Ok(None)
    case Opaque => Err(())
    case Text(text) => Ok(Some(text))
  }

  function ProtocolToken(h: Header): Finding {
    match h
    case Absent => Ok(None)
    case Opaque => Err(())
    case Text(text) =>
      match SplitOnce(text, ',')
      case Some((scheme, rest)) =>
        Ok(if EqIgnoreCase(Trim(scheme), "bearer") && Trim(rest) != "" then Some(Trim(rest)) else None)
      case None => Ok(None)
  }

  function AuthorizationToken(h: Header): Result<string, ()> {
    if !h.Text? then Err(())
    else
      var (scheme, after) := NextWord(h.text);
      var (token, _) := NextWord(after);
      if !EqIgnoreCase(scheme, "bearer") || token == "" then Err(()) else Ok(token)
  }

  /** `extract_bearer_token`. */
  function BearerToken(req: Request): Result<string, ()> {
    match ProtocolToken(req.protocol)
    case Err(_) => Err(())
    case Ok(Some(token)) => Ok(token)
    case Ok(None) => AuthorizationToken(req.authorization)
  }

  /** The token of a request; without one, or behind an unreadable header, the request is unauthorized. */
  function Locate(req: Request): Result<string, ()> {
    match CookieToken(req.cookie)
    case Err(_) => Err(())
    case Ok(Some(token)) => Ok(token)
    case Ok(None) =>
      match HeaderToken(req.token)
      case Err(_) => Err(())
      case Ok(Some(token)) => Ok(token)
      case Ok(None) => BearerToken(req)
  }

  // ---- What each place says, without the parsers ----

  /** Fields between semicolons; the first one with the name has the token as its value. */
  ghost predicate InCookie(text: string, found: Option<string>) {
    exists pieces: seq<Piece> ::
      && pieces != [] && (forall piece <- pieces :: ValidPiece(piece))
      && text == JoinPieces(pieces) && FirstField(pieces, "saps-token") == found
  }

  /** The word "bearer", each letter in either case. */
  predicate IsBearer(s: string) {
    |s| == 6 && forall i :: 0 <= i < 6 ==> s[i] == "bearer"[i] || s[i] == "BEARER"[i]
  }

  datatype Padded = Padded(lead: string, text: string, tail: string)

  predicate ValidPadding(p: Padded) {
    Spaces(p.lead) && Spaces(p.tail) && Trimmed(p.text)
  }

  function PaddedText(p: Padded): string {
    p.lead + p.text + p.tail
  }

  /** `bearer, token`, with white space anywhere around the two parts. */
  ghost predicate InProtocol(text: string, token: string) {
    exists scheme: Padded, rest: Padded ::
      && ValidPadding(scheme) && ValidPadding(rest) && IsBearer(scheme.text) && rest.text == token != ""
      && text == PaddedText(scheme) + [','] + PaddedText(rest)
  }

  predicate IsWord(s: string) {
    s != [] && forall c <- s :: !IsSpace(c)
  }

  predicate EndsWord(s: string) {
    s == [] || IsSpace(s[0])
  }

  /** `Bearer token`, in words; what follows the token does not matter. */
  ghost predicate InAuthorization(text: string, token: string) {
    exists lead: string, scheme: string, gap: string, rest: string ::
      && Spaces(lead) && IsBearer(scheme) && Spaces(gap) && gap != [] && IsWord(token) && EndsWord(rest)
      && text == lead + (scheme + (gap + (token + rest)))
  }

  // ---- The parsers find exactly that ----

  lemma BearerInAnyCase(s: string)
    ensures EqIgnoreCase(s, "bearer") <==> IsBearer(s)
  {
    if |s| == 6 {
      forall i | 0 <= i < 6
        ensures Lower(s[i]) == Lower("bearer"[i]) <==> s[i] == "bearer"[i] || s[i] == "BEARER"[i]
      {
        LowerLetter(s[i], "bearer"[i], "BEARER"[i]);
      }
    }
  }

  lemma LowerLetter(c: char, small: char, capital: char)
    requires 'a' <= small <= 'z' && capital as int + 32 == small as int
    ensures Lower(c) == Lower(small) <==> c == small || c == capital
  {
  }

  lemma CookieTokenIff(text: string, found: Option<string>)
    ensures CookieToken(Text(text)) == Ok(found) <==> InCookie(text, found)
  {
    var pieces := EveryTextIsPieces(text);
    ParserReadsPieces(pieces, "saps-token");
    forall others: seq<Piece>
      | others != [] && (forall piece <- others :: ValidPiece(piece)) && text == JoinPieces(others)
      ensures FirstField(others, "saps-token") == FirstField(pieces, "saps-token")
    {
      ParserReadsPieces(others, "saps-token");
    }
  }

  lemma Strip(s: string) returns (p: Padded)
    ensures ValidPadding(p) && PaddedText(p) == s && p.text == Trim(s)
  {
    var lead := StripStart(s);
    var tail := StripEnd(TrimStart(s));
    p := Padded(lead, Trim(s), tail);
    TrimFixpoint(s);
    assert lead + Trim(s) + tail == lead + (Trim(s) + tail);
  }

  lemma {:induction false} StripStart(s: string) returns (lead: string)
    ensures Spaces(lead) && s == lead + TrimStart(s)
  {
    lead := "";
    if s != [] && IsSpace(s[0]) {
      var rest := StripStart(s[1..]);
      lead := [s[0]] + rest;
      assert s == [s[0]] + s[1..];
    }
  }

  lemma {:induction false} StripEnd(s: string) returns (tail: string)
    ensures Spaces(tail) && s == TrimEnd(s) + tail
  {
    tail := "";
    if s != [] && IsSpace(s[|s| - 1]) {
      var rest := StripEnd(s[..|s| - 1]);
      tail := rest + [s[|s| - 1]];
      assert s == s[..|s| - 1] + [s[|s| - 1]];
    }
  }

  lemma PaddedTrims(p: Padded)
    requires ValidPadding(p)
    ensures Trim(PaddedText(p)) == p.text
  {
    TrimPadded(p.lead, p.text, p.tail);
  }

  lemma SchemeHasNoComma(p: Padded)
    requires ValidPadding(p) && IsBearer(p.text)
    ensures ',' !in PaddedText(p)
  {
    assert !IsSpace(',');
    assert forall c <- p.text :: c in "bearer" || c in "BEARER";
  }

  lemma {:induction false} SplitOnceIsAt(s: string, sep: char) returns (a: string, b: string)
    requires SplitOnce(s, sep).Some?
    ensures SplitOnce(s, sep) == Some((a, b)) && s == a + [sep] + b
  {
    if s[0] == sep {
      a, b := "", s[1..];
    } else {
      var a1, b1 := SplitOnceIsAt(s[1..], sep);
      a, b := [s[0]] + a1, b1;
      assert s == [s[0]] + (a1 + [sep] + b1);
    }
  }

  lemma ProtocolTokenIff(text: string, token: string)
    ensures ProtocolToken(Text(text)) == Ok(Some(token)) <==> InProtocol(text, token)
    ensures ProtocolToken(Text(text)).Ok?
  {
    if ProtocolToken(Text(text)) == Ok(Some(token)) {
      var a, b := SplitOnceIsAt(text, ',');
      var scheme := Strip(a);
      var rest := Strip(b);
      BearerInAnyCase(Trim(a));
      assert InProtocol(text, token);
    }
    if InProtocol(text, token) {
      var scheme: Padded, rest: Padded :|
        && ValidPadding(scheme) && ValidPadding(rest) && IsBearer(scheme.text) && rest.text == token != ""
        && text == PaddedText(scheme) + [','] + PaddedText(rest);
      SchemeHasNoComma(scheme);
      SplitOnceAt(PaddedText(scheme), PaddedText(rest), ',');
      PaddedTrims(scheme);
      PaddedTrims(rest);
      BearerInAnyCase(scheme.text);
    }
  }

  lemma {:induction false} WordEnds(word: string, rest: string)
    requires (forall c <- word :: !IsSpace(c)) && EndsWord(rest)
    ensures Word(word + rest) == word
  {
    if word == [] {
      assert word + rest == rest;
    } else {
      assert (word + rest)[0] == word[0] && (word + rest)[1..] == word[1..] + rest;
      WordEnds(word[1..], rest);
    }
  }

  lemma NextWordIs(lead: string, word: string, rest: string)
    requires Spaces(lead) && IsWord(word) && EndsWord(rest)
    ensures NextWord(lead + (word + rest)) == (word, rest)
  {
    assert word[0] in word;
    TrimStartSpaces(lead, word + rest);
    WordEnds(word, rest);
  }

  lemma {:induction false} WordSplits(s: string)
    ensures Word(s) <= s && (forall c <- Word(s) :: !IsSpace(c)) && EndsWord(s[|Word(s)|..])
  {
    if s != [] && !IsSpace(s[0]) { WordSplits(s[1..]); }
  }

  lemma NextWordFound(s: string) returns (lead: string)
    requires NextWord(s).0 != ""
    ensures var (word, rest) := NextWord(s);
            Spaces(lead) && IsWord(word) && EndsWord(rest) && s == lead + (word + rest)
  {
    lead := StripStart(s);
    WordSplits(TrimStart(s));
  }

  lemma BearerIsWord(s: string)
    requires IsBearer(s)
    ensures IsWord(s)
  {
    assert forall c <- s :: c in "bearer" || c in "BEARER";
  }

  lemma AuthorizationTokenIff(text: string, token: string)
    ensures AuthorizationToken(Text(text)) == Ok(token) <==> InAuthorization(text, token)
  {
    var (scheme, after) := NextWord(text);
    BearerInAnyCase(scheme);
    if AuthorizationToken(Text(text)) == Ok(token) {
      var lead := NextWordFound(text);
      var gap := NextWordFound(after);
      var rest := NextWord(after).1;
      assert gap != [] by { assert !EndsWord(token + rest); }
      assert InAuthorization(text, token);
    }
    if InAuthorization(text, token) { AuthorizationIsRead(text, token); }
  }

  lemma AuthorizationIsRead(text: string, token: string)
    requires InAuthorization(text, token)
    ensures AuthorizationToken(Text(text)) == Ok(token)
  {
    var lead: string, scheme: string, gap: string, rest: string :|
      && Spaces(lead) && IsBearer(scheme) && Spaces(gap) && gap != [] && IsWord(token) && EndsWord(rest)
      && text == lead + (scheme + (gap + (token + rest)));
    BearerIsWord(scheme);
    BearerInAnyCase(scheme);
    assert gap[0] in gap;
    NextWordIs(lead, scheme, gap + (token + rest));
    NextWordIs(gap, token, rest);
  }

  // ---- The order of the places ----

  /** A place that gives nothing and lets the search go on. */
  ghost predicate NoCookie(h: Header) {
    h == Absent || (h.Text? && InCookie(h.text, None))
  }

  ghost predicate NoProtocol(h: Header) {
    h == Absent || (h.Text? && forall token :: !InProtocol(h.text, token))
  }

  /** The first place that gives a token, with nothing but silent places before it. */
  ghost predicate Presents(req: Request, token: string) {
    if !NoCookie(req.cookie) then req.cookie.Text? && InCookie(req.cookie.text, Some(token))
    else if req.token != Absent then req.token == Text(token)
    else if !NoProtocol(req.protocol) then req.protocol.Text? && InProtocol(req.protocol.text, token)
    else req.authorization.Text? && InAuthorization(req.authorization.text, token)
  }

  /** A request is searched in the documented order, and an unreadable header before a token ends the search. */
  lemma LocateFindsIff(req: Request, token: string)
    ensures Locate(req) == Ok(token) <==> Presents(req, token)
  {
    CookieStage(req.cookie, token);
    ProtocolStage(req.protocol, token);
    AuthorizationStage(req.authorization, token);
    BearerFindsIff(req, token);
  }

  lemma BearerFindsIff(req: Request, token: string)
    ensures BearerToken(req) == Ok(token)
            <==> if ProtocolToken(req.protocol) == Ok(None) then AuthorizationToken(req.authorization) == Ok(token)
                 else ProtocolToken(req.protocol) == Ok(Some(token))
  {
  }

  lemma CookieStage(h: Header, token: string)
    ensures NoCookie(h) <==> CookieToken(h) == Ok(None)
    ensures CookieToken(h) == Ok(Some(token)) <==> h.Text? && InCookie(h.text, Some(token))
  {
    if h.Text? {
      CookieTokenIff(h.text, None);
      CookieTokenIff(h.text, Some(token));
    }
  }

  lemma ProtocolStage(h: Header, token: string)
    ensures NoProtocol(h) <==> ProtocolToken(h) == Ok(None)
    ensures ProtocolToken(h) == Ok(Some(token)) <==> h.Text? && InProtocol(h.text, token)
  {
    NoProtocolIff(h);
    if h.Text? { ProtocolTokenIff(h.text, token); }
  }

  lemma AuthorizationStage(h: Header, token: string)
    ensures AuthorizationToken(h) == Ok(token) <==> h.Text? && InAuthorization(h.text, token)
  {
    if h.Text? { AuthorizationTokenIff(h.text, token); }
  }

  lemma NoProtocolIff(h: Header)
    ensures NoProtocol(h) <==> ProtocolToken(h) == Ok(None)
  {
    if h.Text? {
      forall token
        ensures ProtocolToken(h) == Ok(Some(token)) <==> InProtocol(h.text, token)
        ensures ProtocolToken(h).Ok?
      {
        ProtocolTokenIff(h.text, token);
      }
      if ProtocolToken(h) != Ok(None) {
        ProtocolTokenIff(h.text, "");
        assert InProtocol(h.text, ProtocolToken(h).value.value);
      }
    }
  }
}
