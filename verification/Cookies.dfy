/**
 The cookie printer and the cookie parser, over `char` sequences.

 The parser follows Rust's `str::split`, `str::trim` and `str::split_once`; the main result is
 that it inverts the `"; "`-joined serialisation of section 4.2.1 of RFC 6265.
 */
module Cookies {
  import opened Common

  const AUTH_TOKEN_COOKIE_KEY := "saps-token"
  const ATTRIBUTES := "; HttpOnly; Path=/; Max-Age=86400"
  const WIPING_ATTRIBUTES := "; HttpOnly; Path=/; Max-Age=0"

  /** Rust's `char::is_whitespace`: the Unicode White_Space property. */
  predicate IsSpace(c: char) {
    var u := c as int;
    || 0x09 <= u <= 0x0D
    || u in {0x20, 0x85, 0xA0, 0x1680, 0x2028, 0x2029, 0x202F, 0x205F, 0x3000}
    || 0x2000 <= u <= 0x200A
  }

  function TrimStart(s: string): string {
    if s != [] && IsSpace(s[0]) then TrimStart(s[1..]) else s
  }

  function TrimEnd(s: string): string {
    if s != [] && IsSpace(s[|s| - 1]) then TrimEnd(s[..|s| - 1]) else s
  }

  function Trim(s: string): string {
    TrimEnd(TrimStart(s))
  }

  /** The text before the first `sep`, or all of it. */
  function Before(s: string, sep: char): string {
    if s == [] || s[0] == sep then "" else [s[0]] + Before(s[1..], sep)
  }

  /** `str::split` with a char pattern: always at least one piece. */
  function Split(s: string, sep: char): (pieces: seq<string>)
    ensures pieces != []
  {
    if s == [] then [""]
    else
      var rest := Split(s[1..], sep);
      if s[0] == sep then [""] + rest else [[s[0]] + rest[0]] + rest[1..]
  }

  function SplitOnce(s: string, sep: char): Option<(string, string)> {
    if s == [] then None
    else if s[0] == sep then Some(("", s[1..]))
    else match SplitOnce(s[1..], sep)
      case None => None
      case Some((name, value)) => Some(([s[0]] + name, value))
  }

  function FindPiece(pieces: seq<string>, target: string): Option<string> {
    if pieces == [] then None
    else match SplitOnce(Trim(pieces[0]), '=')
      case Some((name, value)) =>
        if Trim(name) == target then Some(Trim(value)) else FindPiece(pieces[1..], target)
      case None => FindPiece(pieces[1..], target)
  }

  function ParseCookieValue(cookies: string, target: string): Option<string> {
    FindPiece(Split(cookies, ';'), target)
  }

  function YieldCookieString(token: string): string {
    AUTH_TOKEN_COOKIE_KEY + "=" + token + ATTRIBUTES
  }

  function WipeCookieString(): string {
    AUTH_TOKEN_COOKIE_KEY + "=" + WIPING_ATTRIBUTES
  }

  /** What a user agent sends back in `Cookie`: the name-value-pair, without the attributes. */
  function NameValuePart(setCookie: string): string {
    Before(setCookie, ';')
  }

  // ---- The serialisation the parser has to invert ----

  type Pair = (string, string)

  predicate Trimmed(s: string) {
    s != [] ==> !IsSpace(s[0]) && !IsSpace(s[|s| - 1])
  }

  /** All that the round trip needs of a pair; `=` inside the value is allowed. */
  predicate WellFormed(p: Pair) {
    ';' !in p.0 && '=' !in p.0 && Trimmed(p.0) && ';' !in p.1 && Trimmed(p.1)
  }

  /** `token` of RFC 6265, section 4.1.1 (from RFC 2616, section 2.2). */
  predicate RfcToken(s: string) {
    && s != []
    && forall c <- s ::
         '!' <= c <= '~'
         && c !in {'(', ')', '<', '>', '@', ',', ';', ':', '\\', '"', '/', '[', ']', '?', '=', '{', '}'}
  }

  predicate CookieOctet(c: char) {
    '!' <= c <= '~' && c !in {'"', ',', ';', '\\'}
  }

  /** `cookie-value` of RFC 6265, section 4.1.1: cookie-octets, possibly inside double quotes. */
  predicate RfcValue(s: string) {
    || (forall c <- s :: CookieOctet(c))
    || (|s| >= 2 && s[0] == s[|s| - 1] == '"' && forall c <- s[1..|s| - 1] :: CookieOctet(c))
  }

  function PairText(p: Pair): string {
    p.0 + "=" + p.1
  }

  /** `cookie-string` of RFC 6265, section 4.2.1. */
  function CookieString(pairs: seq<Pair>): string {
    if pairs == [] then ""
    else if |pairs| == 1 then PairText(pairs[0])
    else PairText(pairs[0]) + "; " + CookieString(pairs[1..])
  }

  /** The value of the first pair named `target`. */
  function FirstValue(pairs: seq<Pair>, target: string): Option<string> {
    if pairs == [] then None
    else if pairs[0].0 == target then Some(pairs[0].1)
    else FirstValue(pairs[1..], target)
  }

  // ---- Trimming and splitting ----

  lemma {:induction false} TrimStartDrops(s: string)
    ensures exists k :: 0 <= k <= |s| && TrimStart(s) == s[k..]
    ensures TrimStart(s) != [] ==> !IsSpace(TrimStart(s)[0])
  {
    if s != [] && IsSpace(s[0]) {
      TrimStartDrops(s[1..]);
      var k :| 0 <= k <= |s[1..]| && TrimStart(s[1..]) == s[1..][k..];
      assert TrimStart(s) == s[k + 1..];
    } else {
      assert TrimStart(s) == s[0..];
    }
  }

  lemma {:induction false} TrimEndDrops(s: string)
    ensures TrimEnd(s) <= s
    ensures TrimEnd(s) != [] ==> !IsSpace(TrimEnd(s)[|TrimEnd(s)| - 1])
  {
    if s != [] && IsSpace(s[|s| - 1]) {
      TrimEndDrops(s[..|s| - 1]);
    }
  }

  /** Trimming yields a trimmed string, and leaves exactly the trimmed strings alone. */
  lemma TrimFixpoint(s: string)
    ensures Trimmed(Trim(s))
    ensures Trim(s) == s <==> Trimmed(s)
    ensures |Trim(s)| <= |s|
  {
    TrimStartDrops(s);
    TrimEndDrops(TrimStart(s));
  }

  lemma {:induction false} BeforeSplits(a: string, b: string, sep: char)
    requires sep !in a
    requires b != [] ==> b[0] == sep
    ensures Before(a + b, sep) == a
  {
    if a != [] {
      assert (a + b)[0] == a[0] && (a + b)[1..] == a[1..] + b;
      BeforeSplits(a[1..], b, sep);
    } else {
      assert a + b == b;
    }
  }

  lemma {:induction false} SplitLast(a: string, sep: char)
    requires sep !in a
    ensures Split(a, sep) == [a]
  {
    if a != [] {
      SplitLast(a[1..], sep);
      assert [a[0]] + a[1..] == a;
    }
  }

  lemma {:induction false} SplitStep(a: string, b: string, sep: char)
    requires sep !in a
    ensures Split(a + [sep] + b, sep) == [a] + Split(b, sep)
  {
    var s := a + [sep] + b;
    if a == [] {
      assert s[1..] == b;
    } else {
      assert s[0] == a[0] && s[1..] == a[1..] + [sep] + b;
      SplitStep(a[1..], b, sep);
      assert [a[0]] + a[1..] == a;
    }
  }

  lemma {:induction false} SplitOnceAt(a: string, b: string, sep: char)
    requires sep !in a
    ensures SplitOnce(a + [sep] + b, sep) == Some((a, b))
  {
    var s := a + [sep] + b;
    if a == [] {
      assert s[1..] == b;
    } else {
      assert s[0] == a[0] && s[1..] == a[1..] + [sep] + b;
      SplitOnceAt(a[1..], b, sep);
      assert [a[0]] + a[1..] == a;
    }
  }

  // ---- Main results ----

  // ---- Any cookie text at all ----

  /** What lies between two semicolons: a name and a value around the first `=`, or neither. */
  datatype Piece = Junk(text: string) | Field(left: string, right: string)

  predicate ValidPiece(piece: Piece) {
    match piece
    case Junk(text) => ';' !in text && '=' !in text
    case Field(left, right) => ';' !in left && '=' !in left && ';' !in right
  }

  function PieceText(piece: Piece): string {
    match piece
    case Junk(text) => text
    case Field(left, right) => left + "=" + right
  }

  function JoinPieces(pieces: seq<Piece>): string
    requires pieces != []
  {
    if |pieces| == 1 then PieceText(pieces[0]) else PieceText(pieces[0]) + [';'] + JoinPieces(pieces[1..])
  }

  /** The value of the first field with the name, white space around either left out. */
  function FirstField(pieces: seq<Piece>, target: string): Option<string> {
    if pieces == [] then None
    else if pieces[0].Field? && Trim(pieces[0].left) == target then Some(Trim(pieces[0].right))
    else FirstField(pieces[1..], target)
  }

  predicate Spaces(s: string) {
    forall c <- s :: IsSpace(c)
  }

  lemma {:induction false} TrimStartSpaces(lead: string, s: string)
    requires Spaces(lead) && (s == [] || !IsSpace(s[0]))
    ensures TrimStart(lead + s) == s
  {
    if lead == [] {
      assert lead + s == s;
    } else {
      assert (lead + s)[1..] == lead[1..] + s;
      TrimStartSpaces(lead[1..], s);
    }
  }

  lemma {:induction false} TrimEndSpaces(s: string, tail: string)
    requires Spaces(tail) && (s == [] || !IsSpace(s[|s| - 1]))
    ensures TrimEnd(s + tail) == s
  {
    if tail == [] {
      assert s + tail == s;
    } else {
      assert (s + tail)[..|s + tail| - 1] == s + tail[..|tail| - 1];
      TrimEndSpaces(s, tail[..|tail| - 1]);
    }
  }

  /** Trimming takes off exactly the white space around a text. */
  lemma TrimPadded(lead: string, s: string, tail: string)
    requires Spaces(lead) && Spaces(tail) && Trimmed(s)
    ensures Trim(lead + s + tail) == s
  {
    if s == [] {
      assert lead + s + tail == (lead + tail) + [];
      TrimStartSpaces(lead + tail, []);
    } else {
      assert lead + s + tail == lead + (s + tail);
      TrimStartSpaces(lead, s + tail);
      TrimEndSpaces(s, tail);
    }
  }

  lemma {:induction false} TrimStartBefore(a: string, c: char, b: string)
    requires !IsSpace(c)
    ensures TrimStart(a + [c] + b) == TrimStart(a) + [c] + b
  {
    if a != [] && IsSpace(a[0]) {
      assert (a + [c] + b)[1..] == a[1..] + [c] + b;
      TrimStartBefore(a[1..], c, b);
    }
  }

  lemma {:induction false} TrimEndAfter(a: string, c: char, b: string)
    requires !IsSpace(c)
    ensures TrimEnd(a + [c] + b) == a + [c] + TrimEnd(b)
  {
    if b != [] && IsSpace(b[|b| - 1]) {
      assert (a + [c] + b)[..|a + [c] + b| - 1] == a + [c] + b[..|b| - 1];
      TrimEndAfter(a, c, b[..|b| - 1]);
    }
  }

  lemma {:induction false} TrimStartTwice(s: string)
    ensures TrimStart(TrimStart(s)) == TrimStart(s)
  {
    TrimStartDrops(s);
  }

  lemma FieldParses(left: string, right: string)
    requires '=' !in left
    ensures var parsed := SplitOnce(Trim(left + "=" + right), '=');
            parsed.Some? && Trim(parsed.value.0) == Trim(left) && Trim(parsed.value.1) == Trim(right)
  {
    TrimStartBefore(left, '=', right);
    TrimEndAfter(TrimStart(left), '=', right);
    TrimStartDrops(left);
    SplitOnceAt(TrimStart(left), TrimEnd(right), '=');
    TrimStartTwice(left);
    TrimOrder(right);
  }

  lemma JunkHasNoField(text: string)
    requires '=' !in text
    ensures SplitOnce(Trim(text), '=') == None
  {
    TrimStartDrops(text);
    TrimEndDrops(TrimStart(text));
    NoSplit(Trim(text), '=');
  }

  lemma {:induction false} NoSplit(s: string, sep: char)
    requires sep !in s
    ensures SplitOnce(s, sep) == None
  {
    if s != [] { NoSplit(s[1..], sep); }
  }

  /** The parser on any pieces, ill-formed ones included: the first field with the name wins. */
  lemma {:induction false} ParserReadsPieces(pieces: seq<Piece>, target: string)
    requires pieces != [] && forall piece <- pieces :: ValidPiece(piece)
    ensures ParseCookieValue(JoinPieces(pieces), target) == FirstField(pieces, target)
    decreases pieces
  {
    var text := PieceText(pieces[0]);
    assert ValidPiece(pieces[0]);
    if pieces[0].Field? { FieldParses(pieces[0].left, pieces[0].right); } else { JunkHasNoField(text); }
    if |pieces| == 1 {
      SplitLast(text, ';');
      assert FindPiece([text][1..], target) == None && FirstField(pieces[1..], target) == None;
    } else {
      SplitStep(text, JoinPieces(pieces[1..]), ';');
      ParserReadsPieces(pieces[1..], target);
      assert ([text] + Split(JoinPieces(pieces[1..]), ';'))[1..] == Split(JoinPieces(pieces[1..]), ';');
    }
  }

  /** The fields of a serialised list of pairs; each but the first has a leading space. */
  function PairFields(pairs: seq<Pair>, lead: string): seq<Piece> {
    if pairs == [] then [] else [Field(lead + pairs[0].0, pairs[0].1)] + PairFields(pairs[1..], " ")
  }

  lemma {:induction false} PairFieldsJoin(pairs: seq<Pair>, lead: string)
    requires pairs != []
    ensures PairFields(pairs, lead) != [] && JoinPieces(PairFields(pairs, lead)) == lead + CookieString(pairs)
    decreases pairs
  {
    var field, rest := Field(lead + pairs[0].0, pairs[0].1), PairFields(pairs[1..], " ");
    FieldText(lead, pairs[0]);
    if |pairs| > 1 {
      PairFieldsJoin(pairs[1..], " ");
      JoinStep(field, rest);
      JoinedText(lead, PairText(pairs[0]), CookieString(pairs[1..]));
    } else {
      assert rest == [];
    }
  }

  lemma JoinStep(piece: Piece, rest: seq<Piece>)
    requires rest != []
    ensures JoinPieces([piece] + rest) == PieceText(piece) + [';'] + JoinPieces(rest)
  {
    assert ([piece] + rest)[1..] == rest;
  }

  lemma FieldText(lead: string, p: Pair)
    ensures PieceText(Field(lead + p.0, p.1)) == lead + PairText(p)
  {
  }

  lemma JoinedText(lead: string, first: string, rest: string)
    ensures (lead + first) + [';'] + (" " + rest) == lead + (first + "; " + rest)
  {
  }

  lemma {:induction false} PairFieldsSearch(pairs: seq<Pair>, lead: string, target: string)
    requires forall p <- pairs :: WellFormed(p)
    requires lead == "" || lead == " "
    ensures forall field <- PairFields(pairs, lead) :: ValidPiece(field)
    ensures FirstField(PairFields(pairs, lead), target) == FirstValue(pairs, target)
    decreases pairs
  {
    if pairs != [] {
      var field, rest := Field(lead + pairs[0].0, pairs[0].1), PairFields(pairs[1..], " ");
      assert WellFormed(pairs[0]);
      PaddedName(pairs[0], lead);
      PairFieldsSearch(pairs[1..], " ", target);
      assert ([field] + rest)[1..] == rest;
    }
  }

  lemma PaddedName(p: Pair, lead: string)
    requires WellFormed(p) && (lead == "" || lead == " ")
    ensures Trim(lead + p.0) == p.0 && Trim(p.1) == p.1
  {
    TrimPadded(lead, p.0, "");
    assert lead + p.0 + "" == lead + p.0;
    TrimFixpoint(p.1);
  }

  /** The parser inverts the serialiser: the first pair with the name wins, for every list of pairs. */
  lemma ParserInvertsCookieString(pairs: seq<Pair>, target: string)
    requires forall p <- pairs :: WellFormed(p)
    ensures ParseCookieValue(CookieString(pairs), target) == FirstValue(pairs, target)
  {
    if pairs != [] {
      PairFieldsJoin(pairs, "");
      PairFieldsSearch(pairs, "", target);
      ParserReadsPieces(PairFields(pairs, ""), target);
      assert "" + CookieString(pairs) == CookieString(pairs);
    } else {
      assert FindPiece([""][1..], target) == None;
    }
  }

  lemma OnePiece(s: string) returns (piece: Piece)
    requires ';' !in s
    ensures ValidPiece(piece) && PieceText(piece) == s
  {
    BeforeIsPrefix(s, '=');
    var left := Before(s, '=');
    if '=' in s {
      piece := Field(left, s[|left| + 1..]);
      assert s == left + "=" + s[|left| + 1..];
    } else {
      piece := Junk(s);
    }
  }

  /** Every cookie text is such a list. */
  lemma {:induction false} EveryTextIsPieces(s: string) returns (pieces: seq<Piece>)
    ensures pieces != [] && JoinPieces(pieces) == s && forall piece <- pieces :: ValidPiece(piece)
    decreases |s|
  {
    BeforeIsPrefix(s, ';');
    var head := Before(s, ';');
    var piece := OnePiece(head);
    if ';' in s {
      var rest := EveryTextIsPieces(s[|head| + 1..]);
      pieces := [piece] + rest;
      assert pieces[1..] == rest;
      assert s == head + [';'] + s[|head| + 1..];
    } else {
      BeforeAll(s, ';');
      pieces := [piece];
    }
  }

  lemma {:induction false} BeforeAll(s: string, sep: char)
    requires sep !in s
    ensures Before(s, sep) == s
  {
    if s != [] { BeforeAll(s[1..], sep); }
  }

  /** The parts of an issued cookie. */
  lemma IssuedCookieAttributes(token: string)
    requires ';' !in token
    ensures Split(YieldCookieString(token), ';') == ["saps-token=" + token, " HttpOnly", " Path=/", " Max-Age=86400"]
  {
    var head := AUTH_TOKEN_COOKIE_KEY + "=" + token;
    TokenName();
    DayLongAttributes();
    assert head == "saps-token=" + token;
    Regroup(head, ";", " HttpOnly; Path=/;" + " Max-Age=86400");
    SplitAttributes(head, " Max-Age=86400");
  }

  /** The parts of a wiping cookie. */
  lemma WipedCookieAttributes()
    ensures Split(WipeCookieString(), ';') == ["saps-token=", " HttpOnly", " Path=/", " Max-Age=0"]
  {
    var head := AUTH_TOKEN_COOKIE_KEY + "=";
    TokenName();
    ExpiredAttributes();
    Regroup(head, ";", " HttpOnly; Path=/;" + " Max-Age=0");
    SplitAttributes(head, " Max-Age=0");
  }

  lemma TokenName()
    ensures AUTH_TOKEN_COOKIE_KEY + "=" == "saps-token=" && ';' !in AUTH_TOKEN_COOKIE_KEY + "="
  {
  }

  lemma DayLongAttributes()
    ensures ATTRIBUTES == ";" + (" HttpOnly; Path=/;" + " Max-Age=86400")
  {
  }

  lemma ExpiredAttributes()
    ensures WIPING_ATTRIBUTES == ";" + (" HttpOnly; Path=/;" + " Max-Age=0")
  {
  }

  lemma Regroup(a: string, b: string, c: string)
    ensures a + b + c == a + (b + c)
  {
  }

  lemma SplitAttributes(head: string, age: string)
    requires ';' !in head && ';' !in age
    ensures Split(head + ";" + (" HttpOnly; Path=/;" + age), ';') == [head, " HttpOnly", " Path=/", age]
  {
    var rest := " Path=/" + ";" + age;
    assert " HttpOnly; Path=/;" + age == " HttpOnly" + ";" + rest;
    SplitStep(head, " HttpOnly" + ";" + rest, ';');
    SplitStep(" HttpOnly", rest, ';');
    SplitStep(" Path=/", age, ';');
    SplitLast(age, ';');
  }

  /** Every pair of the RFC grammar is well formed in the sense the round trip needs. */
  lemma RfcPairsAreWellFormed(p: Pair)
    requires RfcToken(p.0) && RfcValue(p.1)
    ensures WellFormed(p)
  {
    var v := p.1;
    assert p.0[0] in p.0 && p.0[|p.0| - 1] in p.0;
    if forall c <- v :: CookieOctet(c) {
      assert v != [] ==> v[0] in v && v[|v| - 1] in v;
    } else {
      var inner := v[1..|v| - 1];
      assert forall c <- inner :: CookieOctet(c);
      assert v[0] == '"';
      forall i | 0 <= i < |v|
        ensures v[i] != ';'
      {
        if 0 < i < |v| - 1 {
          var c := inner[i - 1];
          assert c in inner;
          assert c == v[i];
          assert CookieOctet(c);
        }
      }
    }
  }

  /** The name=value part of an issued cookie parses back to its token exactly for clean tokens. */
  lemma IssuedCookieRoundTrip(token: string)
    ensures ParseCookieValue(NameValuePart(YieldCookieString(token)), AUTH_TOKEN_COOKIE_KEY) == Some(token)
            <==> ';' !in token && Trimmed(token)
  {
    var head := AUTH_TOKEN_COOKIE_KEY + "=";
    if ';' !in token {
      assert YieldCookieString(token) == (head + token) + ATTRIBUTES;
      BeforeSplits(head + token, ATTRIBUTES, ';');
      NamedPieceParses(token);
    } else {
      var cut := Before(token, ';');
      BeforeIsPrefix(token, ';');
      var rest := token[|cut|..] + ATTRIBUTES;
      assert YieldCookieString(token) == (head + cut) + rest;
      BeforeSplits(head + cut, rest, ';');
      NamedPieceParses(cut);
      TrimFixpoint(cut);
    }
  }

  lemma {:induction false} BeforeIsPrefix(s: string, sep: char)
    ensures Before(s, sep) <= s && sep !in Before(s, sep)
    ensures sep in s ==> |Before(s, sep)| < |s| && s[|Before(s, sep)|] == sep
  {
    if s != [] && s[0] != sep {
      BeforeIsPrefix(s[1..], sep);
    }
  }

  /** A single `saps-token=` piece yields its trimmed value. */
  lemma NamedPieceParses(value: string)
    requires ';' !in value
    ensures ParseCookieValue(AUTH_TOKEN_COOKIE_KEY + "=" + value, AUTH_TOKEN_COOKIE_KEY) == Some(Trim(value))
    ensures Trim(value) == value <==> Trimmed(value)
  {
    var text := AUTH_TOKEN_COOKIE_KEY + "=" + value;
    SplitLast(text, ';');
    assert TrimStart(text) == text;
    NamedPieceTrimEnd(value);
    SplitOnceAt(AUTH_TOKEN_COOKIE_KEY, TrimEnd(value), '=');
    TrimFixpoint(AUTH_TOKEN_COOKIE_KEY);
    TrimFixpoint(value);
    TrimOrder(value);
  }

  lemma {:induction false} NamedPieceTrimEnd(value: string)
    ensures TrimEnd(AUTH_TOKEN_COOKIE_KEY + "=" + value) == AUTH_TOKEN_COOKIE_KEY + "=" + TrimEnd(value)
  {
    var head := AUTH_TOKEN_COOKIE_KEY + "=";
    if value != [] && IsSpace(value[|value| - 1]) {
      NamedPieceTrimEnd(value[..|value| - 1]);
      assert (head + value)[..|head + value| - 1] == head + value[..|value| - 1];
    } else {
      assert value == [] ==> head + value == head;
    }
  }

  /** Trimming the end first gives the same text. */
  lemma {:induction false} TrimOrder(s: string)
    ensures Trim(TrimEnd(s)) == Trim(s)
  {
    if s != [] && IsSpace(s[|s| - 1]) {
      var init := s[..|s| - 1];
      TrimOrder(init);
      TrimStartSnoc(init, s[|s| - 1]);
      assert init + [s[|s| - 1]] == s;
      TrimStartDrops(init);
    }
  }

  lemma {:induction false} TrimStartSnoc(s: string, c: char)
    requires IsSpace(c)
    ensures TrimEnd(TrimStart(s + [c])) == TrimEnd(TrimStart(s))
  {
    if s == [] {
      assert s + [c] == [c];
    } else if IsSpace(s[0]) {
      assert (s + [c])[1..] == s[1..] + [c];
      TrimStartSnoc(s[1..], c);
    } else {
      assert (s + [c])[..|s|] == s;
    }
  }

  /** A wiped cookie reads back as the empty token. */
  lemma WipedCookieIsEmpty()
    ensures ParseCookieValue(NameValuePart(WipeCookieString()), AUTH_TOKEN_COOKIE_KEY) == Some("")
  {
    var head := AUTH_TOKEN_COOKIE_KEY + "=";
    assert WipeCookieString() == head + WIPING_ATTRIBUTES;
    BeforeSplits(head, WIPING_ATTRIBUTES, ';');
    NamedPieceParses("");
    assert head + "" == head;
  }
}
