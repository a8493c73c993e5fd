/**
 What the request-line parser of net/internet/http/connection.cpp does with each character.  Here it keeps every part
 of the line as text; LineParsing.LineParser keeps offsets into the input buffer.
 */
module RequestLine {
  import opened CaseOrder
  import opened Number
  import opened Text
  import Url

  const LINE_MAX_LEN := 32 * 1024
  const METHOD_MAX_LEN := 32
  const SCHEME_MAX_LEN := 32
  const HOST_MAX_LEN := 32
  const LITERAL_MAX_LEN := 45

  // The substates, in their order.
  datatype Phase =
    | BeforeMethod | LeadingReturn | InMethod | AfterMethod
    | InScheme | SchemeColon | SchemeSlash | SchemeSlashes
    | InHost | LiteralStart | InLiteral | LiteralEnd | InPort
    | InPath | InQuery | InFragment
    | AfterUrl | InVersion(matched: nat) | AfterVersion | LastReturn | Finished

  datatype Version = Http09 | Http10 | Http11

  datatype Failure = BadRequest | NotFound | TooLarge | ServerError

  /**
   The parts of a line, in their order: blank lines, the method, the blanks after it; the scheme, the mark after it, the
   host, between brackets if it is an IP literal, and the port with its colon; the path, the query with its question
   mark and the fragment with its number sign; the space after the address, the protocol and the end of the line.
   */
  datatype Line = Line(
    at: Phase, lead: string, verb: string, gap: string,
    scheme: string, mark: string, open: string, host: string, close: string, ported: string,
    path: string, query: string, fragment: string, space: string, protocol: string, ending: string,
    port: nat, https: bool, version: Version)
  {
    function Parts(): seq<string> {
      [lead, verb, gap, scheme, mark, open, host, close, ported, path, query, fragment, space, protocol, ending]
    }

    // All that has been read.
    function Whole(): string {
      Concat(Parts())
    }

    // The address, from the scheme to the fragment.
    function Target(): string {
      Concat(Parts()[3..12])
    }
  }

  const FRESH := Line(BeforeMethod, "", "", "", "", "", "", "", "", "", "", "", "", "", "", "", 0, false, Http09)

  // What one more character makes of the line.
  datatype Turn = More(line: Line) | Rejected(failure: Failure)

  // The result of reading: the line goes on, it is complete, or it is refused after that many characters.
  datatype Outcome =
    | Going(line: Line) | Complete(line: Line, size: nat) | Refused(failure: Failure, line: Line, size: nat)

  // ---------------------------------------------------------------- characters and names

  predicate IsUpper(c: char) {
    'A' <= c <= 'Z'
  }

  predicate IsAlpha(c: char) {
    'A' <= c <= 'Z' || 'a' <= c <= 'z'
  }

  predicate HostChar(c: char) {
    IsAlpha(c) || IsDigit(c) || c == '.' || c == '-'
  }

  predicate LiteralChar(c: char) {
    IsDigit(c) || 'A' <= c <= 'F' || 'a' <= c <= 'f' || c == ':' || c == '.'
  }

  predicate SchemeChar(c: char) {
    IsAlpha(c) || IsDigit(c) || c == '+' || c == '-' || c == '.'
  }

  // The control characters end the path or make it invalid.
  predicate PathChar(c: char) {
    c > ' ' && c != '?' && c != '#'
  }

  predicate QueryChar(c: char) {
    Url.IsUnreserved(c) || c in "!$&'()*+,;=" || c in "%:@/?"
  }

  predicate EndsTarget(c: char) {
    IsBlank(c) || c == '\r' || c == '\n'
  }

  // method::search
  predicate KnownMethod(name: string) {
    name in ["CONNECT", "COPY", "DELETE", "GET", "HEAD", "LOCK", "MKCOL", "MOVE", "OPTIONS", "POST", "PROPFIND",
             "PROPPATCH", "PUT", "TRACE", "UNLOCK"]
  }

  /** The methods are those of section 5.1.1 of RFC 2616 and those of section 8 of RFC 2518. */
  lemma {:induction false} MethodsKnown(name: string)
    ensures KnownMethod(name) <==> name in ["OPTIONS", "GET", "HEAD", "POST", "PUT", "DELETE", "TRACE", "CONNECT"] ||
                                   name in ["PROPFIND", "PROPPATCH", "MKCOL", "COPY", "MOVE", "LOCK", "UNLOCK"]
  {
  }

  /** The characters of the parts of a line; those of a query are in section 3.4 of RFC 3986. */
  lemma {:induction false} Classes(c: char)
    ensures IsUpper(c) <==> c in CAPITALS
    ensures HostChar(c) <==> Alphanumeric(c) || c in ".-"
    ensures LiteralChar(c) <==> c in "0123456789ABCDEFabcdef:."
    ensures SchemeChar(c) <==> Alphanumeric(c) || c in "+-."
    ensures QueryChar(c) <==> Alphanumeric(c) || c in "-._~" || c in "!$&'()*+,;=" || c in ":@/?" || c == '%'
  {
    InRanges(c);
    InAlphabet(c, 'A', CAPITALS);
    HexListed(c);
  }

  lemma {:induction false} HexListed(c: char)
    ensures c in "0123456789ABCDEFabcdef:." <==>
              IsDigit(c) || 'A' <= c <= 'F' || 'a' <= c <= 'f' || c == ':' || c == '.'
  {
    InAlphabet(c, '0', "0123456789");
    InAlphabet(c, 'A', "ABCDEF");
    InAlphabet(c, 'a', "abcdef");
    assert "0123456789" + "ABCDEF" + "abcdef" + ":." == "0123456789ABCDEFabcdef:.";
  }

  // scheme::search, for the schemes that are not served.
  predicate OtherScheme(name: string) {
    Fold(name) in ["file", "ftp", "icap", "imap", "ldap", "mailto", "news", "nfs", "pop", "telnet"]
  }

  const VERSION := "HTTP/1."

  // The letters of the name may be small, too.
  predicate VersionChar(c: char, i: nat)
    requires i < |VERSION|
  {
    if i < 4 then Lower(c) == Lower(VERSION[i]) else c == VERSION[i]
  }

  // ---------------------------------------------------------------- one character

  // A character that ends the address, or starts the next part of it.
  function EndTarget(l: Line, c: char): Turn
    requires EndsTarget(c)
  {
    if IsBlank(c) then More(l.(at := AfterUrl, space := [c]))
    else More(l.(at := if c == '\r' then LastReturn else Finished, ending := [c], version := Http09))
  }

  function StartPath(l: Line): Turn {
    More(l.(at := InPath, path := "/"))
  }

  function StartPort(l: Line): Turn {
    More(l.(at := InPort, ported := ":", port := 0))
  }

  function StepMethod(l: Line, c: char): Turn {
    if IsBlank(c) then if KnownMethod(l.verb) then More(l.(at := AfterMethod, gap := [c])) else Rejected(BadRequest)
    else if IsUpper(c) && |l.verb| <= METHOD_MAX_LEN then More(l.(verb := l.verb + [c]))
    else Rejected(BadRequest)
  }

  function StepAfterMethod(l: Line, c: char): Turn {
    if c == '/' then StartPath(l)
    else if IsAlpha(c) then More(l.(at := InScheme, scheme := [c]))
    else if IsBlank(c) then More(l.(gap := l.gap + [c]))
    else Rejected(BadRequest)
  }

  function StepScheme(ssl: bool, l: Line, c: char): Turn {
    if c == ':' then
      if Fold(l.scheme) == "http" then More(l.(at := SchemeColon, mark := [c], port := 80, https := false))
      else if Fold(l.scheme) == "https" then
        if ssl then More(l.(at := SchemeColon, mark := [c], port := 443, https := true))
        else Rejected(NotFound)
      else Rejected(if OtherScheme(l.scheme) then NotFound else BadRequest)
    else if SchemeChar(c) && |l.scheme| <= SCHEME_MAX_LEN then More(l.(scheme := l.scheme + [c]))
    else Rejected(BadRequest)
  }

  function StepSlash(l: Line, c: char, next: Phase): Turn {
    if c == '/' then More(l.(at := next, mark := l.mark + [c])) else Rejected(BadRequest)
  }

  function StepAuthority(l: Line, c: char): Turn {
    if HostChar(c) then More(l.(at := InHost, host := [c]))
    else if c == '[' then More(l.(at := LiteralStart, open := [c]))
    else Rejected(BadRequest)
  }

  // After the host.
  function StepHostEnd(l: Line, c: char): Turn {
    if c == '/' then StartPath(l)
    else if c == ':' then StartPort(l)
    else if EndsTarget(c) then EndTarget(l, c)
    else Rejected(BadRequest)
  }

  function StepHost(l: Line, c: char): Turn {
    if !HostChar(c) then StepHostEnd(l, c)
    else if |l.host| < HOST_MAX_LEN then More(l.(host := l.host + [c]))
    else Rejected(BadRequest)
  }

  function StepLiteral(l: Line, c: char): Turn {
    if l.at.InLiteral? && c == ']' then More(l.(at := LiteralEnd, close := [c]))
    else if !LiteralChar(c) then Rejected(BadRequest)
    else if l.at.LiteralStart? then More(l.(at := InLiteral, host := [c]))
    else if |l.host| < LITERAL_MAX_LEN then More(l.(host := l.host + [c]))
    else Rejected(BadRequest)
  }

  function StepPort(l: Line, c: char): Turn {
    if IsDigit(c) then
      var port := l.port * 10 + (c - '0') as nat;
      if port > 65535 then Rejected(BadRequest) else More(l.(port := port, ported := l.ported + [c]))
    else if l.port == 0 then Rejected(BadRequest)
    else if c == '/' then StartPath(l)
    else if EndsTarget(c) then EndTarget(l, c)
    else Rejected(BadRequest)
  }

  function StepPath(l: Line, c: char): Turn {
    if c == '?' then More(l.(at := InQuery, query := [c]))
    else if c == '#' then More(l.(at := InFragment, fragment := [c]))
    else if EndsTarget(c) then EndTarget(l, c)
    else if PathChar(c) then More(l.(path := l.path + [c]))
    else Rejected(BadRequest)
  }

  function StepQuery(l: Line, c: char): Turn {
    if QueryChar(c) then More(l.(query := l.query + [c]))
    else if c == '#' then More(l.(at := InFragment, fragment := [c]))
    else if EndsTarget(c) then EndTarget(l, c)
    else Rejected(BadRequest)
  }

  function StepFragment(l: Line, c: char): Turn {
    if QueryChar(c) then More(l.(fragment := l.fragment + [c]))
    else if EndsTarget(c) then EndTarget(l, c)
    else Rejected(BadRequest)
  }

  // After the address.
  function StepTail(l: Line, c: char): Turn {
    match l.at
    case AfterUrl =>
      if VersionChar(c, 0) then More(l.(at := InVersion(1), protocol := [c]))
      else if IsBlank(c) then More(l.(space := l.space + [c]))
      else if c == '\r' then More(l.(space := l.space + [c], version := Http09))
      else if c == '\n' then More(l.(at := Finished, ending := [c], version := Http09))
      else Rejected(BadRequest)
    case InVersion(i) =>
      var l' := l.(protocol := l.protocol + [c]);
      if i < |VERSION| then if VersionChar(c, i) then More(l'.(at := InVersion(i + 1))) else Rejected(BadRequest)
      else if c == '1' then More(l'.(at := AfterVersion, version := Http11))
      else if c == '0' then More(l'.(at := AfterVersion, version := Http10))
      else Rejected(BadRequest)
    case AfterVersion =>
      var l' := l.(ending := l.ending + [c]);
      if c == '\r' then More(l'.(at := LastReturn))
      else if c == '\n' then More(l'.(at := Finished))
      else if IsBlank(c) then More(l')
      else Rejected(BadRequest)
    case _ =>
      if c == '\n' then More(l.(at := Finished, ending := l.ending + [c])) else Rejected(BadRequest)
  }

  function Step(ssl: bool, l: Line, c: char): Turn {
    match l.at
    case BeforeMethod =>
      if IsUpper(c) then More(l.(at := InMethod, verb := [c]))
      else if c == '\r' then More(l.(at := LeadingReturn, lead := l.lead + [c]))
      else if c == '\n' then More(l.(lead := l.lead + [c]))
      else Rejected(BadRequest)
    case LeadingReturn =>
      if c == '\n' then More(l.(at := BeforeMethod, lead := l.lead + [c])) else Rejected(BadRequest)
    case InMethod => StepMethod(l, c)
    case AfterMethod => StepAfterMethod(l, c)
    case InScheme => StepScheme(ssl, l, c)
    case SchemeColon => StepSlash(l, c, SchemeSlash)
    case SchemeSlash => StepSlash(l, c, SchemeSlashes)
    case SchemeSlashes => StepAuthority(l, c)
    case InHost => StepHost(l, c)
    case LiteralStart => StepLiteral(l, c)
    case InLiteral => StepLiteral(l, c)
    case LiteralEnd => StepHostEnd(l, c)
    case InPort => StepPort(l, c)
    case InPath => StepPath(l, c)
    case InQuery => StepQuery(l, c)
    case InFragment => StepFragment(l, c)
    case _ => StepTail(l, c)
  }

  // ---------------------------------------------------------------- the whole line

  // Reading goes on until the line is complete; too long a line is refused.
  function Next(ssl: bool, l: Line, size: nat, c: char): Outcome {
    Counted(Step(ssl, l, c), l, size)
  }

  function Counted(turn: Turn, l: Line, size: nat): Outcome {
    match turn
    case Rejected(failure) => Refused(failure, l, size)
    case More(l') =>
      if l'.at.Finished? then Complete(l', size + 1)
      else if size + 1 > LINE_MAX_LEN then Refused(TooLarge, l', size + 1)
      else Going(l')
  }

  function ReadLine(ssl: bool, l: Line, size: nat, s: string): Outcome
    decreases |s|, 0
  {
    if s == "" then Going(l) else ReadOn(ssl, Next(ssl, l, size, s[0]), size + 1, s[1..])
  }

  function ReadOn(ssl: bool, o: Outcome, size: nat, s: string): Outcome
    decreases |s|, 1
  {
    if o.Going? then ReadLine(ssl, o.line, size, s) else o
  }

  /** However the bytes are split, the parser ends up in the same place. */
  lemma {:induction false} ReadLineSplit(ssl: bool, l: Line, size: nat, s: string, t: string)
    ensures ReadLine(ssl, l, size, s + t) == ReadOn(ssl, ReadLine(ssl, l, size, s), size + |s|, t)
    decreases |s|, 0
  {
    if s == "" {
      assert s + t == t;
    } else {
      assert (s + t)[0] == s[0] && (s + t)[1..] == s[1..] + t;
      ReadOnSplit(ssl, Next(ssl, l, size, s[0]), size + 1, s[1..], t);
    }
  }

  lemma {:induction false} ReadOnSplit(ssl: bool, o: Outcome, size: nat, s: string, t: string)
    ensures ReadOn(ssl, o, size, s + t) == ReadOn(ssl, ReadOn(ssl, o, size, s), size + |s|, t)
    decreases |s|, 1
  {
    if o.Going? {
      ReadLineSplit(ssl, o.line, size, s, t);
    }
  }

  // ---------------------------------------------------------------- why a line is refused

  // An address on this server has another scheme.
  predicate NotServed(ssl: bool, scheme: string) {
    || (Fold(scheme) == "https" && !ssl)
    || Fold(scheme) in {"file", "ftp", "icap", "imap", "ldap", "mailto", "news", "nfs", "pop", "telnet"}
  }

  // The scheme of the address is complete.
  ghost predicate SchemeRead(l: Line, rest: string) {
    l.at.InScheme? && rest != "" && rest[0] == ':'
  }

  lemma {:induction false} StepRefused(ssl: bool, l: Line, c: char)
    requires Step(ssl, l, c).Rejected?
    ensures Step(ssl, l, c).failure == if l.at.InScheme? && c == ':' && NotServed(ssl, l.scheme) then NotFound
                                       else BadRequest
  {
  }

  /**
   A line is refused as too large once it has more than 32 KiB, as not found if its address has a scheme that is not
   served here, and as a bad request in every other case.
   */
  lemma {:induction false} RefusedWhy(ssl: bool, l: Line, size: nat, s: string)
    requires size <= LINE_MAX_LEN && ReadLine(ssl, l, size, s).Refused?
    ensures var o := ReadLine(ssl, l, size, s);
            && size <= o.size <= size + |s|
            && o.failure == (if o.size > LINE_MAX_LEN then TooLarge
                             else if SchemeRead(o.line, s[o.size - size..]) &&
                               NotServed(ssl, o.line.scheme) then NotFound
                             else BadRequest)
    decreases |s|
  {
    if s != "" {
      var turn := Step(ssl, l, s[0]);
      if turn.Rejected? {
        StepRefused(ssl, l, s[0]);
      } else if Next(ssl, l, size, s[0]).Going? {
        RefusedWhy(ssl, turn.line, size + 1, s[1..]);
      }
    }
  }
}
