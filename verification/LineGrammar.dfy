/**
 The request lines that the parser of net/internet/http/connection.cpp accepts, and what it makes of them: the parts of
 an accepted line make up the line, and every line made of such parts is accepted.
 */
module LineGrammar {
  import opened CaseOrder
  import opened Number
  import opened RequestLine
  import opened Text

  // ---------------------------------------------------------------- the grammar

  // Line ends, with or without a carriage return; if `open`, the last one is not complete.
  predicate BlankLines(s: string, open: bool) {
    forall k :: 0 <= k < |s| ==> BlankAt(s, k, open)
  }

  predicate BlankAt(s: string, k: nat, open: bool)
    requires k < |s|
  {
    s[k] == '\n' || (s[k] == '\r' && if k + 1 < |s| then s[k + 1] == '\n' else open)
  }

  predicate Served(ssl: bool, l: Line) {
    if l.https then ssl && Fold(l.scheme) == "https" else Fold(l.scheme) == "http"
  }

  predicate Host(l: Line) {
    && l.host != ""
    && if l.open == "" then |l.host| <= HOST_MAX_LEN && forall k :: 0 <= k < |l.host| ==> HostChar(l.host[k])
       else l.open == "[" && |l.host| <= LITERAL_MAX_LEN && forall k :: 0 <= k < |l.host| ==> LiteralChar(l.host[k])
  }

  predicate Port(l: Line) {
    && |l.ported| > 1 && l.ported[0] == ':' && AllDigits(l.ported[1..])
    && l.port == Value(l.ported[1..]) && 0 < l.port <= 65535
  }

  function DefaultPort(l: Line): nat {
    if l.https then 443 else 80
  }

  predicate Authority(ssl: bool, l: Line) {
    && Served(ssl, l) && l.mark == "://" && Host(l) && l.close == (if l.open == "[" then "]" else "")
    && if l.ported == "" then l.port == DefaultPort(l) else Port(l)
  }

  predicate NoAuthority(l: Line) {
    l.scheme == l.mark == l.open == l.host == l.close == l.ported == "" && l.port == 0 && !l.https
  }

  predicate PathPart(s: string) {
    s != "" && s[0] == '/' && forall k :: 0 <= k < |s| ==> PathChar(s[k])
  }

  predicate QueryPart(s: string, first: char) {
    s != "" && s[0] == first && forall k :: 0 < k < |s| ==> QueryChar(s[k])
  }

  predicate Resource(l: Line) {
    if l.path == "" then l.query == l.fragment == ""
    else
      PathPart(l.path) && (l.query == "" || QueryPart(l.query, '?')) &&
      (l.fragment == "" || QueryPart(l.fragment, '#'))
  }

  // A carriage return counts as a blank here.
  predicate SpacePart(s: string) {
    s != "" && IsBlank(s[0]) && forall k :: 0 < k < |s| ==> IsBlank(s[k]) || s[k] == '\r'
  }

  predicate ProtocolPart(s: string) {
    |s| == 8 && (forall k :: 0 <= k < 7 ==> VersionChar(s[k], k)) && (s[7] == '0' || s[7] == '1')
  }

  predicate LineEnd(s: string) {
    s == "\n" || s == "\r\n"
  }

  predicate PaddedEnd(s: string) {
    exists k :: 0 <= k <= |s| && Blanks(s[..k]) && LineEnd(s[k..])
  }

  predicate Rest(l: Line) {
    if l.space == "" then l.protocol == "" && LineEnd(l.ending) && l.version == Http09
    else if l.protocol == "" then SpacePart(l.space) && l.ending == "\n" && l.version == Http09
    else SpacePart(l.space) && ProtocolPart(l.protocol) && PaddedEnd(l.ending) &&
         l.version == if l.protocol[7] == '1' then Http11 else Http10
  }

  // The lines, with their parts.
  predicate WellFormed(ssl: bool, l: Line) {
    && l.at == Finished
    && BlankLines(l.lead, false) && KnownMethod(l.verb) && l.gap != "" && Blanks(l.gap)
    && (Authority(ssl, l) || (NoAuthority(l) && l.path != ""))
    && Resource(l) && Rest(l)
  }

  // ---------------------------------------------------------------- what is known on the way

  // Which part is being read.
  function Rank(at: Phase): nat {
    match at
    case BeforeMethod => 0
    case LeadingReturn => 0
    case InMethod => 1
    case AfterMethod => 2
    case InScheme => 3
    case SchemeColon => 4
    case SchemeSlash => 4
    case SchemeSlashes => 4
    case LiteralStart => 5
    case InHost => 6
    case InLiteral => 6
    case LiteralEnd => 7
    case InPort => 8
    case InPath => 9
    case InQuery => 10
    case InFragment => 11
    case AfterUrl => 12
    case InVersion(_) => 13
    case _ => 14
  }

  // The later parts have not begun.
  predicate Ahead(l: Line) {
    forall k :: Rank(l.at) < k < 15 ==> l.Parts()[k] == ""
  }

  predicate HeadSoFar(l: Line) {
    && BlankLines(l.lead, l.at.LeadingReturn?) && (l.at.LeadingReturn? ==> l.lead != "" && l.lead[|l.lead| - 1] == '\r')
    && (l.at.InMethod? ==> l.verb != "" && forall k :: 0 <= k < |l.verb| ==> IsUpper(l.verb[k]))
    && (Rank(l.at) >= 2 ==> KnownMethod(l.verb) && l.gap != "" && Blanks(l.gap))
  }

  predicate PrefixSoFar(ssl: bool, l: Line) {
    match l.at
    case InScheme => l.port == 0 && !l.https
    case SchemeColon => Served(ssl, l) && l.mark == ":" && l.port == DefaultPort(l)
    case SchemeSlash => Served(ssl, l) && l.mark == ":/" && l.port == DefaultPort(l)
    case SchemeSlashes => Served(ssl, l) && l.mark == "://" && l.port == DefaultPort(l)
    case LiteralStart => Served(ssl, l) && l.mark == "://" && l.port == DefaultPort(l) && l.open == "["
    case InHost => Served(ssl, l) && l.mark == "://" && l.port == DefaultPort(l) && Host(l) && l.open == ""
    case InLiteral => Served(ssl, l) && l.mark == "://" && l.port == DefaultPort(l) && Host(l) && l.open == "["
    case LiteralEnd => Authority(ssl, l) && l.open == "["
    case InPort =>
      && Served(ssl, l) && l.mark == "://" && Host(l) && l.close == (if l.open == "[" then "]" else "")
      && l.ported != "" && l.ported[0] == ':' && AllDigits(l.ported[1..]) && l.port == Value(l.ported[1..]) <= 65535
    case _ =>
      if Rank(l.at) < 3 then NoAuthority(l) else Authority(ssl, l) || (NoAuthority(l) && l.path != "")
  }

  predicate ResourceSoFar(l: Line) {
    && Resource(l) && (l.at.InPath? ==> l.path != "")
    && (l.at.InQuery? ==> l.path != "" && l.query != "") && (l.at.InFragment? ==> l.path != "" && l.fragment != "")
  }

  predicate RestSoFar(l: Line) {
    match l.at
    case AfterUrl => SpacePart(l.space) && l.version == Http09
    case InVersion(i) =>
      && SpacePart(l.space) && 0 < i == |l.protocol| <= 7 && (forall k :: 0 <= k < i ==> VersionChar(l.protocol[k], k))
      && l.version == Http09
    case AfterVersion =>
      Rest(l.(ending := l.ending + "\n")) && SpacePart(l.space) && l.protocol != "" && Blanks(l.ending)
    case LastReturn => Rest(l.(ending := l.ending + "\n"))
    case Finished => Rest(l)
    case _ => l.version == Http09
  }

  predicate Shape(ssl: bool, l: Line) {
    HeadSoFar(l) && PrefixSoFar(ssl, l) && ResourceSoFar(l) && RestSoFar(l)
  }

  // ---------------------------------------------------------------- nothing is lost

  // Into which part the character has gone.
  function Place(l: Line, l': Line): nat {
    if l.at.InVersion? && l'.at.AfterVersion? then 13 else Rank(l'.at)
  }

  predicate Grown(l: Line, l': Line, c: char) {
    var n := Place(l, l');
    Rank(l.at) <= n < 15 && l'.Parts() == l.Parts()[n := l.Parts()[n] + [c]]
  }

  // The part that begins.
  lemma {:induction false} Begins(l: Line, c: char)
    requires Ahead(l)
    ensures forall k :: Rank(l.at) < k < 15 ==> l.Parts()[k] + [c] == [c]
  {
    assert "" + [c] == [c];
  }

  lemma {:induction false} EndGrows(l: Line, c: char)
    requires Ahead(l) && EndsTarget(c) && Rank(l.at) <= 11
    ensures EndTarget(l, c).More? && Grown(l, EndTarget(l, c).line, c)
  {
    Begins(l, c);
    assert l.Parts()[12] + [c] == l.Parts()[14] + [c] == [c];
  }

  lemma {:induction false} PathStarts(l: Line)
    requires Ahead(l) && Rank(l.at) <= 8
    ensures StartPath(l).More? && Grown(l, StartPath(l).line, '/')
  {
    Begins(l, '/');
    assert l.Parts()[9] + ['/'] == ['/'];
  }

  lemma {:induction false} HeadGrows(ssl: bool, l: Line, c: char)
    requires Ahead(l) && Rank(l.at) <= 1 && Step(ssl, l, c).More?
    ensures Grown(l, Step(ssl, l, c).line, c)
  {
    if Rank(l.at) == 0 {
      LeadGrows(ssl, l, c);
    } else {
      MethodGrows(l, c);
      assert Step(ssl, l, c) == StepMethod(l, c);
    }
  }

  lemma {:induction false} MethodGrows(l: Line, c: char)
    requires Ahead(l) && l.at.InMethod? && StepMethod(l, c).More?
    ensures Grown(l, StepMethod(l, c).line, c)
  {
    Begins(l, c);
    assert l.Parts()[2] + [c] == [c];
  }

  lemma {:induction false} LeadGrows(ssl: bool, l: Line, c: char)
    requires Ahead(l) && Rank(l.at) == 0 && Step(ssl, l, c).More?
    ensures Grown(l, Step(ssl, l, c).line, c)
  {
    Begins(l, c);
    assert l.Parts()[1] + [c] == [c];
  }

  lemma {:induction false} AddressGrows(l: Line, c: char)
    requires Ahead(l) && l.at.AfterMethod? && StepAfterMethod(l, c).More?
    ensures Grown(l, StepAfterMethod(l, c).line, c)
  {
    PathStarts(l);
    Begins(l, c);
    assert l.Parts()[3] + [c] == [c];
  }

  lemma {:induction false} SchemeGrows(ssl: bool, l: Line, c: char)
    requires Ahead(l) && l.at.InScheme? && StepScheme(ssl, l, c).More?
    ensures Grown(l, StepScheme(ssl, l, c).line, c)
  {
    Begins(l, c);
    assert l.Parts()[4] + [c] == [c];
  }

  lemma {:induction false} SlashGrows(l: Line, c: char, next: Phase)
    requires Ahead(l) && Rank(l.at) == Rank(next) == 4 && StepSlash(l, c, next).More?
    ensures Grown(l, StepSlash(l, c, next).line, c)
  {
  }

  lemma {:induction false} AuthorityGrows(l: Line, c: char)
    requires Ahead(l) && l.at.SchemeSlashes? && StepAuthority(l, c).More?
    ensures Grown(l, StepAuthority(l, c).line, c)
  {
    Begins(l, c);
    assert l.Parts()[5] + [c] == l.Parts()[6] + [c] == [c];
  }

  lemma {:induction false} HostEndGrows(l: Line, c: char)
    requires Ahead(l) && Rank(l.at) <= 7 && StepHostEnd(l, c).More?
    ensures Grown(l, StepHostEnd(l, c).line, c)
  {
    if c == '/' {
      PathStarts(l);
    } else if c == ':' {
      Begins(l, c);
      assert l.Parts()[8] + [c] == [c];
    } else {
      EndGrows(l, c);
    }
  }

  lemma {:induction false} HostGrows(l: Line, c: char)
    requires Ahead(l) && l.at.InHost? && StepHost(l, c).More?
    ensures Grown(l, StepHost(l, c).line, c)
  {
    if !HostChar(c) {
      HostEndGrows(l, c);
    }
  }

  lemma {:induction false} LiteralGrows(l: Line, c: char)
    requires Ahead(l) && (l.at.LiteralStart? || l.at.InLiteral?) && StepLiteral(l, c).More?
    ensures Grown(l, StepLiteral(l, c).line, c)
  {
    Begins(l, c);
    assert l.Parts()[7] + [c] == [c] && (l.at.LiteralStart? ==> l.Parts()[6] + [c] == [c]);
  }

  lemma {:induction false} PortGrows(l: Line, c: char)
    requires Ahead(l) && l.at.InPort? && StepPort(l, c).More?
    ensures Grown(l, StepPort(l, c).line, c)
  {
    if IsDigit(c) {
    } else if c == '/' {
      PathStarts(l);
    } else {
      EndGrows(l, c);
    }
  }

  lemma {:induction false} PathGrows(l: Line, c: char)
    requires Ahead(l) && l.at.InPath? && StepPath(l, c).More?
    ensures Grown(l, StepPath(l, c).line, c)
  {
    if EndsTarget(c) {
      EndGrows(l, c);
    } else {
      Begins(l, c);
      assert l.Parts()[10] + [c] == l.Parts()[11] + [c] == [c];
    }
  }

  lemma {:induction false} QueryGrows(l: Line, c: char)
    requires Ahead(l) && l.at.InQuery? && StepQuery(l, c).More?
    ensures Grown(l, StepQuery(l, c).line, c)
  {
    if EndsTarget(c) {
      EndGrows(l, c);
    } else {
      QueryGoesOn(l, c);
    }
  }

  lemma {:induction false} QueryGoesOn(l: Line, c: char)
    requires Ahead(l) && l.at.InQuery? && StepQuery(l, c).More? && !EndsTarget(c)
    ensures Grown(l, StepQuery(l, c).line, c)
  {
    Begins(l, c);
    assert l.Parts()[11] + [c] == [c];
  }

  lemma {:induction false} FragmentGrows(l: Line, c: char)
    requires Ahead(l) && l.at.InFragment? && StepFragment(l, c).More?
    ensures Grown(l, StepFragment(l, c).line, c)
  {
    if EndsTarget(c) {
      EndGrows(l, c);
    }
  }

  lemma {:induction false} SpaceGrows(l: Line, c: char)
    requires Ahead(l) && l.at.AfterUrl? && StepTail(l, c).More?
    ensures Grown(l, StepTail(l, c).line, c)
  {
    Begins(l, c);
    assert l.Parts()[13] + [c] == l.Parts()[14] + [c] == [c];
  }

  lemma {:induction false} TailGrows(l: Line, c: char)
    requires Ahead(l) && 13 <= Rank(l.at) && StepTail(l, c).More?
    ensures Grown(l, StepTail(l, c).line, c)
  {
  }

  lemma {:induction false} StepGrows(ssl: bool, l: Line, c: char)
    requires Ahead(l) && Step(ssl, l, c).More?
    ensures Grown(l, Step(ssl, l, c).line, c)
  {
    match l.at
    case BeforeMethod => HeadGrows(ssl, l, c);
    case LeadingReturn => HeadGrows(ssl, l, c);
    case InMethod => HeadGrows(ssl, l, c);
    case AfterMethod => AddressGrows(l, c);
    case InScheme => SchemeGrows(ssl, l, c);
    case SchemeColon => SlashGrows(l, c, SchemeSlash);
    case SchemeSlash => SlashGrows(l, c, SchemeSlashes);
    case SchemeSlashes => AuthorityGrows(l, c);
    case InHost => HostGrows(l, c);
    case LiteralStart => LiteralGrows(l, c);
    case InLiteral => LiteralGrows(l, c);
    case LiteralEnd => HostEndGrows(l, c);
    case InPort => PortGrows(l, c);
    case InPath => PathGrows(l, c);
    case InQuery => QueryGrows(l, c);
    case InFragment => FragmentGrows(l, c);
    case AfterUrl => SpaceGrows(l, c);
    case _ => TailGrows(l, c);
  }

  lemma {:induction false} ConcatEmpty(parts: seq<string>)
    requires forall k :: 0 <= k < |parts| ==> parts[k] == ""
    ensures Concat(parts) == ""
  {
    if parts != [] {
      ConcatEmpty(parts[1..]);
    }
  }

  lemma {:induction false} ConcatGrows(parts: seq<string>, n: nat, c: char)
    requires n < |parts| && forall k :: n < k < |parts| ==> parts[k] == ""
    ensures Concat(parts[n := parts[n] + [c]]) == Concat(parts) + [c]
  {
    var parts' := parts[n := parts[n] + [c]];
    if n == 0 {
      ConcatEmpty(parts[1..]);
      assert parts'[1..] == parts[1..];
    } else {
      ConcatGrows(parts[1..], n - 1, c);
      assert parts'[1..] == parts[1..][n - 1 := parts[1..][n - 1] + [c]];
      assert parts[0] + (Concat(parts[1..]) + [c]) == Concat(parts) + [c];
    }
  }

  lemma {:induction false} GrownWhole(l: Line, l': Line, c: char)
    requires Ahead(l) && Grown(l, l', c)
    ensures l'.Whole() == l.Whole() + [c] && Ahead(l')
  {
    ConcatGrows(l.Parts(), Place(l, l'), c);
    GrownAhead(l, l', c);
  }

  lemma {:induction false} GrownAhead(l: Line, l': Line, c: char)
    requires Ahead(l) && Grown(l, l', c)
    ensures Ahead(l')
  {
  }

  lemma {:induction false} GrownTarget(l: Line, l': Line, c: char)
    requires Ahead(l) && Grown(l, l', c)
    ensures 3 <= Place(l, l') < 12 ==> l'.Target() == l.Target() + [c]
    ensures 12 <= Place(l, l') ==> l'.Target() == l.Target()
  {
    var n, parts := Place(l, l'), l.Parts()[3..12];
    if 3 <= n < 12 {
      ConcatGrows(parts, n - 3, c);
      assert l'.Parts()[3..12] == parts[n - 3 := parts[n - 3] + [c]];
    } else if 12 <= n {
      assert l'.Parts()[3..12] == parts;
    }
  }

  /** Every character that is accepted goes to the end of what has been kept. */
  lemma {:induction false} StepWhole(ssl: bool, l: Line, c: char)
    requires Ahead(l) && Step(ssl, l, c).More?
    ensures Step(ssl, l, c).line.Whole() == l.Whole() + [c] && Ahead(Step(ssl, l, c).line)
  {
    StepGrows(ssl, l, c);
    GrownWhole(l, Step(ssl, l, c).line, c);
  }

  // ---------------------------------------------------------------- what is accepted has the shape of a line

  lemma {:induction false} Unstarted(l: Line)
    requires Ahead(l)
    ensures var n := Rank(l.at);
            && (n < 3 ==> l.scheme == "") && (n < 5 ==> l.open == "") && (n < 6 ==> l.host == "")
            && (n < 7 ==> l.close == "") && (n < 8 ==> l.ported == "")
            && (n < 9 ==> l.path == "") && (n < 10 ==> l.query == "") && (n < 11 ==> l.fragment == "")
            && (n < 12 ==> l.space == "") && (n < 13 ==> l.protocol == "") && (n < 14 ==> l.ending == "")
  {
    var parts := l.Parts();
    assert parts[3] == l.scheme && parts[5] == l.open && parts[6] == l.host && parts[7] == l.close &&
      parts[8] == l.ported && parts[9] == l.path;
    assert parts[10] == l.query && parts[11] == l.fragment && parts[12] == l.space && parts[13] == l.protocol;
    assert parts[14] == l.ending;
  }

  lemma {:induction false} BlankLinesNext(s: string, open: bool, c: char)
    requires BlankLines(s, open) && if open then s != "" && s[|s| - 1] == '\r' && c == '\n' else c == '\r' || c == '\n'
    ensures BlankLines(s + [c], c == '\r')
  {
    var t, returned := s + [c], c == '\r';
    forall k | 0 <= k < |t|
      ensures BlankAt(t, k, returned)
    {
      assert k < |s| ==> BlankAt(s, k, open);
    }
  }

  // The shape is kept, unless the character is refused.
  predicate Kept(ssl: bool, turn: Turn) {
    turn.Rejected? || Shape(ssl, turn.line)
  }

  lemma {:induction false} HeadShape(ssl: bool, l: Line, c: char)
    requires Ahead(l) && Shape(ssl, l) && Rank(l.at) == 0
    ensures Kept(ssl, Step(ssl, l, c))
  {
    if c == '\n' || (c == '\r' && l.at.BeforeMethod?) {
      BlankLinesNext(l.lead, l.at.LeadingReturn?, c);
    }
  }

  lemma {:induction false} MethodShape(ssl: bool, l: Line, c: char)
    requires Ahead(l) && Shape(ssl, l) && l.at.InMethod?
    ensures Kept(ssl, StepMethod(l, c))
  {
  }

  lemma {:induction false} AddressShape(ssl: bool, l: Line, c: char)
    requires Ahead(l) && Shape(ssl, l) && l.at.AfterMethod?
    ensures Kept(ssl, StepAfterMethod(l, c))
  {
    Unstarted(l);
  }

  lemma {:induction false} SchemeShape(ssl: bool, l: Line, c: char)
    requires Ahead(l) && Shape(ssl, l) && l.at.InScheme?
    ensures Kept(ssl, StepScheme(ssl, l, c))
  {
    Unstarted(l);
  }

  lemma {:induction false} AuthorityShape(ssl: bool, l: Line, c: char)
    requires Ahead(l) && Shape(ssl, l) && l.at.SchemeSlashes?
    ensures Kept(ssl, StepAuthority(l, c))
  {
    Unstarted(l);
  }

  lemma {:induction false} SlashShape(ssl: bool, l: Line, c: char)
    requires Ahead(l) && Shape(ssl, l) && Rank(l.at) == 4
    ensures Kept(ssl, Step(ssl, l, c))
  {
    Unstarted(l);
    if l.at.SchemeSlashes? {
      assert Step(ssl, l, c) == StepAuthority(l, c);
      AuthorityShape(ssl, l, c);
    }
  }

  // An address of which the authority has been read ends, or its path starts.
  lemma {:induction false} PathStartShape(ssl: bool, l: Line)
    requires Ahead(l) && Shape(ssl, l) && 6 <= Rank(l.at) <= 8 && Authority(ssl, l)
    ensures Shape(ssl, StartPath(l).line)
  {
    Unstarted(l);
  }

  lemma {:induction false} EndShape(ssl: bool, l: Line, c: char)
    requires Ahead(l) && Shape(ssl, l) && 6 <= Rank(l.at) <= 11 && EndsTarget(c)
    requires Authority(ssl, l) || (NoAuthority(l) && l.path != "")
    ensures Kept(ssl, EndTarget(l, c))
  {
    EndRest(l, c);
    EndOthers(ssl, l, c, EndTarget(l, c).line);
    AllShaped(ssl, EndTarget(l, c), EndTarget(l, c).line);
  }

  lemma {:induction false} EndOthers(ssl: bool, l: Line, c: char, l': Line)
    requires HeadSoFar(l) && PrefixSoFar(ssl, l) && ResourceSoFar(l) && 6 <= Rank(l.at) <= 11
    requires Authority(ssl, l) || (NoAuthority(l) && l.path != "")
    requires EndsTarget(c) && EndTarget(l, c) == More(l')
    ensures HeadSoFar(l') && PrefixSoFar(ssl, l') && ResourceSoFar(l')
  {
  }

  lemma {:induction false} AllShaped(ssl: bool, turn: Turn, l: Line)
    requires turn == More(l) && HeadSoFar(l) && PrefixSoFar(ssl, l) && ResourceSoFar(l) && RestSoFar(l)
    ensures Kept(ssl, turn)
  {
  }

  lemma {:induction false} EndRest(l: Line, c: char)
    requires Ahead(l) && RestSoFar(l) && Rank(l.at) <= 11 && EndsTarget(c)
    ensures EndTarget(l, c).More? && RestSoFar(EndTarget(l, c).line)
  {
    Unstarted(l);
    assert "\r" + "\n" == "\r\n";
  }

  lemma {:induction false} HostEndShape(ssl: bool, l: Line, c: char)
    requires Ahead(l) && Shape(ssl, l) && (l.at.InHost? || l.at.LiteralEnd?)
    ensures Kept(ssl, StepHostEnd(l, c))
  {
    Unstarted(l);
    if c == '/' {
      PathStartShape(ssl, l);
    } else if c == ':' {
      PortStartShape(ssl, l);
    } else if EndsTarget(c) {
      EndShape(ssl, l, c);
    }
  }

  lemma {:induction false} PortStartShape(ssl: bool, l: Line)
    requires Ahead(l) && Shape(ssl, l) && (l.at.InHost? || l.at.LiteralEnd?)
    ensures Kept(ssl, StartPort(l))
  {
    Unstarted(l);
    AllShaped(ssl, StartPort(l), StartPort(l).line);
  }

  lemma {:induction false} HostShape(ssl: bool, l: Line, c: char)
    requires Ahead(l) && Shape(ssl, l) && l.at.InHost?
    ensures Kept(ssl, StepHost(l, c))
  {
    if !HostChar(c) {
      HostEndShape(ssl, l, c);
    }
  }

  lemma {:induction false} LiteralShape(ssl: bool, l: Line, c: char)
    requires Ahead(l) && Shape(ssl, l) && l.at.InLiteral?
    ensures Kept(ssl, StepLiteral(l, c))
  {
    Unstarted(l);
  }

  lemma {:induction false} LiteralStartShape(ssl: bool, l: Line, c: char)
    requires Ahead(l) && Shape(ssl, l) && l.at.LiteralStart?
    ensures Kept(ssl, StepLiteral(l, c))
  {
    Unstarted(l);
  }

  lemma {:induction false} PortShape(ssl: bool, l: Line, c: char)
    requires Ahead(l) && Shape(ssl, l) && l.at.InPort?
    ensures Kept(ssl, StepPort(l, c))
  {
    if IsDigit(c) {
      PortDigit(ssl, l, c);
    } else if l.port > 0 {
      assert l.ported[1..] != "";
      if c == '/' {
        PathStartShape(ssl, l);
      } else if EndsTarget(c) {
        EndShape(ssl, l, c);
      }
    }
  }

  lemma {:induction false} DigitsMore(t: string, c: char, t': string)
    requires t != "" && AllDigits(t[1..]) && IsDigit(c) && t' == t + [c]
    ensures AllDigits(t'[1..]) && t'[0] == t[0] && Value(t'[1..]) == 10 * Value(t[1..]) + (c - '0') as nat
  {
    var d := t[1..];
    assert t'[1..] == d + [c] && (d + [c])[..|d|] == d;
  }

  lemma {:induction false} PortDigit(ssl: bool, l: Line, c: char)
    requires Shape(ssl, l) && l.at.InPort? && IsDigit(c)
    ensures Kept(ssl, StepPort(l, c))
  {
    DigitsMore(l.ported, c, l.ported + [c]);
    if StepPort(l, c).More? {
      AllShaped(ssl, StepPort(l, c), StepPort(l, c).line);
    }
  }

  // The path, the query or the fragment goes on, or the next of them begins.
  predicate Continues(l: Line, l': Line) {
    l' == l.(at := l'.at, path := l'.path, query := l'.query, fragment := l'.fragment) && 9 <= Rank(l'.at) <= 11
  }

  // Only the path and what follows it may have changed.
  lemma {:induction false} ResourceShape(ssl: bool, l: Line, l': Line)
    requires Shape(ssl, l) && 9 <= Rank(l.at) <= 11 && Continues(l, l') && ResourceSoFar(l') && l'.path != ""
    ensures Shape(ssl, l')
  {
  }

  lemma {:induction false} PathResource(l: Line, c: char, l': Line)
    requires Ahead(l) && ResourceSoFar(l) && l.at.InPath? && !EndsTarget(c) && StepPath(l, c) == More(l')
    ensures ResourceSoFar(l') && Continues(l, l')
  {
    Unstarted(l);
    PathContinues(l, c, l');
  }

  lemma {:induction false} PathContinues(l: Line, c: char, l': Line)
    requires l.at.InPath? && !EndsTarget(c) && StepPath(l, c) == More(l')
    ensures Continues(l, l')
  {
  }

  lemma {:induction false} QueryResource(l: Line, c: char, l': Line)
    requires Ahead(l) && ResourceSoFar(l) && l.at.InQuery? && !EndsTarget(c) && StepQuery(l, c) == More(l')
    ensures ResourceSoFar(l') && Continues(l, l')
  {
    Unstarted(l);
  }

  lemma {:induction false} FragmentResource(l: Line, c: char, l': Line)
    requires Ahead(l) && ResourceSoFar(l) && l.at.InFragment? && !EndsTarget(c) && StepFragment(l, c) == More(l')
    ensures ResourceSoFar(l') && Continues(l, l')
  {
    Unstarted(l);
  }

  lemma {:induction false} GoesOn(ssl: bool, l: Line, c: char, l': Line)
    requires Ahead(l) && ResourceSoFar(l) && 9 <= Rank(l.at) <= 11 && !EndsTarget(c) && Step(ssl, l, c) == More(l')
    ensures ResourceSoFar(l') && Continues(l, l') && l'.path != ""
  {
    match l.at
    case InPath => PathResource(l, c, l');
    case InQuery => QueryResource(l, c, l');
    case InFragment => FragmentResource(l, c, l');
  }

  // Only what comes after the address may have changed.
  lemma {:induction false} RestShape(ssl: bool, l: Line, l': Line)
    requires Shape(ssl, l) && 12 <= Rank(l.at) && 12 <= Rank(l'.at) && RestSoFar(l')
    requires l' == l.(at := l'.at, space := l'.space, protocol := l'.protocol, ending := l'.ending,
                      version := l'.version)
    ensures Shape(ssl, l')
  {
  }

  lemma {:induction false} PaddedEnds(s: string, returned: bool)
    requires Blanks(s)
    ensures PaddedEnd(if returned then s + "\r\n" else s + "\n")
  {
    var t := if returned then s + "\r\n" else s + "\n";
    assert t[..|s|] == s && LineEnd(t[|s|..]);
  }

  lemma {:induction false} SpaceRest(l: Line, c: char)
    requires Ahead(l) && RestSoFar(l) && l.at.AfterUrl? && StepTail(l, c).More?
    ensures RestSoFar(StepTail(l, c).line)
  {
    Unstarted(l);
  }

  lemma {:induction false} VersionRest(l: Line, c: char)
    requires Ahead(l) && RestSoFar(l) && l.at.InVersion? && StepTail(l, c).More?
    ensures RestSoFar(StepTail(l, c).line)
  {
    Unstarted(l);
    assert "" + "\n" == "\n";
    PaddedEnds("", false);
  }

  lemma {:induction false} EndingRest(l: Line, c: char)
    requires RestSoFar(l) && (l.at.AfterVersion? || l.at.LastReturn?) && StepTail(l, c).More?
    ensures RestSoFar(StepTail(l, c).line)
  {
    if l.at.AfterVersion? {
      PaddedEnds(l.ending, true);
      assert l.ending + ['\r'] + "\n" == l.ending + "\r\n";
      if IsBlank(c) {
        PaddedEnds(l.ending + [c], false);
      }
    }
  }

  lemma {:induction false} TailRest(l: Line, c: char, l': Line)
    requires Ahead(l) && RestSoFar(l) && 12 <= Rank(l.at) && !l.at.Finished? && StepTail(l, c) == More(l')
    ensures RestSoFar(l') && 12 <= Rank(l'.at)
  {
    TailOnly(l, c, l');
    TailRestOf(l, c);
  }

  lemma {:induction false} TailRestOf(l: Line, c: char)
    requires Ahead(l) && RestSoFar(l) && 12 <= Rank(l.at) && !l.at.Finished? && StepTail(l, c).More?
    ensures RestSoFar(StepTail(l, c).line)
  {
    match l.at
    case AfterUrl => SpaceRest(l, c);
    case InVersion(_) => VersionRest(l, c);
    case _ => EndingRest(l, c);
  }

  lemma {:induction false} TailOnly(l: Line, c: char, l': Line)
    requires 12 <= Rank(l.at) && StepTail(l, c) == More(l')
    ensures 12 <= Rank(l'.at)
    ensures l' == l.(at := l'.at, space := l'.space, protocol := l'.protocol, ending := l'.ending,
                     version := l'.version)
  {
  }

  lemma {:induction false} EarlyShape(ssl: bool, l: Line, c: char)
    requires Ahead(l) && Shape(ssl, l) && 1 <= Rank(l.at) <= 3
    ensures Kept(ssl, Step(ssl, l, c))
  {
    match l.at
    case InMethod =>
      assert Step(ssl, l, c) == StepMethod(l, c);
      MethodShape(ssl, l, c);
    case AfterMethod =>
      assert Step(ssl, l, c) == StepAfterMethod(l, c);
      AddressShape(ssl, l, c);
    case InScheme =>
      assert Step(ssl, l, c) == StepScheme(ssl, l, c);
      SchemeShape(ssl, l, c);
  }

  lemma {:induction false} MiddleShape(ssl: bool, l: Line, c: char)
    requires Ahead(l) && Shape(ssl, l) && 5 <= Rank(l.at) <= 8
    ensures Kept(ssl, Step(ssl, l, c))
  {
    match l.at
    case InHost => HostShape(ssl, l, c);
    case LiteralStart => LiteralStartShape(ssl, l, c);
    case InLiteral => LiteralShape(ssl, l, c);
    case LiteralEnd => HostEndShape(ssl, l, c);
    case InPort => PortShape(ssl, l, c);
  }

  lemma {:induction false} PathShape(ssl: bool, l: Line, c: char)
    requires Ahead(l) && Shape(ssl, l) && 9 <= Rank(l.at) <= 11
    ensures Kept(ssl, Step(ssl, l, c))
  {
    if EndsTarget(c) {
      assert Step(ssl, l, c) == EndTarget(l, c);
      EndShape(ssl, l, c);
    } else if Step(ssl, l, c).More? {
      GoesOn(ssl, l, c, Step(ssl, l, c).line);
      ResourceShape(ssl, l, Step(ssl, l, c).line);
    }
  }

  lemma {:induction false} TailShape(ssl: bool, l: Line, c: char)
    requires Ahead(l) && Shape(ssl, l) && 12 <= Rank(l.at) && !l.at.Finished?
    ensures Kept(ssl, StepTail(l, c))
  {
    if StepTail(l, c).More? {
      TailRest(l, c, StepTail(l, c).line);
      TailOnly(l, c, StepTail(l, c).line);
      RestShape(ssl, l, StepTail(l, c).line);
    }
  }

  lemma {:induction false} StepShape(ssl: bool, l: Line, c: char)
    requires Ahead(l) && Shape(ssl, l) && !l.at.Finished?
    ensures Kept(ssl, Step(ssl, l, c))
  {
    var n := Rank(l.at);
    if n == 0 {
      HeadShape(ssl, l, c);
    } else if n <= 3 {
      EarlyShape(ssl, l, c);
    } else if n == 4 {
      SlashShape(ssl, l, c);
    } else if n <= 8 {
      MiddleShape(ssl, l, c);
    } else if n <= 11 {
      PathShape(ssl, l, c);
    } else {
      TailShape(ssl, l, c);
    }
  }

  ghost predicate Sound(ssl: bool, l: Line) {
    Ahead(l) && Shape(ssl, l)
  }

  // Nothing has been read yet.
  predicate Unread(l: Line) {
    (forall k :: 0 <= k < 15 ==> l.Parts()[k] == "") && l.at.BeforeMethod? && l.port == 0 && !l.https &&
      l.version == Http09
  }

  lemma {:induction false} UnreadSound(ssl: bool, l: Line)
    requires Unread(l)
    ensures Sound(ssl, l) && l.Whole() == ""
  {
    var parts := l.Parts();
    ConcatEmpty(parts);
    assert parts[0] == l.lead && parts[3] == l.scheme && parts[4] == l.mark && parts[6] == l.host;
    Unstarted(l);
  }

  // What is kept of the characters that have been read.
  ghost predicate Keeps(ssl: bool, o: Outcome, before: string, size: nat, s: string) {
    match o
    case Going(l) => Sound(ssl, l) && !l.at.Finished? && l.Whole() == before + s
    case Complete(l, n) =>
      Sound(ssl, l) && l.at.Finished? && size < n <= size + |s| && l.Whole() == before + s[..n - size]
    case Refused(_, _, n) => size <= n <= size + |s|
  }

  lemma {:induction false} ReadKeeps(ssl: bool, l: Line, size: nat, s: string)
    requires Sound(ssl, l) && !l.at.Finished?
    ensures Keeps(ssl, ReadLine(ssl, l, size, s), l.Whole(), size, s)
    decreases |s|, 1
  {
    if s == "" {
      assert l.Whole() + "" == l.Whole();
    } else {
      NextKeeps(ssl, l, size, s[0]);
      OnKeeps(ssl, Next(ssl, l, size, s[0]), l.Whole(), size, s);
    }
  }

  lemma {:induction false} NextKeeps(ssl: bool, l: Line, size: nat, c: char)
    requires Sound(ssl, l) && !l.at.Finished?
    ensures Keeps(ssl, Next(ssl, l, size, c), l.Whole(), size, [c])
  {
    StepShape(ssl, l, c);
    if Step(ssl, l, c).More? {
      StepWhole(ssl, l, c);
    }
    CountedKeeps(ssl, Step(ssl, l, c), l, size, c);
  }

  lemma {:induction false} CountedKeeps(ssl: bool, turn: Turn, l: Line, size: nat, c: char)
    requires turn.More? ==> Sound(ssl, turn.line) && turn.line.Whole() == l.Whole() + [c]
    ensures Keeps(ssl, Counted(turn, l, size), l.Whole(), size, [c])
  {
    assert [c][..1] == [c];
  }

  lemma {:induction false} OnKeeps(ssl: bool, o: Outcome, before: string, size: nat, s: string)
    requires s != "" && Keeps(ssl, o, before, size, [s[0]])
    ensures Keeps(ssl, ReadOn(ssl, o, size + 1, s[1..]), before, size, s)
    decreases |s|, 0
  {
    if o.Going? {
      ReadKeeps(ssl, o.line, size + 1, s[1..]);
      MoreKept(ssl, ReadLine(ssl, o.line, size + 1, s[1..]), before, size, s);
    } else if o.Complete? {
      CompleteKept(ssl, o, before, size, s);
    }
  }

  lemma {:induction false} CompleteKept(ssl: bool, o: Outcome, before: string, size: nat, s: string)
    requires s != "" && o.Complete? && Keeps(ssl, o, before, size, [s[0]])
    ensures Keeps(ssl, o, before, size, s)
  {
    assert [s[0]][..1] == s[..1];
  }

  lemma {:induction false} MoreKept(ssl: bool, o: Outcome, before: string, size: nat, s: string)
    requires s != "" && Keeps(ssl, o, before + [s[0]], size + 1, s[1..])
    ensures Keeps(ssl, o, before, size, s)
  {
    FirstJoins(before, s, |s|);
    if o.Complete? {
      FirstJoins(before, s, o.size - size);
    }
  }

  lemma {:induction false} FirstJoins(before: string, s: string, n: nat)
    requires 0 < n <= |s|
    ensures before + [s[0]] + s[1..][..n - 1] == before + s[..n]
    ensures n == |s| ==> before + [s[0]] + s[1..] == before + s
  {
    assert s[1..][..n - 1] == s[1..n] && [s[0]] + s[1..n] == s[..n];
  }

  lemma {:induction false} UnreadKeeps(ssl: bool, l: Line, s: string)
    requires Unread(l)
    ensures Keeps(ssl, ReadLine(ssl, l, 0, s), "", 0, s)
  {
    UnreadSound(ssl, l);
    ReadKeeps(ssl, l, 0, s);
  }

  lemma {:induction false} FinishedShape(ssl: bool, l: Line)
    requires Shape(ssl, l) && l.at.Finished?
    ensures WellFormed(ssl, l)
  {
  }
}
