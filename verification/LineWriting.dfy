/** Every request line of the grammar is read, and its parts are found. */
module LineWriting {
  import opened CaseOrder
  import opened LineGrammar
  import opened Number
  import opened RequestLine
  import opened Text

  // ---------------------------------------------------------------- runs of characters

  predicate StepsTo(ssl: bool, l: Line, c: char, l': Line) {
    Step(ssl, l, c) == More(l') && !l'.at.Finished?
  }

  // The states between the characters of u.
  ghost predicate Trace(ssl: bool, states: seq<Line>, u: string) {
    |states| == |u| + 1 && forall k :: 0 <= k < |u| ==> StepsTo(ssl, states[k], u[k], states[k + 1])
  }

  lemma {:induction false} Run(ssl: bool, states: seq<Line>, size: nat, u: string)
    requires Trace(ssl, states, u) && size + |u| <= LINE_MAX_LEN
    ensures ReadLine(ssl, states[0], size, u) == Going(states[|u|])
    decreases |u|
  {
    if u != "" {
      assert StepsTo(ssl, states[0], u[0], states[1]);
      TraceTail(ssl, states, u);
      Run(ssl, states[1..], size + 1, u[1..]);
    }
  }

  lemma {:induction false} TraceTail(ssl: bool, states: seq<Line>, u: string)
    requires Trace(ssl, states, u) && u != ""
    ensures Trace(ssl, states[1..], u[1..])
  {
    forall k | 0 <= k < |u| - 1
      ensures StepsTo(ssl, states[1..][k], u[1..][k], states[1..][k + 1])
    {
      assert StepsTo(ssl, states[k + 1], u[k + 1], states[k + 2]);
    }
  }

  // ---------------------------------------------------------------- the parts, one after the other

  // The first k parts of l have been read, and m is what is known of them.
  ghost predicate Known(ssl: bool, l: Line, k: nat, m: Line)
    requires k <= 15
  {
    ReadLine(ssl, FRESH, 0, Concat(l.Parts()[..k])) == Going(m)
  }

  lemma {:induction false} ConcatNext(parts: seq<string>, k: nat)
    requires k < |parts|
    ensures Concat(parts[..k + 1]) == Concat(parts[..k]) + parts[k]
  {
    ConcatAppend(parts[..k], parts[k]);
    assert parts[..k + 1] == parts[..k] + [parts[k]];
  }

  // There is room for all parts but the last one.
  lemma {:induction false} Room(parts: seq<string>, k: nat)
    requires k < |parts|
    ensures |Concat(parts[..k])| + |parts[k]| <= |Concat(parts)|
    ensures k + 1 < |parts| ==> |Concat(parts[..k])| + |parts[k]| + |parts[|parts| - 1]| <= |Concat(parts)|
    decreases |parts| - k
  {
    ConcatNext(parts, k);
    if k + 1 < |parts| {
      Room(parts, k + 1);
    } else {
      assert parts[..k + 1] == parts;
    }
  }

  lemma {:induction false} Skip(ssl: bool, l: Line, k: nat, m: Line)
    requires k < 15 && Known(ssl, l, k, m) && l.Parts()[k] == ""
    ensures Known(ssl, l, k + 1, m)
  {
    ConcatNext(l.Parts(), k);
    assert Concat(l.Parts()[..k]) + "" == Concat(l.Parts()[..k]);
  }

  lemma {:induction false} Advance(ssl: bool, l: Line, k: nat, m: Line, states: seq<Line>)
    requires k < 14 && Known(ssl, l, k, m) && |l.Whole()| <= LINE_MAX_LEN + 1 && l.ending != ""
    requires Trace(ssl, states, l.Parts()[k]) && states[0] == m
    ensures Known(ssl, l, k + 1, states[|l.Parts()[k]|])
  {
    var parts := l.Parts();
    var s, u := Concat(parts[..k]), parts[k];
    Room(parts, k);
    ConcatNext(parts, k);
    Run(ssl, states, |s|, u);
    ReadTwo(ssl, s, m, u, states[|u|]);
  }

  lemma {:induction false} ReadTwo(ssl: bool, s: string, m: Line, u: string, m': Line)
    requires ReadLine(ssl, FRESH, 0, s) == Going(m) && ReadLine(ssl, m, |s|, u) == Going(m')
    ensures ReadLine(ssl, FRESH, 0, s + u) == Going(m')
  {
    ReadLineSplit(ssl, FRESH, 0, s, u);
  }

  // The states while a part is being read: first `start`, then `inside` with a longer and longer text.
  function States(start: Line, u: string, inside: string -> Line): (states: seq<Line>)
    ensures |states| == |u| + 1 && states[0] == start
    ensures forall k :: 0 < k <= |u| ==> states[k] == inside(u[..k])
  {
    seq(|u| + 1, k requires 0 <= k <= |u| => if k == 0 then start else inside(u[..k]))
  }

  // Reading u from `start` on leads through the states of `inside`.
  ghost predicate Steps(ssl: bool, start: Line, u: string, inside: string -> Line) {
    && (u != "" ==> StepsTo(ssl, start, u[0], inside([u[0]])))
    && forall k :: 0 < k < |u| ==> StepsTo(ssl, inside(u[..k]), u[k], inside(u[..k] + [u[k]]))
  }

  lemma {:induction false} StatesTrace(ssl: bool, start: Line, u: string, inside: string -> Line)
    requires Steps(ssl, start, u, inside)
    ensures Trace(ssl, States(start, u, inside), u)
  {
    var states := States(start, u, inside);
    forall k | 0 <= k < |u|
      ensures StepsTo(ssl, states[k], u[k], states[k + 1])
    {
      Longer(u, k);
      if k == 0 {
        assert states[1] == inside([u[0]]);
      } else {
        assert states[k] == inside(u[..k]) && states[k + 1] == inside(u[..k] + [u[k]]);
      }
    }
  }

  lemma {:induction false} Longer(u: string, k: nat)
    requires k < |u|
    ensures u[..k + 1] == u[..k] + [u[k]] && (k == 0 ==> u[..k + 1] == [u[0]])
  {
  }

  predicate Short(l: Line) {
    |l.Whole()| <= LINE_MAX_LEN + 1 && l.ending != ""
  }

  // A part is read.
  lemma {:induction false} ReadPart(ssl: bool, l: Line, k: nat, m: Line, u: string, inside: string -> Line)
    requires k < 14 && Known(ssl, l, k, m) && Short(l)
    requires u == l.Parts()[k] != "" && Steps(ssl, m, u, inside)
    ensures Known(ssl, l, k + 1, inside(u))
  {
    StatesTrace(ssl, m, u, inside);
    Advance(ssl, l, k, m, States(m, u, inside));
    assert u[..|u|] == u;
  }

  // What holds of a line that is to be read.
  ghost predicate Readable(ssl: bool, l: Line) {
    WellFormed(ssl, l) && Short(l)
  }

  function InLead(v: string): Line {
    FRESH.(lead := v, at := if v != "" && v[|v| - 1] == '\r' then LeadingReturn else BeforeMethod)
  }

  lemma {:induction false} LeadStep(ssl: bool, u: string, k: nat)
    requires BlankLines(u, false) && k < |u|
    ensures StepsTo(ssl, InLead(u[..k]), u[k], InLead(u[..k] + [u[k]]))
  {
    assert BlankAt(u, k, false);
    if k > 0 {
      assert BlankAt(u, k - 1, false);
    }
  }

  lemma {:induction false} KnownNone(ssl: bool, l: Line)
    ensures Known(ssl, l, 0, InLead(""))
  {
    assert l.Parts()[..0] == [];
  }

  lemma {:induction false} LeadPart(ssl: bool, l: Line)
    requires Short(l) && BlankLines(l.lead, false) && l.lead != ""
    ensures Known(ssl, l, 1, InLead(l.lead))
  {
    KnownNone(ssl, l);
    LeadSteps(ssl, l.lead);
    ReadPart(ssl, l, 0, InLead(""), l.lead, InLead);
  }

  lemma {:induction false} ReadLead(ssl: bool, l: Line)
    requires Readable(ssl, l)
    ensures Known(ssl, l, 1, FRESH.(lead := l.lead))
  {
    if l.lead == "" {
      KnownNone(ssl, l);
      Skip(ssl, l, 0, InLead(""));
    } else {
      LeadDone(l.lead);
      LeadPart(ssl, l);
    }
  }

  lemma {:induction false} LeadSteps(ssl: bool, u: string)
    requires BlankLines(u, false) && u != ""
    ensures Steps(ssl, InLead(""), u, InLead)
  {
    forall k | 0 <= k < |u|
      ensures StepsTo(ssl, InLead(u[..k]), u[k], InLead(u[..k] + [u[k]]))
    {
      LeadStep(ssl, u, k);
    }
    assert u[..0] == "" && u[..0] + [u[0]] == [u[0]];
  }

  lemma {:induction false} LeadDone(u: string)
    requires BlankLines(u, false) && u != ""
    ensures InLead("") == FRESH && InLead(u) == FRESH.(lead := u)
  {
    assert BlankAt(u, |u| - 1, false);
  }

  lemma {:induction false} KnownUpper(name: string)
    requires KnownMethod(name)
    ensures 0 < |name| <= METHOD_MAX_LEN && forall k :: 0 <= k < |name| ==> IsUpper(name[k])
  {
  }

  lemma {:induction false} ReadVerb(ssl: bool, l: Line, m: Line)
    requires Readable(ssl, l) && Known(ssl, l, 1, m) && m.at == BeforeMethod
    ensures Known(ssl, l, 2, m.(at := InMethod, verb := l.verb))
  {
    KnownUpper(l.verb);
    ReadPart(ssl, l, 1, m, l.verb, v => m.(at := InMethod, verb := v));
  }

  lemma {:induction false} ReadGap(ssl: bool, l: Line, m: Line)
    requires Readable(ssl, l) && Known(ssl, l, 2, m) && m.at == InMethod && m.verb == l.verb
    ensures Known(ssl, l, 3, m.(at := AfterMethod, gap := l.gap))
  {
    ReadPart(ssl, l, 2, m, l.gap, v => m.(at := AfterMethod, gap := v));
  }

  // ---------------------------------------------------------------- the authority

  lemma {:induction false} SchemeChars(name: string)
    requires Fold(name) == "http" || Fold(name) == "https"
    ensures 4 <= |name| <= 5 && forall k :: 0 <= k < |name| ==> IsAlpha(name[k])
  {
    assert |Fold(name)| == |name|;
    forall k | 0 <= k < |name|
      ensures IsAlpha(name[k])
    {
      assert Fold(name)[k] == Lower(name[k]);
    }
  }

  lemma {:induction false} ReadScheme(ssl: bool, l: Line, m: Line)
    requires Readable(ssl, l) && Authority(ssl, l) && Known(ssl, l, 3, m) && m.at == AfterMethod
    ensures Known(ssl, l, 4, m.(at := InScheme, scheme := l.scheme))
  {
    SchemeSteps(ssl, m, l.scheme);
    ReadPart(ssl, l, 3, m, l.scheme, v => m.(at := InScheme, scheme := v));
  }

  lemma {:induction false} SchemeSteps(ssl: bool, m: Line, name: string)
    requires m.at == AfterMethod && (Fold(name) == "http" || Fold(name) == "https")
    ensures Steps(ssl, m, name, v => m.(at := InScheme, scheme := v))
  {
    SchemeChars(name);
  }

  function InMark(m: Line, l: Line, v: string): Line {
    m.(at := if |v| <= 1 then SchemeColon else if |v| == 2 then SchemeSlash else SchemeSlashes,
       mark := v, port := DefaultPort(l), https := l.https)
  }

  lemma {:induction false} MarkSteps(ssl: bool, l: Line, m: Line, u: string)
    requires Served(ssl, l) && m.at == InScheme && m.scheme == l.scheme && u == "://"
    ensures Steps(ssl, m, u, v => InMark(m, l, v))
  {
  }

  lemma {:induction false} ReadMark(ssl: bool, l: Line, m: Line)
    requires Readable(ssl, l) && Authority(ssl, l) && Known(ssl, l, 4, m) && m.at == InScheme && m.scheme == l.scheme
    ensures Known(ssl, l, 5, InMark(m, l, "://"))
  {
    MarkSteps(ssl, l, m, l.mark);
    ReadPart(ssl, l, 4, m, l.mark, v => InMark(m, l, v));
  }

  lemma {:induction false} ReadOpen(ssl: bool, l: Line, m: Line)
    requires Readable(ssl, l) && Authority(ssl, l) && Known(ssl, l, 5, m) && m.at == SchemeSlashes && m.open == ""
    ensures Known(ssl, l, 6, if l.open == "" then m else m.(at := LiteralStart, open := "["))
  {
    if l.open == "" {
      Skip(ssl, l, 5, m);
    } else {
      ReadPart(ssl, l, 5, m, l.open, v => m.(at := LiteralStart, open := v));
    }
  }

  lemma {:induction false} HostSteps(ssl: bool, l: Line, m: Line, u: string)
    requires Host(l) && u == l.host && m.at == if l.open == "" then SchemeSlashes else LiteralStart
    ensures Steps(ssl, m, u, v => m.(at := if l.open == "" then InHost else InLiteral, host := v))
  {
  }

  lemma {:induction false} ReadHost(ssl: bool, l: Line, m: Line)
    requires Readable(ssl, l) && Authority(ssl, l) && Known(ssl, l, 6, m)
    requires m.at == if l.open == "" then SchemeSlashes else LiteralStart
    ensures Known(ssl, l, 7, m.(at := if l.open == "" then InHost else InLiteral, host := l.host))
  {
    HostSteps(ssl, l, m, l.host);
    ReadPart(ssl, l, 6, m, l.host, v => m.(at := if l.open == "" then InHost else InLiteral, host := v));
  }

  lemma {:induction false} ReadClose(ssl: bool, l: Line, m: Line)
    requires Readable(ssl, l) && Authority(ssl, l) && Known(ssl, l, 7, m) && m.close == ""
    requires m.at == if l.open == "" then InHost else InLiteral
    ensures Known(ssl, l, 8, if l.open == "" then m else m.(at := LiteralEnd, close := "]"))
  {
    if l.open == "" {
      Skip(ssl, l, 7, m);
    } else {
      ReadPart(ssl, l, 7, m, l.close, v => m.(at := LiteralEnd, close := v));
    }
  }

  function InPorted(m: Line, v: string): Line {
    m.(at := InPort, ported := v, port := if v != "" && AllDigits(v[1..]) then Value(v[1..]) else 0)
  }

  // The first digits of a number denote no more than all of them.
  lemma {:induction false} ValueGrows(s: string, k: nat)
    requires AllDigits(s) && k <= |s|
    ensures Value(s[..k]) <= Value(s)
    decreases |s|
  {
    if k < |s| {
      var t := s[..|s| - 1];
      ValueGrows(t, k);
      assert t[..k] == s[..k];
    } else {
      assert s[..k] == s;
    }
  }

  lemma {:induction false} PortStep(ssl: bool, m: Line, u: string, k: nat)
    requires 0 < k < |u| && AllDigits(u[1..]) && Value(u[1..]) <= 65535
    ensures StepsTo(ssl, InPorted(m, u[..k]), u[k], InPorted(m, u[..k] + [u[k]]))
  {
    var d := u[1..];
    var v := u[..k] + [u[k]];
    ValueGrows(d, k);
    assert v[1..] == d[..k] && u[..k][1..] == d[..k - 1] && d[..k][..k - 1] == d[..k - 1] && d[k - 1] == u[k];
  }

  lemma {:induction false} PortedSteps(ssl: bool, m: Line, u: string)
    requires m.at == InHost || m.at == LiteralEnd
    requires |u| > 1 && u[0] == ':' && AllDigits(u[1..]) && Value(u[1..]) <= 65535
    ensures Steps(ssl, m, u, v => InPorted(m, v))
  {
    forall k | 0 < k < |u|
      ensures StepsTo(ssl, InPorted(m, u[..k]), u[k], InPorted(m, u[..k] + [u[k]]))
    {
      PortStep(ssl, m, u, k);
    }
    PortStart(ssl, m, u[0]);
  }

  lemma {:induction false} ReadPortedPart(ssl: bool, l: Line, m: Line, inside: string -> Line)
    requires Short(l) && Known(ssl, l, 8, m) && Port(l) && Steps(ssl, m, l.ported, inside)
    requires inside(l.ported) == InPorted(m, l.ported)
    ensures Known(ssl, l, 9, m.(at := InPort, ported := l.ported, port := l.port))
  {
    ReadPart(ssl, l, 8, m, l.ported, inside);
    assert InPorted(m, l.ported) == m.(at := InPort, ported := l.ported, port := l.port);
  }

  lemma {:induction false} ReadPorted(ssl: bool, l: Line, m: Line)
    requires Short(l) && Known(ssl, l, 8, m) && m.ported == "" && m.port == DefaultPort(l)
    requires l.ported == "" || Port(l)
    requires m.at == if l.open == "" then InHost else LiteralEnd
    ensures Known(ssl, l, 9, if l.ported == "" then m else m.(at := InPort, ported := l.ported, port := l.port))
  {
    if l.ported == "" {
      Skip(ssl, l, 8, m);
    } else {
      PortedSteps(ssl, m, l.ported);
      ReadPortedPart(ssl, l, m, v => InPorted(m, v));
    }
  }

  lemma {:induction false} PortStart(ssl: bool, m: Line, c: char)
    requires (m.at == InHost || m.at == LiteralEnd) && c == ':'
    ensures StepsTo(ssl, m, c, InPorted(m, [c]))
  {
    assert [c][1..] == "";
  }

  // ---------------------------------------------------------------- the path and what follows it

  lemma {:induction false} PathSteps(ssl: bool, m: Line, u: string)
    requires m.at == AfterMethod || m.at == InHost || m.at == LiteralEnd || (m.at == InPort && m.port > 0)
    requires PathPart(u)
    ensures Steps(ssl, m, u, v => m.(at := InPath, path := v))
  {
  }

  lemma {:induction false} ReadPath(ssl: bool, l: Line, m: Line)
    requires Readable(ssl, l) && Known(ssl, l, 9, m)
    requires m.at == AfterMethod || m.at == InHost || m.at == LiteralEnd || (m.at == InPort && m.port > 0)
    ensures Known(ssl, l, 10, if l.path == "" then m else m.(at := InPath, path := l.path))
  {
    if l.path == "" {
      Skip(ssl, l, 9, m);
    } else {
      PathSteps(ssl, m, l.path);
      ReadPart(ssl, l, 9, m, l.path, v => m.(at := InPath, path := v));
    }
  }

  lemma {:induction false} QueryStep(ssl: bool, m: Line, u: string, k: nat)
    requires QueryPart(u, '?') && 0 < k < |u|
    ensures StepsTo(ssl, m.(at := InQuery, query := u[..k]), u[k], m.(at := InQuery, query := u[..k] + [u[k]]))
  {
  }

  lemma {:induction false} ReadQuery(ssl: bool, l: Line, m: Line)
    requires Readable(ssl, l) && Known(ssl, l, 10, m) && (l.query == "" || m.at == InPath)
    ensures Known(ssl, l, 11, if l.query == "" then m else m.(at := InQuery, query := l.query))
  {
    if l.query == "" {
      Skip(ssl, l, 10, m);
    } else {
      var u := l.query;
      forall k | 0 < k < |u|
        ensures StepsTo(ssl, m.(at := InQuery, query := u[..k]), u[k], m.(at := InQuery, query := u[..k] + [u[k]]))
      {
        QueryStep(ssl, m, u, k);
      }
      ReadPart(ssl, l, 10, m, l.query, v => m.(at := InQuery, query := v));
    }
  }

  lemma {:induction false} FragmentSteps(ssl: bool, m: Line, u: string)
    requires QueryPart(u, '#') && (m.at == InPath || m.at == InQuery)
    ensures Steps(ssl, m, u, v => m.(at := InFragment, fragment := v))
  {
  }

  lemma {:induction false} ReadFragment(ssl: bool, l: Line, m: Line)
    requires Readable(ssl, l) && Known(ssl, l, 11, m) && (l.fragment == "" || m.at == InPath || m.at == InQuery)
    ensures Known(ssl, l, 12, if l.fragment == "" then m else m.(at := InFragment, fragment := l.fragment))
  {
    if l.fragment == "" {
      Skip(ssl, l, 11, m);
    } else {
      FragmentSteps(ssl, m, l.fragment);
      ReadPart(ssl, l, 11, m, l.fragment, v => m.(at := InFragment, fragment := v));
    }
  }

  // The address may end here.
  predicate MayEnd(m: Line) {
    match m.at
    case InHost => true
    case LiteralEnd => true
    case InPort => m.port > 0
    case InPath => true
    case InQuery => true
    case InFragment => true
    case _ => false
  }

  lemma {:induction false} Ends(ssl: bool, m: Line, c: char)
    requires MayEnd(m) && EndsTarget(c)
    ensures Step(ssl, m, c) == EndTarget(m, c)
  {
  }

  lemma {:induction false} SpaceSteps(ssl: bool, m: Line, u: string)
    requires MayEnd(m) && m.version == Http09 && SpacePart(u)
    ensures Steps(ssl, m, u, v => m.(at := AfterUrl, space := v))
  {
    Ends(ssl, m, u[0]);
  }

  lemma {:induction false} ReadSpace(ssl: bool, l: Line, m: Line)
    requires Readable(ssl, l) && Known(ssl, l, 12, m) && MayEnd(m) && m.version == Http09
    ensures Known(ssl, l, 13, if l.space == "" then m else m.(at := AfterUrl, space := l.space))
  {
    if l.space == "" {
      Skip(ssl, l, 12, m);
    } else {
      SpaceSteps(ssl, m, l.space);
      ReadPart(ssl, l, 12, m, l.space, v => m.(at := AfterUrl, space := v));
    }
  }

  function InProtocol(m: Line, v: string): Line {
    m.(at := if |v| <= 7 then InVersion(|v|) else AfterVersion, protocol := v,
       version := if |v| <= 7 then m.version else if v[7] == '1' then Http11 else Http10)
  }

  lemma {:induction false} ProtocolStep(ssl: bool, m: Line, u: string, k: nat)
    requires ProtocolPart(u) && 0 < k < |u|
    ensures StepsTo(ssl, InProtocol(m, u[..k]), u[k], InProtocol(m, u[..k] + [u[k]]))
  {
  }

  lemma {:induction false} ProtocolSteps(ssl: bool, m: Line, u: string)
    requires m.at == AfterUrl && m.protocol == "" && ProtocolPart(u)
    ensures Steps(ssl, m, u, v => InProtocol(m, v))
  {
    forall k | 0 < k < |u|
      ensures StepsTo(ssl, InProtocol(m, u[..k]), u[k], InProtocol(m, u[..k] + [u[k]]))
    {
      ProtocolStep(ssl, m, u, k);
    }
  }

  lemma {:induction false} ReadProtocol(ssl: bool, l: Line, m: Line)
    requires Short(l) && Known(ssl, l, 13, m) && (l.protocol == "" || (ProtocolPart(l.protocol) && m.at == AfterUrl))
    requires m.protocol == ""
    ensures Known(ssl, l, 14, if l.protocol == "" then m else InProtocol(m, l.protocol))
  {
    if l.protocol == "" {
      Skip(ssl, l, 13, m);
    } else {
      ProtocolSteps(ssl, m, l.protocol);
      ReadPart(ssl, l, 13, m, l.protocol, v => InProtocol(m, v));
    }
  }

  // ---------------------------------------------------------------- the end of the line

  // All but the last character of the ending, if there is a protocol, or there is not.
  function InEnding(m: Line, v: string): Line {
    m.(at := if v != "" && v[|v| - 1] == '\r' then LastReturn else m.at, ending := v)
  }

  // What is known before the line ends.
  predicate Closing(l: Line, m: Line) {
    && Rest(l) && l.ending != "" && m.ending == "" && m.version == l.version
    && if l.protocol != "" then m.at == AfterVersion else if l.space != "" then m.at == AfterUrl else MayEnd(m)
  }

  lemma {:induction false} EndingTrace(ssl: bool, l: Line, m: Line, k: nat)
    requires Closing(l, m) && k < |l.ending| - 1
    ensures StepsTo(ssl, InEnding(m, l.ending[..k]), l.ending[k], InEnding(m, l.ending[..k] + [l.ending[k]]))
  {
    if l.protocol != "" {
      PaddedChar(l.ending, k);
      PaddedStep(ssl, l, m, k);
    } else if l.space == "" {
      Ends(ssl, m, l.ending[0]);
    }
  }

  // Before the last character, there are blanks and perhaps a carriage return.
  lemma {:induction false} PaddedChar(e: string, k: nat)
    requires PaddedEnd(e) && k < |e| - 1
    ensures IsBlank(e[k]) || (e[k] == '\r' && k == |e| - 2)
    ensures k > 0 ==> IsBlank(e[k - 1])
  {
    var n :| 0 <= n <= |e| && Blanks(e[..n]) && LineEnd(e[n..]);
    assert k < n ==> e[k] == e[..n][k];
    assert k >= n ==> e[k] == e[n..][k - n];
    assert 0 < k <= n ==> e[k - 1] == e[..n][k - 1];
  }

  lemma {:induction false} PaddedStep(ssl: bool, l: Line, m: Line, k: nat)
    requires Closing(l, m) && k < |l.ending| - 1 && l.protocol != ""
    requires IsBlank(l.ending[k]) || (l.ending[k] == '\r' && k == |l.ending| - 2)
    requires k > 0 ==> IsBlank(l.ending[k - 1])
    ensures StepsTo(ssl, InEnding(m, l.ending[..k]), l.ending[k], InEnding(m, l.ending[..k] + [l.ending[k]]))
  {
  }

  lemma {:induction false} PaddedLast(e: string)
    requires PaddedEnd(e)
    ensures e != "" && e[|e| - 1] == '\n' && (|e| > 1 ==> IsBlank(e[|e| - 2]) || e[|e| - 2] == '\r')
  {
    var n := |e| - 1;
    var k :| 0 <= k <= |e| && Blanks(e[..k]) && LineEnd(e[k..]);
    assert e[n] == e[k..][n - k];
    assert k < n ==> e[n - 1] == e[k..][n - 1 - k];
    assert 0 < k == n ==> e[n - 1] == e[..k][n - 1];
  }

  lemma {:induction false} LastStep(ssl: bool, l: Line, m: Line)
    requires Closing(l, m)
    ensures var e := l.ending;
            Step(ssl, InEnding(m, e[..|e| - 1]), e[|e| - 1]) == More(m.(at := Finished, ending := e))
  {
    if l.protocol != "" {
      PaddedLast(l.ending);
      LastOfPadded(ssl, m, l.ending);
    } else if l.space != "" {
      LastOfSpaced(ssl, m, l.ending);
    } else {
      LastOfPlain(ssl, m, l.ending);
    }
  }

  lemma {:induction false} LastOfSpaced(ssl: bool, m: Line, e: string)
    requires m.at == AfterUrl && m.ending == "" && m.version == Http09 && e == "\n"
    ensures Step(ssl, InEnding(m, e[..|e| - 1]), e[|e| - 1]) == More(m.(at := Finished, ending := e))
  {
    assert InEnding(m, e[..|e| - 1]) == m && e == ['\n'];
  }

  lemma {:induction false} LastOfPlain(ssl: bool, m: Line, e: string)
    requires MayEnd(m) && m.ending == "" && m.version == Http09 && LineEnd(e)
    ensures Step(ssl, InEnding(m, e[..|e| - 1]), e[|e| - 1]) == More(m.(at := Finished, ending := e))
  {
    assert e[..|e| - 1] + [e[|e| - 1]] == e;
    if e == "\n" {
      Ends(ssl, m, '\n');
      assert InEnding(m, e[..|e| - 1]) == m;
    } else {
      assert InEnding(m, e[..|e| - 1]) == m.(at := LastReturn, ending := e[..1]);
    }
  }

  lemma {:induction false} LastOfPadded(ssl: bool, m: Line, e: string)
    requires m.at == AfterVersion && m.ending == ""
    requires e != "" && e[|e| - 1] == '\n' && (|e| > 1 ==> IsBlank(e[|e| - 2]) || e[|e| - 2] == '\r')
    ensures Step(ssl, InEnding(m, e[..|e| - 1]), e[|e| - 1]) == More(m.(at := Finished, ending := e))
  {
    assert e[..|e| - 1] + [e[|e| - 1]] == e;
  }

  lemma {:induction false} LastRead(ssl: bool, l: Line, size: nat, c: char, l': Line)
    requires Step(ssl, l, c) == More(l') && l'.at.Finished?
    ensures ReadLine(ssl, l, size, [c]) == Complete(l', size + 1)
  {
  }

  lemma {:induction false} GoOn(ssl: bool, s: string, m: Line, t: string)
    requires ReadLine(ssl, FRESH, 0, s) == Going(m)
    ensures ReadLine(ssl, FRESH, 0, s + t) == ReadLine(ssl, m, |s|, t)
  {
    ReadLineSplit(ssl, FRESH, 0, s, t);
  }

  lemma {:induction false} Finish(ssl: bool, s: string, m: Line, u: string, m': Line, c: char, l': Line)
    requires ReadLine(ssl, FRESH, 0, s) == Going(m) && ReadLine(ssl, m, |s|, u) == Going(m')
    requires ReadLine(ssl, m', |s| + |u|, [c]) == Complete(l', |s| + |u| + 1)
    ensures ReadLine(ssl, FRESH, 0, s + u + [c]) == Complete(l', |s| + |u| + 1)
  {
    GoOn(ssl, s, m, u);
    GoOn(ssl, s + u, m', [c]);
  }

  lemma {:induction false} AllButLast(l: Line)
    requires l.ending != ""
    ensures var s, e := Concat(l.Parts()[..14]), l.ending;
            s + e[..|e| - 1] + [e[|e| - 1]] == l.Whole() && |s| + |e| == |l.Whole()|
  {
    var parts, e := l.Parts(), l.ending;
    ConcatNext(parts, 14);
    assert parts[..15] == parts && e == e[..|e| - 1] + [e[|e| - 1]];
  }

  // The last part, and with it the line.
  lemma {:induction false} ReadEnding(ssl: bool, l: Line, m: Line)
    requires |l.Whole()| <= LINE_MAX_LEN + 1 && Known(ssl, l, 14, m) && Closing(l, m)
    ensures ReadLine(ssl, FRESH, 0, l.Whole()) == Complete(m.(at := Finished, ending := l.ending), |l.Whole()|)
  {
    var s, e := Concat(l.Parts()[..14]), l.ending;
    AllButLast(l);
    EndingSteps(ssl, l, m);
    LastStep(ssl, l, m);
    EndingRead(ssl, s, m, e[..|e| - 1], e[|e| - 1], m.(at := Finished, ending := e));
  }

  lemma {:induction false} EndingRead(ssl: bool, s: string, m: Line, u: string, c: char, l': Line)
    requires ReadLine(ssl, FRESH, 0, s) == Going(m) && m.ending == "" && |s| + |u| <= LINE_MAX_LEN
    requires forall k :: 0 <= k < |u| ==> StepsTo(ssl, InEnding(m, u[..k]), u[k], InEnding(m, u[..k] + [u[k]]))
    requires Step(ssl, InEnding(m, u), c) == More(l') && l'.at.Finished?
    ensures ReadLine(ssl, FRESH, 0, s + u + [c]) == Complete(l', |s| + |u| + 1)
  {
    EndingRun(ssl, m, u, |s|);
    LastRead(ssl, InEnding(m, u), |s| + |u|, c, l');
    Finish(ssl, s, m, u, InEnding(m, u), c, l');
  }

  lemma {:induction false} EndingSteps(ssl: bool, l: Line, m: Line)
    requires Closing(l, m)
    ensures var u := l.ending[..|l.ending| - 1];
            forall k :: 0 <= k < |u| ==> StepsTo(ssl, InEnding(m, u[..k]), u[k], InEnding(m, u[..k] + [u[k]]))
  {
    var u := l.ending[..|l.ending| - 1];
    forall k | 0 <= k < |u|
      ensures StepsTo(ssl, InEnding(m, u[..k]), u[k], InEnding(m, u[..k] + [u[k]]))
    {
      EndingTrace(ssl, l, m, k);
      assert u[..k] == l.ending[..k];
    }
  }

  lemma {:induction false} EndingRun(ssl: bool, m: Line, u: string, size: nat)
    requires m.ending == "" && size + |u| <= LINE_MAX_LEN
    requires forall k :: 0 <= k < |u| ==> StepsTo(ssl, InEnding(m, u[..k]), u[k], InEnding(m, u[..k] + [u[k]]))
    ensures ReadLine(ssl, m, size, u) == Going(InEnding(m, u))
  {
    EndingStates(ssl, m, u);
    Run(ssl, States(m, u, v => InEnding(m, v)), size, u);
  }

  lemma {:induction false} EndingStates(ssl: bool, m: Line, u: string)
    requires m.ending == ""
    requires forall k :: 0 <= k < |u| ==> StepsTo(ssl, InEnding(m, u[..k]), u[k], InEnding(m, u[..k] + [u[k]]))
    ensures Trace(ssl, States(m, u, v => InEnding(m, v)), u) && States(m, u, v => InEnding(m, v))[0] == m
    ensures States(m, u, v => InEnding(m, v))[|u|] == InEnding(m, u)
  {
    if u != "" {
      assert u[..0] + [u[0]] == [u[0]];
    }
    StatesTrace(ssl, m, u, v => InEnding(m, v));
    assert u[..|u|] == u;
  }

  // ---------------------------------------------------------------- the whole line

  function HeadOf(l: Line): Line {
    FRESH.(at := AfterMethod, lead := l.lead, verb := l.verb, gap := l.gap)
  }

  lemma {:induction false} ReadHead(ssl: bool, l: Line)
    requires Readable(ssl, l)
    ensures Known(ssl, l, 3, HeadOf(l))
  {
    var m := FRESH.(lead := l.lead);
    ReadLead(ssl, l);
    ReadVerb(ssl, l, m);
    ReadGap(ssl, l, m.(at := InMethod, verb := l.verb));
  }

  // Where the authority ends.
  function AuthorityEnd(l: Line): Phase {
    if l.ported != "" then InPort else if l.open != "" then LiteralEnd else InHost
  }

  function OriginOf(l: Line): Line {
    HeadOf(l).(at := if l.scheme == "" then AfterMethod else AuthorityEnd(l),
               scheme := l.scheme, mark := l.mark, open := l.open, host := l.host, close := l.close, ported := l.ported,
               port := l.port, https := l.https)
  }

  lemma {:induction false} ReadNoAuthority(ssl: bool, l: Line)
    requires Readable(ssl, l) && NoAuthority(l)
    ensures Known(ssl, l, 9, OriginOf(l))
  {
    var m := HeadOf(l);
    ReadHead(ssl, l);
    Skip(ssl, l, 3, m);
    Skip(ssl, l, 4, m);
    Skip(ssl, l, 5, m);
    Skip(ssl, l, 6, m);
    Skip(ssl, l, 7, m);
    Skip(ssl, l, 8, m);
  }

  lemma {:induction false} ReadAuthority(ssl: bool, l: Line)
    requires Readable(ssl, l) && Authority(ssl, l)
    ensures Known(ssl, l, 9, OriginOf(l))
  {
    SchemeChars(l.scheme);
    ReadHead(ssl, l);
    var m3 := HeadOf(l);
    ReadScheme(ssl, l, m3);
    var m4 := m3.(at := InScheme, scheme := l.scheme);
    ReadMark(ssl, l, m4);
    var m5 := InMark(m4, l, "://");
    ReadOpen(ssl, l, m5);
    var m6 := if l.open == "" then m5 else m5.(at := LiteralStart, open := "[");
    ReadHost(ssl, l, m6);
    ReadOriginEnd(ssl, l, m6.(at := if l.open == "" then InHost else InLiteral, host := l.host));
  }

  lemma {:induction false} ReadOriginEnd(ssl: bool, l: Line, m: Line)
    requires Readable(ssl, l) && Authority(ssl, l) && Known(ssl, l, 7, m) && l.scheme != ""
    requires m == HeadOf(l).(at := if l.open == "" then InHost else InLiteral, scheme := l.scheme, mark := l.mark,
                             open := l.open, host := l.host, port := DefaultPort(l), https := l.https)
    ensures Known(ssl, l, 9, OriginOf(l))
  {
    ReadClose(ssl, l, m);
    ReadPorted(ssl, l, if l.open == "" then m else m.(at := LiteralEnd, close := "]"));
  }

  // Where the address ends.
  function TargetOf(l: Line): Line {
    var m := OriginOf(l);
    m.(at := if l.fragment != "" then InFragment
             else if l.query != "" then InQuery
             else if l.path != "" then InPath
             else m.at,
       path := l.path, query := l.query, fragment := l.fragment)
  }

  lemma {:induction false} ReadTarget(ssl: bool, l: Line)
    requires Readable(ssl, l)
    ensures Known(ssl, l, 12, TargetOf(l)) && MayEnd(TargetOf(l))
  {
    var m := OriginOf(l);
    OriginEnds(ssl, l);
    ReadPath(ssl, l, m);
    var m' := if l.path == "" then m else m.(at := InPath, path := l.path);
    ReadQuery(ssl, l, m');
    ReadFragment(ssl, l, if l.query == "" then m' else m'.(at := InQuery, query := l.query));
  }

  lemma {:induction false} OriginEnds(ssl: bool, l: Line)
    requires Readable(ssl, l)
    ensures Known(ssl, l, 9, OriginOf(l))
    ensures if l.scheme == "" then l.path != "" else MayEnd(OriginOf(l))
  {
    if Authority(ssl, l) {
      SchemeChars(l.scheme);
      ReadAuthority(ssl, l);
    } else {
      ReadNoAuthority(ssl, l);
    }
  }

  /** Every line of the grammar that is not too long is read to its end, and its parts are found. */
  lemma {:induction false} WrittenRead(ssl: bool, l: Line)
    requires WellFormed(ssl, l) && |l.Whole()| <= LINE_MAX_LEN + 1
    ensures ReadLine(ssl, FRESH, 0, l.Whole()) == Complete(l, |l.Whole()|)
  {
    var m := TargetOf(l);
    EndingSome(l);
    ReadTarget(ssl, l);
    ReadSpace(ssl, l, m);
    var m' := if l.space == "" then m else m.(at := AfterUrl, space := l.space);
    ReadProtocol(ssl, l, m');
    var m'' := if l.protocol == "" then m' else InProtocol(m', l.protocol);
    ReadEnding(ssl, l, m'');
    assert m''.(at := Finished, ending := l.ending) == l;
  }

  lemma {:induction false} EndingSome(l: Line)
    requires Rest(l)
    ensures l.ending != ""
  {
    if l.protocol != "" {
      PaddedLast(l.ending);
    }
  }

  lemma {:induction false} CompleteSize(ssl: bool, l: Line, size: nat, s: string)
    requires size <= LINE_MAX_LEN
    ensures var o := ReadLine(ssl, l, size, s); o.Complete? ==> size < o.size <= LINE_MAX_LEN + 1
    decreases |s|, 1
  {
    if s != "" {
      CountedSize(ssl, Step(ssl, l, s[0]), l, size, s[1..]);
    }
  }

  lemma {:induction false} CountedSize(ssl: bool, turn: Turn, l: Line, size: nat, s: string)
    requires size <= LINE_MAX_LEN
    ensures var o := ReadOn(ssl, Counted(turn, l, size), size + 1, s); o.Complete? ==> size < o.size <= LINE_MAX_LEN + 1
    decreases |s|, 2
  {
    if Counted(turn, l, size).Going? {
      CompleteSize(ssl, turn.line, size + 1, s);
    }
  }

  lemma {:induction false} CompleteKept(ssl: bool, l: Line, s: string)
    requires Keeps(ssl, Complete(l, |s|), "", 0, s)
    ensures WellFormed(ssl, l) && s == l.Whole()
  {
    FinishedShape(ssl, l);
    assert "" + s[..|s|] == s;
  }

  lemma {:induction false} ReadWritten(ssl: bool, s: string, l: Line)
    requires ReadLine(ssl, FRESH, 0, s) == Complete(l, |s|)
    ensures WellFormed(ssl, l) && s == l.Whole() && |s| <= LINE_MAX_LEN + 1
  {
    UnreadKeeps(ssl, FRESH, s);
    CompleteKept(ssl, l, s);
    CompleteSize(ssl, FRESH, 0, s);
  }

  /** The lines that are accepted are those of the grammar, and they are taken apart as the grammar says. */
  lemma {:induction false} LineExact(ssl: bool, s: string, l: Line)
    ensures ReadLine(ssl, FRESH, 0, s) == Complete(l, |s|) <==>
              WellFormed(ssl, l) && s == l.Whole() && |s| <= LINE_MAX_LEN + 1
  {
    if ReadLine(ssl, FRESH, 0, s) == Complete(l, |s|) {
      ReadWritten(ssl, s, l);
    }
    if WellFormed(ssl, l) && s == l.Whole() && |s| <= LINE_MAX_LEN + 1 {
      WrittenRead(ssl, l);
    }
  }

  const RETURNS := " \r\r"

  // GET / HTTP/1.1, with this before the protocol.
  function GetLine(space: string): Line {
    FRESH.(at := Finished, verb := "GET", gap := " ", path := "/", space := space, protocol := "HTTP/1.1",
      ending := "\r\n", version := Http11)
  }

  function GetText(space: string): string {
    "GET" + " " + "/" + space + "HTTP/1.1" + "\r\n"
  }

  lemma {:induction false} ConcatPast(parts: seq<string>, i: nat, j: nat)
    requires i <= j <= |parts| && forall k :: i <= k < j ==> parts[k] == ""
    ensures Concat(parts[..j]) == Concat(parts[..i])
  {
    if i < j {
      ConcatNext(parts, j - 1);
      ConcatPast(parts, i, j - 1);
      assert Concat(parts[..j - 1]) + "" == Concat(parts[..j - 1]);
    }
  }

  // Only these parts are there.
  lemma {:induction false} WholeOf(p: seq<string>, verb: string, gap: string, path: string, space: string,
                                   protocol: string, ending: string)
    requires p == ["", verb, gap, "", "", "", "", "", "", path, "", "", space, protocol, ending]
    ensures Concat(p) == verb + gap + path + space + protocol + ending
  {
    FirstOf(p, verb, gap, path);
    ConcatPast(p, 10, 12);
    ConcatNext(p, 12);
    ConcatNext(p, 13);
    ConcatNext(p, 14);
    assert p[..15] == p;
  }

  lemma {:induction false} FirstOf(p: seq<string>, verb: string, gap: string, path: string)
    requires |p| == 15 && p[0] == "" && p[1] == verb && p[2] == gap && p[9] == path
    requires forall k :: 3 <= k < 9 ==> p[k] == ""
    ensures Concat(p[..10]) == verb + gap + path
  {
    ConcatPast(p, 0, 1);
    ConcatNext(p, 1);
    ConcatNext(p, 2);
    ConcatPast(p, 3, 9);
    ConcatNext(p, 9);
    assert p[..0] == [] && "" + verb == verb;
  }

  lemma {:induction false} GetWhole(l: Line, space: string)
    requires l == GetLine(space)
    ensures l.Whole() == GetText(space)
  {
    WholeOf(l.Parts(), l.verb, l.gap, l.path, l.space, l.protocol, l.ending);
  }

  lemma {:induction false} GetFormed(ssl: bool, space: string)
    requires SpacePart(space)
    ensures WellFormed(ssl, GetLine(space))
  {
    var e := "\r\n";
    assert e[..0] == "" && e[0..] == e;
    assert PaddedEnd(e);
    GetProtocol("HTTP/1.1");
  }

  lemma {:induction false} GetProtocol(s: string)
    requires s == "HTTP/1.1"
    ensures ProtocolPart(s) && s[7] == '1'
  {
  }

  /** The line `GET / ` with two carriage returns before the protocol is accepted. */
  lemma {:induction false} ReturnsRead(ssl: bool)
    ensures var s := GetText(RETURNS); ReadLine(ssl, FRESH, 0, s) == Complete(GetLine(RETURNS), |s|)
  {
    GetFormed(ssl, RETURNS);
    GetWhole(GetLine(RETURNS), RETURNS);
    WrittenRead(ssl, GetLine(RETURNS));
  }
}
