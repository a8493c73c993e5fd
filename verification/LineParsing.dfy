/**
 The request-line parser of net/internet/http/connection.cpp with its offsets into the input buffer.
 */
module LineParsing {
  import opened CaseOrder
  import opened LineGrammar
  import opened Number
  import opened RequestLine
  import opened Text
  import opened Wrappers

  // The fields of connection that parse_request_line keeps; `size` is _M_inp.
  datatype Offsets = Offsets(
    at: Phase, size: nat, token: nat, url: nat, urllen: nat, host: nat, hostlen: nat, port: nat, pathlen: nat,
    query: nat, querylen: nat, fragment: nat, fragmentlen: nat, verb: string, https: bool, version: Version)

  const UNSET := Offsets(BeforeMethod, 0, 0, 0, 0, 0, 0, 0, 0, 0, 0, 0, 0, "", false, Http09)

  // ---------------------------------------------------------------- the offsets and the parts

  // From `i` on there are the n characters of the text, before the end.
  predicate Holds(b: string, i: nat, n: nat, text: string, end: nat) {
    n == |text| && (text != "" ==> i + n <= end <= |b| && b[i..i + n] == text)
  }

  // The text is being read.
  predicate Reads(b: string, i: nat, text: string, end: nat) {
    i <= end <= |b| && b[i..end] == text
  }

  predicate MethodModels(b: string, st: Offsets, l: Line) {
    (l.at.InMethod? ==> Reads(b, st.token, l.verb, st.size)) && (Rank(l.at) >= 2 ==> st.verb == l.verb)
  }

  predicate UrlModels(b: string, st: Offsets, l: Line) {
    && (l.at.InScheme? ==> Reads(b, st.url, l.scheme, st.size))
    && (3 <= Rank(l.at) <= 11 ==> Reads(b, st.url, l.Target(), st.size))
    && (12 <= Rank(l.at) ==> Holds(b, st.url, st.urllen, l.Target(), st.size))
  }

  predicate HostModels(b: string, st: Offsets, l: Line) {
    && (Rank(l.at) >= 6 ==> Holds(b, st.host, st.hostlen, l.host, st.size))
    && (Rank(l.at) == 6 ==> Reads(b, st.host, l.host, st.size))
    && (Rank(l.at) >= 4 && l.scheme != "" ==> st.port == l.port && st.https == l.https)
  }

  predicate PathModels(b: string, st: Offsets, l: Line) {
    && (l.at.InPath? ==> Reads(b, st.token, l.path, st.size))
    && (Rank(l.at) > 9 ==> Holds(b, st.token, st.pathlen, l.path, st.size))
  }

  predicate QueryModels(b: string, st: Offsets, l: Line) {
    && (l.at.InQuery? ==> Reads(b, st.query, l.query, st.size))
    && (Rank(l.at) > 10 ==> Holds(b, st.query, st.querylen, l.query, st.size))
    && (l.at.InFragment? ==> Reads(b, st.fragment, l.fragment, st.size))
    && (Rank(l.at) > 11 ==> Holds(b, st.fragment, st.fragmentlen, l.fragment, st.size))
  }

  // The offsets say of the line what its parts say with text.
  ghost predicate Models(b: string, st: Offsets, l: Line) {
    && st.size <= |b| && st.at == l.at && st.version == l.version && Ahead(l)
    && MethodModels(b, st, l) && UrlModels(b, st, l) && HostModels(b, st, l)
    && PathModels(b, st, l) && QueryModels(b, st, l)
  }

  lemma {:induction false} ReadsMore(b: string, i: nat, text: string, end: nat)
    requires Reads(b, i, text, end) && end < |b|
    ensures Reads(b, i, text + [b[end]], end + 1)
  {
  }

  lemma {:induction false} ReadsFirst(b: string, i: nat)
    requires i < |b|
    ensures Reads(b, i, [b[i]], i + 1)
  {
  }

  lemma {:induction false} ReadsHeld(b: string, i: nat, text: string, end: nat)
    requires Reads(b, i, text, end)
    ensures Holds(b, i, end - i, text, end)
  {
  }

  lemma {:induction false} HoldsMore(b: string, t: string, i: nat, n: nat, text: string, end: nat)
    requires Holds(b, i, n, text, end)
    ensures Holds(b + t, i, n, text, end)
  {
    if text != "" {
      assert (b + t)[i..i + n] == b[i..i + n];
    }
  }

  lemma {:induction false} ReadsOn(b: string, t: string, i: nat, text: string, end: nat)
    requires Reads(b, i, text, end)
    ensures Reads(b + t, i, text, end)
  {
    assert (b + t)[i..end] == b[i..end];
  }

  // More has arrived.
  lemma {:induction false} ModelsMore(b: string, t: string, st: Offsets, l: Line)
    requires Models(b, st, l)
    ensures Models(b + t, st, l)
  {
    UrlMore(b, t, st, l);
    HostMore(b, t, st, l);
    PathMore(b, t, st, l);
    QueryMore(b, t, st, l);
    if l.at.InMethod? {
      ReadsOn(b, t, st.token, l.verb, st.size);
    }
  }

  lemma {:induction false} UrlMore(b: string, t: string, st: Offsets, l: Line)
    requires UrlModels(b, st, l)
    ensures UrlModels(b + t, st, l)
  {
    if l.at.InScheme? {
      ReadsOn(b, t, st.url, l.scheme, st.size);
    }
    if 3 <= Rank(l.at) <= 11 {
      ReadsOn(b, t, st.url, l.Target(), st.size);
    } else if 12 <= Rank(l.at) {
      HoldsMore(b, t, st.url, st.urllen, l.Target(), st.size);
    }
  }

  lemma {:induction false} HostMore(b: string, t: string, st: Offsets, l: Line)
    requires HostModels(b, st, l)
    ensures HostModels(b + t, st, l)
  {
    if Rank(l.at) >= 6 {
      HoldsMore(b, t, st.host, st.hostlen, l.host, st.size);
    }
    if Rank(l.at) == 6 {
      ReadsOn(b, t, st.host, l.host, st.size);
    }
  }

  lemma {:induction false} PathMore(b: string, t: string, st: Offsets, l: Line)
    requires PathModels(b, st, l)
    ensures PathModels(b + t, st, l)
  {
    if l.at.InPath? {
      ReadsOn(b, t, st.token, l.path, st.size);
    } else if Rank(l.at) > 9 {
      HoldsMore(b, t, st.token, st.pathlen, l.path, st.size);
    }
  }

  lemma {:induction false} QueryMore(b: string, t: string, st: Offsets, l: Line)
    requires QueryModels(b, st, l)
    ensures QueryModels(b + t, st, l)
  {
    if l.at.InQuery? {
      ReadsOn(b, t, st.query, l.query, st.size);
    } else if Rank(l.at) > 10 {
      HoldsMore(b, t, st.query, st.querylen, l.query, st.size);
    }
    if l.at.InFragment? {
      ReadsOn(b, t, st.fragment, l.fragment, st.size);
    } else if Rank(l.at) > 11 {
      HoldsMore(b, t, st.fragment, st.fragmentlen, l.fragment, st.size);
    }
  }

  // What the switch on one character must do; counting the character comes after it.
  ghost predicate Switched(ssl: bool, b: string, l: Line, size: nat, c: char, failure: Option<Failure>, st: Offsets) {
    Turned(b, l, size, Step(ssl, l, c), failure, st)
  }

  ghost predicate Turned(b: string, l: Line, size: nat, turn: Turn, failure: Option<Failure>, st: Offsets) {
    st.size == size &&
    match turn
    case Rejected(f) => failure == Some(f) && st.version == l.version
    case More(l') => failure == None && Models(b, st.(size := size + 1), l')
  }

  // The part that the character goes into.
  lemma {:induction false} TargetGrows(ssl: bool, b: string, st: Offsets, l: Line, l': Line)
    requires Models(b, st, l) && st.size < |b| && Step(ssl, l, b[st.size]) == More(l') && 3 <= Rank(l.at)
    ensures Ahead(l') && (Rank(l'.at) <= 11 ==> Reads(b, st.url, l'.Target(), st.size + 1))
    ensures Rank(l.at) <= 11 && 12 <= Rank(l'.at) ==> Holds(b, st.url, st.size - st.url, l'.Target(), st.size)
    ensures 12 <= Rank(l.at) ==> l'.Target() == l.Target()
  {
    var c := b[st.size];
    StepGrows(ssl, l, c);
    GrownWhole(l, l', c);
    GrownTarget(l, l', c);
    if Rank(l.at) <= 11 {
      ReadsMore(b, st.url, l.Target(), st.size);
    }
  }

  lemma {:induction false} TargetStarts(ssl: bool, l: Line, l': Line, c: char)
    requires Ahead(l) && Rank(l.at) <= 2 && Step(ssl, l, c) == More(l')
    ensures Ahead(l') && l'.Target() == if Rank(l'.at) <= 2 then "" else [c]
  {
    StepGrows(ssl, l, c);
    EarlyStep(ssl, l, l', c);
    GrownStarts(l, l', c);
  }

  lemma {:induction false} EarlyStep(ssl: bool, l: Line, l': Line, c: char)
    requires Rank(l.at) <= 2 && Step(ssl, l, c) == More(l')
    ensures Place(l, l') == Rank(l'.at) <= 11
  {
  }

  lemma {:induction false} GrownStarts(l: Line, l': Line, c: char)
    requires Ahead(l) && Rank(l.at) <= 2 && Grown(l, l', c) && Place(l, l') == Rank(l'.at) <= 11
    ensures Ahead(l') && l'.Target() == if Rank(l'.at) <= 2 then "" else [c]
  {
    GrownWhole(l, l', c);
    GrownTarget(l, l', c);
    ConcatEmpty(l.Parts()[3..12]);
    if Rank(l'.at) <= 2 {
      ConcatEmpty(l'.Parts()[3..12]);
    } else {
      assert "" + [c] == [c];
    }
  }

  // The lengths of the path, the query and the fragment have been set.
  predicate Lengths(b: string, st0: Offsets, st: Offsets, l: Line) {
    && st == st0.(pathlen := st.pathlen, querylen := st.querylen, fragmentlen := st.fragmentlen)
    && Holds(b, st.token, st.pathlen, l.path, st.size) && Holds(b, st.query, st.querylen, l.query, st.size)
    && Holds(b, st.fragment, st.fragmentlen, l.fragment, st.size)
  }

  lemma {:induction false} EndModels(ssl: bool, b: string, st0: Offsets, st: Offsets, l: Line, c: char, l': Line)
    requires Models(b, st0, l) && st.size < |b| && b[st.size] == c && EndsTarget(c) && 6 <= Rank(l.at) <= 11
    requires Lengths(b, st0, st, l) && Step(ssl, l, c) == EndTarget(l, c) == More(l')
    ensures Models(b, st.(urllen := st.size - st.url, at := l'.at, version := l'.version, size := st.size + 1), l')
  {
    TargetGrows(ssl, b, st0, l, l');
    var st' := st.(urllen := st.size - st.url, at := l'.at, version := l'.version, size := st.size + 1);
    EndParts(b, st0, st, st', l, c, l');
    assert UrlModels(b, st', l');
  }

  lemma {:induction false} EndParts(b: string, st0: Offsets, st: Offsets, st': Offsets, l: Line, c: char, l': Line)
    requires Models(b, st0, l) && st.size < |b| && EndsTarget(c) && 6 <= Rank(l.at) <= 11
    requires Lengths(b, st0, st, l) && EndTarget(l, c) == More(l')
    requires st' == st.(urllen := st'.urllen, at := l'.at, version := l'.version, size := st.size + 1)
    ensures MethodModels(b, st', l') && HostModels(b, st', l') && PathModels(b, st', l') && QueryModels(b, st', l')
    ensures 12 <= Rank(l'.at)
  {
  }

  lemma {:induction false} PathReads(ssl: bool, b: string, st: Offsets, l: Line, l': Line)
    requires Models(b, st, l) && st.size < |b| && l.at.InPath? && !EndsTarget(b[st.size])
    requires StepPath(l, b[st.size]) == More(l')
    ensures l.query == l.fragment == "" && Ahead(l') && Reads(b, st.url, l'.Target(), st.size + 1)
    ensures Holds(b, st.token, st.size - st.token, l.path, st.size)
    ensures Reads(b, st.token, l.path + [b[st.size]], st.size + 1) && Reads(b, st.size, [b[st.size]], st.size + 1)
  {
    PathTarget(ssl, b, st, l, l');
    PathText(b, st, l);
  }

  lemma {:induction false} PathTarget(ssl: bool, b: string, st: Offsets, l: Line, l': Line)
    requires Models(b, st, l) && st.size < |b| && l.at.InPath? && !EndsTarget(b[st.size])
    requires StepPath(l, b[st.size]) == More(l')
    ensures Ahead(l') && Reads(b, st.url, l'.Target(), st.size + 1)
  {
    assert Step(ssl, l, b[st.size]) == StepPath(l, b[st.size]);
    TargetGrows(ssl, b, st, l, l');
  }

  lemma {:induction false} PathText(b: string, st: Offsets, l: Line)
    requires PathModels(b, st, l) && Ahead(l) && st.size < |b| && l.at.InPath?
    ensures l.query == l.fragment == "" && Holds(b, st.token, st.size - st.token, l.path, st.size)
    ensures Reads(b, st.token, l.path + [b[st.size]], st.size + 1) && Reads(b, st.size, [b[st.size]], st.size + 1)
  {
    ReadsHeld(b, st.token, l.path, st.size);
    Unstarted(l);
    ReadsMore(b, st.token, l.path, st.size);
    ReadsFirst(b, st.size);
  }

  lemma {:induction false} QueryReads(ssl: bool, b: string, st: Offsets, l: Line, l': Line)
    requires Models(b, st, l) && st.size < |b| && l.at.InQuery? && !EndsTarget(b[st.size])
    requires StepQuery(l, b[st.size]) == More(l')
    ensures l.fragment == "" && Ahead(l') && Reads(b, st.url, l'.Target(), st.size + 1)
    ensures Holds(b, st.query, st.size - st.query, l.query, st.size)
    ensures Reads(b, st.query, l.query + [b[st.size]], st.size + 1) && Reads(b, st.size, [b[st.size]], st.size + 1)
  {
    ReadsHeld(b, st.query, l.query, st.size);
    Unstarted(l);
    ReadsMore(b, st.query, l.query, st.size);
    ReadsFirst(b, st.size);
    TargetGrows(ssl, b, st, l, l');
  }

  // Only what comes after the address has changed.
  lemma {:induction false} RestModels(b: string, st: Offsets, l: Line, l': Line)
    requires Models(b, st, l) && st.size < |b| && 12 <= Rank(l.at) && 12 <= Rank(l'.at) && Ahead(l')
    requires l' == l.(at := l'.at, space := l'.space, protocol := l'.protocol, ending := l'.ending,
                      version := l'.version)
    requires l'.Target() == l.Target()
    ensures Models(b, st.(size := st.size + 1, at := l'.at, version := l'.version), l')
  {
  }

  lemma {:induction false} TailModels(ssl: bool, b: string, st: Offsets, l: Line, l': Line)
    requires Models(b, st, l) && Regular(l) && st.size < |b| && 12 <= Rank(l.at) &&
             StepTail(l, b[st.size]) == More(l')
    ensures Models(b, st.(size := st.size + 1, at := l'.at, version := l'.version), l')
  {
    assert Step(ssl, l, b[st.size]) == StepTail(l, b[st.size]);
    TargetGrows(ssl, b, st, l, l');
    TailOnly(l, b[st.size], l');
    RestModels(b, st, l, l');
  }

  // What is known besides the offsets.
  predicate Regular(l: Line) {
    && (3 <= Rank(l.at) <= 8 ==> l.scheme != "") && (l.at.InVersion? ==> l.at.matched <= |VERSION|)
    && !l.at.Finished?
  }

  lemma {:induction false} StepRegular(ssl: bool, l: Line, c: char)
    requires Regular(l) && Step(ssl, l, c).More?
    ensures Step(ssl, l, c).line.at.Finished? || Regular(Step(ssl, l, c).line)
  {
    if Rank(l.at) <= 8 {
      EarlyRegular(ssl, l, c);
    } else if Rank(l.at) <= 11 {
      TargetRegular(ssl, l, c);
    }
  }

  lemma {:induction false} TargetRegular(ssl: bool, l: Line, c: char)
    requires 9 <= Rank(l.at) <= 11 && Step(ssl, l, c).More?
    ensures var l' := Step(ssl, l, c).line; 9 <= Rank(l'.at) && !l'.at.InVersion?
  {
    match l.at
    case InPath => assert Step(ssl, l, c) == StepPath(l, c);
    case InQuery => assert Step(ssl, l, c) == StepQuery(l, c);
    case InFragment => assert Step(ssl, l, c) == StepFragment(l, c);
  }

  lemma {:induction false} EarlyRegular(ssl: bool, l: Line, c: char)
    requires Regular(l) && Rank(l.at) <= 8 && Step(ssl, l, c).More?
    ensures Step(ssl, l, c).line.at.Finished? || Regular(Step(ssl, l, c).line)
  {
    if l.at.InScheme? {
      assert Step(ssl, l, c) == StepScheme(ssl, l, c);
    } else if 6 <= Rank(l.at) {
      HostRegular(ssl, l, c);
    }
  }

  lemma {:induction false} HostRegular(ssl: bool, l: Line, c: char)
    requires Regular(l) && 6 <= Rank(l.at) <= 8 && Step(ssl, l, c).More?
    ensures Step(ssl, l, c).line.at.Finished? || Regular(Step(ssl, l, c).line)
  {
  }

  datatype Progress = NotYet | Done | Failed(failure: Failure)

  lemma {:induction false} FreshReady(b: string, st: Offsets, l: Line)
    requires Unread(l) && l.at == st.at && st.size == 0 && st.version == Http09
    ensures Models(b, st, l) && Regular(l)
  {
  }

  class LineParser {
    const ssl: bool
    var st: Offsets
    ghost var line: Line      // what the parser knows of the bytes read so far

    constructor (ssl: bool)
      ensures this.ssl == ssl && st == UNSET && line == FRESH && ReadyFor("")
    {
      this.ssl := ssl;
      st, line := UNSET, FRESH;
      new;
      FreshReady("", st, line);
    }

    // The bytes read are the first ones of b.
    ghost predicate ReadyFor(b: string)
      reads this
    {
      Models(b, st, line) && Regular(line)
    }

    method SwitchHead(b: string, c: char) returns (failure: Option<Failure>)
      requires ReadyFor(b) && st.size < |b| && b[st.size] == c && Rank(st.at) <= 1
      modifies this`st
      ensures Switched(ssl, b, line, old(st).size, c, failure, st)
    {
      failure := None;
      ghost var turn := Step(ssl, line, c);
      if turn.More? {
        TargetStarts(ssl, line, turn.line, c);
      }
      match st.at {
        case BeforeMethod =>
          if 'A' <= c <= 'Z' {
            ReadsFirst(b, st.size);
            st := st.(token := st.size, at := InMethod);
          } else if c == '\r' {
            st := st.(at := LeadingReturn);
          } else if c != '\n' {
            return Some(BadRequest);
          }
        case LeadingReturn =>
          if c != '\n' {
            return Some(BadRequest);
          }
          st := st.(at := BeforeMethod);
        case InMethod =>
          ReadsMore(b, st.token, line.verb, st.size);
          if IsBlank(c) {
            var name := b[st.token..st.size];
            if !KnownMethod(name) {
              return Some(BadRequest);
            }
            st := st.(verb := name, at := AfterMethod);
          } else if 'A' <= c <= 'Z' {
            if st.size - st.token > METHOD_MAX_LEN {
              return Some(BadRequest);
            }
          } else {
            return Some(BadRequest);
          }
      }
    }

    method SwitchAfterMethod(b: string, c: char) returns (failure: Option<Failure>)
      requires ReadyFor(b) && st.size < |b| && b[st.size] == c && st.at == AfterMethod
      modifies this`st
      ensures Switched(ssl, b, line, old(st).size, c, failure, st)
    {
      failure := None;
      if c == '/' || IsAlpha(c) {
        StartTarget(b, c);
      } else if IsBlank(c) {
        TargetStarts(ssl, line, Step(ssl, line, c).line, c);
      } else {
        return Some(BadRequest);
      }
    }

    // The address begins, with the path or with the scheme.
    method StartTarget(b: string, c: char)
      requires ReadyFor(b) && st.size < |b| && b[st.size] == c && st.at == AfterMethod && (c == '/' || IsAlpha(c))
      modifies this`st
      ensures Switched(ssl, b, line, old(st).size, c, None, st)
    {
      ReadsFirst(b, st.size);
      Unstarted(line);
      TargetStarts(ssl, line, Step(ssl, line, c).line, c);
      if c == '/' {
        st := st.(url := st.size, token := st.size, hostlen := 0, at := InPath);
      } else {
        st := st.(url := st.size, at := InScheme);
      }
    }

    method SwitchScheme(b: string, c: char) returns (failure: Option<Failure>)
      requires ReadyFor(b) && st.size < |b| && b[st.size] == c && st.at == InScheme
      modifies this`st
      ensures Switched(ssl, b, line, old(st).size, c, failure, st)
    {
      if c == ':' {
        failure := EndScheme(b);
        return;
      }
      ReadsMore(b, st.url, line.scheme, st.size);
      ghost var turn := Step(ssl, line, c);
      if turn.More? {
        TargetGrows(ssl, b, st, line, turn.line);
      }
      if SchemeChar(c) {
        return if st.size - st.url > SCHEME_MAX_LEN then Some(BadRequest) else None;
      }
      return Some(BadRequest);
    }

    // The name of the scheme is complete.
    method EndScheme(b: string) returns (failure: Option<Failure>)
      requires ReadyFor(b) && st.size < |b| && b[st.size] == ':' && st.at == InScheme
      modifies this`st
      ensures Switched(ssl, b, line, old(st).size, ':', failure, st)
    {
      ReadsMore(b, st.url, line.scheme, st.size);
      ghost var turn := Step(ssl, line, ':');
      if turn.More? {
        TargetGrows(ssl, b, st, line, turn.line);
      }
      var name := b[st.url..st.size];
      if Fold(name) == "http" {
        st := st.(port := 80, https := false);
      } else if Fold(name) == "https" {
        if !ssl {
          return Some(NotFound);
        }
        st := st.(port := 443, https := true);
      } else if OtherScheme(name) {
        return Some(NotFound);
      } else {
        return Some(BadRequest);
      }
      st := st.(at := SchemeColon);
      return None;
    }

    method SwitchSlashes(b: string, c: char) returns (failure: Option<Failure>)
      requires ReadyFor(b) && st.size < |b| && b[st.size] == c && (st.at == SchemeColon || st.at == SchemeSlash)
      modifies this`st
      ensures Switched(ssl, b, line, old(st).size, c, failure, st)
    {
      if c != '/' {
        return Some(BadRequest);
      }
      TargetGrows(ssl, b, st, line, Step(ssl, line, c).line);
      st := st.(at := if st.at == SchemeColon then SchemeSlash else SchemeSlashes);
      return None;
    }

    method SwitchAuthority(b: string, c: char) returns (failure: Option<Failure>)
      requires ReadyFor(b) && st.size < |b| && b[st.size] == c && st.at == SchemeSlashes
      modifies this`st
      ensures Switched(ssl, b, line, old(st).size, c, failure, st)
    {
      ReadsFirst(b, st.size);
      ghost var turn := StepAuthority(line, c);
      if turn.More? {
        TargetGrows(ssl, b, st, line, turn.line);
      }
      if HostChar(c) {
        st := st.(host := st.size, hostlen := 1, at := InHost);
      } else if c == '[' {
        st := st.(at := LiteralStart);
      } else {
        return Some(BadRequest);
      }
      return None;
    }

    method SwitchLiteralStart(b: string, c: char) returns (failure: Option<Failure>)
      requires ReadyFor(b) && st.size < |b| && b[st.size] == c && st.at == LiteralStart
      modifies this`st
      ensures Switched(ssl, b, line, old(st).size, c, failure, st)
    {
      if !LiteralChar(c) {
        return Some(BadRequest);
      }
      ReadsFirst(b, st.size);
      TargetGrows(ssl, b, st, line, StepLiteral(line, c).line);
      st := st.(host := st.size, hostlen := 1, at := InLiteral);
      return None;
    }

    method SwitchLiteral(b: string, c: char) returns (failure: Option<Failure>)
      requires ReadyFor(b) && st.size < |b| && b[st.size] == c && st.at == InLiteral
      modifies this`st
      ensures Switched(ssl, b, line, old(st).size, c, failure, st)
    {
      ghost var turn := StepLiteral(line, c);
      if turn.More? {
        TargetGrows(ssl, b, st, line, turn.line);
      }
      if c == ']' {
        st := st.(at := LiteralEnd);
      } else if LiteralChar(c) {
        ReadsMore(b, st.host, line.host, st.size);
        st := st.(hostlen := st.hostlen + 1);
        if st.hostlen > LITERAL_MAX_LEN {
          return Some(BadRequest);
        }
      } else {
        return Some(BadRequest);
      }
      return None;
    }

    // A blank or the end of the line after the address, of which all lengths but that of the whole are known.
    method EndUrl(b: string, c: char, ghost st0: Offsets)
      requires Models(b, st0, line) && st.size < |b| && b[st.size] == c && EndsTarget(c) && 6 <= Rank(line.at) <= 11
      requires Lengths(b, st0, st, line) && Step(ssl, line, c) == EndTarget(line, c)
      modifies this`st
      ensures Switched(ssl, b, line, old(st).size, c, None, st)
    {
      EndModels(ssl, b, st0, st, line, c, EndTarget(line, c).line);
      st := st.(urllen := st.size - st.url);
      if IsBlank(c) {
        st := st.(at := AfterUrl);
      } else if c == '\r' {
        st := st.(version := Http09, at := LastReturn);
      } else {
        st := st.(version := Http09, at := Finished);
      }
    }

    // After the host, or the port if there is one, without a path.
    method EndWithoutPath(b: string, c: char)
      requires ReadyFor(b) && st.size < |b| && b[st.size] == c && EndsTarget(c)
      requires st.at == InHost || st.at == LiteralEnd || (st.at == InPort && line.port > 0)
      modifies this`st
      ensures Switched(ssl, b, line, old(st).size, c, None, st)
    {
      ghost var st0 := st;
      Unstarted(line);
      st := st.(pathlen := 0, querylen := 0, fragmentlen := 0);
      EndUrl(b, c, st0);
    }

    // The first slash of the path, after an authority.
    method StartOfPath(b: string, c: char)
      requires ReadyFor(b) && st.size < |b| && b[st.size] == c == '/'
      requires st.at == InHost || st.at == LiteralEnd || (st.at == InPort && line.port > 0)
      modifies this`st
      ensures Switched(ssl, b, line, old(st).size, c, None, st)
    {
      ReadsFirst(b, st.size);
      TargetGrows(ssl, b, st, line, StartPath(line).line);
      st := st.(token := st.size, at := InPath);
    }

    method SwitchHost(b: string, c: char) returns (failure: Option<Failure>)
      requires ReadyFor(b) && st.size < |b| && b[st.size] == c && (st.at == InHost || st.at == LiteralEnd)
      modifies this`st
      ensures Switched(ssl, b, line, old(st).size, c, failure, st)
    {
      failure := None;
      if st.at == InHost && HostChar(c) {
        failure := GrowHost(b, c);
      } else if c == '/' {
        StartOfPath(b, c);
      } else if c == ':' {
        TargetGrows(ssl, b, st, line, StartPort(line).line);
        st := st.(port := 0, at := InPort);
      } else if EndsTarget(c) {
        EndWithoutPath(b, c);
      } else {
        return Some(BadRequest);
      }
    }

    method GrowHost(b: string, c: char) returns (failure: Option<Failure>)
      requires ReadyFor(b) && st.size < |b| && b[st.size] == c && st.at == InHost && HostChar(c)
      modifies this`st
      ensures Switched(ssl, b, line, old(st).size, c, failure, st)
    {
      st := st.(hostlen := st.hostlen + 1);
      if st.hostlen > HOST_MAX_LEN {
        return Some(BadRequest);
      }
      ReadsMore(b, st.host, line.host, st.size);
      TargetGrows(ssl, b, st.(hostlen := st.hostlen - 1), line, StepHost(line, c).line);
      return None;
    }

    method SwitchPort(b: string, c: char) returns (failure: Option<Failure>)
      requires ReadyFor(b) && st.size < |b| && b[st.size] == c && st.at == InPort
      modifies this`st
      ensures Switched(ssl, b, line, old(st).size, c, failure, st)
    {
      failure := None;
      if IsDigit(c) {
        var port := st.port * 10 + (c - '0') as nat;
        if port > 65535 {
          return Some(BadRequest);
        }
        TargetGrows(ssl, b, st, line, StepPort(line, c).line);
        st := st.(port := port);
      } else if c == '/' {
        if st.port == 0 {
          return Some(BadRequest);
        }
        StartOfPath(b, c);
      } else if EndsTarget(c) {
        if st.port == 0 {
          return Some(BadRequest);
        }
        EndWithoutPath(b, c);
      } else {
        return Some(BadRequest);
      }
    }

    method SwitchPath(b: string, c: char) returns (failure: Option<Failure>)
      requires ReadyFor(b) && st.size < |b| && b[st.size] == c && st.at == InPath
      modifies this`st
      ensures Switched(ssl, b, line, old(st).size, c, failure, st)
    {
      if EndsTarget(c) {
        ghost var st0 := st;
        ReadsHeld(b, st.token, line.path, st.size);
        Unstarted(line);
        st := st.(pathlen := st.size - st.token, querylen := 0, fragmentlen := 0);
        EndUrl(b, c, st0);
        return None;
      }
      failure := GrowPath(b, c);
    }

    // The path goes on, or what follows it begins.
    method GrowPath(b: string, c: char) returns (failure: Option<Failure>)
      requires ReadyFor(b) && st.size < |b| && b[st.size] == c && st.at == InPath && !EndsTarget(c)
      modifies this`st
      ensures Switched(ssl, b, line, old(st).size, c, failure, st)
    {
      if c == '?' {
        PathToQuery(b);
      } else if c == '#' {
        PathToFragment(b);
      } else if c < ' ' {
        return Some(BadRequest);
      } else {
        PathReads(ssl, b, st, line, StepPath(line, c).line);
      }
      return None;
    }

    method PathToQuery(b: string)
      requires ReadyFor(b) && st.size < |b| && b[st.size] == '?' && st.at == InPath
      modifies this`st
      ensures Switched(ssl, b, line, old(st).size, '?', None, st)
    {
      PathReads(ssl, b, st, line, StepPath(line, '?').line);
      st := st.(pathlen := st.size - st.token, query := st.size, at := InQuery);
    }

    method PathToFragment(b: string)
      requires ReadyFor(b) && st.size < |b| && b[st.size] == '#' && st.at == InPath
      modifies this`st
      ensures Switched(ssl, b, line, old(st).size, '#', None, st)
    {
      PathReads(ssl, b, st, line, StepPath(line, '#').line);
      st := st.(pathlen := st.size - st.token, querylen := 0, fragment := st.size, at := InFragment);
    }

    method SwitchQuery(b: string, c: char) returns (failure: Option<Failure>)
      requires ReadyFor(b) && st.size < |b| && b[st.size] == c && st.at == InQuery
      modifies this`st
      ensures Switched(ssl, b, line, old(st).size, c, failure, st)
    {
      if EndsTarget(c) {
        ghost var st0 := st;
        ReadsHeld(b, st.query, line.query, st.size);
        Unstarted(line);
        EndsAddress(c);
        st := st.(querylen := st.size - st.query, fragmentlen := 0);
        EndUrl(b, c, st0);
        return None;
      }
      failure := GrowQuery(b, c);
    }

    method GrowQuery(b: string, c: char) returns (failure: Option<Failure>)
      requires ReadyFor(b) && st.size < |b| && b[st.size] == c && st.at == InQuery && !EndsTarget(c)
      modifies this`st
      ensures Switched(ssl, b, line, old(st).size, c, failure, st)
    {
      if QueryChar(c) {
        QueryReads(ssl, b, st, line, StepQuery(line, c).line);
        return None;
      } else if c == '#' {
        LeaveQuery(b, c);
        return None;
      }
      return Some(BadRequest);
    }

    method LeaveQuery(b: string, c: char)
      requires ReadyFor(b) && st.size < |b| && b[st.size] == c && st.at == InQuery && c == '#' && !QueryChar(c)
      modifies this`st
      ensures Switched(ssl, b, line, old(st).size, c, None, st)
    {
      QueryReads(ssl, b, st, line, StepQuery(line, c).line);
      st := st.(querylen := st.size - st.query, fragment := st.size, at := InFragment);
    }

    method SwitchFragment(b: string, c: char) returns (failure: Option<Failure>)
      requires ReadyFor(b) && st.size < |b| && b[st.size] == c && st.at == InFragment
      modifies this`st
      ensures Switched(ssl, b, line, old(st).size, c, failure, st)
    {
      if EndsTarget(c) {
        ghost var st0 := st;
        ReadsHeld(b, st.fragment, line.fragment, st.size);
        EndsAddress(c);
        st := st.(fragmentlen := st.size - st.fragment);
        EndUrl(b, c, st0);
        return None;
      }
      failure := GrowFragment(b, c);
    }

    method GrowFragment(b: string, c: char) returns (failure: Option<Failure>)
      requires ReadyFor(b) && st.size < |b| && b[st.size] == c && st.at == InFragment && !EndsTarget(c)
      ensures Switched(ssl, b, line, st.size, c, failure, st)
    {
      failure := None;
      ReadsMore(b, st.fragment, line.fragment, st.size);
      ghost var turn := Step(ssl, line, c);
      if turn.More? {
        TargetGrows(ssl, b, st, line, turn.line);
      }
      if !QueryChar(c) {
        return Some(BadRequest);
      }
    }

    method SwitchTail(b: string, c: char) returns (failure: Option<Failure>)
      requires ReadyFor(b) && st.size < |b| && b[st.size] == c && 12 <= Rank(st.at)
      modifies this`st
      ensures Switched(ssl, b, line, old(st).size, c, failure, st)
    {
      var at, version;
      failure, at, version := NextAt(c);
      if failure.None? {
        TailModels(ssl, b, st, line, StepTail(line, c).line);
        st := st.(at := at, version := version);
      }
    }

    // The part of the switch that comes after the address.
    method NextAt(c: char) returns (failure: Option<Failure>, at: Phase, version: Version)
      requires st.at == line.at && st.version == line.version && 12 <= Rank(st.at) && st.at != Finished
      requires st.at.InVersion? ==> st.at.matched <= |VERSION|
      ensures match StepTail(line, c)
              case Rejected(f) => failure == Some(f)
              case More(l') => failure == None && at == l'.at && version == l'.version
    {
      failure, at, version := None, st.at, st.version;
      match st.at {
        case AfterUrl =>
          if c == 'H' || c == 'h' {
            at := InVersion(1);
          } else if c == '\r' {
            version := Http09;
          } else if c == '\n' {
            at, version := Finished, Http09;
          } else if !IsBlank(c) {
            failure := Some(BadRequest);
          }
        case InVersion(i) =>
          if i < |VERSION| {
            if VersionChar(c, i) {
              at := InVersion(i + 1);
            } else {
              failure := Some(BadRequest);
            }
          } else if c == '1' {
            at, version := AfterVersion, Http11;
          } else if c == '0' {
            at, version := AfterVersion, Http10;
          } else {
            failure := Some(BadRequest);
          }
        case AfterVersion =>
          if c == '\r' {
            at := LastReturn;
          } else if c == '\n' {
            at := Finished;
          } else if !IsBlank(c) {
            failure := Some(BadRequest);
          }
        case LastReturn =>
          if c == '\n' {
            at := Finished;
          } else {
            failure := Some(BadRequest);
          }
      }
    }

    // The body of the loop in parse_request_line.
    method Switch(b: string) returns (failure: Option<Failure>)
      requires ReadyFor(b) && st.size < |b|
      modifies this`st
      ensures Switched(ssl, b, line, old(st).size, b[old(st).size], failure, st)
    {
      var c := b[st.size];
      match st.at {
        case BeforeMethod => failure := SwitchHead(b, c);
        case LeadingReturn => failure := SwitchHead(b, c);
        case InMethod => failure := SwitchHead(b, c);
        case AfterMethod => failure := SwitchAfterMethod(b, c);
        case InScheme => failure := SwitchScheme(b, c);
        case SchemeColon => failure := SwitchSlashes(b, c);
        case SchemeSlash => failure := SwitchSlashes(b, c);
        case SchemeSlashes => failure := SwitchAuthority(b, c);
        case InHost => failure := SwitchHost(b, c);
        case LiteralStart => failure := SwitchLiteralStart(b, c);
        case InLiteral => failure := SwitchLiteral(b, c);
        case LiteralEnd => failure := SwitchHost(b, c);
        case InPort => failure := SwitchPort(b, c);
        case InPath => failure := SwitchPath(b, c);
        case InQuery => failure := SwitchQuery(b, c);
        case InFragment => failure := SwitchFragment(b, c);
        case _ => failure := SwitchTail(b, c);
      }
    }

    // What has come of the bytes up to and including those that have been read.
    ghost predicate Reached(b: string, o: Outcome, result: Progress)
      reads this
    {
      match o
      case Going(l) => result == NotYet && ReadyFor(b) && line == l
      case Complete(l, n) => result == Done && Models(b, st, l) && line == l && st.size == n
      case Refused(f, l, n) => result == Failed(f) && st.size == n && st.version == l.version
    }

    // The end of one turn of the loop.
    method Count(b: string, failure: Option<Failure>, ghost turn: Turn) returns (result: Progress)
      requires Turned(b, line, st.size, turn, failure, st)
      requires turn.More? ==> turn.line.at.Finished? || Regular(turn.line)
      modifies this
      ensures Reached(b, Counted(turn, old(line), old(st).size), result)
      ensures result == NotYet ==> st.size == old(st).size + 1
    {
      if failure.Some? {
        return Failed(failure.value);
      }
      st := st.(size := st.size + 1);
      if st.at.Finished? {
        line := turn.line;
        return Done;
      }
      if st.size > LINE_MAX_LEN {
        return Failed(TooLarge);
      }
      line := turn.line;
      return NotYet;
    }

    // One turn of the loop, `all` being what reading the rest of the buffer comes to.
    method ParseByte(b: string, ghost all: Outcome) returns (result: Progress)
      requires ReadyFor(b) && st.size < |b| && ReadLine(ssl, line, st.size, b[st.size..]) == all
      modifies this
      ensures result == NotYet ==>
                ReadyFor(b) && st.size == old(st).size + 1 && ReadLine(ssl, line, st.size, b[st.size..]) == all
      ensures result != NotYet ==> Reached(b, all, result)
    {
      ghost var turn := Step(ssl, line, b[st.size]);
      ReadNext(ssl, line, b, st.size);
      if turn.More? {
        StepRegular(ssl, line, b[st.size]);
      }
      var failure := Switch(b);
      result := Count(b, failure, turn);
    }

    /**
     parse_request_line.  The buffer holds the bytes of the earlier calls and more; what comes of them is what reading
     them one after the other comes to.
     */
    method Parse(b: string) returns (result: Progress)
      requires ReadyFor(b)
      modifies this
      ensures Reached(b, ReadLine(ssl, old(line), old(st).size, b[old(st).size..]), result)
      ensures result == NotYet ==> st.size == |b|
    {
      ghost var all := ReadLine(ssl, line, st.size, b[st.size..]);
      while st.size < |b|
        invariant ReadyFor(b) && ReadLine(ssl, line, st.size, b[st.size..]) == all
        decreases |b| - st.size
      {
        result := ParseByte(b, all);
        if result != NotYet {
          return;
        }
      }
      assert b[st.size..] == "";
      return NotYet;
    }

    // _reset, as far as the request line goes.
    method Reset()
      modifies this
      ensures st == old(st).(at := BeforeMethod, size := 0, version := Http09) && line == FRESH
      ensures forall b: string :: ReadyFor(b)
    {
      st := st.(at := BeforeMethod, size := 0, version := Http09);
      line := FRESH;
      forall b: string
        ensures ReadyFor(b)
      {
        FreshReady(b, st, line);
      }
    }
  }

  lemma {:induction false} ReadNext(ssl: bool, l: Line, b: string, i: nat)
    requires i < |b|
    ensures ReadLine(ssl, l, i, b[i..]) == ReadOn(ssl, Counted(Step(ssl, l, b[i]), l, i), i + 1, b[i + 1..])
  {
    assert b[i..][1..] == b[i + 1..];
  }

  lemma {:induction false} EndsAddress(c: char)
    requires EndsTarget(c)
    ensures !QueryChar(c)
  {
  }
}
