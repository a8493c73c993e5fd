/**
 The parser of util/configuration.cpp accepts exactly the files of the grammar, with the trees that they stand for.
 */
module ConfigurationExact {
  import opened CaseOrder
  import opened ConfigurationGrammar
  import opened ConfigurationReading
  import opened ConfigurationTrees
  import opened KeyLists
  import opened Text
  import opened Wrappers

  // ---------------------------------------------------------------- what is left

  // The text has been read to its end, in the root list and not inside a key.
  predicate Done(e: Reading) {
    e.outer == [] && (Between(e) || e.at == SpaceAfterValue)
  }

  lemma {:induction false} Rest(ordered: bool, r: Reading, s: string, t: string, r1: Reading, e: Reading)
    requires t <= s && ReadAll(ordered, r, t) == Go(r1) && ReadAll(ordered, r, s) == Go(e)
    ensures ReadAll(ordered, r1, s[|t|..]) == Go(e)
  {
    ReadSplit(ordered, r, t, s[|t|..]);
    assert s == t + s[|t|..];
  }

  lemma {:induction false} Prefixes(s: string, t: string, u: string)
    requires t <= s && u <= s[|t|..]
    ensures t + u <= s && s[|t + u|..] == s[|t|..][|u|..]
  {
  }

  lemma {:induction false} Whole(s: string, t: string)
    requires t <= s && s[|t|..] == ""
    ensures s == t
  {
  }

  // ---------------------------------------------------------------- finding the pieces

  // The longest beginning that consists of blanks.
  lemma {:induction false} FindBlanks(s: string) returns (b: string)
    ensures b <= s && Blanks(b) && (|b| < |s| ==> !IsBlank(s[|b|]))
    decreases |s|
  {
    b := "";
    if s != "" && IsBlank(s[0]) {
      var more := FindBlanks(s[1..]);
      b := [s[0]] + more;
    }
  }

  lemma {:induction false} FindLine(s: string) returns (t: string)
    ensures t <= s && '\n' !in t && (|t| < |s| ==> s[|t|] == '\n')
    decreases |s|
  {
    t := "";
    if s != "" && s[0] != '\n' {
      var more := FindLine(s[1..]);
      t := [s[0]] + more;
    }
  }

  // A comment ends before the text does.
  lemma {:induction false} FindRemark(ordered: bool, r: Reading, s: string, r1: Reading, e: Reading)
    returns (f: Filler)
    requires s != "" && s[0] == '#' && Read(ordered, r, '#') == Go(r1) && r1.at == Comment
    requires ReadAll(ordered, r, s) == Go(e) && Done(e)
    ensures f.Remark? && f.Valid() && f.EndsLine() && f.Text() <= s
  {
    var t := FindLine(s[1..]);
    ReadRemark(ordered, r1, t);
    Rest(ordered, r1, s[1..], t, r1, e);
    f := Remark(t);
    RemarkText(s, t);
  }

  lemma {:induction false} RemarkText(s: string, t: string)
    requires s != "" && s[0] == '#' && t < s[1..] && s[1 + |t|] == '\n'
    ensures "#" + t + "\n" <= s
  {
  }

  lemma {:induction false} FindFiller(ordered: bool, r: Reading, s: string, e: Reading) returns (f: Filler)
    requires Between(r) && ReadAll(ordered, r, s) == Go(e) && Done(e)
    requires s != "" && (IsSpace(s[0]) || s[0] == '#')
    ensures f.Valid() && f.Text() <= s && (f.EndsLine() <==> s[0] != ' ' && s[0] != '\t') &&
            (f.Remark? <==> s[0] == '#')
  {
    if s[0] == '#' {
      f := FindRemark(ordered, r, s, r.(prev := r.at, at := Comment), e);
    } else {
      f := Space(s[0]);
    }
  }

  // A text that goes on with a key or a closing brace, if at all.
  predicate Settled(s: string) {
    s == "" || KeyChar(s[0]) || s[0] == '}'
  }

  lemma {:induction false} FindKeyRest(ordered: bool, r: Reading, s: string, e: Reading) returns (more: string)
    requires r.at == InKey && Name(r.key) && ReadAll(ordered, r, s) == Go(e) && Done(e)
    ensures more < s && Name(r.key + more) && !KeyChar(s[|more|])
    decreases |s|
  {
    if KeyChar(s[0]) {
      var later := FindKeyRest(ordered, r.(key := r.key + [s[0]]), s[1..], e);
      more := [s[0]] + later;
      assert r.key + more == r.key + [s[0]] + later;
    } else {
      more := "";
      assert r.key + more == r.key;
    }
  }

  lemma {:induction false} FindWholeName(ordered: bool, r: Reading, s: string, e: Reading) returns (name: string)
    requires Between(r) && s != "" && KeyChar(s[0]) && ReadAll(ordered, r, s) == Go(e) && Done(e)
    ensures name < s && Name(name) && !KeyChar(s[|name|])
  {
    var more := FindKeyRest(ordered, r.(key := [s[0]], at := InKey), s[1..], e);
    name := [s[0]] + more;
  }

  lemma {:induction false} FindWord(ordered: bool, r: Reading, s: string, e: Reading) returns (more: string)
    requires r.at == InValue && Bare(r.value).Valid() && ReadAll(ordered, r, s) == Go(e) && Done(e)
    ensures more < s && Bare(r.value + more).Valid() && !ValueChar(s[|more|])
    decreases |s|
  {
    if ValueChar(s[0]) {
      var later := FindWord(ordered, r.(value := r.value + [s[0]]), s[1..], e);
      more := [s[0]] + later;
      assert r.value + more == r.value + [s[0]] + later;
    } else {
      more := "";
      assert r.value + more == r.value;
    }
  }

  // The characters up to the closing quote, some of which have been found.
  lemma {:induction false} FindSymbols(ordered: bool, r: Reading, s: string, e: Reading, found: seq<Symbol>)
    returns (symbols: seq<Symbol>)
    requires r.at == InQuoted && r.value == "" && ReadAll(ordered, r, s) == Go(e) && Done(e)
    requires Quoted(found).Valid() && SymbolsText(found) <= s
    ensures Quoted(symbols).Valid() && SymbolsText(symbols) < s && s[|SymbolsText(symbols)|] == '"'
    decreases |s| - |SymbolsText(found)|
  {
    var t := SymbolsText(found);
    var r1 := r.(value := Meant(found));
    ReadSymbols(ordered, r, found);
    Rest(ordered, r, s, t, r1, e);
    var u := s[|t|..];
    if u[0] == '"' {
      symbols := found;
    } else {
      var x := FindSymbol(ordered, r1, u, e);
      OneMore(found, x);
      Prefixes(s, t, x.Text());
      symbols := FindSymbols(ordered, r, s, e, found + [x]);
    }
  }

  lemma {:induction false} OneMore(found: seq<Symbol>, x: Symbol)
    requires Quoted(found).Valid() && |found| < VALUE_MAX_LEN && x.Valid()
    ensures Quoted(found + [x]).Valid() && SymbolsText(found + [x]) == SymbolsText(found) + x.Text()
  {
    assert (found + [x])[..|found|] == found;
  }

  lemma {:induction false} FindSymbol(ordered: bool, r: Reading, s: string, e: Reading) returns (x: Symbol)
    requires r.at == InQuoted && |r.value| <= VALUE_MAX_LEN && s != "" && s[0] != '"'
    requires ReadAll(ordered, r, s) == Go(e) && Done(e)
    ensures |r.value| < VALUE_MAX_LEN && x.Valid() && x.Text() <= s
  {
    if s[0] == '\\' {
      var u := s[1..];
      assert ReadAll(ordered, r.(at := InEscape), u) == Go(e);
      var meaning := Unescaped(u[0]);
      x := Escape(u[0], meaning[0]);
    } else {
      x := Letter(s[0]);
    }
  }

  // The fillers from here on, some of which have been found.
  lemma {:induction false} FindFillers(ordered: bool, r: Reading, s: string, e: Reading, found: seq<Filler>)
    returns (fillers: seq<Filler>)
    requires Between(r) && ReadAll(ordered, r, s) == Go(e) && Done(e)
    requires AllValid(found) && FillersText(found) <= s
    ensures AllValid(fillers) && FillersText(fillers) <= s
    ensures var u := s[|FillersText(fillers)|..]; u == "" || !(IsSpace(u[0]) || u[0] == '#')
    decreases |s| - |FillersText(found)|
  {
    var t := FillersText(found);
    var r1 := ReadFillers(ordered, r, found);
    Rest(ordered, r, s, t, r1, e);
    var u := s[|t|..];
    if u == "" || !(IsSpace(u[0]) || u[0] == '#') {
      fillers := found;
    } else {
      var f := FindFiller(ordered, r1, u, e);
      var all := found + [f];
      assert all[..|found|] == found;
      Prefixes(s, t, f.Text());
      fillers := FindFillers(ordered, r, s, e, all);
    }
  }

  // ---------------------------------------------------------------- finding a setting

  // What ends a line with a value; nothing does at the end of the text.
  lemma {:induction false} FindStop(ordered: bool, r: Reading, s: string, e: Reading) returns (stop: seq<Filler>)
    requires ReadAll(ordered, r, s) == Go(e) && Done(e) && (s != "" ==> !IsBlank(s[0]))
    requires r.at == SpaceAfterValue || (r.at == InValue && (s != "" ==> !ValueChar(s[0])))
    ensures |stop| <= 1 && (stop != [] ==> stop[0].EndsLine()) && FillersText(stop) <= s && (stop == [] ==> s == "")
    ensures r.at == InValue ==> stop != [] && stop[0].Space? && New(r.top.keys, Some(Value(r.key, r.value)))
  {
    if s == "" {
      stop := [];
    } else if s[0] == '#' {
      assert r.at == SpaceAfterValue;
      var f := FindRemark(ordered, r, s, r.(prev := Initial, at := Comment), e);
      OneFiller(f);
      stop := [f];
    } else {
      OneFiller(Space(s[0]));
      stop := [Space(s[0])];
    }
  }

  // The value, the blanks after it and the end of the line make up the beginning of the text.
  ghost predicate ValueFound(r: Reading, s: string, value: Written, b: string, stop: seq<Filler>) {
    && value.Valid() && Blanks(b) && Stops(value, b, stop) && New(r.top.keys, ValueKey(r.key, value.Meaning()))
    && value.Text() + b + FillersText(stop) <= s
    && (stop == [] ==> value.Text() + b + FillersText(stop) == s)
  }

  lemma {:induction false} StopFound(s: string, t: string, stop: seq<Filler>)
    requires t <= s && FillersText(stop) <= s[|t|..] && (stop == [] ==> s[|t|..] == "")
    ensures t + FillersText(stop) <= s && (stop == [] ==> t + FillersText(stop) == s)
  {
    Prefixes(s, t, FillersText(stop));
  }

  lemma {:induction false} FindBare(ordered: bool, r: Reading, s: string, e: Reading)
    returns (value: Written, b: string, stop: seq<Filler>)
    requires (r.at == AfterEqual || r.at == SpaceAfterEqual) && ReadAll(ordered, r, s) == Go(e) && Done(e)
    requires s != "" && ValueChar(s[0])
    ensures ValueFound(r, s, value, b, stop)
  {
    var r0 := r.(value := [s[0]], at := InValue);
    var more := FindWord(ordered, r0, s[1..], e);
    var text := [s[0]] + more;
    var r1 := r.(value := text, at := InValue);
    value := Bare(text);
    ReadPlain(ordered, r, text, |text|);
    assert text[..|text|] == text;
    Rest(ordered, r, s, text, r1, e);
    var u := s[|text|..];
    b := FindBlanks(u);
    if b == "" {
      stop := FindStop(ordered, r1, u, e);
      assert text + "" == text;
      StopFound(s, text, stop);
    } else {
      assert AddValue(ordered, r1, SpaceAfterValue).Go?;
      var r2 := ReadBareBlanks(ordered, r, text, b);
      Prefixes(s, text, b);
      Rest(ordered, r, s, text + b, r2, e);
      stop := FindStop(ordered, r2, s[|text + b|..], e);
      StopFound(s, text + b, stop);
    }
  }

  lemma {:induction false} FindQuoted(ordered: bool, r: Reading, s: string, e: Reading)
    returns (value: Written, b: string, stop: seq<Filler>)
    requires (r.at == AfterEqual || r.at == SpaceAfterEqual) && ReadAll(ordered, r, s) == Go(e) && Done(e)
    requires s != "" && s[0] == '"'
    ensures ValueFound(r, s, value, b, stop)
  {
    var symbols := FindSymbols(ordered, r.(value := "", at := InQuoted), s[1..], e, []);
    value := Quoted(symbols);
    NewQuoted(ordered, r, s, e, symbols);
    var t := value.Text();
    b := FindBlanks(s[|t|..]);
    var r1 := ReadQuotedBlanks(ordered, r, symbols, b);
    Prefixes(s, t, b);
    Rest(ordered, r, s, t + b, r1, e);
    stop := FindStop(ordered, r1, s[|t + b|..], e);
    StopFound(s, t + b, stop);
  }

  // The closing quote adds the key, if the value is not empty.
  lemma {:induction false} NewQuoted(ordered: bool, r: Reading, s: string, e: Reading, symbols: seq<Symbol>)
    requires (r.at == AfterEqual || r.at == SpaceAfterEqual) && ReadAll(ordered, r, s) == Go(e)
    requires Quoted(symbols).Valid() && s != "" && s[0] == '"'
    requires SymbolsText(symbols) < s[1..] && s[1 + |SymbolsText(symbols)|] == '"'
    ensures Quoted(symbols).Text() <= s && New(r.top.keys, ValueKey(r.key, Meant(symbols)))
  {
    var front := ['"'] + SymbolsText(symbols);
    var r1 := r.(value := Meant(symbols), at := InQuoted);
    ReadOpenQuote(ordered, r, symbols);
    Rest(ordered, r, s, front, r1, e);
    assert Meant(symbols) != "" ==> AddValue(ordered, r1, SpaceAfterValue).Go?;
  }

  // The rest of a line after the equals sign and the blanks that follow it.
  ghost predicate Found(ordered: bool, r: Reading, s: string, n: Node) {
    && !n.Gap? && Formed(ordered, n) && New(r.top.keys, KeyOf(ordered, n)) && NodeText(n) <= s
    && var u := s[|NodeText(n)|..];
       match n
       case Setting(_, _, _, _, _, stop) => stop == [] ==> u == ""
       case Heading(_, _, gap) => if gap == [] then u != "" && u[0] == '}' else Settled(u)
       case _ => true
  }

  lemma {:induction false} FindSetting(ordered: bool, r: Reading, s: string, e: Reading, name: string, before: string,
                                       after: string) returns (n: Node)
    requires Between(r) && ReadAll(ordered, r, s) == Go(e) && Done(e)
    requires Name(name) && Blanks(before) && Blanks(after) && name + before + ['='] + after < s
    requires var c := s[|name + before + ['='] + after|]; c == '"' || ValueChar(c)
    ensures Found(ordered, r, s, n)
  {
    var t := name + before + ['='] + after;
    var r1 := r.(key := name, at := if after == "" then AfterEqual else SpaceAfterEqual);
    var u := s[|t|..];
    ReadAssign(ordered, r, name, before, after);
    Rest(ordered, r, s, t, r1, e);
    var value, b, stop;
    if u[0] == '"' {
      value, b, stop := FindQuoted(ordered, r1, u, e);
    } else {
      value, b, stop := FindBare(ordered, r1, u, e);
    }
    n := Setting(name, before, after, value, b, stop);
    var v := value.Text() + b + FillersText(stop);
    Prefixes(s, t, v);
    Joined(t, value.Text(), b, FillersText(stop));
    assert NodeText(n) == t + v;
  }

  lemma {:induction false} FindDropped(ordered: bool, r: Reading, s: string, e: Reading, name: string, before: string,
                                       after: string) returns (n: Node)
    requires Between(r) && ReadAll(ordered, r, s) == Go(e) && Done(e)
    requires Name(name) && Blanks(before) && Blanks(after) && name + before + ['='] + after < s
    requires var c := s[|name + before + ['='] + after|]; LineEnd(c) || (c == '#' && after != "")
    ensures Found(ordered, r, s, n)
  {
    var t := name + before + ['='] + after;
    var r1 := r.(key := name, at := if after == "" then AfterEqual else SpaceAfterEqual);
    var u := s[|t|..];
    ReadAssign(ordered, r, name, before, after);
    Rest(ordered, r, s, t, r1, e);
    var f := Space(u[0]);
    if u[0] == '#' {
      f := FindRemark(ordered, r1, u, r1.(prev := Initial, at := Comment), e);
    }
    n := Dropped(name, before, after, f);
    Prefixes(s, t, f.Text());
  }

  lemma {:induction false} FindAssigned(ordered: bool, r: Reading, s: string, e: Reading, name: string, before: string)
    returns (n: Node)
    requires Between(r) && ReadAll(ordered, r, s) == Go(e) && Done(e)
    requires Name(name) && Blanks(before) && name + before + ['='] <= s
    ensures Found(ordered, r, s, n)
  {
    var t := name + before + ['='];
    var after := FindBlanks(s[|t|..]);
    Prefixes(s, t, after);
    var r1 := r.(key := name, at := if after == "" then AfterEqual else SpaceAfterEqual);
    ReadAssign(ordered, r, name, before, after);
    Rest(ordered, r, s, t + after, r1, e);
    var u := s[|t + after|..];
    assert u != "" && !IsBlank(u[0]) && Read(ordered, r1, u[0]).Go?;
    if LineEnd(u[0]) || u[0] == '#' {
      n := FindDropped(ordered, r, s, e, name, before, after);
    } else {
      n := FindSetting(ordered, r, s, e, name, before, after);
    }
  }

  // ---------------------------------------------------------------- finding a section

  // A brace that opens a list is followed by a blank or the end of its line.
  lemma {:induction false} AfterBrace(ordered: bool, r: Reading, s: string, e: Reading)
    requires s != "" && s[0] == '{' && ReadAll(ordered, r, s) == Go(e) && Done(e)
    requires r.at == WaitingForKeyOrBrace || r.at == SpaceAfterKey
    ensures |s| > 1 && IsSpace(s[1]) && (r.at == SpaceAfterKey ==> New(r.top.keys, Some(Section(r.key, []))))
  {
    var u := s[1..];
    assert r.at == SpaceAfterKey ==> AddSection(ordered, r, SpaceAfterKey).Go?;
    var o := Read(ordered, r, '{').r;
    assert ReadAll(ordered, o, u) == Go(e) && o.at == AfterOpeningBrace && u != "";
  }

  // A brace that closes one, too.
  lemma {:induction false} AfterClose(ordered: bool, r: Reading, s: string, e: Reading)
    requires s != "" && s[0] == '}' && ReadAll(ordered, r, s) == Go(e) && Done(e)
    requires Between(r) || r.at == SpaceAfterKey
    ensures |s| > 1 && IsSpace(s[1]) && r.at != WaitingForKey && r.outer != []
    ensures r.at == SpaceAfterKey ==> New(r.top.keys, Some(Section(r.key, [])))
  {
    var u := s[1..];
    assert r.at == SpaceAfterKey && r.outer != [] ==> AddSection(ordered, r, SpaceAfterKey).Go?;
    var o := Read(ordered, r, '}').r;
    assert ReadAll(ordered, o, u) == Go(e) && o.at == AfterClosingBrace && u != "";
  }

  lemma {:induction false} FindHeading(ordered: bool, r: Reading, s: string, e: Reading, name: string, b: string)
    returns (n: Node)
    requires Between(r) && ReadAll(ordered, r, s) == Go(e) && Done(e) && Name(name) && Blanks(b) && name + b < s
    requires var c := s[|name + b|]; LineEnd(c) || (c == '#' && b != "")
    ensures Found(ordered, r, s, n)
    decreases |s|, 1
  {
    var gap := HeadingGap(ordered, r, s, e, name, b);
    var t := name + b + FillersText(gap);
    var r1 := ReadHeading(ordered, r, name, b, gap);
    Rest(ordered, r, s, t, r1, e);
    AfterHeading(ordered, r1, s[|t|..], e);
    if t < s && s[|t|] == '{' {
      n := FindBlock(ordered, r, s, e, name, b, gap);
    } else {
      n := Heading(name, b, gap);
      HeadingFound(ordered, r, s, n);
    }
  }

  // What follows the name of a section and the fillers after it.
  lemma {:induction false} AfterHeading(ordered: bool, r: Reading, s: string, e: Reading)
    requires r.at == WaitingForKeyOrBrace && ReadAll(ordered, r, s) == Go(e) && Done(e)
    ensures Settled(s) || IsSpace(s[0]) || s[0] == '#' || (|s| > 1 && s[0] == '{' && IsSpace(s[1]))
  {
    if s != "" {
      assert Read(ordered, r, s[0]).Go?;
      if s[0] == '{' {
        AfterBrace(ordered, r, s, e);
      }
    }
  }

  lemma {:induction false} HeadingFound(ordered: bool, r: Reading, s: string, n: Node)
    requires n.Heading? && n.gap != [] && Headed(n.name, n.blanks, n.gap) && New(r.top.keys, Some(Section(n.name, [])))
    requires var t := n.name + n.blanks + FillersText(n.gap); t <= s && Settled(s[|t|..])
    ensures Found(ordered, r, s, n)
  {
  }

  // The end of the line with the name, and everything up to the next key or brace.
  lemma {:induction false} HeadingGap(ordered: bool, r: Reading, s: string, e: Reading, name: string, b: string)
    returns (gap: seq<Filler>)
    requires Between(r) && ReadAll(ordered, r, s) == Go(e) && Done(e) && Name(name) && Blanks(b) && name + b < s
    requires var c := s[|name + b|]; LineEnd(c) || (c == '#' && b != "")
    ensures gap != [] && Headed(name, b, gap) && New(r.top.keys, Some(Section(name, [])))
    ensures var t := name + b + FillersText(gap);
            t <= s && (t < s ==> !IsSpace(s[|t|]) && s[|t|] != '#')
  {
    var r0 := r.(key := name, at := if b == "" then InKey else SpaceAfterKey);
    ReadNameBlanks(ordered, r, name, b);
    Rest(ordered, r, s, name + b, r0, e);
    var f := FindLineEnd(ordered, r0, s[|name + b|..], e);
    var line := name + b + f.Text();
    Prefixes(s, name + b, f.Text());
    var r1 := ReadHeadingLine(ordered, r, name, b, f);
    Rest(ordered, r, s, line, r1, e);
    gap := FindRestOfGap(ordered, r1, s, e, name + b, f);
  }

  lemma {:induction false} FindRestOfGap(ordered: bool, r: Reading, s: string, e: Reading, t: string, f: Filler)
    returns (gap: seq<Filler>)
    requires Between(r) && t + f.Text() <= s && ReadAll(ordered, r, s[|t + f.Text()|..]) == Go(e) && Done(e) &&
             f.Valid()
    ensures gap != [] && gap[0] == f && AllValid(gap)
    ensures var line := t + FillersText(gap); line <= s && (line < s ==> !IsSpace(s[|line|]) && s[|line|] != '#')
  {
    var more := FindFillers(ordered, r, s[|t + f.Text()|..], e, []);
    gap := FindGap(s, t, f, more);
  }

  // The end of the line with the name of a section.
  lemma {:induction false} FindLineEnd(ordered: bool, r: Reading, s: string, e: Reading) returns (f: Filler)
    requires r.at == InKey || r.at == SpaceAfterKey
    requires ReadAll(ordered, r, s) == Go(e) && Done(e)
    requires s != "" && (LineEnd(s[0]) || (s[0] == '#' && r.at == SpaceAfterKey))
    ensures f.EndsLine() && (f.Remark? ==> r.at == SpaceAfterKey) && f.Text() <= s
    ensures New(r.top.keys, Some(Section(r.key, [])))
  {
    BlankNotKey();
    if s[0] == '#' {
      assert AddSection(ordered, r, Comment).Go?;
      f := FindRemark(ordered, r, s, Read(ordered, r, '#').r, e);
    } else {
      assert AddSection(ordered, r, WaitingForKeyOrBrace).Go?;
      f := Space(s[0]);
    }
  }

  lemma {:induction false} FindGap(s: string, t: string, f: Filler, more: seq<Filler>) returns (gap: seq<Filler>)
    requires t + f.Text() <= s && FillersText(more) <= s[|t + f.Text()|..]
    ensures gap == [f] + more && t + FillersText(gap) <= s
    ensures s[|t + FillersText(gap)|..] == s[|t + f.Text()|..][|FillersText(more)|..]
  {
    gap := [f] + more;
    assert gap[1..] == more;
    FillersFirst(gap);
    Grouped(t, f.Text(), FillersText(more));
    Prefixes(s, t + f.Text(), FillersText(more));
  }

  // The list ends with the text, or before a closing brace.
  predicate Finished(nodes: seq<Node>, u: string) {
    if AllEnded(nodes) then u == "" || u[0] == '}'
    else if nodes[|nodes| - 1].Setting? then u == ""
    else nodes[|nodes| - 1].Heading? && u != "" && u[0] == '}'
  }

  lemma {:induction false} FindBlock(ordered: bool, r: Reading, s: string, e: Reading, name: string, b: string,
                                     gap: seq<Filler>) returns (n: Node)
    requires Between(r) && ReadAll(ordered, r, s) == Go(e) && Done(e) && Headed(name, b, gap)
    requires New(r.top.keys, Some(Section(name, [])))
    requires var t := name + b + FillersText(gap); t <= s && |s| > |t| + 1 && s[|t|] == '{' && IsSpace(s[|t| + 1])
    ensures Found(ordered, r, s, n) && n.Block?
    decreases |s|, 0
  {
    var open := s[|name + b + FillersText(gap)| + 1];
    var t := name + b + FillersText(gap) + ['{'] + [open];
    var r1 := ListBegins(ordered, r, s, e, name, b, gap, open);
    var u := s[|t|..];
    var body := FindNodes(ordered, r1, u, e, [], r1);
    BodyCloses(ordered, r1, u, e, body);
    var close := u[|NodesText(body)| + 1];
    n := Block(name, b, gap, open, body, close);
    BlockText(s, t, NodesText(body), close);
    BlockFound(ordered, r, s, n);
  }

  lemma {:induction false} ListBegins(ordered: bool, r: Reading, s: string, e: Reading, name: string, b: string,
                                      gap: seq<Filler>, open: char) returns (r1: Reading)
    requires Between(r) && ReadAll(ordered, r, s) == Go(e) && Headed(name, b, gap) && IsSpace(open)
    requires New(r.top.keys, Some(Section(name, [])))
    requires var t := name + b + FillersText(gap); t <= s && |s| > |t| + 1 && s[|t|] == '{' && s[|t| + 1] == open
    ensures r1.at == WaitingForKey && r1.top.keys == [] && r1.outer != []
    ensures var t := name + b + FillersText(gap) + ['{'] + [open]; t <= s && ReadAll(ordered, r1, s[|t|..]) == Go(e)
  {
    var h := name + b + FillersText(gap);
    BraceText(s, h, open);
    r1 := ReadOpening(ordered, r, name, b, gap, open);
    Rest(ordered, r, s, h + ['{'] + [open], r1, e);
  }

  lemma {:induction false} BraceText(s: string, t: string, open: char)
    requires t <= s && |s| > |t| + 1 && s[|t|] == '{' && s[|t| + 1] == open
    ensures t + ['{'] + [open] <= s
  {
  }

  lemma {:induction false} BlockFound(ordered: bool, r: Reading, s: string, n: Node)
    requires n.Block? && Headed(n.name, n.blanks, n.gap) && IsSpace(n.open) && IsSpace(n.close)
    requires Closes(n.body) && AllFormed(ordered, n.body) && New(r.top.keys, Some(Section(n.name, [])))
    requires n.name + n.blanks + FillersText(n.gap) + ['{'] + [n.open] + NodesText(n.body) + ['}'] + [n.close] <= s
    ensures Found(ordered, r, s, n)
  {
  }

  lemma {:induction false} BlockText(s: string, t: string, body: string, close: char)
    requires t <= s && body <= s[|t|..]
    requires var w := s[|t|..][|body|..]; |w| > 1 && w[0] == '}' && w[1] == close
    ensures t + body + ['}'] + [close] <= s
  {
    Prefixes(s, t, body);
  }

  lemma {:induction false} BodyCloses(ordered: bool, r: Reading, s: string, e: Reading, body: seq<Node>)
    requires r.at == WaitingForKey && r.top.keys == [] && r.outer != [] && ReadAll(ordered, r, s) == Go(e) && Done(e)
    requires AllFormed(ordered, body) && NodesText(body) <= s && Finished(body, s[|NodesText(body)|..])
    ensures var w := s[|NodesText(body)|..]; |w| > 1 && w[0] == '}' && IsSpace(w[1]) && Closes(body)
  {
    var w := s[|NodesText(body)|..];
    if AllEnded(body) {
      var r1 := ReadNodes(ordered, r, body);
      Rest(ordered, r, s, NodesText(body), r1, e);
      AfterClose(ordered, r1, w, e);
    } else {
      var n := |body| - 1;
      var last := body[n];
      assert body == body[..n] + [last];
      var r0 := ReadNodes(ordered, r, body[..n]);
      if last.Setting? {
        var r1 := ReadLastSetting(ordered, r, body, r0);
        Rest(ordered, r, s, NodesText(body), r1, e);
      } else {
        var r1 := ReadLastName(ordered, r, NodesText(body[..n]), r0, last.name, last.blanks);
        BareHeading(last);
        Rest(ordered, r, s, NodesText(body), r1, e);
        AfterClose(ordered, r1, w, e);
        assert !body[n].Gap?;
      }
    }
  }

  // A setting at the end of the text.
  lemma {:induction false} ReadLastSetting(ordered: bool, r: Reading, nodes: seq<Node>, r0: Reading)
    returns (r1: Reading)
    requires nodes != [] && AllFormed(ordered, nodes) && nodes[|nodes| - 1].Setting? && nodes[|nodes| - 1].stop == []
    requires ReadAll(ordered, r, NodesText(nodes[..|nodes| - 1])) == Go(r0) && Between(r0)
    requires r0.top.keys == Tree(ordered, nodes[..|nodes| - 1])
    ensures ReadAll(ordered, r, NodesText(nodes)) == Go(r1)
    ensures var last := nodes[|nodes| - 1]; HasValue(ordered, r0, last.name, last.value.Meaning(), r1)
    ensures r1.top.keys == Tree(ordered, nodes)
  {
    var n := |nodes| - 1;
    var last := nodes[n];
    r1 := ReadSettingFront(ordered, r0, last);
    assert NodeText(last) == SettingText(last) + "" == SettingText(last);
    Compose(ordered, r, NodesText(nodes[..n]), r0, SettingText(last), Go(r1));
  }

  // ---------------------------------------------------------------- finding the nodes of a list

  lemma {:induction false} FindNode(ordered: bool, r: Reading, s: string, e: Reading) returns (n: Node)
    requires Between(r) && s != "" && KeyChar(s[0]) && ReadAll(ordered, r, s) == Go(e) && Done(e)
    ensures Found(ordered, r, s, n)
    decreases |s|, 2
  {
    var name := FindWholeName(ordered, r, s, e);
    var b := FindBlanks(s[|name|..]);
    Prefixes(s, name, b);
    var t := name + b;
    var r1 := r.(key := name, at := if b == "" then InKey else SpaceAfterKey);
    ReadNameBlanks(ordered, r, name, b);
    Rest(ordered, r, s, t, r1, e);
    var u := s[|t|..];
    AfterNameNext(ordered, r1, u, e);
    var c := u[0];
    if c == '=' {
      n := FindAssigned(ordered, r, s, e, name, b);
    } else if LineEnd(c) || c == '#' {
      n := FindHeading(ordered, r, s, e, name, b);
    } else if c == '{' {
      AfterBrace(ordered, r1, u, e);
      assert t + FillersText([]) == t;
      n := FindBlock(ordered, r, s, e, name, b, []);
    } else {
      AfterClose(ordered, r1, u, e);
      n := Heading(name, b, []);
      BareHeading(n);
      BareFound(ordered, r, s, n);
    }
  }

  lemma {:induction false} BareFound(ordered: bool, r: Reading, s: string, n: Node)
    requires n.Heading? && n.gap == [] && Headed(n.name, n.blanks, []) && New(r.top.keys, Some(Section(n.name, [])))
    requires NodeText(n) < s && s[|NodeText(n)|] == '}'
    ensures Found(ordered, r, s, n)
  {
  }

  lemma {:induction false} AfterNameNext(ordered: bool, r: Reading, s: string, e: Reading)
    requires (r.at == InKey || r.at == SpaceAfterKey) && ReadAll(ordered, r, s) == Go(e) && Done(e)
    requires s != "" ==> !KeyChar(s[0]) && !IsBlank(s[0])
    ensures s != "" && (s[0] == '=' || LineEnd(s[0]) || (r.at == SpaceAfterKey && s[0] in "#{}"))
  {
    assert s != "" && Read(ordered, r, s[0]).Go?;
  }

  // All nodes of a list, some of which have been found; r1 is where they lead.
  lemma {:induction false} FindNodes(ordered: bool, r: Reading, s: string, e: Reading, found: seq<Node>, r1: Reading)
    returns (nodes: seq<Node>)
    requires Between(r) && ReadAll(ordered, r, s) == Go(e) && Done(e)
    requires AllFormed(ordered, found) && AllEnded(found) && NodesText(found) <= s
    requires ReadAll(ordered, r, NodesText(found)) == Go(r1) && Between(r1) && r1.top.keys == Tree(ordered, found)
    requires r1.at == WaitingForKeyOrBrace ==> Settled(s[|NodesText(found)|..])
    ensures AllFormed(ordered, nodes) && NodesText(nodes) <= s && Finished(nodes, s[|NodesText(nodes)|..])
    decreases |s| - |NodesText(found)|, 4
  {
    var t := NodesText(found);
    var u := s[|t|..];
    Rest(ordered, r, s, t, r1, e);
    if u == "" || u[0] == '}' {
      nodes := found;
    } else {
      var n := NextNode(ordered, r1, u, e);
      nodes := found + [n];
      assert nodes[..|found|] == found;
      Prefixes(s, t, NodeText(n));
      if Ended(n) {
        var r2 := ReadNode(ordered, r1, n);
        Compose(ordered, r, t, r1, NodeText(n), Go(r2));
        nodes := FindNodes(ordered, r, s, e, nodes, r2);
      }
    }
  }

  lemma {:induction false} NextNode(ordered: bool, r: Reading, s: string, e: Reading) returns (n: Node)
    requires Between(r) && ReadAll(ordered, r, s) == Go(e) && Done(e) && s != "" && s[0] != '}'
    requires r.at == WaitingForKeyOrBrace ==> Settled(s)
    ensures Formed(ordered, n) && New(r.top.keys, KeyOf(ordered, n)) && NodeText(n) <= s && NodeText(n) != ""
    ensures !n.Gap? ==> Found(ordered, r, s, n)
    ensures n.Gap? ==> r.at != WaitingForKeyOrBrace
    decreases |s|, 3
  {
    if KeyChar(s[0]) {
      n := FindNode(ordered, r, s, e);
    } else {
      assert Read(ordered, r, s[0]).Go?;
      var f := FindFiller(ordered, r, s, e);
      n := Gap(f);
    }
  }

  // ---------------------------------------------------------------- whole files

  // A file of whole lines.
  ghost predicate Lines(ordered: bool, nodes: seq<Node>) {
    AllFormed(ordered, nodes) && AllEnded(nodes)
  }

  // The last line has a value, and after it a quote or a blank, but no end.
  ghost predicate Open(ordered: bool, nodes: seq<Node>) {
    nodes != [] && AllFormed(ordered, nodes) && nodes[|nodes| - 1].Setting? && nodes[|nodes| - 1].stop == []
  }

  ghost predicate EndsInValue(ordered: bool, s: string) {
    exists nodes :: Open(ordered, nodes) && NodesText(nodes) == s
  }

  // The last key has an empty value, and is not in the tree.
  ghost predicate EmptyAtEnd(ordered: bool, nodes: seq<Node>, keys: seq<Key>)
    requires Open(ordered, nodes)
  {
    var last := nodes[|nodes| - 1];
    && last.value.Meaning() == "" && FindName(Tree(ordered, nodes), last.name) == |Tree(ordered, nodes)|
    && keys == Added(ordered, Tree(ordered, nodes), Value(last.name, ""))
  }

  // What a file stands for: the last line may lack its newline, but must not end after a value, unless it is empty.
  ghost predicate StandsFor(ordered: bool, s: string, keys: seq<Key>) {
    if EndsInValue(ordered, s) then
      exists nodes :: Open(ordered, nodes) && NodesText(nodes) == s && EmptyAtEnd(ordered, nodes, keys)
    else exists nodes :: Lines(ordered, nodes) && NodesText(nodes) == s + "\n" && Tree(ordered, nodes) == keys
  }

  // What parse and then end_parsing make of a file.
  ghost function Parsed(ordered: bool, s: string): Ending {
    match ReadAll(ordered, FRESH, s)
    case Go(r) => End(ordered, r)
    case Fail => Rejected
  }

  lemma {:induction false} LinesRead(ordered: bool, nodes: seq<Node>) returns (e: Reading)
    requires Lines(ordered, nodes)
    ensures ReadAll(ordered, FRESH, NodesText(nodes)) == Go(e) && e.top.keys == Tree(ordered, nodes) && e.outer == []
    ensures e.at == Initial || e.at == WaitingForKeyOrBrace
  {
    e := ReadNodes(ordered, FRESH, nodes);
  }

  lemma {:induction false} OpenRead(ordered: bool, nodes: seq<Node>) returns (e: Reading)
    requires Open(ordered, nodes)
    ensures ReadAll(ordered, FRESH, NodesText(nodes)) == Go(e) && e.top.keys == Tree(ordered, nodes) && e.outer == []
    ensures var last := nodes[|nodes| - 1];
            e.at == SpaceAfterValue && e.key == last.name && e.value == last.value.Meaning()
  {
    var r0 := ReadNodes(ordered, FRESH, nodes[..|nodes| - 1]);
    e := ReadLastSetting(ordered, FRESH, nodes, r0);
  }

  /** A text that is read to the end of a line, or of a value, is one of the grammar. */
  lemma {:induction false} FindFile(ordered: bool, s: string, e: Reading) returns (nodes: seq<Node>)
    requires ReadAll(ordered, FRESH, s) == Go(e) && Done(e)
    ensures NodesText(nodes) == s && if e.at == SpaceAfterValue then Open(ordered, nodes) else Lines(ordered, nodes)
  {
    nodes := FindNodes(ordered, FRESH, s, e, [], FRESH);
    if AllEnded(nodes) {
      LinesWhole(ordered, s, e, nodes);
    } else {
      LastOpen(ordered, nodes);
      if nodes[|nodes| - 1].Setting? {
        OpenWhole(ordered, s, e, nodes);
      } else {
        OpenHeading(ordered, s, e, nodes);
      }
    }
  }

  lemma {:induction false} LastOpen(ordered: bool, nodes: seq<Node>)
    requires AllFormed(ordered, nodes) && !AllEnded(nodes)
    ensures nodes != [] && !Ended(nodes[|nodes| - 1])
  {
    var n := |nodes| - 1;
    assert forall i :: 0 <= i < n ==> nodes[..n][i] == nodes[i];
  }

  lemma {:induction false} OpenWhole(ordered: bool, s: string, e: Reading, nodes: seq<Node>)
    requires ReadAll(ordered, FRESH, s) == Go(e) && Open(ordered, nodes)
    requires NodesText(nodes) <= s && s[|NodesText(nodes)|..] == ""
    ensures NodesText(nodes) == s && e.at == SpaceAfterValue
  {
    var r := OpenRead(ordered, nodes);
    Whole(s, NodesText(nodes));
  }

  lemma {:induction false} LinesWhole(ordered: bool, s: string, e: Reading, nodes: seq<Node>)
    requires ReadAll(ordered, FRESH, s) == Go(e) && Done(e)
    requires Lines(ordered, nodes) && NodesText(nodes) <= s && Finished(nodes, s[|NodesText(nodes)|..])
    ensures NodesText(nodes) == s && e.at != SpaceAfterValue
  {
    var t := NodesText(nodes);
    var r := LinesRead(ordered, nodes);
    Rest(ordered, FRESH, s, t, r, e);
    if s[|t|..] != "" {
      AfterClose(ordered, r, s[|t|..], e);
    }
    Whole(s, t);
  }

  // A name before a closing brace does not end a file.
  lemma {:induction false} OpenHeading(ordered: bool, s: string, e: Reading, nodes: seq<Node>)
    requires ReadAll(ordered, FRESH, s) == Go(e) && Done(e)
    requires AllFormed(ordered, nodes) && !AllEnded(nodes) && !nodes[|nodes| - 1].Setting?
    requires NodesText(nodes) <= s
    ensures !Finished(nodes, s[|NodesText(nodes)|..])
  {
    var n := |nodes| - 1;
    var last, u := nodes[n], s[|NodesText(nodes)|..];
    if Finished(nodes, u) {
      assert nodes == nodes[..n] + [last];
      var r0 := ReadNodes(ordered, FRESH, nodes[..n]);
      var r1 := ReadLastName(ordered, FRESH, NodesText(nodes[..n]), r0, last.name, last.blanks);
      BareHeading(last);
      Rest(ordered, FRESH, s, NodesText(nodes), r1, e);
      AfterClose(ordered, r1, u, e);
    }
  }

  // The end of the file is like the end of a line, but not after a value that has been added.
  lemma {:induction false} EndOfLine(ordered: bool, r: Reading, keys: seq<Key>)
    requires Resumes(r.prev) && (r.at == SpaceAfterValue ==> r.outer != [])
    ensures End(ordered, r) == Accepted(keys) <==>
              var o := Read(ordered, r, '\n');
              o.Go? && o.r.outer == [] && (o.r.at == Initial || o.r.at == WaitingForKeyOrBrace) && o.r.top.keys == keys
  {
    BlankNotKey();
    assert !ValueChar('\n');
  }

  lemma {:induction false} PrevResumes(ordered: bool, s: string, r: Reading)
    requires ReadAll(ordered, FRESH, s) == Go(r)
    ensures Resumes(r.prev)
  {

    ReadAllSane(ordered, FRESH, s);
  }

  /** A file is accepted if and only if it is one of the grammar, and then with the tree that it stands for. */
  lemma {:induction false} FileExact(ordered: bool, s: string, keys: seq<Key>)
    ensures Parsed(ordered, s) == Accepted(keys) <==> StandsFor(ordered, s, keys)
  {
    if EndsInValue(ordered, s) {
      ValueLast(ordered, s, keys);
    } else {
      LineLast(ordered, s, keys);
    }
  }

  lemma {:induction false} ValueLast(ordered: bool, s: string, keys: seq<Key>)
    requires EndsInValue(ordered, s)
    ensures Parsed(ordered, s) == Accepted(keys) <==> StandsFor(ordered, s, keys)
  {
    var nodes :| Open(ordered, nodes) && NodesText(nodes) == s;
    var r := OpenRead(ordered, nodes);
    EndAfterValue(ordered, s, r);
    if StandsFor(ordered, s, keys) {
      var again :| Open(ordered, again) && NodesText(again) == s && EmptyAtEnd(ordered, again, keys);
      var r' := OpenRead(ordered, again);
    }
    if Parsed(ordered, s) == Accepted(keys) {
      assert EmptyAtEnd(ordered, nodes, keys);
    }
  }

  lemma {:induction false} LineLast(ordered: bool, s: string, keys: seq<Key>)
    requires !EndsInValue(ordered, s)
    ensures Parsed(ordered, s) == Accepted(keys) <==> StandsFor(ordered, s, keys)
  {
    var line := s + "\n";
    if StandsFor(ordered, s, keys) {
      var nodes :| Lines(ordered, nodes) && NodesText(nodes) == line && Tree(ordered, nodes) == keys;
      var e := LinesRead(ordered, nodes);
      ReadSplit(ordered, FRESH, s, "\n");
      LineEnds(ordered, s, keys);
    }
    if Parsed(ordered, s) == Accepted(keys) {
      LineEnds(ordered, s, keys);
      var e := ReadAll(ordered, FRESH, line).r;
      var nodes := FindFile(ordered, line, e);
      var e' := LinesRead(ordered, nodes);
    }
  }

  // The file has been read.
  lemma {:induction false} LineEnds(ordered: bool, s: string, keys: seq<Key>)
    requires !EndsInValue(ordered, s) && ReadAll(ordered, FRESH, s).Go?
    ensures Parsed(ordered, s) == Accepted(keys) <==>
              var o := ReadAll(ordered, FRESH, s + "\n");
              o.Go? && o.r.outer == [] && (o.r.at == Initial || o.r.at == WaitingForKeyOrBrace) && o.r.top.keys == keys
  {
    var r := ReadAll(ordered, FRESH, s).r;
    if r.at == SpaceAfterValue && r.outer == [] {
      var nodes := FindFile(ordered, s, r);
    }
    PrevResumes(ordered, s, r);
    EndOfLine(ordered, r, keys);
    Extend(ordered, FRESH, s, r, '\n');
  }

  /** A comment in the first line of a file makes no difference. */
  lemma {:induction false} CommentSkipped(ordered: bool, t: string, s: string)
    requires '\n' !in t
    ensures Parsed(ordered, "#" + t + "\n" + s) == Parsed(ordered, s)
  {
    ReadComment(ordered, FRESH, t, FRESH.(at := Comment));
    Compose(ordered, FRESH, "#" + t + "\n", FRESH, s, ReadAll(ordered, FRESH, s));
  }

  lemma {:induction false} OneSetting(ordered: bool)
    ensures ReadAll(ordered, FRESH, "a=b\n") == AddValue(ordered, NAMED.(at := InValue, value := "b"), Initial)
  {
    var r := NAMED.(at := InValue, value := "b");
    ReadNamed(ordered);
    Extend(ordered, FRESH, "a=", NAMED, 'b');
    Extend(ordered, FRESH, "a=" + ['b'], r, '\n');
    assert "a=" + ['b'] + ['\n'] == "a=b\n";
  }

  /** The file `#c`, newline, `a=b`, newline: the comment ends with its line. */
  lemma {:induction false} CommentFirst(ordered: bool)
    ensures Parsed(ordered, "#c\na=b\n") == Accepted([Value("a", "b")])
  {
    CommentSkipped(ordered, "c", "a=b\n");
    OneSetting(ordered);
    AddFitting(ordered, NAMED.(at := InValue, value := "b"), Value("a", "b"), Initial);
    assert "#" + "c" + "\n" + "a=b\n" == "#c\na=b\n";
  }
}
