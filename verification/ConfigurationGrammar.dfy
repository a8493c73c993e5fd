/**
 The grammar of configuration files, the tree that a file stands for, and how the parser of util/configuration.cpp reads
 each piece of it.
 */
module ConfigurationGrammar {
  import opened CaseOrder
  import opened ConfigurationReading
  import opened KeyLists
  import opened Text
  import opened Wrappers

  // ---------------------------------------------------------------- grammar

  predicate IsSpace(c: char) {
    c == ' ' || c == '\t' || c == '\r' || c == '\n'
  }

  /** The characters of names and of unquoted values. */
  lemma {:induction false} Characters(c: char)
    ensures KeyChar(c) <==> Alphanumeric(c) || c in "-_.:"
    ensures ValueChar(c) <==> Alphanumeric(c) || c in "-_.+/:@"
  {
    InRanges(c);
  }

  // What may stand between keys: a blank, an end of line, or a comment with the end of its line.
  datatype Filler = Space(c: char) | Remark(text: string) {
    predicate Valid() {
      match this
      case Space(c) => IsSpace(c)
      case Remark(text) => '\n' !in text
    }

    predicate EndsLine() {
      match this
      case Space(c) => c == '\r' || c == '\n'
      case Remark(text) => '\n' !in text
    }

    function Text(): string {
      match this
      case Space(c) => [c]
      case Remark(text) => "#" + text + "\n"
    }
  }

  function FillersText(fillers: seq<Filler>): string {
    if fillers == [] then "" else FillersText(fillers[..|fillers| - 1]) + fillers[|fillers| - 1].Text()
  }

  predicate AllValid(fillers: seq<Filler>) {
    forall i :: 0 <= i < |fillers| ==> fillers[i].Valid()
  }

  // A character between quotes, written as itself or with a backslash before a letter.
  datatype Symbol = Letter(c: char) | Escape(letter: char, c: char) {
    predicate Valid() {
      match this
      case Letter(c) => c != '"' && c != '\\'
      case Escape(letter, c) =>
        || (letter == c && (c == '"' || c == '\'' || c == '\\'))
        || (letter == 't' && c == '\t') || (letter == 'r' && c == '\r') || (letter == 'n' && c == '\n')
    }

    function Text(): string {
      match this
      case Letter(c) => [c]
      case Escape(letter, _) => ['\\'] + [letter]
    }
  }

  function SymbolsText(symbols: seq<Symbol>): string {
    if symbols == [] then "" else SymbolsText(symbols[..|symbols| - 1]) + symbols[|symbols| - 1].Text()
  }

  function Meant(symbols: seq<Symbol>): (v: string)
    ensures |v| == |symbols| && forall i :: 0 <= i < |symbols| ==> v[i] == symbols[i].c
  {
    seq(|symbols|, i requires 0 <= i < |symbols| => symbols[i].c)
  }

  datatype Written = Bare(text: string) | Quoted(symbols: seq<Symbol>) {
    predicate Valid() {
      match this
      case Bare(text) => 0 < |text| <= VALUE_MAX_LEN && Plain(text)
      case Quoted(symbols) => |symbols| <= VALUE_MAX_LEN && forall i :: 0 <= i < |symbols| ==> symbols[i].Valid()
    }

    function Text(): string {
      match this
      case Bare(text) => text
      case Quoted(symbols) => ['"'] + SymbolsText(symbols) + ['"']
    }

    function Meaning(): string {
      match this
      case Bare(text) => text
      case Quoted(symbols) => Meant(symbols)
    }
  }

  // A file is a list of nodes, and so is what stands between two braces.
  datatype Node =
    | Gap(filler: Filler)
    | Setting(name: string, before: string, after: string, value: Written, blanks: string, stop: seq<Filler>)
    | Dropped(name: string, before: string, after: string, end: Filler)
    | Heading(name: string, blanks: string, gap: seq<Filler>)
    | Block(name: string, blanks: string, gap: seq<Filler>, open: char, body: seq<Node>, close: char)

  function NodeText(n: Node): string
    decreases n, 0
  {
    match n
    case Gap(filler) => filler.Text()
    case Setting(name, before, after, value, blanks, stop) => SettingText(n) + FillersText(stop)
    case Dropped(name, before, after, end) => name + before + ['='] + after + end.Text()
    case Heading(name, blanks, gap) => name + blanks + FillersText(gap)
    case Block(name, blanks, gap, open, body, close) =>
      name + blanks + FillersText(gap) + ['{'] + [open] + NodesText(body) + ['}'] + [close]
  }

  function SettingText(n: Node): string
    requires n.Setting?
  {
    n.name + n.before + ['='] + n.after + n.value.Text() + n.blanks
  }

  function NodesText(nodes: seq<Node>): string
    decreases nodes, 1
  {
    if nodes == [] then "" else NodesText(nodes[..|nodes| - 1]) + NodeText(nodes[|nodes| - 1])
  }

  // ---------------------------------------------------------------- the tree

  // The key that a node adds to its list: none for an empty value, nor for none at all.
  ghost function KeyOf(ordered: bool, n: Node): Option<Key>
    decreases n, 0
  {
    match n
    case Gap(_) => None
    case Setting(name, _, _, value, _, _) => if value.Meaning() == "" then None else Some(Value(name, value.Meaning()))
    case Dropped(_, _, _, _) => None
    case Heading(name, _, _) => Some(Section(name, []))
    case Block(name, _, _, _, body, _) => Some(Section(name, Tree(ordered, body)))
  }

  ghost function With(ordered: bool, keys: seq<Key>, k: Option<Key>): seq<Key> {
    if k.Some? then Added(ordered, keys, k.value) else keys
  }

  ghost function Tree(ordered: bool, nodes: seq<Node>): seq<Key>
    decreases nodes, 1
  {
    if nodes == [] then []
    else With(ordered, Tree(ordered, nodes[..|nodes| - 1]), KeyOf(ordered, nodes[|nodes| - 1]))
  }

  ghost predicate New(keys: seq<Key>, k: Option<Key>) {
    k.Some? ==> FindName(keys, k.value.name) == |keys|
  }

  // ---------------------------------------------------------------- what is well formed

  // A name in a line of its own; a brace on the same line needs a blank before it, and so does a comment.
  predicate Headed(name: string, blanks: string, gap: seq<Filler>) {
    && Name(name) && Blanks(blanks) && AllValid(gap)
    && if gap == [] then blanks != "" else gap[0].EndsLine() && (gap[0].Remark? ==> blanks != "")
  }

  // Nothing but the end of the line can follow an unquoted value directly.
  predicate Stops(value: Written, blanks: string, stop: seq<Filler>) {
    && |stop| <= 1 && (stop != [] ==> stop[0].EndsLine())
    && (value.Bare? && blanks == "" ==> stop != [] && stop[0].Space?)
  }

  // Something can follow.
  predicate Ended(n: Node) {
    match n
    case Setting(_, _, _, _, _, stop) => stop != []
    case Heading(_, _, gap) => gap != []
    case _ => true
  }

  predicate AllEnded(nodes: seq<Node>) {
    forall i :: 0 <= i < |nodes| ==> Ended(nodes[i])
  }

  predicate HasKey(nodes: seq<Node>) {
    exists i :: 0 <= i < |nodes| && !nodes[i].Gap?
  }

  // A closing brace can follow; there is none before the first key.
  predicate Closes(nodes: seq<Node>) {
    HasKey(nodes) && (Ended(nodes[|nodes| - 1]) || nodes[|nodes| - 1].Heading?)
  }

  ghost predicate Formed(ordered: bool, n: Node)
    decreases n, 0
  {
    match n
    case Gap(filler) => filler.Valid()
    case Setting(name, before, after, value, blanks, stop) =>
      Name(name) && Blanks(before) && Blanks(after) && value.Valid() && Blanks(blanks) && Stops(value, blanks, stop)
    case Dropped(name, before, after, end) =>
      Name(name) && Blanks(before) && Blanks(after) && end.EndsLine() && (end.Remark? ==> after != "")
    case Heading(name, blanks, gap) => Headed(name, blanks, gap)
    case Block(name, blanks, gap, open, body, close) =>
      Headed(name, blanks, gap) && IsSpace(open) && IsSpace(close) && Closes(body) && AllFormed(ordered, body)
  }

  // All nodes are well formed, all but the last have ended, and no name occurs twice in the list.
  ghost predicate AllFormed(ordered: bool, nodes: seq<Node>)
    decreases nodes, 1
  {
    nodes == [] ||
    var n := |nodes| - 1;
    && AllFormed(ordered, nodes[..n]) && AllEnded(nodes[..n]) && Formed(ordered, nodes[n])
    && New(Tree(ordered, nodes[..n]), KeyOf(ordered, nodes[n]))
  }

  // ---------------------------------------------------------------- reading the pieces

  lemma {:induction false} ReadBlanks(ordered: bool, r: Reading, b: string)
    requires Blanks(b) && (r.at == SpaceAfterKey || r.at == SpaceAfterEqual || r.at == SpaceAfterValue)
    ensures ReadAll(ordered, r, b) == Go(r)
    decreases |b|
  {
    if b != "" {
      assert IsBlank(b[0]);
      ReadBlanks(ordered, r, b[1..]);
    }
  }

  // What the first blank does is known.
  lemma {:induction false} BlanksFrom(ordered: bool, r: Reading, b: string, r1: Reading)
    requires Blanks(b) && (r1.at == SpaceAfterKey || r1.at == SpaceAfterEqual || r1.at == SpaceAfterValue)
    requires forall c: char :: IsBlank(c) ==> Read(ordered, r, c) == Go(r1)
    ensures ReadAll(ordered, r, b) == Go(if b == "" then r else r1)
  {
    if b != "" {
      assert IsBlank(b[0]);
      ReadBlanks(ordered, r1, b[1..]);
    }
  }

  lemma {:induction false} ReadRemark(ordered: bool, r: Reading, t: string)
    requires r.at == Comment && '\n' !in t
    ensures ReadAll(ordered, r, t) == Go(r)
    decreases |t|
  {
    if t != "" {
      ReadRemark(ordered, r, t[1..]);
    }
  }

  /** A comment reaches to the next newline, and what comes after it is read as if the comment were not there. */
  lemma {:induction false} ReadComment(ordered: bool, r: Reading, t: string, r1: Reading)
    requires '\n' !in t && Read(ordered, r, '#') == Go(r1) && r1.at == Comment
    ensures ReadAll(ordered, r, "#" + t + "\n") == Go(r1.(at := r1.prev))
  {
    ReadOne(ordered, r, '#');
    ReadRemark(ordered, r1, t);
    Compose(ordered, r, ['#'], r1, t, Go(r1));
    Extend(ordered, r, ['#'] + t, r1, '\n');
    assert ['#'] + t + ['\n'] == "#" + t + "\n";
  }

  lemma {:induction false} ReadFiller(ordered: bool, r: Reading, f: Filler) returns (r1: Reading)
    requires Between(r) && f.Valid()
    ensures ReadAll(ordered, r, f.Text()) == Go(r1) && r1 == r.(prev := r1.prev)
  {
    match f
    case Space(c) =>
      ReadOne(ordered, r, c);
      r1 := r;
    case Remark(t) =>
      ReadComment(ordered, r, t, r.(prev := r.at, at := Comment));
      r1 := r.(prev := r.at);
  }

  lemma {:induction false} ReadFillers(ordered: bool, r: Reading, fillers: seq<Filler>) returns (r1: Reading)
    requires Between(r) && AllValid(fillers)
    ensures ReadAll(ordered, r, FillersText(fillers)) == Go(r1) && r1 == r.(prev := r1.prev)
  {
    if fillers == [] {
      r1 := r;
    } else {
      var n := |fillers| - 1;
      var r0 := ReadFillers(ordered, r, fillers[..n]);
      r1 := ReadFiller(ordered, r0, fillers[n]);
      Compose(ordered, r, FillersText(fillers[..n]), r0, fillers[n].Text(), Go(r1));
    }
  }

  lemma {:induction false} ReadSymbol(ordered: bool, r: Reading, s: Symbol)
    requires r.at == InQuoted && s.Valid() && |r.value| < VALUE_MAX_LEN
    ensures ReadAll(ordered, r, s.Text()) == Go(r.(value := r.value + [s.c]))
  {
    match s
    case Letter(c) => ReadOne(ordered, r, c);
    case Escape(letter, c) =>
      ReadOne(ordered, r, '\\');
      Extend(ordered, r, ['\\'], r.(at := InEscape), letter);
  }

  lemma {:induction false} ReadSymbols(ordered: bool, r: Reading, symbols: seq<Symbol>)
    requires r.at == InQuoted && r.value == "" && Quoted(symbols).Valid()
    ensures ReadAll(ordered, r, SymbolsText(symbols)) == Go(r.(value := Meant(symbols)))
    decreases |symbols|
  {
    if symbols == [] {
      assert Meant(symbols) == "";
    } else {
      var n := |symbols| - 1;
      ReadSymbols(ordered, r, symbols[..n]);
      var r1 := r.(value := Meant(symbols[..n]));
      ReadSymbol(ordered, r1, symbols[n]);
      assert Meant(symbols) == Meant(symbols[..n]) + [symbols[n].c];
      Compose(ordered, r, SymbolsText(symbols[..n]), r1, symbols[n].Text(), Go(r.(value := Meant(symbols))));
    }
  }

  // ---------------------------------------------------------------- reading a key

  lemma {:induction false} ReadWholeName(ordered: bool, r: Reading, name: string)
    requires Between(r) && Name(name)
    ensures ReadAll(ordered, r, name) == Go(r.(key := name, at := InKey))
  {
    ReadName(ordered, r, name, |name|);
    assert name[..|name|] == name;
  }

  lemma {:induction false} BlankNotKey()
    ensures !KeyChar(' ') && !KeyChar('\t') && !KeyChar('=') && !KeyChar('\r') && !KeyChar('\n')
  {
  }

  // A name and the blanks after it.
  lemma {:induction false} ReadNameBlanks(ordered: bool, r: Reading, name: string, b: string)
    requires Between(r) && Name(name) && Blanks(b)
    ensures ReadAll(ordered, r, name + b) == Go(r.(key := name, at := if b == "" then InKey else SpaceAfterKey))
  {
    ReadWholeName(ordered, r, name);
    var r1 := r.(key := name, at := InKey);
    BlankNotKey();
    BlanksFrom(ordered, r1, b, r1.(at := SpaceAfterKey));
    Compose(ordered, r, name, r1, b, ReadAll(ordered, r1, b));
  }

  // A name, the equals sign and the blanks around it.
  lemma {:induction false} ReadAssign(ordered: bool, r: Reading, name: string, before: string, after: string)
    requires Between(r) && Name(name) && Blanks(before) && Blanks(after)
    ensures ReadAll(ordered, r, name + before + ['='] + after) ==
              Go(r.(key := name, at := if after == "" then AfterEqual else SpaceAfterEqual))
  {
    var r1 := r.(key := name, at := if before == "" then InKey else SpaceAfterKey);
    var r2 := r.(key := name, at := AfterEqual);
    ReadNameBlanks(ordered, r, name, before);
    BlankNotKey();
    Extend(ordered, r, name + before, r1, '=');
    BlanksFrom(ordered, r2, after, r2.(at := SpaceAfterEqual));
    Compose(ordered, r, name + before + ['='], r2, after, ReadAll(ordered, r2, after));
  }

  // Up to the closing quote, which is still to come.
  lemma {:induction false} ReadOpenQuote(ordered: bool, r: Reading, symbols: seq<Symbol>)
    requires (r.at == AfterEqual || r.at == SpaceAfterEqual) && Quoted(symbols).Valid()
    ensures ReadAll(ordered, r, ['"'] + SymbolsText(symbols)) == Go(r.(value := Meant(symbols), at := InQuoted))
  {
    var r1 := r.(value := "", at := InQuoted);
    ReadOne(ordered, r, '"');
    ReadSymbols(ordered, r1, symbols);
    Compose(ordered, r, ['"'], r1, SymbolsText(symbols), Go(r1.(value := Meant(symbols))));
  }

  // ---------------------------------------------------------------- reading a setting

  // Where the reading stands after a value that was followed by a quote or a blank.
  ghost predicate HasValue(ordered: bool, r: Reading, name: string, value: string, r1: Reading) {
    && r1.at == SpaceAfterValue && r1.key == name && r1.value == value && r1.outer == r.outer
    && r1.top.keys == With(ordered, r.top.keys, ValueKey(name, value))
  }

  ghost function ValueKey(name: string, value: string): Option<Key> {
    if value == "" then None else Some(Value(name, value))
  }

  lemma {:induction false} ReadBareBlanks(ordered: bool, r: Reading, text: string, b: string) returns (r1: Reading)
    requires (r.at == AfterEqual || r.at == SpaceAfterEqual) && Bare(text).Valid() && Blanks(b)
    requires b != "" ==> New(r.top.keys, Some(Value(r.key, text)))
    ensures ReadAll(ordered, r, text + b) == Go(r1)
    ensures if b == "" then r1 == r.(value := text, at := InValue) else HasValue(ordered, r, r.key, text, r1)
  {
    var r0 := r.(value := text, at := InValue);
    ReadPlain(ordered, r, text, |text|);
    assert text[..|text|] == text;
    if b == "" {
      r1 := r0;
      assert text + b == text;
    } else {
      r1 := AddValue(ordered, r0, SpaceAfterValue).r;
      BlanksFrom(ordered, r0, b, r1);
      Compose(ordered, r, text, r0, b, Go(r1));
    }
  }

  lemma {:induction false} ReadQuotedBlanks(ordered: bool, r: Reading, symbols: seq<Symbol>, b: string)
    returns (r1: Reading)
    requires (r.at == AfterEqual || r.at == SpaceAfterEqual) && Quoted(symbols).Valid() && Blanks(b)
    requires New(r.top.keys, ValueKey(r.key, Meant(symbols)))
    ensures ReadAll(ordered, r, Quoted(symbols).Text() + b) == Go(r1)
    ensures HasValue(ordered, r, r.key, Meant(symbols), r1)
  {
    var r0 := r.(value := Meant(symbols), at := InQuoted);
    ReadOpenQuote(ordered, r, symbols);
    Extend(ordered, r, ['"'] + SymbolsText(symbols), r0, '"');
    r1 := if r0.value == "" then r0.(at := SpaceAfterValue) else AddValue(ordered, r0, SpaceAfterValue).r;
    ReadBlanks(ordered, r1, b);
    Compose(ordered, r, Quoted(symbols).Text(), r1, b, Go(r1));
  }

  lemma {:induction false} ReadWritten(ordered: bool, r: Reading, value: Written, b: string) returns (r1: Reading)
    requires (r.at == AfterEqual || r.at == SpaceAfterEqual) && value.Valid() && Blanks(b)
    requires New(r.top.keys, ValueKey(r.key, value.Meaning()))
    ensures ReadAll(ordered, r, value.Text() + b) == Go(r1)
    ensures if value.Bare? && b == "" then r1 == r.(value := value.text, at := InValue)
            else HasValue(ordered, r, r.key, value.Meaning(), r1)
  {
    match value
    case Bare(text) => r1 := ReadBareBlanks(ordered, r, text, b);
    case Quoted(symbols) => r1 := ReadQuotedBlanks(ordered, r, symbols, b);
  }

  // A setting, up to the end of its line.
  lemma {:induction false} ReadSettingFront(ordered: bool, r: Reading, n: Node) returns (r1: Reading)
    requires Between(r) && n.Setting? && Formed(ordered, n) && New(r.top.keys, KeyOf(ordered, n))
    ensures ReadAll(ordered, r, SettingText(n)) == Go(r1)
    ensures if n.value.Bare? && n.blanks == ""
            then r1 == r.(key := n.name, value := n.value.text, at := InValue)
            else HasValue(ordered, r, n.name, n.value.Meaning(), r1)
  {
    var t := n.name + n.before + ['='] + n.after;
    ReadAssign(ordered, r, n.name, n.before, n.after);
    var r0 := r.(key := n.name, at := if n.after == "" then AfterEqual else SpaceAfterEqual);
    r1 := ReadWritten(ordered, r0, n.value, n.blanks);
    Compose(ordered, r, t, r0, n.value.Text() + n.blanks, Go(r1));
    Grouped(t, n.value.Text(), n.blanks);
  }

  lemma {:induction false} OneFiller(f: Filler)
    ensures FillersText([f]) == f.Text()
  {
    assert [f][..0] == [] && "" + f.Text() == f.Text();
  }

  // The node has been read as it should be.
  ghost predicate Took(ordered: bool, r: Reading, n: Node, r1: Reading) {
    && r1.outer == r.outer && r1.top.keys == With(ordered, r.top.keys, KeyOf(ordered, n)) && Between(r1)
    && r1.at == match n
                case Gap(_) => r.at
                case Heading(_, _, _) => WaitingForKeyOrBrace
                case _ => Initial
  }

  lemma {:induction false} ReadSetting(ordered: bool, r: Reading, n: Node) returns (r1: Reading)
    requires Between(r) && n.Setting? && Formed(ordered, n) && Ended(n) && New(r.top.keys, KeyOf(ordered, n))
    ensures ReadAll(ordered, r, NodeText(n)) == Go(r1) && Took(ordered, r, n, r1)
  {
    var r0 := ReadSettingFront(ordered, r, n);
    var f := n.stop[0];
    OneFiller(f);
    r1 := ReadStop(ordered, r0, f);
    Compose(ordered, r, SettingText(n), r0, f.Text(), Go(r1));
  }

  // The end of a line with a value.
  lemma {:induction false} ReadStop(ordered: bool, r: Reading, f: Filler) returns (r1: Reading)
    requires f.EndsLine() && (r.at == SpaceAfterValue || (r.at == InValue && f.Space?))
    requires r.at == InValue ==> New(r.top.keys, Some(Value(r.key, r.value)))
    ensures ReadAll(ordered, r, f.Text()) == Go(r1) && r1.at == Initial && r1.outer == r.outer
    ensures r1.top.keys ==
              if r.at == InValue then With(ordered, r.top.keys, Some(Value(r.key, r.value))) else r.top.keys
  {
    match f
    case Space(c) =>
      ReadOne(ordered, r, c);
      r1 := Read(ordered, r, c).r;
    case Remark(t) =>
      ReadComment(ordered, r, t, r.(prev := Initial, at := Comment));
      r1 := r.(prev := Initial, at := Initial);
  }

  /** A key without a value is dropped, but its line has to be well formed. */
  lemma {:induction false} ReadDropped(ordered: bool, r: Reading, n: Node) returns (r1: Reading)
    requires Between(r) && n.Dropped? && Formed(ordered, n)
    ensures ReadAll(ordered, r, NodeText(n)) == Go(r1) && Took(ordered, r, n, r1)
  {
    ReadAssign(ordered, r, n.name, n.before, n.after);
    var r0 := r.(key := n.name, at := if n.after == "" then AfterEqual else SpaceAfterEqual);
    match n.end {
      case Space(c) =>
        ReadOne(ordered, r0, c);
        r1 := r0.(at := Initial);
      case Remark(t) =>
        ReadComment(ordered, r0, t, r0.(prev := Initial, at := Comment));
        r1 := r0.(prev := Initial, at := Initial);
    }
    Compose(ordered, r, n.name + n.before + ['='] + n.after, r0, n.end.Text(), Go(r1));
  }

  // ---------------------------------------------------------------- reading a section

  // The section is the last key of the list, at its place.
  ghost function SectionAdded(ordered: bool, keys: seq<Key>, name: string): Level {
    Level(Added(ordered, keys, Section(name, [])), PlaceOf(ordered, keys, name))
  }

  lemma {:induction false} FillersFirst(fillers: seq<Filler>)
    requires fillers != []
    ensures FillersText(fillers) == fillers[0].Text() + FillersText(fillers[1..])
    decreases |fillers|
  {
    var n := |fillers| - 1;
    var front, rest := fillers[..n], fillers[1..];
    if n == 0 {
      OneFiller(fillers[0]);
      assert fillers == [fillers[0]];
    } else {
      FillersFirst(front);
      assert front[1..] == rest[..n - 1] && rest[n - 1] == fillers[n];
      Grouped(fillers[0].Text(), FillersText(rest[..n - 1]), fillers[n].Text());
    }
  }

  lemma {:induction false} Grouped(a: string, b: string, c: string)
    ensures a + b + c == a + (b + c)
  {
  }

  // The name of a section, the end of its line and what follows.
  lemma {:induction false} ReadHeading(ordered: bool, r: Reading, name: string, blanks: string, gap: seq<Filler>)
    returns (r1: Reading)
    requires Between(r) && Headed(name, blanks, gap) && gap != [] && New(r.top.keys, Some(Section(name, [])))
    ensures ReadAll(ordered, r, name + blanks + FillersText(gap)) == Go(r1)
    ensures r1.at == WaitingForKeyOrBrace && r1.outer == r.outer && r1.top == SectionAdded(ordered, r.top.keys, name)
  {
    var t, line, more := name + blanks, gap[0].Text(), FillersText(gap[1..]);
    var r0 := ReadHeadingLine(ordered, r, name, blanks, gap[0]);
    r1 := ReadFillers(ordered, r0, gap[1..]);
    FillersFirst(gap);
    ComposeRight(ordered, r, t, line, r0, more, Go(r1));
  }

  lemma {:induction false} ComposeRight(ordered: bool, r: Reading, a: string, b: string, r1: Reading, c: string,
                                        o: Outcome)
    requires ReadAll(ordered, r, a + b) == Go(r1) && ReadAll(ordered, r1, c) == o
    ensures ReadAll(ordered, r, a + (b + c)) == o
  {
    Compose(ordered, r, a + b, r1, c, o);
    Grouped(a, b, c);
  }

  lemma {:induction false} ReadHeadingLine(ordered: bool, r: Reading, name: string, blanks: string, f: Filler)
    returns (r1: Reading)
    requires Between(r) && Headed(name, blanks, [f]) && New(r.top.keys, Some(Section(name, [])))
    ensures ReadAll(ordered, r, name + blanks + f.Text()) == Go(r1)
    ensures r1.at == WaitingForKeyOrBrace && r1.outer == r.outer && r1.top == SectionAdded(ordered, r.top.keys, name)
  {
    ReadNameBlanks(ordered, r, name, blanks);
    var r0 := r.(key := name, at := if blanks == "" then InKey else SpaceAfterKey);
    BlankNotKey();
    match f {
      case Space(c) =>
        ReadOne(ordered, r0, c);
        r1 := AddSection(ordered, r0, WaitingForKeyOrBrace).r;
      case Remark(t) =>
        var added := AddSection(ordered, r0, Comment).r;
        ReadComment(ordered, r0, t, added.(prev := WaitingForKeyOrBrace));
        r1 := added.(prev := WaitingForKeyOrBrace, at := WaitingForKeyOrBrace);
    }
    Compose(ordered, r, name + blanks, r0, f.Text(), Go(r1));
  }

  // The brace may stand in the line of the name, or after it.
  lemma {:induction false} ReadOpening(ordered: bool, r: Reading, name: string, blanks: string, gap: seq<Filler>,
                                       c: char)
    returns (r1: Reading)
    requires Between(r) && Headed(name, blanks, gap) && IsSpace(c) && New(r.top.keys, Some(Section(name, [])))
    ensures ReadAll(ordered, r, name + blanks + FillersText(gap) + ['{'] + [c]) == Go(r1) && r1.at == WaitingForKey
    ensures r1.outer == r.outer + [SectionAdded(ordered, r.top.keys, name)] && r1.top == Level([], 0)
  {
    var t := name + blanks + FillersText(gap);
    if gap == [] {
      ReadNameBlanks(ordered, r, name, blanks);
      assert t == name + blanks;
      r1 := ReadBrace(ordered, r, t, r.(key := name, at := SpaceAfterKey), c);
    } else {
      var r0 := ReadHeading(ordered, r, name, blanks, gap);
      r1 := ReadBrace(ordered, r, t, r0, c);
    }
  }

  lemma {:induction false} ReadBrace(ordered: bool, r: Reading, t: string, r0: Reading, c: char) returns (r1: Reading)
    requires ReadAll(ordered, r, t) == Go(r0) && IsSpace(c)
    requires r0.at == WaitingForKeyOrBrace || (r0.at == SpaceAfterKey && New(r0.top.keys, Some(Section(r0.key, []))))
    ensures ReadAll(ordered, r, t + ['{'] + [c]) == Go(r1) && r1.at == WaitingForKey && r1.top == Level([], 0)
    ensures r1.outer == r0.outer + [if r0.at == WaitingForKeyOrBrace then r0.top
                                    else SectionAdded(ordered, r0.top.keys, r0.key)]
  {
    var o := Read(ordered, r0, '{').r;
    Extend(ordered, r, t, r0, '{');
    Extend(ordered, r, t + ['{'], o, c);
    r1 := o.(at := WaitingForKey);
  }

  // The section that has been hung up is the one that would have been added with its children.
  lemma {:induction false} HungSection(ordered: bool, keys: seq<Key>, name: string, children: seq<Key>)
    ensures Hung(SectionAdded(ordered, keys, name), children) == Added(ordered, keys, Section(name, children))
  {
  }

  // ---------------------------------------------------------------- reading a list

  /** Well-formed nodes are read in order, and leave their tree in the list. */
  lemma {:induction false} ReadNodes(ordered: bool, r: Reading, nodes: seq<Node>) returns (r1: Reading)
    requires Between(r) && r.top.keys == [] && AllFormed(ordered, nodes) && AllEnded(nodes)
    ensures ReadAll(ordered, r, NodesText(nodes)) == Go(r1) && r1.outer == r.outer && Between(r1)
    ensures r1.top.keys == Tree(ordered, nodes)
    ensures if HasKey(nodes) then r1.at != WaitingForKey else r1.at == r.at
    decreases nodes, 1
  {
    if nodes == [] {
      r1 := r;
    } else {
      var n := |nodes| - 1;
      var r0 := ReadNodes(ordered, r, nodes[..n]);
      r1 := ReadNode(ordered, r0, nodes[n]);
      Compose(ordered, r, NodesText(nodes[..n]), r0, NodeText(nodes[n]), Go(r1));
      HasKeyLast(nodes);
    }
  }

  lemma {:induction false} HasKeyLast(nodes: seq<Node>)
    requires nodes != []
    ensures var n := |nodes| - 1; HasKey(nodes) <==> HasKey(nodes[..n]) || !nodes[n].Gap?
  {
    var n := |nodes| - 1;
    if HasKey(nodes[..n]) {
      var i :| 0 <= i < n && !nodes[..n][i].Gap?;
      assert !nodes[i].Gap?;
    }
    if HasKey(nodes) && nodes[n].Gap? {
      var i :| 0 <= i < |nodes| && !nodes[i].Gap?;
      assert !nodes[..n][i].Gap?;
    }
  }

  lemma {:induction false} ReadNode(ordered: bool, r: Reading, n: Node) returns (r1: Reading)
    requires Between(r) && Formed(ordered, n) && Ended(n) && New(r.top.keys, KeyOf(ordered, n))
    ensures ReadAll(ordered, r, NodeText(n)) == Go(r1) && Took(ordered, r, n, r1)
    decreases n, 0
  {
    match n
    case Gap(f) => r1 := ReadFiller(ordered, r, f);
    case Setting(_, _, _, _, _, _) => r1 := ReadSetting(ordered, r, n);
    case Dropped(_, _, _, _) => r1 := ReadDropped(ordered, r, n);
    case Heading(name, blanks, gap) => r1 := ReadHeading(ordered, r, name, blanks, gap);
    case Block(name, blanks, gap, open, body, close) =>
      var r0 := ReadOpening(ordered, r, name, blanks, gap, open);
      r1 := ReadBody(ordered, r0, body, close);
      var t := name + blanks + FillersText(gap) + ['{'] + [open];
      var u := NodesText(body) + ['}'] + [close];
      Compose(ordered, r, t, r0, u, Go(r1));
      Joined(t, NodesText(body), ['}'], [close]);
      assert r0.outer[..|r.outer|] == r.outer;
      HungSection(ordered, r.top.keys, name, Tree(ordered, body));
  }

  lemma {:induction false} Joined(t: string, a: string, b: string, c: string)
    ensures t + a + b + c == t + (a + b + c)
  {
  }

  // A list and the brace that closes it.
  lemma {:induction false} ReadBody(ordered: bool, r: Reading, body: seq<Node>, close: char) returns (r1: Reading)
    requires Between(r) && r.top.keys == [] && r.outer != [] && Closes(body) && AllFormed(ordered, body) &&
             IsSpace(close)
    ensures ReadAll(ordered, r, NodesText(body) + ['}'] + [close]) == Go(r1) && r1.at == Initial
    ensures var n := |r.outer| - 1;
            r1.outer == r.outer[..n] && r1.top.keys == Hung(r.outer[n], Tree(ordered, body))
    decreases body, 2
  {
    var n := |body| - 1;
    var t, last := NodesText(body), body[n];
    if Ended(last) {
      assert body == body[..n] + [last];
      var r0 := ReadNodes(ordered, r, body);
      r1 := ReadClosing(ordered, r, t, r0, close);
    } else {
      var front := NodesText(body[..n]);
      var before := ReadNodes(ordered, r, body[..n]);
      var r0 := ReadLastName(ordered, r, front, before, last.name, last.blanks);
      BareHeading(last);
      r1 := ReadClosing(ordered, r, t, r0, close);
    }
  }

  lemma {:induction false} ReadLastName(ordered: bool, r: Reading, front: string, r0: Reading, name: string, b: string)
    returns (r1: Reading)
    requires ReadAll(ordered, r, front) == Go(r0) && Between(r0) && Name(name) && Blanks(b) && b != ""
    ensures ReadAll(ordered, r, front + (name + b)) == Go(r1)
    ensures r1.at == SpaceAfterKey && r1.key == name && r1.outer == r0.outer && r1.top == r0.top
  {
    ReadNameBlanks(ordered, r0, name, b);
    r1 := r0.(key := name, at := SpaceAfterKey);
    Compose(ordered, r, front, r0, name + b, Go(r1));
  }

  lemma {:induction false} BareHeading(n: Node)
    requires n.Heading? && n.gap == []
    ensures NodeText(n) == n.name + n.blanks
  {
  }

  lemma {:induction false} ReadClosing(ordered: bool, r: Reading, t: string, r0: Reading, c: char) returns (r1: Reading)
    requires ReadAll(ordered, r, t) == Go(r0) && IsSpace(c) && r0.outer != []
    requires || r0.at == WaitingForKeyOrBrace || r0.at == Initial
             || (r0.at == SpaceAfterKey && New(r0.top.keys, Some(Section(r0.key, []))))
    ensures ReadAll(ordered, r, t + ['}'] + [c]) == Go(r1) && r1.at == Initial
    ensures var n := |r0.outer| - 1;
            r1.outer == r0.outer[..n] && r1.top.keys ==
              Hung(r0.outer[n], if r0.at == SpaceAfterKey then SectionAdded(ordered, r0.top.keys, r0.key).keys
                                else r0.top.keys)
  {
    var o := ClosingBrace(ordered, r0);
    Extend(ordered, r, t, r0, '}');
    Extend(ordered, r, t + ['}'], o, c);
    r1 := o.(at := Initial);
  }

  lemma {:induction false} ClosingBrace(ordered: bool, r0: Reading) returns (r1: Reading)
    requires r0.outer != []
    requires || r0.at == WaitingForKeyOrBrace || r0.at == Initial
             || (r0.at == SpaceAfterKey && New(r0.top.keys, Some(Section(r0.key, []))))
    ensures Read(ordered, r0, '}') == Go(r1) && r1.at == AfterClosingBrace
    ensures var n := |r0.outer| - 1;
            r1.outer == r0.outer[..n] && r1.top.keys ==
              Hung(r0.outer[n], if r0.at == SpaceAfterKey then SectionAdded(ordered, r0.top.keys, r0.key).keys
                                else r0.top.keys)
  {
    r1 := Read(ordered, r0, '}').r;
  }
}
