/**
 Which header blocks the parser of net/internet/http/headers.cpp accepts, and what it makes of them: fields with a name
 and a content that may be folded over several lines, and an empty line.
 */
module HeaderBlocks {
  import opened HeaderNames
  import opened HeaderParsing
  import opened HeaderTable
  import opened HeaderValue
  import opened Text

  // ---------------------------------------------------------------- the grammar

  // The content is what comes after the colon, with the line end.
  datatype Field = Field(name: string, content: string) {
    ghost predicate Valid() {
      Token(name) && Foldable(content) && content != "" && content[|content| - 1] == '\n'
    }

    function Text(): string {
      name + ":" + content
    }
  }

  function Texts(fields: seq<Field>): string {
    if fields == [] then "" else Texts(fields[..|fields| - 1]) + fields[|fields| - 1].Text()
  }

  ghost predicate AllValid(fields: seq<Field>) {
    forall i :: 0 <= i < |fields| ==> fields[i].Valid()
  }

  ghost predicate Block(s: string, fields: seq<Field>, end: string) {
    AllValid(fields) && (end == "\n" || end == "\r\n") && s == Texts(fields) + end
  }

  // The headers of the fields, but for those without a word in their content.
  ghost function Entries(table: Table, fields: seq<Field>): seq<Header> {
    if fields == [] then []
    else
      var f := fields[|fields| - 1];
      var earlier := Entries(table, fields[..|fields| - 1]);
      if Words(f.content) == [] then earlier
      else Added(table, earlier, Entry(table, Lookup(table, f.name), f.name, Join(Words(f.content))))
  }

  // ---------------------------------------------------------------- what a strict table asks for besides

  // A token is a single word.
  ghost predicate Allowed(rules: Rules, name: string, content: string) {
    var id := Lookup(rules.table, name);
    rules.ignore || id == UNKNOWN || !rules.table[id].token || |Words(content)| <= 1
  }

  // A standard header that is not a list occurs once.
  ghost predicate Once(rules: Rules, entries: seq<Header>, f: Field) {
    var id := Lookup(rules.table, f.name);
    || rules.ignore || Words(f.content) == [] || id == UNKNOWN || rules.table[id].list
    || Last(Key.Standard(id), entries) == |entries|
  }

  ghost predicate Fine(rules: Rules, fields: seq<Field>) {
    fields == [] ||
    var f, n := fields[|fields| - 1], |fields| - 1;
    && Fine(rules, fields[..n]) && Allowed(rules, f.name, f.content)
    && Once(rules, Entries(rules.table, fields[..n]), f)
  }

  // A table that ignores errors asks for nothing.
  lemma {:induction false} IgnoresAll(rules: Rules, fields: seq<Field>)
    requires rules.ignore
    ensures Fine(rules, fields)
  {
    if fields != [] {
      IgnoresAll(rules, fields[..|fields| - 1]);
    }
  }

  // ---------------------------------------------------------------- what is kept of a content

  datatype Held = Held(value: string, pending: string)

  function HoldNext(h: Held, c: char): Held {
    if h.value == "" then Held(if IsSpace(c) then "" else [c], "")
    else if IsSpace(c) then Held(h.value, h.pending + [c])
    else Held(h.value + h.pending + [c], "")
  }

  // The value from its first character on, and the white space after its last one.
  function HeldOf(u: string): Held {
    if u == "" then Held("", "") else HoldNext(HeldOf(u[..|u| - 1]), u[|u| - 1])
  }

  function PhaseAfter(c: char, value: string): Phase {
    if c == '\r' then AfterReturn
    else if c == '\n' then AfterNewline
    else if value == "" then AfterColon
    else InValue
  }

  function PhaseOf(u: string): Phase {
    if u == "" then AfterColon else PhaseAfter(u[|u| - 1], HeldOf(u).value)
  }

  predicate Spaces(s: string) {
    forall i :: 0 <= i < |s| ==> IsSpace(s[i])
  }

  // One character more.
  function WordsWith(words: seq<string>, c: char, begins: bool): seq<string>
    requires begins || words != [] || IsSpace(c)
  {
    if IsSpace(c) then words
    else if begins then words + [[c]]
    else words[..|words| - 1] + [words[|words| - 1] + [c]]
  }

  lemma {:induction false} WordsNext(v: string, c: char)
    ensures var begins := v == "" || IsSpace(v[|v| - 1]);
            (begins || Words(v) != []) && Words(v + [c]) == WordsWith(Words(v), c, begins)
  {
    assert (v + [c])[..|v|] == v && (v != "" ==> (v + [c])[|v| - 1] == v[|v| - 1]);
  }

  lemma {:induction false} NoWords(b: string)
    requires Spaces(b)
    ensures Words(b) == []
  {
    if b != "" {
      NoWords(b[..|b| - 1]);
    }
  }

  lemma {:induction false} WordsBefore(b: string, w: string)
    requires Spaces(b)
    ensures Words(b + w) == Words(w)
  {
    if w == "" {
      assert b + w == b;
      NoWords(b);
    } else {
      var n := |w| - 1;
      WordsBefore(b, w[..n]);
      WordAdded(b, w[..n], w[n]);
      assert w[..n] + [w[n]] == w;
    }
  }

  lemma {:induction false} WordAdded(b: string, v: string, c: char)
    requires Spaces(b) && Words(b + v) == Words(v)
    ensures Words(b + (v + [c])) == Words(v + [c])
  {
    WordsNext(v, c);
    WordsNext(b + v, c);
    assert b + v + [c] == b + (v + [c]);
    if v == "" {
      assert b + v == b;
    } else {
      assert (b + v)[|b + v| - 1] == v[|v| - 1];
    }
  }

  lemma {:induction false} WordsBehind(w: string, p: string)
    requires Spaces(p)
    ensures Words(w + p) == Words(w)
  {
    if p == "" {
      assert w + p == w;
    } else {
      var n := |p| - 1;
      WordsBehind(w, p[..n]);
      assert (w + p)[..|w| + n] == w + p[..n];
    }
  }

  // White space, the value, and white space again.
  ghost predicate Parted(u: string, b: string, h: Held) {
    && u == b + h.value + h.pending && Spaces(b) && Spaces(h.pending)
    && (h.value != "" ==> !IsSpace(h.value[|h.value| - 1])) && (h.value == "" ==> h.pending == "")
  }

  lemma {:induction false} HeldParts(u: string) returns (b: string)
    ensures Parted(u, b, HeldOf(u))
  {
    if u == "" {
      b := "";
    } else {
      var n := |u| - 1;
      b := HeldParts(u[..n]);
      var c := u[n];
      assert u == u[..n] + [c];
      PartedNext(u[..n], b, HeldOf(u[..n]), c);
      if HeldOf(u[..n]).value == "" && IsSpace(c) {
        b := u;
      }
    }
  }

  lemma {:induction false} PartedNext(u: string, b: string, h: Held, c: char)
    requires Parted(u, b, h)
    ensures Parted(u + [c], if h.value == "" && IsSpace(c) then u + [c] else b, HoldNext(h, c))
  {
    if h.value == "" {
      assert u == b;
    } else if IsSpace(c) {
      Regrouped(b + h.value, h.pending, [c]);
    } else {
      Regrouped(b + h.value, h.pending, [c]);
      Regrouped(b, h.value, h.pending + [c]);
      Regrouped(h.value, h.pending, [c]);
    }
  }

  lemma {:induction false} Regrouped(a: string, b: string, c: string)
    ensures a + b + c == a + (b + c)
  {
  }

  /** What is kept has the same words, and can be cleaned if there are any. */
  lemma {:induction false} HeldWords(u: string)
    requires Foldable(u)
    ensures HeldOf(u).value == "" <==> Words(u) == []
    ensures HeldOf(u).value != "" ==> Tidied(HeldOf(u).value) == Clean(Join(Words(u)))
  {
    var b := HeldParts(u);
    var h := HeldOf(u);
    WordsBehind(b + h.value, h.pending);
    WordsBefore(b, h.value);
    forall i | 0 <= i < |h.value|
      ensures FoldableAt(h.value, i)
    {
      assert u[|b| + i] == h.value[i] && FoldableAt(u, |b| + i);
      assert i + 1 < |h.value| ==> u[|b| + i + 1] == h.value[i + 1];
    }
  }

  // ---------------------------------------------------------------- one character of a content

  lemma {:induction false} HeldNext(u: string, c: char)
    ensures HeldOf(u + [c]) == HoldNext(HeldOf(u), c)
    ensures PhaseOf(u + [c]) == PhaseAfter(c, HeldOf(u + [c]).value)
  {
    assert (u + [c])[..|u|] == u;
  }

  lemma {:induction false} HeldPhases(u: string)
    ensures HeldOf(u).value != "" <==> Words(u) != []
    ensures HeldOf(u).value != "" ==> (HeldOf(u).pending != "" <==> IsSpace(u[|u| - 1]))
    ensures u != "" && HeldOf(u).value == "" ==> IsSpace(u[|u| - 1])
  {
    if u != "" {
      HeldPhases(u[..|u| - 1]);
    }
  }

  // A second word begins after white space.
  lemma {:induction false} WordNext(u: string, c: char)
    ensures |Words(u + [c])| <= 1 <==>
              |Words(u)| <= 1 && (IsSpace(c) || HeldOf(u).value == "" || HeldOf(u).pending == "")
  {
    HeldPhases(u);
    WordsNext(u, c);
  }

  // Nothing but a second word in a token is refused.
  ghost predicate Objects(rules: Rules, r: Reading, c: char) {
    var id := Lookup(rules.table, r.name);
    && !rules.ignore && id != UNKNOWN && rules.table[id].token
    && r.at.InValue? && !IsSpace(c) && r.pending != ""
  }

  lemma {:induction false} AllowedNext(rules: Rules, r: Reading, u: string, c: char)
    requires Allowed(rules, r.name, u) && r.at == PhaseOf(u)
    requires r.value == HeldOf(u).value && r.pending == HeldOf(u).pending
    ensures MayFollow(r.at, c) ==> (Allowed(rules, r.name, u + [c]) <==> !Objects(rules, r, c))
  {
    WordNext(u, c);
    HeldPhases(u);
  }

  predicate MayFollow(at: Phase, c: char) {
    match at
    case AfterReturn => c == '\n'
    case AfterNewline => IsBlank(c)
    case _ => c == '\r' || c == '\n' || ValueChar(c)
  }

  lemma {:induction false} FoldsOn(u: string, c: char)
    requires Foldable(u)
    ensures Foldable(u + [c]) <==> MayFollow(PhaseOf(u), c)
  {
    assert (u + [c])[..|u|] == u && (u + [c])[..|u| + 1] == u + [c];
    FoldableNext(u + [c], |u|);
    assert u != "" ==> (u + [c])[|u| - 1] == u[|u| - 1];
  }

  // A character of the content goes to the value or to what is pending.
  function Kept(r: Reading, c: char): Reading {
    var h := HoldNext(Held(r.value, r.pending), c);
    r.(at := PhaseAfter(c, h.value), value := h.value, pending := h.pending)
  }

  // The phases of a content agree with what is kept of it.
  predicate Consistent(r: Reading) {
    match r.at
    case AfterColon => r.value == r.pending == ""
    case InValue => r.value != ""
    case AfterReturn => r.value == "" ==> r.pending == ""
    case AfterNewline => r.value == "" ==> r.pending == ""
    case _ => false
  }

  lemma {:induction false} KeepChar(rules: Rules, r: Reading, c: char)
    requires Consistent(r) && (r.at.AfterColon? || r.at.InValue?)
    ensures Read(rules, r, c) ==
              if MayFollow(r.at, c) && !Objects(rules, r, c) then Count(Kept(r, c)) else Stop(Invalid, r)
  {
  }

  lemma {:induction false} KeepFold(rules: Rules, r: Reading, c: char)
    requires Consistent(r) && (r.at.AfterReturn? || (r.at.AfterNewline? && IsBlank(c)))
    ensures Read(rules, r, c) == if MayFollow(r.at, c) then Count(Kept(r, c)) else Stop(Invalid, r)
  {
  }

  // The content u has been read, if the name was complete in r.
  function InContent(r: Reading, u: string): Reading {
    r.(at := PhaseOf(u), value := HeldOf(u).value, pending := HeldOf(u).pending, size := r.size + |u|)
  }

  lemma {:induction false} ContentStep(rules: Rules, r: Reading, u: string, c: char)
    requires Foldable(u) && Allowed(rules, r.name, u) && (PhaseOf(u).AfterNewline? ==> IsBlank(c))
    ensures Read(rules, InContent(r, u), c) ==
              if Foldable(u + [c]) && Allowed(rules, r.name, u + [c])
              then Count(InContent(r, u + [c]).(size := r.size + |u|))
              else Stop(Invalid, InContent(r, u))
  {
    var r1 := InContent(r, u);
    AllowedNext(rules, r1, u, c);
    HeldNext(u, c);
    FoldsOn(u, c);
    ContentConsistent(r, u);
    if r1.at.AfterColon? || r1.at.InValue? {
      KeepChar(rules, r1, c);
    } else {
      KeepFold(rules, r1, c);
    }
  }

  lemma {:induction false} ContentConsistent(r: Reading, u: string)
    ensures Consistent(InContent(r, u))
  {
    var b := HeldParts(u);
  }

  // ---------------------------------------------------------------- what is written is read

  lemma {:induction false} FoldablePrefix(u: string, n: nat)
    requires Foldable(u) && n < |u|
    ensures Foldable(u[..n]) && (PhaseOf(u[..n]).AfterNewline? ==> IsBlank(u[n]))
  {
    forall i | 0 <= i < n
      ensures FoldableAt(u[..n], i)
    {
      assert FoldableAt(u, i);
    }
    assert n > 0 ==> FoldableAt(u, n - 1);
  }

  lemma {:induction false} ContentRead(rules: Rules, r: Reading, u: string)
    requires Foldable(u) && Allowed(rules, r.name, u) && r.size + |u| < HEADERS_MAX_LEN
    requires r.at.AfterColon? && r.value == r.pending == ""
    ensures ReadAll(rules, r, u) == Go(InContent(r, u))
  {
    if u != "" {
      var n := |u| - 1;
      FoldablePrefix(u, n);
      WordNext(u[..n], u[n]);
      ContentRead(rules, r, u[..n]);
      assert u == u[..n] + [u[n]];
      ContentStep(rules, r, u[..n], u[n]);
      Extend(rules, r, u[..n], InContent(r, u[..n]), u[n], InContent(r, u));
    }
  }

  // A name has been read, from r on, and the colon.
  function AtContent(r: Reading, name: string, entries: seq<Header>): Reading {
    Reading(AfterColon, name, "", "", r.size + |name| + 1, entries)
  }

  lemma {:induction false} NameRead(rules: Rules, r: Reading, name: string, r1: Reading)
    requires Token(name) && r.size + |name| + 1 < HEADERS_MAX_LEN
    requires Read(rules, r, name[0]) == Go(r1) && r1.at == InName && r1.name == [name[0]] && r1.size == r.size + 1
    ensures ReadAll(rules, r, name + [':']) == Go(AtContent(r, name, r1.entries))
  {
    ReadWholeName(rules, r, name, r1);
    var r2 := r1.(name := name, size := r.size + |name|);
    ColonRead(rules, r2);
    Extend(rules, r, name, r2, ':', AtContent(r, name, r1.entries));
  }

  lemma {:induction false} ColonRead(rules: Rules, r: Reading)
    requires r.at == InName && r.size + 1 < HEADERS_MAX_LEN
    ensures Read(rules, r, ':') == Go(Reading(AfterColon, r.name, "", "", r.size + 1, r.entries))
  {
  }

  lemma {:induction false} FieldRead(rules: Rules, r: Reading, f: Field, r1: Reading)
    requires f.Valid() && Allowed(rules, f.name, f.content) && r.size + |f.Text()| < HEADERS_MAX_LEN
    requires Read(rules, r, f.name[0]) == Go(r1) && r1.at == InName && r1.name == [f.name[0]] && r1.size == r.size + 1
    ensures ReadAll(rules, r, f.Text()) == Go(InContent(AtContent(r, f.name, r1.entries), f.content))
  {
    var r2 := AtContent(r, f.name, r1.entries);
    NameRead(rules, r, f.name, r1);
    ContentRead(rules, r2, f.content);
    Compose(rules, r, f.name + [':'], r2, f.content, Go(InContent(r2, f.content)));
    assert f.name + [':'] + f.content == f.Text();
  }

  // The last field has been read, and is not in the table yet.
  ghost function AfterFields(table: Table, fields: seq<Field>): Reading {
    if fields == [] then FRESH
    else
      var f, n := fields[|fields| - 1], |fields| - 1;
      Reading(AfterNewline, f.name, HeldOf(f.content).value, HeldOf(f.content).pending, |Texts(fields)|,
              Entries(table, fields[..n]))
  }

  // It comes into the table, if there is a word in it.
  lemma {:induction false} FieldCommitted(rules: Rules, r: Reading, f: Field)
    requires f.Valid() && r.name == f.name && r.value == HeldOf(f.content).value
    ensures Commit(rules, r) ==
              if !Once(rules, r.entries, f) then Stop(Invalid, r)
              else if Words(f.content) == [] then Go(r)
              else
                var h := Entry(rules.table, Lookup(rules.table, f.name), f.name, Join(Words(f.content)));
                Go(r.(entries := Added(rules.table, r.entries, h)))
  {
    HeldWords(f.content);
  }

  lemma {:induction false} FieldsCommitted(rules: Rules, fields: seq<Field>)
    requires Fine(rules, fields) && AllValid(fields) && fields != []
    ensures var r := AfterFields(rules.table, fields);
            Commit(rules, r) == Go(r.(entries := Entries(rules.table, fields)))
  {
    FieldCommitted(rules, AfterFields(rules.table, fields), fields[|fields| - 1]);
  }

  // The first character of another name, or of the empty line.
  lemma {:induction false} FieldsFollowed(rules: Rules, fields: seq<Field>, c: char)
    requires Fine(rules, fields) && AllValid(fields) && |Texts(fields)| + 1 < HEADERS_MAX_LEN
    requires NameChar(c) || c == '\r'
    ensures var r, e := AfterFields(rules.table, fields), Entries(rules.table, fields);
            Read(rules, r, c) ==
              Go(if c == '\r' then r.(at := AfterSecondReturn, size := r.size + 1, entries := e)
                 else r.(at := InName, name := [c], size := r.size + 1, entries := e))
  {
    if fields != [] {
      FieldsCommitted(rules, fields);
      AfterLineStep(rules, AfterFields(rules.table, fields), c, Entries(rules.table, fields));
    }
  }

  lemma {:induction false} FieldsRead(rules: Rules, fields: seq<Field>)
    requires Fine(rules, fields) && AllValid(fields) && |Texts(fields)| < HEADERS_MAX_LEN
    ensures ReadAll(rules, FRESH, Texts(fields)) == Go(AfterFields(rules.table, fields))
  {
    if fields != [] {
      var n := |fields| - 1;
      var f, r := fields[n], AfterFields(rules.table, fields[..n]);
      FieldsRead(rules, fields[..n]);
      assert r.size == |Texts(fields[..n])|;
      FieldsFollowed(rules, fields[..n], f.name[0]);
      var r1 := r.(at := InName, name := [f.name[0]], size := r.size + 1, entries := Entries(rules.table, fields[..n]));
      FieldRead(rules, r, f, r1);
      Compose(rules, FRESH, Texts(fields[..n]), r, f.Text(), Go(AfterFields(rules.table, fields)));
    }
  }

  lemma {:induction false} NewlineRead(rules: Rules, fields: seq<Field>)
    requires Fine(rules, fields) && AllValid(fields)
    ensures var r := AfterFields(rules.table, fields);
            Read(rules, r, '\n') == Done(r.(entries := Entries(rules.table, fields)))
  {
    if fields != [] {
      FieldsCommitted(rules, fields);
      AfterLineRead(rules, AfterFields(rules.table, fields), '\n', Entries(rules.table, fields));
    }
  }

  /** Every block of the grammar that is not too long is read to its end. */
  lemma {:induction false} BlockRead(rules: Rules, s: string, fields: seq<Field>, end: string)
    requires Fine(rules, fields) && Block(s, fields, end) && |s| <= HEADERS_MAX_LEN
    ensures var o := ReadAll(rules, FRESH, s);
            o.Stop? && o.result == End && o.r.size == |s| && o.r.entries == Entries(rules.table, fields)
  {
    var r, e := AfterFields(rules.table, fields), Entries(rules.table, fields);
    FieldsRead(rules, fields);
    assert r.size == |Texts(fields)|;
    if end == "\n" {
      NewlineRead(rules, fields);
      ReadOne(rules, r, '\n');
      Compose(rules, FRESH, Texts(fields), r, ['\n'], Done(r.(entries := e)));
    } else {
      FieldsFollowed(rules, fields, '\r');
      EmptyLine(rules, FRESH, Texts(fields), r, r.(at := AfterSecondReturn, size := r.size + 1, entries := e));
    }
  }

  // ---------------------------------------------------------------- what is read is written

  // The fields that are complete, and what has come after them; u is the content so far.
  ghost predicate Reached(rules: Rules, r: Reading, s: string, fields: seq<Field>, u: string) {
    && AllValid(fields) && Fine(rules, fields) && r.entries == Entries(rules.table, fields)
    && match r.at
       case Start => s == "" && fields == []
       case InName => Token(r.name) && s == Texts(fields) + r.name
       case AfterSecondReturn => s == Texts(fields) + "\r"
       case _ =>
         && Token(r.name) && Foldable(u) && s == Texts(fields) + (r.name + ":" + u)
         && r.at == PhaseOf(u) && r.value == HeldOf(u).value && r.pending == HeldOf(u).pending
         && Allowed(rules, r.name, u)
  }

  lemma {:induction false} TextsMore(fields: seq<Field>, f: Field)
    ensures Texts(fields + [f]) == Texts(fields) + f.Text()
    ensures AllValid(fields) && f.Valid() ==> AllValid(fields + [f])
  {
    assert (fields + [f])[..|fields|] == fields;
  }

  lemma {:induction false} StartStep(rules: Rules, r: Reading, s: string, c: char)
    requires Reached(rules, r, s, [], "") && r.at.Start? && Read(rules, r, c).Go?
    ensures Reached(rules, Read(rules, r, c).r, s + [c], [], "")
  {
  }

  lemma {:induction false} NameChars(rules: Rules, r: Reading, c: char)
    requires r.at.InName? && Token(r.name) && Read(rules, r, c).Go?
    ensures var r' := Read(rules, r, c).r;
            r'.entries == r.entries && if c == ':' then r' == Reading(AfterColon, r.name, "", "", r'.size, r.entries)
                                       else r'.at.InName? && r'.name == r.name + [c] && Token(r'.name)
  {
  }

  lemma {:induction false} NameReached(rules: Rules, r: Reading, s: string, fields: seq<Field>, name: string)
    requires AllValid(fields) && Fine(rules, fields) && r.entries == Entries(rules.table, fields)
    requires s == Texts(fields) + name + ":"
    requires Token(name) && r == Reading(AfterColon, name, "", "", r.size, r.entries)
    ensures Reached(rules, r, s, fields, "")
  {
    assert s == Texts(fields) + (name + ":" + "");
  }

  lemma {:induction false} NameGoesOn(rules: Rules, r: Reading, s: string, fields: seq<Field>, c: char)
    requires Reached(rules, r, s, fields, "") && r.at.InName? && Read(rules, r, c).Go?
    ensures Reached(rules, Read(rules, r, c).r, s + [c], fields, "")
  {
    NameChars(rules, r, c);
    if c == ':' {
      NameReached(rules, Read(rules, r, c).r, s + [c], fields, r.name);
    } else {
      assert Texts(fields) + r.name + [c] == Texts(fields) + (r.name + [c]);
    }
  }

  lemma {:induction false} ContentReached(rules: Rules, r: Reading, s: string, fields: seq<Field>, u: string, c: char)
    requires AllValid(fields) && Fine(rules, fields) && r.entries == Entries(rules.table, fields)
    requires Token(r.name) && Foldable(u + [c]) && Allowed(rules, r.name, u + [c])
    requires s == Texts(fields) + (r.name + ":" + u)
    requires r.at == PhaseOf(u + [c]) && r.value == HeldOf(u + [c]).value && r.pending == HeldOf(u + [c]).pending
    ensures Reached(rules, r, s + [c], fields, u + [c])
  {
    assert s + [c] == Texts(fields) + (r.name + ":" + (u + [c]));
  }

  lemma {:induction false} ContentGoesOn(rules: Rules, r: Reading, s: string, fields: seq<Field>, u: string, c: char)
    requires Reached(rules, r, s, fields, u) && r.at == PhaseOf(u)
    requires !r.at.Start? && !r.at.InName? && !r.at.AfterSecondReturn?
    requires (r.at.AfterNewline? ==> IsBlank(c)) && Read(rules, r, c).Go?
    ensures Reached(rules, Read(rules, r, c).r, s + [c], fields, u + [c])
  {
    HeldNext(u, c);
    FoldsOn(u, c);
    AllowedNext(rules, r, u, c);
    ContentConsistent(r, u);
    if r.at.AfterColon? || r.at.InValue? {
      KeepChar(rules, r, c);
    } else {
      KeepFold(rules, r, c);
    }
    ContentReached(rules, Read(rules, r, c).r, s, fields, u, c);
  }

  // A line begins that is not a folded one: the field is complete.
  lemma {:induction false} FieldDone(rules: Rules, r: Reading, s: string, fields: seq<Field>, u: string)
    requires Reached(rules, r, s, fields, u) && r.at.AfterNewline? && Commit(rules, r).Go?
    ensures var all := fields + [Field(r.name, u)];
            && AllValid(all) && Fine(rules, all) && s == Texts(all)
            && Commit(rules, r) == Go(r.(entries := Entries(rules.table, all)))
  {
    var f := Field(r.name, u);
    ContentWhole(r.name, u);
    TextsMore(fields, f);
    FieldCommitted(rules, r, f);
    FineMore(rules, fields, f);
  }

  lemma {:induction false} ContentWhole(name: string, u: string)
    requires Token(name) && Foldable(u) && PhaseOf(u).AfterNewline?
    ensures Field(name, u).Valid()
  {
  }

  lemma {:induction false} FineMore(rules: Rules, fields: seq<Field>, f: Field)
    requires Fine(rules, fields) && Allowed(rules, f.name, f.content) && Once(rules, Entries(rules.table, fields), f)
    ensures Fine(rules, fields + [f])
    ensures Entries(rules.table, fields + [f]) ==
              var earlier := Entries(rules.table, fields);
              if Words(f.content) == [] then earlier
              else Added(rules.table, earlier, Entry(rules.table, Lookup(rules.table, f.name), f.name,
                                                     Join(Words(f.content))))
  {
    assert (fields + [f])[..|fields|] == fields;
  }

  lemma {:induction false} LineBegins(rules: Rules, r: Reading, c: char)
    requires r.at.AfterNewline? && !IsBlank(c) && Read(rules, r, c).Go?
    ensures (c == '\r' || NameChar(c)) && Commit(rules, r).Go?
  {
  }

  lemma {:induction false} LineReached(rules: Rules, r: Reading, s: string, fields: seq<Field>, c: char)
    requires AllValid(fields) && Fine(rules, fields) && r.entries == Entries(rules.table, fields) && s == Texts(fields)
    requires if c == '\r' then r.at.AfterSecondReturn? else NameChar(c) && r.at.InName? && r.name == [c]
    ensures Reached(rules, r, s + [c], fields, "")
  {
  }

  lemma {:induction false} LineGoesOn(rules: Rules, r: Reading, s: string, fields: seq<Field>, u: string, c: char)
    requires Reached(rules, r, s, fields, u) && r.at.AfterNewline?
    requires !IsBlank(c) && Read(rules, r, c).Go?
    ensures Reached(rules, Read(rules, r, c).r, s + [c], fields + [Field(r.name, u)], "")
  {
    var all := fields + [Field(r.name, u)];
    LineBegins(rules, r, c);
    FieldDone(rules, r, s, fields, u);
    AfterLineRead(rules, r, c, Entries(rules.table, all));
    LineReached(rules, Read(rules, r, c).r, s, all, c);
  }

  lemma {:induction false} ReachedNext(rules: Rules, r: Reading, s: string, fields: seq<Field>, u: string, c: char)
    returns (fields': seq<Field>, u': string)
    requires Reached(rules, r, s, fields, u) && Read(rules, r, c).Go?
    ensures Reached(rules, Read(rules, r, c).r, s + [c], fields', u')
  {
    fields', u' := fields, "";
    if r.at.Start? {
      StartStep(rules, r, s, c);
    } else if r.at.InName? {
      NameGoesOn(rules, r, s, fields, c);
    } else if r.at.AfterNewline? && !IsBlank(c) {
      fields' := fields + [Field(r.name, u)];
      LineGoesOn(rules, r, s, fields, u, c);
    } else {
      u' := u + [c];
      ContentGoesOn(rules, r, s, fields, u, c);
    }
  }

  lemma {:induction false} ReachedAll(rules: Rules, s: string) returns (fields: seq<Field>, u: string)
    requires ReadAll(rules, FRESH, s).Go?
    ensures Reached(rules, ReadAll(rules, FRESH, s).r, s, fields, u)
  {
    if s == "" {
      fields, u := [], "";
    } else {
      var n := |s| - 1;
      LastRead(rules, s);
      fields, u := ReachedAll(rules, s[..n]);
      fields, u := ReachedNext(rules, ReadAll(rules, FRESH, s[..n]).r, s[..n], fields, u, s[n]);
    }
  }

  // The last character, if the parser has come to it.
  lemma {:induction false} LastRead(rules: Rules, s: string)
    requires s != ""
    ensures var n := |s| - 1;
            s == s[..n] + [s[n]] &&
            ReadAll(rules, FRESH, s) == match ReadAll(rules, FRESH, s[..n])
                                        case Go(r) => Read(rules, r, s[n])
                                        case Stop(result, r) => Stop(result, r)
  {
    var n := |s| - 1;
    assert s == s[..n] + [s[n]];
    ReadSplit(rules, FRESH, s[..n], [s[n]]);
    if ReadAll(rules, FRESH, s[..n]).Go? {
      ReadOne(rules, ReadAll(rules, FRESH, s[..n]).r, s[n]);
    }
  }

  lemma {:induction false} EndReached(rules: Rules, r: Reading, s: string, fields: seq<Field>, u: string, c: char)
    returns (all: seq<Field>, end: string)
    requires Reached(rules, r, s, fields, u)
    requires Read(rules, r, c).Stop? && Read(rules, r, c).result == End
    ensures Block(s + [c], all, end) && Fine(rules, all)
  {
    all, end := fields, if r.at.AfterSecondReturn? then "\r\n" else "\n";
    EndsWithNewline(rules, r, c);
    if r.at.AfterNewline? {
      all := fields + [Field(r.name, u)];
      FieldDone(rules, r, s, fields, u);
    } else if r.at.AfterSecondReturn? {
      EndJoined(Texts(fields), c);
    }
  }

  lemma {:induction false} EndJoined(t: string, c: char)
    ensures t + "\r" + [c] == t + ("\r" + [c])
  {
  }

  lemma {:induction false} EndsWithNewline(rules: Rules, r: Reading, c: char)
    requires Read(rules, r, c).Stop? && Read(rules, r, c).result == End
    ensures c == '\n' && (r.at.Start? || r.at.AfterNewline? || r.at.AfterSecondReturn?)
    ensures r.at.AfterNewline? ==> Commit(rules, r).Go?
  {
  }

  /** And only such a block is read to its end. */
  lemma {:induction false} ReadBlock(rules: Rules, s: string) returns (fields: seq<Field>, end: string)
    requires var o := ReadAll(rules, FRESH, s); o.Stop? && o.result == End && o.r.size == |s|
    ensures Block(s, fields, end) && Fine(rules, fields) && |s| <= HEADERS_MAX_LEN
  {
    var n := |s| - 1;
    EndSize(rules, FRESH, s);
    LastRead(rules, s);
    EndSize(rules, FRESH, s[..n]);
    var u;
    fields, u := ReachedAll(rules, s[..n]);
    fields, end := EndReached(rules, ReadAll(rules, FRESH, s[..n]).r, s[..n], fields, u, s[n]);
  }

  /**
   A block is read to its end if and only if it consists of fields and an empty line and is not too long; a table that
   does not ignore errors asks for one word in a token and for each header once, if it is not a list.
   */
  lemma {:induction false} BlockExact(rules: Rules, s: string)
    ensures var o := ReadAll(rules, FRESH, s);
            (o.Stop? && o.result == End && o.r.size == |s|)
            <==> |s| <= HEADERS_MAX_LEN && exists fields, end :: Block(s, fields, end) && Fine(rules, fields)
  {
    var o := ReadAll(rules, FRESH, s);
    if o.Stop? && o.result == End && o.r.size == |s| {
      var fields, end := ReadBlock(rules, s);
    }
    if |s| <= HEADERS_MAX_LEN && exists fields, end :: Block(s, fields, end) && Fine(rules, fields) {
      var fields, end :| Block(s, fields, end) && Fine(rules, fields);
      BlockRead(rules, s, fields, end);
    }
  }
}
