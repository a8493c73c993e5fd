/**
 What the header parser of net/internet/http/headers.cpp does with each character, and the round trip through
 serialize.  Here the parser keeps the name and the value it is reading as text; Headers.Parse keeps offsets.
 */
module HeaderParsing {
  import opened HeaderNames
  import opened HeaderValue
  import opened HeaderTable
  import opened Text

  const HEADERS_MAX_LEN := 64 * 1024

  datatype Phase = Start | InName | AfterColon | InValue | AfterReturn | AfterNewline | AfterSecondReturn

  datatype Result = NoMemory | Invalid | TooLarge | NotEnd | End

  // `value` is empty until it has begun; `pending` are the blanks and line ends since its last character.
  datatype Reading = Reading(at: Phase, name: string, value: string, pending: string, size: nat, entries: seq<Header>)

  const FRESH := Reading(Start, "", "", "", 0, [])

  datatype Outcome = Go(r: Reading) | Stop(result: Result, r: Reading)

  // A table of standard headers, and whether its remarks on them are ignored.
  datatype Rules = Rules(table: Table, ignore: bool)

  // The header that has been read goes into the table, unless its value is empty.
  ghost function Commit(rules: Rules, r: Reading): Outcome
  {
    var id := Lookup(rules.table, r.name);
    if r.value == "" then Go(r)
    else if !rules.ignore && id != UNKNOWN && !rules.table[id].list && Last(Key.Standard(id), r.entries) < |r.entries|
    then Stop(Invalid, r)
    else if Tidied(r.value).Unclean? then Stop(NoMemory, r)
    else Go(r.(entries := Added(rules.table, r.entries, Entry(rules.table, id, r.name, Tidied(r.value).text))))
  }

  // The count goes up, and there is a limit to it.
  ghost function Count(r: Reading): Outcome {
    var r' := r.(size := r.size + 1);
    if r'.size == HEADERS_MAX_LEN then Stop(TooLarge, r') else Go(r')
  }

  ghost function Done(r: Reading): Outcome {
    Stop(End, r.(size := r.size + 1))
  }

  // The first character of a line.
  ghost function NextLine(rules: Rules, r: Reading, c: char): Outcome
  {
    if IsBlank(c) then
      Count(if r.value == "" then r.(at := AfterColon) else r.(pending := r.pending + [c], at := InValue))
    else if c != '\r' && c != '\n' && !NameChar(c) then Stop(Invalid, r)
    else
      var o := Commit(rules, r);
      if o.Stop? then o
      else if c == '\r' then Count(o.r.(at := AfterSecondReturn))
      else if c == '\n' then Done(o.r)
      else Count(o.r.(name := [c], at := InName))
  }

  ghost function Read(rules: Rules, r: Reading, c: char): Outcome
  {
    match r.at
    case Start =>
      if c == '\r' then Count(r.(at := AfterSecondReturn))
      else if c == '\n' then Done(r)
      else if NameChar(c) then Count(r.(name := [c], at := InName))
      else Stop(Invalid, r)
    case InName =>
      if c == ':' then Count(r.(value := "", pending := "", at := AfterColon))
      else if NameChar(c) && |r.name| < MAX_LEN then Count(r.(name := r.name + [c]))
      else Stop(Invalid, r)
    case AfterColon =>
      if c == '\r' then Count(r.(at := AfterReturn))
      else if c == '\n' then Count(r.(at := AfterNewline))
      else if !ValueChar(c) then Stop(Invalid, r)
      else if IsBlank(c) then Count(r)
      else Count(r.(value := [c], pending := "", at := InValue))
    case InValue =>
      var id := Lookup(rules.table, r.name);
      if c == '\r' then Count(r.(pending := r.pending + [c], at := AfterReturn))
      else if c == '\n' then Count(r.(pending := r.pending + [c], at := AfterNewline))
      else if !ValueChar(c) then Stop(Invalid, r)
      else if IsBlank(c) then Count(r.(pending := r.pending + [c]))
      else if !rules.ignore && r.pending != "" && id != UNKNOWN && rules.table[id].token then Stop(Invalid, r)
      else Count(r.(value := r.value + r.pending + [c], pending := ""))
    case AfterReturn =>
      if c == '\n' then Count(r.(pending := if r.value == "" then "" else r.pending + [c], at := AfterNewline))
      else Stop(Invalid, r)
    case AfterNewline => NextLine(rules, r, c)
    case AfterSecondReturn =>
      if c == '\n' then Done(r) else Stop(Invalid, r)
  }

  lemma {:induction false} ReadSize(rules: Rules, r: Reading, c: char)
    ensures match Read(rules, r, c)
            case Go(r') => r'.size == r.size + 1 != HEADERS_MAX_LEN
            case Stop(result, _) => result != NotEnd
  {
    match r.at
    case AfterNewline => NextLineSize(rules, r, c);
    case InValue =>
    case AfterColon =>
    case _ =>
  }

  lemma {:induction false} NextLineSize(rules: Rules, r: Reading, c: char)
    ensures match NextLine(rules, r, c)
            case Go(r') => r'.size == r.size + 1 != HEADERS_MAX_LEN
            case Stop(result, _) => result != NotEnd
  {
  }

  ghost function ReadAll(rules: Rules, r: Reading, s: string): Outcome
    decreases |s|
  {
    if s == "" then Go(r)
    else
      match Read(rules, r, s[0])
      case Go(r') => ReadAll(rules, r', s[1..])
      case Stop(result, r') => Stop(result, r')
  }

  lemma {:induction false} StopResult(rules: Rules, r: Reading, s: string)
    ensures var o := ReadAll(rules, r, s); o.Stop? ==> o.result != NotEnd
    decreases |s|
  {
    if s != "" {
      ReadSize(rules, r, s[0]);
      var o := Read(rules, r, s[0]);
      if o.Go? {
        StopResult(rules, o.r, s[1..]);
      }
    }
  }

  // The end is found among the characters, and within the limit.
  lemma {:induction false} EndSize(rules: Rules, r: Reading, s: string)
    requires r.size < HEADERS_MAX_LEN
    ensures var o := ReadAll(rules, r, s);
            o.Stop? && o.result == End ==> o.r.size <= HEADERS_MAX_LEN && r.size < o.r.size <= r.size + |s|
    decreases |s|, 0
  {
    if s != "" {
      OneSize(rules, r, s[0]);
      EndSizeAfter(rules, Read(rules, r, s[0]), r.size, s[1..]);
    }
  }

  lemma {:induction false} EndSizeAfter(rules: Rules, first: Outcome, size: nat, s: string)
    requires size < HEADERS_MAX_LEN
    requires first.Go? ==> first.r.size == size + 1 < HEADERS_MAX_LEN
    requires first.Stop? && first.result == End ==> first.r.size == size + 1
    ensures var o := if first.Go? then ReadAll(rules, first.r, s) else first;
            o.Stop? && o.result == End ==> o.r.size <= HEADERS_MAX_LEN && size < o.r.size <= size + 1 + |s|
    decreases |s|, 1
  {
    if first.Go? {
      EndSize(rules, first.r, s);
    }
  }

  lemma {:induction false} OneSize(rules: Rules, r: Reading, c: char)
    requires r.size < HEADERS_MAX_LEN
    ensures Read(rules, r, c).Go? ==> Read(rules, r, c).r.size == r.size + 1 < HEADERS_MAX_LEN
    ensures Read(rules, r, c).Stop? && Read(rules, r, c).result == End ==> Read(rules, r, c).r.size == r.size + 1
  {
    ReadSize(rules, r, c);
    if r.at.AfterNewline? {
      EndOfLine(rules, r, c);
    } else {
      EndElsewhere(rules, r, c);
    }
  }

  lemma {:induction false} EndElsewhere(rules: Rules, r: Reading, c: char)
    requires !r.at.AfterNewline?
    ensures Read(rules, r, c).Stop? && Read(rules, r, c).result == End ==> Read(rules, r, c) == Done(r)
  {
  }

  lemma {:induction false} EndOfLine(rules: Rules, r: Reading, c: char)
    ensures NextLine(rules, r, c).Stop? && NextLine(rules, r, c).result == End ==>
            NextLine(rules, r, c).r.size == r.size + 1
  {
  }

  /** However the bytes are split, the parser ends up in the same place. */
  lemma {:induction false} ReadSplit(rules: Rules, r: Reading, s: string, t: string)
    ensures ReadAll(rules, r, s + t) ==
              match ReadAll(rules, r, s)
              case Go(r') => ReadAll(rules, r', t)
              case Stop(result, r') => Stop(result, r')
    decreases |s|
  {
    if s == "" {
      assert s + t == t;
    } else {
      assert (s + t)[0] == s[0] && (s + t)[1..] == s[1..] + t;
      var o := Read(rules, r, s[0]);
      if o.Go? {
        ReadSplit(rules, o.r, s[1..], t);
      }
    }
  }

  // ---------------------------------------------------------------- printing

  function Line(h: Header): string {
    h.name + ": " + h.value + "\r\n"
  }

  function Lines(s: seq<Header>): string {
    if s == [] then "" else Lines(s[..|s| - 1]) + Line(s[|s| - 1])
  }

  function Serialized(s: seq<Header>): string {
    Lines(s) + "\r\n"
  }

  /** One header on the wire. */
  lemma {:induction false} HostSerialized()
    ensures Serialized([Header(UNKNOWN, "X-Host", "a b")]) == "X-Host: a b\r\n\r\n"
  {
    var h := Header(UNKNOWN, "X-Host", "a b");
    assert [h][..0] == [] && Lines([]) == "";
    assert Lines([h]) == "" + Line(h) == Line(h);
  }

  // What add leaves in a table, if the names it is given are tokens and standard ones are not passed off as others.
  ghost predicate Stored(table: Table, s: seq<Header>) {
    Proper(table) && Grouped(table, s) && forall i :: 0 <= i < |s| ==> StoredEntry(table, s[i])
  }

  ghost predicate StoredEntry(table: Table, h: Header)
  {
    Token(h.name) && Lookup(table, h.name) == h.id && Neat(h.value) && h.value != ""
  }

  // A standard header, or a name that is a token and no standard header's.
  ghost predicate Fit(table: Table, id: nat, name: string) {
    id < |table| || (id == UNKNOWN && Token(name) && Lookup(table, name) == UNKNOWN)
  }

  lemma {:induction false} AddedStored(table: Table, s: seq<Header>, id: nat, name: string, value: string)
    requires Stored(table, s) && Tidied(value).Clean? && Fit(table, id, name)
    ensures Stored(table, Added(table, s, Entry(table, id, name, Tidied(value).text)))
  {
    var h := Entry(table, id, name, Tidied(value).text);
    TidiedNeat(value);
    if id < |table| {
      OneEntry(table, table[id].name, id);
    }
    var t := Added(table, s, h);
    AddedGrouped(table, s, h, KeyOf(h));
    forall i | 0 <= i < |t|
      ensures StoredEntry(table, t[i])
    {
      var pos := SlotOf(table, KeyOf(h), s);
      assert t[i] == if i < pos then s[i] else if i == pos then h else s[i - 1];
    }
  }

  // The parser keeps its table so, and the name it has read is a token.
  ghost predicate Kept(rules: Rules, r: Reading) {
    Stored(rules.table, r.entries) && (r.at.Start? || r.at.AfterSecondReturn? || Token(r.name))
  }

  lemma {:induction false} CommitKept(rules: Rules, r: Reading)
    requires Stored(rules.table, r.entries) && Token(r.name)
    ensures Stored(rules.table, Commit(rules, r).r.entries)
    ensures Commit(rules, r).Go? ==> Commit(rules, r).r == r.(entries := Commit(rules, r).r.entries)
  {
    if r.value != "" && Tidied(r.value).Clean? {
      AddedStored(rules.table, r.entries, Lookup(rules.table, r.name), r.name, r.value);
    }
  }

  // What a new line does with the reading and with what commit has left.
  lemma {:induction false} NextLineKeeps(rules: Rules, r: Reading, c: char, o: Outcome)
    requires o == Commit(rules, r)
    ensures var n := NextLine(rules, r, c);
            && (n.r.entries == r.entries || n.r.entries == o.r.entries)
            && (n.Go? ==> n.r.at.AfterSecondReturn? || (n.r.name == r.name && n.r.entries == r.entries) ||
                          (Token(n.r.name) && n.r.entries == o.r.entries))
  {
  }

  ghost predicate StaysStored(rules: Rules, o: Outcome) {
    match o
    case Go(r) => Kept(rules, r)
    case Stop(_, r) => Stored(rules.table, r.entries)
  }

  lemma {:induction false} NextLineStored(rules: Rules, r: Reading, c: char)
    requires r.at.AfterNewline? && Kept(rules, r)
    ensures StaysStored(rules, NextLine(rules, r, c))
  {
    CommitKept(rules, r);
    NextLineKeeps(rules, r, c, Commit(rules, r));
  }

  lemma {:induction false} ReadStored(rules: Rules, r: Reading, c: char)
    requires Kept(rules, r)
    ensures StaysStored(rules, Read(rules, r, c))
  {
    if r.at.AfterNewline? {
      NextLineStored(rules, r, c);
      AtNewline(rules, r, c);
    } else {
      ElsewhereStored(rules, r, c);
    }
  }

  lemma {:induction false} AtNewline(rules: Rules, r: Reading, c: char)
    requires r.at.AfterNewline?
    ensures Read(rules, r, c) == NextLine(rules, r, c)
  {
  }

  lemma {:induction false} ElsewhereStored(rules: Rules, r: Reading, c: char)
    requires Kept(rules, r) && !r.at.AfterNewline?
    ensures StaysStored(rules, Read(rules, r, c))
  {
    if r.at.InValue? {
      ValueKeeps(rules, r, c);
    } else {
      OthersKeep(rules, r, c);
    }
  }

  lemma {:induction false} ValueKeeps(rules: Rules, r: Reading, c: char)
    requires r.at.InValue?
    ensures var o := Read(rules, r, c); o.r.entries == r.entries && o.r.name == r.name && !o.r.at.Start?
  {
  }

  lemma {:induction false} OthersKeep(rules: Rules, r: Reading, c: char)
    requires !r.at.AfterNewline? && !r.at.InValue? && (r.at.Start? || r.at.AfterSecondReturn? || Token(r.name))
    ensures var o := Read(rules, r, c);
            o.r.entries == r.entries && (o.r.at.Start? || o.r.at.AfterSecondReturn? || Token(o.r.name))
  {
  }

  /** So what a parser has received can be printed and read again, whatever it was. */
  lemma {:induction false} ReadAllStored(rules: Rules, r: Reading, s: string)
    requires Kept(rules, r)
    ensures Stored(rules.table, ReadAll(rules, r, s).r.entries)
    ensures ReadAll(rules, r, s).Go? ==> Kept(rules, ReadAll(rules, r, s).r)
    decreases |s|
  {
    if s != "" {
      ReadStored(rules, r, s[0]);
      var o := Read(rules, r, s[0]);
      if o.Go? {
        ReadAllStored(rules, o.r, s[1..]);
      }
    }
  }

  lemma {:induction false} RemovedStored(table: Table, s: seq<Header>, pos: nat)
    requires Stored(table, s) && pos < |s|
    ensures Stored(table, RemoveAt(s, pos))
  {
    GroupedRemove(table, s, pos);
    forall i | 0 <= i < |s| - 1
      ensures StoredEntry(table, RemoveAt(s, pos)[i])
    {
      assert RemoveAt(s, pos)[i] == s[if i < pos then i else i + 1];
    }
  }

  // ---------------------------------------------------------------- reading what was printed

  lemma {:induction false} Extend(rules: Rules, r: Reading, s: string, r1: Reading, c: char, r2: Reading)
    requires ReadAll(rules, r, s) == Go(r1) && Read(rules, r1, c) == Go(r2)
    ensures ReadAll(rules, r, s + [c]) == Go(r2)
  {
    ReadSplit(rules, r, s, [c]);
    assert [c][1..] == "";
  }

  // The name, from its second character on.
  lemma {:induction false} ReadName(rules: Rules, r: Reading, s: string)
    requires r.at == InName && r.size + |s| < HEADERS_MAX_LEN
    requires |r.name| + |s| <= MAX_LEN && forall i :: 0 <= i < |s| ==> NameChar(s[i])
    ensures ReadAll(rules, r, s) == Go(r.(name := r.name + s, size := r.size + |s|))
  {
    if s == "" {
      assert r.name + s == r.name;
    } else {
      var n := |s| - 1;
      ReadName(rules, r, s[..n]);
      var r1 := r.(name := r.name + s[..n], size := r.size + n);
      var r2 := r.(name := r.name + s, size := r.size + |s|);
      assert s == s[..n] + [s[n]] && r.name + s[..n] + [s[n]] == r.name + s;
      NameStep(rules, r1, s[n]);
      Extend(rules, r, s[..n], r1, s[n], r2);
    }
  }

  lemma {:induction false} NameStep(rules: Rules, r: Reading, c: char)
    requires r.at == InName && NameChar(c) && |r.name| < MAX_LEN && r.size + 1 < HEADERS_MAX_LEN
    ensures Read(rules, r, c) == Go(r.(name := r.name + [c], size := r.size + 1))
  {
  }

  // The first n characters of a neat value, a blank at the end of them being still pending.
  function InNeat(r: Reading, v: string, n: nat): Reading
    requires n <= |v|
  {
    if n == 0 then r
    else if v[n - 1] == ' ' then r.(at := InValue, value := v[..n - 1], pending := " ", size := r.size + n)
    else r.(at := InValue, value := v[..n], pending := "", size := r.size + n)
  }

  lemma {:induction false} ReadValue(rules: Rules, r: Reading, v: string, n: nat)
    requires rules.ignore && r.at == AfterColon && r.value == r.pending == "" && Neat(v) && n <= |v|
    requires r.size + |v| < HEADERS_MAX_LEN
    ensures ReadAll(rules, r, v[..n]) == Go(InNeat(r, v, n))
  {
    if n > 0 {
      ReadValue(rules, r, v, n - 1);
      ValueStep(rules, r, v, n);
      assert v[..n] == v[..n - 1] + [v[n - 1]];
      Extend(rules, r, v[..n - 1], InNeat(r, v, n - 1), v[n - 1], InNeat(r, v, n));
    }
  }

  lemma {:induction false} ValueStep(rules: Rules, r: Reading, v: string, n: nat)
    requires rules.ignore && r.at == AfterColon && r.value == r.pending == "" && Neat(v) && 0 < n <= |v|
    requires r.size + |v| < HEADERS_MAX_LEN
    ensures Read(rules, InNeat(r, v, n - 1), v[n - 1]) == Go(InNeat(r, v, n))
  {
    assert NeatAt(v, n - 1);
    if n > 1 {
      assert NeatAt(v, n - 2);
      assert v[..n] == v[..n - 1] + [v[n - 1]];
      if v[n - 2] == ' ' {
        assert v[..n - 1] == v[..n - 2] + " ";
      } else {
        assert v[..n - 1] + "" == v[..n - 1];
      }
    } else {
      assert v[..1] == [v[0]];
    }
  }

  lemma {:induction false} Compose(rules: Rules, r: Reading, s: string, r1: Reading, t: string, r2: Outcome)
    requires ReadAll(rules, r, s) == Go(r1) && ReadAll(rules, r1, t) == r2
    ensures ReadAll(rules, r, s + t) == r2
  {
    ReadSplit(rules, r, s, t);
  }

  // What is left after a line has been read, its header not being in the table yet.
  function AfterLine(h: Header, size: nat, entries: seq<Header>): Reading {
    Reading(AfterNewline, h.name, h.value, "\r\n", size, entries)
  }

  lemma {:induction false} ReadOne(rules: Rules, r: Reading, c: char)
    ensures ReadAll(rules, r, [c]) == Read(rules, r, c)
  {
    assert [c][1..] == "";
  }

  lemma {:induction false} ReadWholeName(rules: Rules, r: Reading, name: string, r1: Reading)
    requires Token(name)
    requires Read(rules, r, name[0]) == Go(r1) && r1.at == InName && r1.name == [name[0]] && r1.size == r.size + 1
    requires r.size + |name| < HEADERS_MAX_LEN
    ensures ReadAll(rules, r, name) == Go(r1.(name := name, size := r.size + |name|))
  {
    assert name == [name[0]] + name[1..];
    ReadOne(rules, r, name[0]);
    ReadName(rules, r1, name[1..]);
    Compose(rules, r, [name[0]], r1, name[1..], Go(r1.(name := name, size := r.size + |name|)));
  }

  lemma {:induction false} ReadColon(rules: Rules, r: Reading, s: string, r1: Reading)
    requires ReadAll(rules, r, s) == Go(r1) && r1.at == InName && r1.size + 2 < HEADERS_MAX_LEN
    ensures ReadAll(rules, r, s + ": ") == Go(r1.(at := AfterColon, value := "", pending := "", size := r1.size + 2))
  {
    ColonStep(rules, r1);
    var r2 := r1.(at := AfterColon, value := "", pending := "", size := r1.size + 1);
    Extend(rules, r, s, r1, ':', r2);
    Extend(rules, r, s + [':'], r2, ' ', r2.(size := r1.size + 2));
    assert s + [':'] + [' '] == s + ": ";
  }

  // The rest of the line, from the value on.
  lemma {:induction false} ReadContent(rules: Rules, r: Reading, v: string)
    requires rules.ignore && r.at == AfterColon && r.value == r.pending == "" && Neat(v) && v != ""
    requires r.size + |v| + 2 < HEADERS_MAX_LEN
    ensures ReadAll(rules, r, v + "\r\n") ==
            Go(r.(at := AfterNewline, value := v, pending := "\r\n", size := r.size + |v| + 2))
  {
    ReadValue(rules, r, v, |v|);
    assert NeatAt(v, |v| - 1) && v[..|v|] == v;
    var r1 := r.(at := InValue, value := v, size := r.size + |v|);
    LineEnd(rules, r1);
    var r2 := r1.(at := AfterReturn, pending := "\r", size := r1.size + 1);
    Extend(rules, r, v, r1, '\r', r2);
    Extend(rules, r, v + ['\r'], r2, '\n', r2.(at := AfterNewline, pending := "\r\n", size := r1.size + 2));
    assert v + ['\r'] + ['\n'] == v + "\r\n";
  }

  // A line, if its first character begins a name.
  lemma {:induction false} ReadLine(rules: Rules, r: Reading, h: Header, r1: Reading)
    requires rules.ignore && StoredEntry(rules.table, h)
    requires Read(rules, r, h.name[0]) == Go(r1) && r1.at == InName && r1.name == [h.name[0]] && r1.size == r.size + 1
    requires r.size + |Line(h)| < HEADERS_MAX_LEN
    ensures ReadAll(rules, r, Line(h)) == Go(AfterLine(h, r.size + |Line(h)|, r1.entries))
  {
    ReadWholeName(rules, r, h.name, r1);
    var r2 := r1.(name := h.name, size := r.size + |h.name|);
    ReadColon(rules, r, h.name, r2);
    var r3 := r2.(at := AfterColon, value := "", pending := "", size := r2.size + 2);
    ReadContent(rules, r3, h.value);
    Compose(rules, r, h.name + ": ", r3, h.value + "\r\n", Go(AfterLine(h, r.size + |Line(h)|, r1.entries)));
    assert h.name + ": " + (h.value + "\r\n") == Line(h);
  }

  lemma {:induction false} ColonStep(rules: Rules, r: Reading)
    requires r.at == InName && r.size + 2 < HEADERS_MAX_LEN
    ensures var r' := r.(at := AfterColon, value := "", pending := "", size := r.size + 1);
            Read(rules, r, ':') == Go(r') && Read(rules, r', ' ') == Go(r'.(size := r.size + 2))
  {
  }

  lemma {:induction false} LineEnd(rules: Rules, r: Reading)
    requires r.at == InValue && r.pending == "" && r.value != "" && r.size + 2 < HEADERS_MAX_LEN
    ensures var r' := r.(at := AfterReturn, pending := "\r", size := r.size + 1);
            Read(rules, r, '\r') == Go(r') &&
              Read(rules, r', '\n') == Go(r'.(at := AfterNewline, pending := "\r\n", size := r.size + 2))
  {
    assert "" + ['\r'] == "\r" && "\r" + ['\n'] == "\r\n";
  }

  // The reading after the first n lines of a printed table.
  ghost function AfterLines(s: seq<Header>, n: nat): Reading
    requires n <= |s|
  {
    if n == 0 then FRESH else AfterLine(s[n - 1], |Lines(s[..n])|, s[..n - 1])
  }

  lemma {:induction false} CommitStored(rules: Rules, r: Reading, h: Header)
    requires StoredEntry(rules.table, h) && Known(rules.table, h) && rules.ignore && r.name == h.name &&
             r.value == h.value
    ensures Commit(rules, r) == Go(r.(entries := Added(rules.table, r.entries, h)))
  {
    NeatFixed(h.value);
    assert Entry(rules.table, h.id, h.name, h.value) == h;
  }

  lemma {:induction false} CommitLine(rules: Rules, s: seq<Header>, n: nat)
    requires Stored(rules.table, s) && rules.ignore && 0 < n <= |s|
    ensures Commit(rules, AfterLines(s, n)) == Go(AfterLines(s, n).(entries := s[..n]))
  {
    AddedInOrder(rules.table, s, n - 1);
    assert StoredEntry(rules.table, s[n - 1]) && Known(rules.table, s[n - 1]);
    CommitStored(rules, AfterLines(s, n), s[n - 1]);
  }

  // The first character after a line.
  lemma {:induction false} AfterLineRead(rules: Rules, r: Reading, c: char, entries: seq<Header>)
    requires r.at == AfterNewline && Commit(rules, r) == Go(r.(entries := entries)) &&
             (NameChar(c) || c == '\r' || c == '\n')
    ensures Read(rules, r, c) ==
              if c == '\n' then Done(r.(entries := entries))
              else if c == '\r' then Count(r.(at := AfterSecondReturn, entries := entries))
              else Count(r.(at := InName, name := [c], entries := entries))
  {
  }

  lemma {:induction false} AfterLineStep(rules: Rules, r: Reading, c: char, entries: seq<Header>)
    requires r.at == AfterNewline && Commit(rules, r) == Go(r.(entries := entries))
    requires r.size + 1 < HEADERS_MAX_LEN && (NameChar(c) || c == '\r')
    ensures Read(rules, r, c) ==
              Go(if c == '\r' then r.(at := AfterSecondReturn, size := r.size + 1, entries := entries)
                                    else r.(at := InName, name := [c], size := r.size + 1, entries := entries))
  {
    AfterLineRead(rules, r, c, entries);
  }

  lemma {:induction false} NextName(rules: Rules, s: seq<Header>, n: nat)
    requires Stored(rules.table, s) && rules.ignore && n < |s| && AfterLines(s, n).size + 1 < HEADERS_MAX_LEN
    ensures var r, c := AfterLines(s, n), s[n].name[0];
            Read(rules, r, c) == Go(r.(at := InName, name := [c], size := r.size + 1, entries := s[..n]))
  {
    assert StoredEntry(rules.table, s[n]) && NameChar(s[n].name[0]);
    if n > 0 {
      CommitLine(rules, s, n);
      AfterLineStep(rules, AfterLines(s, n), s[n].name[0], s[..n]);
    } else {
      assert s[..0] == [];
    }
  }

  lemma {:induction false} LinesLength(s: seq<Header>, n: nat)
    requires n < |s|
    ensures Lines(s[..n + 1]) == Lines(s[..n]) + Line(s[n]) && |Lines(s[..n + 1])| <= |Lines(s)|
    decreases |s| - n
  {
    assert s[..n + 1][..n] == s[..n];
    if n + 1 < |s| {
      LinesLength(s, n + 1);
    } else {
      assert s[..n + 1] == s;
    }
  }

  lemma {:induction false} ReadLines(rules: Rules, s: seq<Header>, n: nat)
    requires Stored(rules.table, s) && rules.ignore && n <= |s| && |Lines(s)| < HEADERS_MAX_LEN
    ensures ReadAll(rules, FRESH, Lines(s[..n])) == Go(AfterLines(s, n))
  {
    if n == 0 {
      assert s[..0] == [];
    } else {
      var k := n - 1;
      ReadLines(rules, s, k);
      LinesLength(s, k);
      var r := AfterLines(s, k);
      assert r.size == |Lines(s[..k])| by {
        assert k == 0 ==> s[..0] == [];
      }
      var c := s[k].name[0];
      var r1 := r.(at := InName, name := [c], size := r.size + 1, entries := s[..k]);
      NextName(rules, s, k);
      assert StoredEntry(rules.table, s[k]);
      ReadLine(rules, r, s[k], r1);
      Compose(rules, FRESH, Lines(s[..k]), r, Line(s[k]), Go(AfterLines(s, n)));
    }
  }

  lemma {:induction false} PrintedRead(rules: Rules, s: seq<Header>)
    requires Stored(rules.table, s) && rules.ignore && |Serialized(s)| <= HEADERS_MAX_LEN
    ensures var o := ReadAll(rules, FRESH, Serialized(s));
            o.Stop? && o.result == End && o.r.entries == s && o.r.size == |Serialized(s)|
  {
    var n := |s|;
    ReadLines(rules, s, n);
    assert s[..n] == s;
    var r := AfterLines(s, n);
    var r1 := r.(at := AfterSecondReturn, size := r.size + 1, entries := s);
    if n > 0 {
      CommitLine(rules, s, n);
      AfterLineStep(rules, r, '\r', s);
    }
    EmptyLine(rules, FRESH, Lines(s), r, r1);
  }

  lemma {:induction false} EmptyLine(rules: Rules, r0: Reading, s: string, r: Reading, r1: Reading)
    requires ReadAll(rules, r0, s) == Go(r) && Read(rules, r, '\r') == Go(r1) && r1.at == AfterSecondReturn
    ensures ReadAll(rules, r0, s + "\r\n") == Done(r1)
  {
    Extend(rules, r0, s, r, '\r', r1);
    ReadOne(rules, r1, '\n');
    Compose(rules, r0, s + ['\r'], r1, ['\n'], Done(r1));
    assert s + ['\r'] + ['\n'] == s + "\r\n";
  }

  /**
   A printed table is read back by an empty one that ignores errors, to the last byte and with the same headers in the
   same order, if and only if it is not too long.
   */
  lemma {:induction false} RoundTrip(rules: Rules, s: seq<Header>)
    requires Stored(rules.table, s) && rules.ignore
    ensures var o := ReadAll(rules, FRESH, Serialized(s));
            (o.Stop? && o.result == End && o.r.entries == s && o.r.size == |Serialized(s)|)
            <==> |Serialized(s)| <= HEADERS_MAX_LEN
  {
    EndSize(rules, FRESH, Serialized(s));
    if |Serialized(s)| <= HEADERS_MAX_LEN {
      PrintedRead(rules, s);
    }
  }
}
