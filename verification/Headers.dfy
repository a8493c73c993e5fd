/**
 The class of net/internet/http/headers.cpp: the table, and the parser that fills it.
 */
module Headers {
  import opened CaseOrder
  import opened HeaderNames
  import opened HeaderValue
  import opened HeaderTable
  import opened HeaderParsing
  import opened Text
  import opened Wrappers

  // struct state: where the name and the value being read are in the buffer.
  datatype Offsets = Offsets(at: Phase, header: nat, name: nat, namelen: nat, value: nat, valueEnd: nat, size: nat)

  // The offsets say of the bytes read so far what the reading says with text.
  ghost predicate Models(table: Table, b: string, st: Offsets, r: Reading)
  {
    && st.size <= |b| && r.at == st.at && r.size == st.size < HEADERS_MAX_LEN
    && (st.at.InName? ==> st.name + st.namelen == st.size && b[st.name..st.size] == r.name && st.namelen <= MAX_LEN)
    && (InLine(st.at) ==>
      st.name + st.namelen <= st.size && b[st.name..st.name + st.namelen] == r.name &&
      st.header == Lookup(table, r.name))
    && (InLine(st.at) ==> st.size > 0)
    && (InLine(st.at) && st.value == 0 ==> !st.at.InValue? && r.value == r.pending == "")
    && (InLine(st.at) && st.value != 0 ==> !st.at.AfterColon? && ValueModels(b, st, r))
  }

  lemma {:induction false} ValueEnds(table: Table, b: string, st: Offsets, r: Reading, at: Phase)
    requires Models(table, b, st, r) && st.size < |b| && st.size + 1 < HEADERS_MAX_LEN
    requires st.at.InValue? && (at.InValue? || at.AfterReturn? || at.AfterNewline?)
    ensures var end := if st.valueEnd == 0 then st.size else st.valueEnd;
            Models(table, b, st.(at := at, valueEnd := end, size := st.size + 1),
                   r.(at := at, pending := r.pending + [b[st.size]], size := r.size + 1))
  {
    var end := if st.valueEnd == 0 then st.size else st.valueEnd;
    assert b[end..st.size + 1] == b[end..st.size] + [b[st.size]];
  }

  lemma {:induction false} ValueGrows(table: Table, b: string, st: Offsets, r: Reading)
    requires Models(table, b, st, r) && st.size < |b| && st.size + 1 < HEADERS_MAX_LEN && st.at.InValue?
    ensures Models(table, b, st.(valueEnd := 0, size := st.size + 1),
                   r.(value := r.value + r.pending + [b[st.size]], pending := "", size := r.size + 1))
  {
    var end := if st.valueEnd == 0 then st.size else st.valueEnd;
    assert b[st.value..st.size + 1] == b[st.value..end] + b[end..st.size] + [b[st.size]];
  }

  ghost predicate Broken(rules: Rules, r: Reading) {
    var id := Lookup(rules.table, r.name);
    !rules.ignore && r.pending != "" && id != UNKNOWN && rules.table[id].token
  }

  // A value goes on, after a blank or not.
  lemma {:induction false} ContinueRead(rules: Rules, r: Reading, c: char)
    requires r.at.InValue? && HeaderValue.ValueChar(c) && !IsSpace(c)
    ensures Read(rules, r, c) ==
              if Broken(rules, r) then Stop(Invalid, r)
              else Count(r.(value := r.value + r.pending + [c], pending := ""))
  {
  }

  lemma {:induction false} ValueContinues(rules: Rules, b: string, st: Offsets, r: Reading)
    requires Models(rules.table, b, st, r) && st.size < |b| && st.at.InValue? && HeaderValue.ValueChar(b[st.size]) &&
             !IsSpace(b[st.size])
    ensures Broken(rules, r) <==>
              !rules.ignore && st.valueEnd != 0 && st.header != UNKNOWN &&
              rules.table[st.header].token
    ensures if Broken(rules, r) then Switched(rules, b, r, b[st.size], Invalid, st, r.entries)
            else Switched(rules, b, r, b[st.size], NotEnd, st.(valueEnd := 0), r.entries)
  {
    ContinueRead(rules, r, b[st.size]);
    if Broken(rules, r) {
    } else if st.size + 1 < HEADERS_MAX_LEN {
      ValueGrows(rules.table, b, st, r);
    } else {
      assert Count(r.(value := r.value + r.pending + [b[st.size]], pending := "")).Stop?;
    }
  }

  // What the switch on one character must do; counting the character comes after it.
  ghost predicate Switched(rules: Rules, b: string, r: Reading, c: char, result: Result, st: Offsets,
                           entries: seq<Header>)
  {
    match Read(rules, r, c)
    case Go(r') => result == NotEnd && entries == r'.entries && st.size == r.size &&
      Models(rules.table, b, st.(size := r'.size), r')
    case Stop(stop, r') =>
      && entries == r'.entries
      && if stop == TooLarge then result == NotEnd && st.size == r.size && r.size + 1 == HEADERS_MAX_LEN
         else result == stop && (stop == End ==> st.size == r'.size)
  }

  // Instead of the commit, and after it.

  lemma {:induction false} LineStopped(rules: Rules, b: string, st: Offsets, r: Reading, c: char, result: Result,
                                       entries: seq<Header>)
    requires Models(rules.table, b, st, r) && st.size < |b| && st.at == AfterNewline
    requires (c == '\r' || c == '\n' || NameChar(c)) && Commit(rules, r) == Stop(result, r) && entries == r.entries
    ensures result != NotEnd && result != TooLarge && Switched(rules, b, r, c, result, st, entries)
  {
  }

  lemma {:induction false} NewlineSwitched(rules: Rules, b: string, st: Offsets, r: Reading, entries: seq<Header>)
    requires Models(rules.table, b, st, r) && st.size < |b| && st.at == AfterNewline &&
             Commit(rules, r) == Go(r.(entries := entries))
    ensures Switched(rules, b, r, '\n', End, st.(size := st.size + 1), entries)
  {
    AfterLineRead(rules, r, '\n', entries);
  }

  lemma {:induction false} ReturnSwitched(rules: Rules, b: string, st: Offsets, r: Reading, entries: seq<Header>)
    requires Models(rules.table, b, st, r) && st.size < |b| && st.at == AfterNewline &&
             Commit(rules, r) == Go(r.(entries := entries))
    ensures Switched(rules, b, r, '\r', NotEnd, st.(at := AfterSecondReturn), entries)
  {
    AfterLineRead(rules, r, '\r', entries);
    if st.size + 1 == HEADERS_MAX_LEN {
      assert Read(rules, r, '\r').Stop?;
    }
  }

  lemma {:induction false} NameSwitched(rules: Rules, b: string, st: Offsets, r: Reading, entries: seq<Header>)
    requires Models(rules.table, b, st, r) && st.size < |b| && st.at == AfterNewline &&
             Commit(rules, r) == Go(r.(entries := entries))
    requires NameChar(b[st.size])
    ensures Switched(rules, b, r, b[st.size], NotEnd, st.(at := InName, name := st.size, namelen := 1), entries)
  {
    var c := b[st.size];
    AfterLineRead(rules, r, c, entries);
    if st.size + 1 < HEADERS_MAX_LEN {
      NameModels(rules.table, b, st, r.(at := InName, name := [c], size := r.size + 1, entries := entries));
    }
  }

  lemma {:induction false} NameModels(table: Table, b: string, st: Offsets, r: Reading)
    requires st.size < |b| && st.size + 1 == r.size < HEADERS_MAX_LEN && r.at == InName && r.name == [b[st.size]]
    ensures Models(table, b, st.(at := InName, name := st.size, namelen := 1, size := st.size + 1), r)
  {
    assert b[st.size..st.size + 1] == [b[st.size]];
  }

  lemma {:induction false} CommitForm(rules: Rules, r: Reading)
    ensures match Commit(rules, r)
            case Go(r') => r' == r.(entries := r'.entries)
            case Stop(result, r') => r' == r && result != NotEnd
  {
  }

  predicate InLine(at: Phase) {
    at.AfterColon? || at.InValue? || at.AfterReturn? || at.AfterNewline?
  }

  ghost predicate ValueModels(b: string, st: Offsets, r: Reading)
    requires st.size <= |b|
  {
    var end := if st.valueEnd == 0 then st.size else st.valueEnd;
    && st.value < end <= st.size && b[st.value..end] == r.value && b[end..st.size] == r.pending
    && (st.valueEnd == 0 ==> st.at.InValue?) && (st.valueEnd != 0 ==> r.pending != "")
  }

  class Headers {
    const table: Table
    const ignoreErrors: bool
    var headers: seq<Header>
    var state: Offsets
    ghost var seen: string          // the bytes read so far
    ghost var reading: Reading      // what the parser knows of them

    ghost predicate Valid()
      reads this`headers
    {
      Proper(table) && Grouped(table, headers)
    }

    function Settings(): Rules {
      Rules(table, ignoreErrors)
    }

    // Between two calls of parse.
    ghost predicate Ready()
      reads this
    {
      ReadyFor(seen) && |seen| == state.size
    }

    // The bytes read are the first ones of b.
    ghost predicate ReadyFor(b: string)
      reads this`headers, this`state, this`reading
    {
      Valid() && Models(table, b, state, reading) && reading.entries == headers
    }

    constructor (table: Table, ignoreErrors: bool)
      requires Proper(table)
      ensures Ready() && seen == "" && reading == FRESH && headers == [] && this.table == table &&
              this.ignoreErrors == ignoreErrors
    {
      this.table := table;
      this.ignoreErrors := ignoreErrors;
      headers, state, seen, reading := [], Offsets(Start, 0, 0, 0, 0, 0, 0), "", FRESH;
    }

    method Reset()
      requires Proper(table)
      modifies this
      ensures Ready() && seen == "" && reading == FRESH && headers == []
    {
      headers, state := [], Offsets(Start, 0, 0, 0, 0, 0, 0);
      seen, reading := "", FRESH;
    }

    /** The early-stopping search finds what looking at all entries would find, and otherwise the place to insert. */
    method SearchId(id: nat) returns (found: bool, pos: nat)
      requires Valid() && id < |table| && id != UNKNOWN
      ensures found == (Last(Key.Standard(id), headers) < |headers|)
      ensures pos == if found then Last(Key.Standard(id), headers) else SlotOf(table, Key.Standard(id), headers)
    {
      ghost var key := Key.Standard(id);
      var kind := table[id].kind;
      found := false;
      pos := 0;
      while pos < |headers|
        invariant pos <= |headers|
        invariant if found then pos > 0 && KeyOf(headers[pos - 1]) == key else Passed(table, key, headers, pos)
      {
        var h := headers[pos];
        if h.id == id {
          found := true;
        } else if found {
          break;
        } else if h.id == UNKNOWN || Order(kind) < Order(table[h.id].kind) {
          break;
        } else {
          PassOne(table, key, headers, pos);
        }
        pos := pos + 1;
      }
      if found {
        SearchEnds(table, headers, key, pos);
        pos := pos - 1;
      } else {
        SearchMisses(table, headers, key, pos);
      }
    }

    method SearchName(name: string) returns (found: bool, pos: nat)
      requires Valid()
      ensures found == (Last(Other(Fold(name)), headers) < |headers|)
      ensures pos == if found then Last(Other(Fold(name)), headers) else SlotOf(table, Other(Fold(name)), headers)
    {
      ghost var key := Other(Fold(name));
      found := false;
      pos := 0;
      while pos < |headers|
        invariant pos <= |headers|
        invariant if found then pos > 0 && KeyOf(headers[pos - 1]) == key else Passed(table, key, headers, pos)
      {
        var h := headers[pos];
        FoldSame(name, h.name);
        if h.id != UNKNOWN {
          StandardFirst(table, headers, Fold(name), pos);
          PassOne(table, key, headers, pos);
        } else if SameName(name, h.name) {
          found := true;
        } else if found {
          break;
        } else {
          PassOne(table, key, headers, pos);
        }
        pos := pos + 1;
      }
      if found {
        SearchEnds(table, headers, key, pos);
        pos := pos - 1;
      } else {
        SearchMisses(table, headers, key, pos);
      }
    }

    method FindSlot(id: nat, name: string) returns (pos: nat)
      requires Valid() && (id == UNKNOWN || id < |table|)
      ensures pos == SlotOf(table, if id == UNKNOWN then Other(Fold(name)) else Key.Standard(id), headers)
    {
      var found;
      if id != UNKNOWN {
        found, pos := SearchId(id);
      } else {
        found, pos := SearchName(name);
      }
      if found {
        pos := pos + 1;
      }
    }

    // The name is only used if the header is not a standard one.
    method Add(id: nat, name: string, value: string) returns (ok: bool)
      requires Valid() && (id == UNKNOWN || id < |table|)
      modifies this`headers
      ensures Valid() && ok == Tidied(value).Clean?
      ensures headers == if ok then Added(table, old(headers), Entry(table, id, name, Tidied(value).text))
              else old(headers)
      ensures old(Stored(table, headers)) && Fit(table, id, name) ==> Stored(table, headers)
    {
      var pos := FindSlot(id, name);
      var len := CleanValue(value);
      if len.Unclean? {
        return false;
      }
      var h := Entry(table, id, name, len.text);
      AddedGrouped(table, headers, h, KeyOf(h));
      if Stored(table, headers) && Fit(table, id, name) {
        AddedStored(table, headers, id, name, value);
      }
      headers := InsertAt(headers, pos, h);
      return true;
    }

    method RemoveId(id: nat) returns (ok: bool)
      requires Valid() && id < |table| && id != UNKNOWN
      modifies this`headers
      ensures Valid() && ok == (Last(Key.Standard(id), old(headers)) < |old(headers)|)
      ensures headers == if ok then RemoveAt(old(headers), Last(Key.Standard(id), old(headers))) else old(headers)
      ensures old(Stored(table, headers)) ==> Stored(table, headers)
    {
      var pos;
      ok, pos := SearchId(id);
      if ok {
        GroupedRemove(table, headers, pos);
        if Stored(table, headers) {
          RemovedStored(table, headers, pos);
        }
        headers := RemoveAt(headers, pos);
      }
    }

    method RemoveName(name: string) returns (ok: bool)
      requires Valid()
      modifies this`headers
      ensures Valid() && ok == (Last(Other(Fold(name)), old(headers)) < |old(headers)|)
      ensures headers == if ok then RemoveAt(old(headers), Last(Other(Fold(name)), old(headers))) else old(headers)
      ensures old(Stored(table, headers)) ==> Stored(table, headers)
    {
      var pos;
      ok, pos := SearchName(name);
      if ok {
        GroupedRemove(table, headers, pos);
        if Stored(table, headers) {
          RemovedStored(table, headers, pos);
        }
        headers := RemoveAt(headers, pos);
      }
    }

    // get_header_value
    method Get(id: nat) returns (r: Option<string>)
      requires Valid() && id < |table| && id != UNKNOWN
      ensures r == ValueOf(Key.Standard(id), headers)
    {
      var found, pos := SearchId(id);
      r := if found then Some(headers[pos].value) else None;
    }

    method GetByName(name: string) returns (r: Option<string>)
      requires Valid()
      ensures r == ValueOf(Other(Fold(name)), headers)
    {
      var found, pos := SearchName(name);
      r := if found then Some(headers[pos].value) else None;
    }

    method Serialize() returns (buf: string)
      ensures buf == Serialized(headers)
    {
      buf := "";
      var i := 0;
      while i < |headers|
        invariant 0 <= i <= |headers| && buf == Lines(headers[..i])
      {
        LinesLength(headers, i);
        var h := headers[i];
        buf := buf + h.name;
        buf := buf + ": ";
        buf := buf + h.value;
        buf := buf + "\r\n";
        i := i + 1;
      }
      assert headers[..i] == headers;
      buf := buf + "\r\n";
    }

    // ---------------------------------------------------------------- parsing

    // A header must not be repeated, unless it is a list.
    method Repeated(id: nat) returns (yes: bool)
      requires Valid() && (id == UNKNOWN || id < |table|)
      ensures yes <==> !ignoreErrors && id != UNKNOWN && !table[id].list && Last(Key.Standard(id), headers) < |headers|
    {
      yes := false;
      if !ignoreErrors && id != UNKNOWN && !table[id].list {
        var pos;
        yes, pos := SearchId(id);
      }
    }

    // The pending header goes into the table.
    method CommitHeader(id: nat, name: string, value: string, ghost r: Reading) returns (result: Result)
      requires Valid() && r.entries == headers && r.name == name && r.value == value && id == Lookup(table, name)
      modifies this`headers
      ensures Valid()
      ensures match Commit(Settings(), r)
              case Go(r') => result == NotEnd && headers == r'.entries
              case Stop(stop, r') => result == stop && headers == r'.entries
    {
      if value != "" {
        var repeated := Repeated(id);
        if repeated {
          return Invalid;
        }
        var ok := Add(id, name, value);
        if !ok {
          return NoMemory;
        }
      }
      return NotEnd;
    }

    method SwitchStart(b: string, c: char) returns (result: Result)
      requires ReadyFor(b) && state.size < |b| && b[state.size] == c && state.at == Start
      modifies this`state
      ensures Switched(Settings(), b, reading, c, result, state, headers)
    {
      if c == '\r' {
        state := state.(at := AfterSecondReturn);
      } else if c == '\n' {
        state := state.(size := state.size + 1);
        return End;
      } else if NameChar(c) {
        state := state.(at := InName, name := state.size, namelen := 1);
      } else {
        return Invalid;
      }
      return NotEnd;
    }

    method SwitchName(b: string, c: char) returns (result: Result)
      requires ReadyFor(b) && state.size < |b| && b[state.size] == c && state.at == InName
      modifies this`state
      ensures Switched(Settings(), b, reading, c, result, state, headers)
    {
      if c == ':' {
        var id := SearchStandard(table, b[state.name..state.name + state.namelen]);
        state := state.(header := id, value := 0, at := AfterColon);
      } else if NameChar(c) {
        state := state.(namelen := state.namelen + 1);
        if state.namelen > MAX_LEN {
          return Invalid;
        }
        assert b[state.name..state.size + 1] == b[state.name..state.size] + [c];
      } else {
        return Invalid;
      }
      return NotEnd;
    }

    method SwitchColon(b: string, c: char) returns (result: Result)
      requires ReadyFor(b) && state.size < |b| && b[state.size] == c && state.at == AfterColon
      modifies this`state
      ensures Switched(Settings(), b, reading, c, result, state, headers)
    {
      if c == '\r' {
        state := state.(at := AfterReturn);
      } else if c == '\n' {
        state := state.(at := AfterNewline);
      } else if ValueChar(c) {
        if c != ' ' && c != '\t' {
          state := state.(value := state.size, valueEnd := 0, at := InValue);
        }
      } else {
        return Invalid;
      }
      return NotEnd;
    }

    // The value ends here, if it had not ended before.
    method EndValue(b: string, c: char, at: Phase)
      requires ReadyFor(b) && state.size < |b| && b[state.size] == c && state.at == InValue
      requires (c == '\r' && at == AfterReturn) || (c == '\n' && at == AfterNewline) || (IsBlank(c) && at == InValue)
      modifies this`state
      ensures Switched(Settings(), b, reading, c, NotEnd, state, headers)
    {
      if state.size + 1 < HEADERS_MAX_LEN {
        ValueEnds(table, b, state, reading, at);
      }
      if state.valueEnd == 0 {
        state := state.(valueEnd := state.size);
      }
      state := state.(at := at);
    }

    method SwitchValue(b: string, c: char) returns (result: Result)
      requires ReadyFor(b) && state.size < |b| && b[state.size] == c && state.at == InValue
      modifies this`state
      ensures Switched(Settings(), b, reading, c, result, state, headers)
    {
      if c == '\r' {
        EndValue(b, c, AfterReturn);
      } else if c == '\n' {
        EndValue(b, c, AfterNewline);
      } else if !ValueChar(c) {
        return Invalid;
      } else if c == ' ' || c == '\t' {
        EndValue(b, c, InValue);
      } else {
        result := ContinueValue(b, c);
        return;
      }
      return NotEnd;
    }

    method ContinueValue(b: string, c: char) returns (result: Result)
      requires ReadyFor(b) && state.size < |b| && b[state.size] == c && state.at == InValue && ValueChar(c) &&
               !IsSpace(c)
      modifies this`state
      ensures Switched(Settings(), b, reading, c, result, state, headers)
    {
      ValueContinues(Settings(), b, state, reading);
      if !ignoreErrors && state.valueEnd != 0 && state.header != UNKNOWN && table[state.header].token {
        return Invalid;
      }
      state := state.(valueEnd := 0);
      return NotEnd;
    }

    method SwitchReturn(b: string, c: char) returns (result: Result)
      requires ReadyFor(b) && state.size < |b| && b[state.size] == c && state.at == AfterReturn
      modifies this`state
      ensures Switched(Settings(), b, reading, c, result, state, headers)
    {
      if c != '\n' {
        return Invalid;
      }
      if state.value != 0 {
        assert b[state.valueEnd..state.size + 1] == b[state.valueEnd..state.size] + [c];
      }
      state := state.(at := AfterNewline);
      return NotEnd;
    }

    // A line has ended, and no blank continues it.
    method SwitchLine(b: string, c: char) returns (result: Result)
      requires ReadyFor(b) && state.size < |b| && b[state.size] == c && state.at == AfterNewline
      requires c == '\r' || c == '\n' || NameChar(c)
      modifies this`state, this`headers
      ensures Valid() && Switched(Settings(), b, reading, c, result, state, headers)
    {
      ghost var r := reading;
      result := CommitHeader(state.header, b[state.name..state.name + state.namelen],
                             if state.value == 0 then "" else b[state.value..state.valueEnd], reading);
      CommitForm(Settings(), r);
      if result != NotEnd {
        LineStopped(Settings(), b, state, r, c, result, headers);
        return;
      }
      if c == '\r' {
        ReturnSwitched(Settings(), b, state, r, headers);
        state := state.(at := AfterSecondReturn);
      } else if c == '\n' {
        NewlineSwitched(Settings(), b, state, r, headers);
        state := state.(size := state.size + 1);
        return End;
      } else {
        NameSwitched(Settings(), b, state, r, headers);
        state := state.(name := state.size, namelen := 1, at := InName);
      }
    }

    method SwitchNewline(b: string, c: char) returns (result: Result)
      requires ReadyFor(b) && state.size < |b| && b[state.size] == c && state.at == AfterNewline
      modifies this`state, this`headers
      ensures Valid() && Switched(Settings(), b, reading, c, result, state, headers)
    {
      if c == ' ' || c == '\t' {
        if state.value != 0 {
          assert b[state.valueEnd..state.size + 1] == b[state.valueEnd..state.size] + [c];
        }
        // A folded value.
        state := state.(at := if state.value == 0 then AfterColon else InValue);
        return NotEnd;
      } else if c == '\r' || c == '\n' || NameChar(c) {
        result := SwitchLine(b, c);
      } else {
        return Invalid;
      }
    }

    // The body of the loop of parse.
    method Switch(b: string) returns (result: Result)
      requires ReadyFor(b) && state.size < |b|
      modifies this`state, this`headers
      ensures Valid() && Switched(Settings(), b, reading, b[old(state).size], result, state, headers)
    {
      var c := b[state.size];
      match state.at {
        case Start => result := SwitchStart(b, c);
        case InName => result := SwitchName(b, c);
        case AfterColon => result := SwitchColon(b, c);
        case InValue => result := SwitchValue(b, c);
        case AfterReturn => result := SwitchReturn(b, c);
        case AfterNewline => result := SwitchNewline(b, c);
        case AfterSecondReturn =>
          if c != '\n' {
            return Invalid;
          }
          state := state.(size := state.size + 1);
          return End;
      }
    }

    method ParseByte(b: string) returns (result: Result)
      requires ReadyFor(b) && state.size < |b|
      modifies this`state, this`headers, this`reading
      ensures Valid()
      ensures match Read(Settings(), old(reading), b[old(state).size])
              case Go(r) => result == NotEnd && ReadyFor(b) && reading == r && state.size == old(state).size + 1
              case Stop(stop, r) =>
                result == stop != NotEnd && headers == r.entries &&
                (stop == End ==> state.size == r.size)
    {
      ghost var o := Read(Settings(), reading, b[state.size]);
      ReadSize(Settings(), reading, b[state.size]);
      result := Switch(b);
      if result != NotEnd {
        return;
      }
      state := state.(size := state.size + 1);
      if state.size == HEADERS_MAX_LEN {
        return TooLarge;
      }
      reading := o.r;
    }

    // The same, `all` being what reading the rest of the buffer comes to.
    method ParseNext(b: string, ghost all: Outcome) returns (result: Result)
      requires ReadyFor(b) && state.size < |b| && ReadAll(Settings(), reading, b[state.size..]) == all
      modifies this`state, this`headers, this`reading
      ensures Valid()
      ensures result == NotEnd ==>
                ReadyFor(b) && state.size == old(state).size + 1 && ReadAll(Settings(), reading, b[state.size..]) == all
      ensures result != NotEnd ==>
                all.Stop? && result == all.result && headers == all.r.entries &&
                  (result == End ==> state.size == all.r.size)
    {
      ReadNext(Settings(), reading, b, state.size);
      result := ParseByte(b);
    }

    /**
     headers::parse.  The buffer holds the bytes of the earlier calls and more; what comes of them is what reading
     them one after the other comes to.
     */
    method Parse(b: string) returns (result: Result)
      requires Ready() && seen <= b
      modifies this
      ensures Valid()
      ensures match ReadAll(Settings(), old(reading), b[old(state).size..])
              case Go(r) => result == NotEnd && Ready() && reading == r && seen == b && headers == r.entries
              case Stop(stop, r) => result == stop && headers == r.entries && (stop == End ==> state.size == r.size)
    {
      SeenModels(table, seen, b, state, reading);
      ghost var all := ReadAll(Settings(), reading, b[state.size..]);
      while state.size < |b|
        invariant ReadyFor(b) && state.size <= |b| && ReadAll(Settings(), reading, b[state.size..]) == all
        decreases |b| - state.size
      {
        result := ParseNext(b, all);
        if result != NotEnd {
          return;
        }
      }
      assert b[state.size..] == "";
      KeepSeen(b);
      return NotEnd;
    }

    ghost method KeepSeen(b: string)
      requires ReadyFor(b) && state.size == |b|
      modifies this`seen
      ensures Ready() && seen == b
    {
      seen := b;
    }
  }

  /**
   What a table filled by add holds, a fresh one that ignores errors holds after it has parsed the serialized form;
   and the parser reads that form to its end if and only if it is not too long.
   */
  method Transfer(source: Headers) returns (buf: string, copy: Headers, result: Result)
    requires Stored(source.table, source.headers)
    ensures fresh(copy) && copy.table == source.table && copy.Valid() && buf == Serialized(source.headers)
    ensures result == End && copy.state.size == |buf| <==> |buf| <= HEADERS_MAX_LEN
    ensures |buf| <= HEADERS_MAX_LEN ==> copy.headers == source.headers
  {
    buf := source.Serialize();
    copy := new Headers(source.table, true);
    result := copy.Parse(buf);
    assert buf[0..] == buf;
    EndSize(copy.Settings(), FRESH, buf);
    if |buf| <= HEADERS_MAX_LEN {
      PrintedRead(copy.Settings(), source.headers);
    }
  }

  /**
   A fresh table that has parsed what was received, to the end or to an error, is such a table; it need not ignore
   errors.
   */
  method Receive(table: Table, ignore: bool, b: string) returns (h: Headers, result: Result)
    requires Proper(table)
    ensures fresh(h) && h.table == table && h.Valid() && Stored(table, h.headers)
    ensures match ReadAll(Rules(table, ignore), FRESH, b)
            case Go(r) => result == NotEnd && h.headers == r.entries
            case Stop(stop, r) => result == stop && h.headers == r.entries
  {
    h := new Headers(table, ignore);
    assert b[0..] == b;
    ReadAllStored(Rules(table, ignore), FRESH, b);
    result := h.Parse(b);
  }

  lemma {:induction false} SeenModels(table: Table, seen: string, b: string, st: Offsets, r: Reading)
    requires Models(table, seen, st, r) && seen <= b
    ensures Models(table, b, st, r)
  {
    if InLine(st.at) {
      assert seen[st.name..st.name + st.namelen] == b[st.name..st.name + st.namelen];
      if st.value != 0 {
        var end := if st.valueEnd == 0 then st.size else st.valueEnd;
        assert seen[st.value..end] == b[st.value..end] && seen[end..st.size] == b[end..st.size];
      }
    } else if st.at.InName? {
      assert seen[st.name..st.size] == b[st.name..st.size];
    }
  }

  lemma {:induction false} ReadNext(rules: Rules, r: Reading, b: string, i: nat)
    requires i < |b|
    ensures ReadAll(rules, r, b[i..]) ==
              match Read(rules, r, b[i])
              case Go(r') => ReadAll(rules, r', b[i+1..])
              case Stop(stop, r') => Stop(stop, r')
  {
    assert b[i..][1..] == b[i+1..];
  }
}
