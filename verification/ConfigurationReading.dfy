/**
 What the parser of util/configuration.cpp does with each character, what print writes, and the round trip.
 */
module ConfigurationReading {
  import opened CaseOrder
  import opened KeyLists
  import opened Text

  const KEY_MAX_LEN := 32
  const VALUE_MAX_LEN := 4 * 1024

  predicate IsAlphaNumeric(c: char) {
    'A' <= c <= 'Z' || 'a' <= c <= 'z' || '0' <= c <= '9'
  }

  predicate KeyChar(c: char) {
    IsAlphaNumeric(c) || c == '-' || c == '_' || c == '.' || c == ':'
  }

  predicate ValueChar(c: char) {
    IsAlphaNumeric(c) || c == '-' || c == '_' || c == '.' || c == '+' || c == '/' || c == ':' || c == '@'
  }

  datatype State =
    | Initial | Comment | InKey | SpaceAfterKey | AfterEqual | SpaceAfterEqual | InValue | SpaceAfterValue
    | InQuoted | InEscape | WaitingForKeyOrBrace | AfterOpeningBrace | WaitingForKey | AfterClosingBrace

  // A list that is being filled, and the place of the key that was added last.
  datatype Level = Level(keys: seq<Key>, pos: nat)

  // The lists from the root down to the current one are `outer` and `top`; each of them hangs from the key at the
  // place noted in the one before.
  datatype Reading = Reading(at: State, prev: State, key: string, value: string, outer: seq<Level>, top: Level)

  const FRESH := Reading(Initial, Initial, "", "", [], Level([], 0))

  datatype Outcome = Go(r: Reading) | Fail

  // ---------------------------------------------------------------- the lists

  ghost function AddKey(ordered: bool, r: Reading, k: Key, next: State): Outcome {
    var keys := r.top.keys;
    if FindName(keys, k.name) < |keys| then Fail
    else Go(r.(top := Level(Added(ordered, keys, k), PlaceOf(ordered, keys, k.name)), at := next))
  }

  ghost function AddValue(ordered: bool, r: Reading, next: State): Outcome {
    AddKey(ordered, r, Value(r.key, r.value), next)
  }

  ghost function AddSection(ordered: bool, r: Reading, next: State): Outcome {
    AddKey(ordered, r, Section(r.key, []), next)
  }

  function OpenBrace(r: Reading): Reading {
    r.(outer := r.outer + [r.top], top := Level([], 0), at := AfterOpeningBrace)
  }

  // The list now hangs from its key.
  function Hung(parent: Level, children: seq<Key>): seq<Key> {
    if parent.pos < |parent.keys| then parent.keys[parent.pos := Section(parent.keys[parent.pos].name, children)]
      else parent.keys
  }

  function CloseBrace(r: Reading): Outcome {
    if r.outer == [] then Fail
    else
      var n := |r.outer| - 1;
      Go(r.(outer := r.outer[..n], top := Level(Hung(r.outer[n], r.top.keys), r.top.pos), at := AfterClosingBrace))
  }

  // ---------------------------------------------------------------- one character

  function BeginKey(r: Reading, c: char): Outcome {
    Go(r.(key := [c], at := InKey))
  }

  predicate LineEnd(c: char) {
    c == '\n' || c == '\r'
  }

  // The value begins.
  function BeginValue(r: Reading, c: char): Outcome {
    if c == '"' then Go(r.(value := "", at := InQuoted))
    else if LineEnd(c) then Go(r.(at := Initial))
    else if ValueChar(c) then Go(r.(value := [c], at := InValue))
    else Fail
  }

  ghost function AfterName(ordered: bool, r: Reading, c: char): Outcome {
    if c == '=' then Go(r.(at := AfterEqual))
    else if IsBlank(c) then Go(r.(at := SpaceAfterKey))
    else if LineEnd(c) then AddSection(ordered, r, WaitingForKeyOrBrace)
    else if r.at == InKey then Fail
    else if c == '{' then
      match AddSection(ordered, r, SpaceAfterKey)
      case Go(r') => Go(OpenBrace(r'))
      case Fail => Fail
    else if c == '}' && r.outer != [] then
      match AddSection(ordered, r, SpaceAfterKey)
      case Go(r') => CloseBrace(r')
      case Fail => Fail
    else if c == '#' then
      match AddSection(ordered, r, Comment)
      case Go(r') => Go(r'.(prev := WaitingForKeyOrBrace))
      case Fail => Fail
    else Fail
  }

  // Where a key may begin.
  function BetweenKeys(r: Reading, c: char): Outcome {
    if KeyChar(c) then BeginKey(r, c)
    else if IsBlank(c) || LineEnd(c) then Go(r)
    else if c == '#' then Go(r.(prev := r.at, at := Comment))
    else if c == '}' && r.at != WaitingForKey then CloseBrace(r)
    else if c == '{' && r.at == WaitingForKeyOrBrace then Go(OpenBrace(r))
    else Fail
  }

  function Unescaped(c: char): (s: string) {
    match c
    case '"' => "\""
    case '\'' => "'"
    case '\\' => "\\"
    case 't' => "\t"
    case 'r' => "\r"
    case 'n' => "\n"
    case _ => ""
  }

  ghost function Read(ordered: bool, r: Reading, c: char): Outcome {
    match r.at
    case Initial => BetweenKeys(r, c)
    case WaitingForKeyOrBrace => BetweenKeys(r, c)
    case WaitingForKey => BetweenKeys(r, c)
    case Comment => Go(if c == '\n' then r.(at := r.prev) else r)
    case InKey =>
      if KeyChar(c) then if |r.key| == KEY_MAX_LEN then Fail else Go(r.(key := r.key + [c]))
      else AfterName(ordered, r, c)
    case SpaceAfterKey => AfterName(ordered, r, c)
    case AfterEqual => if IsBlank(c) then Go(r.(at := SpaceAfterEqual)) else BeginValue(r, c)
    case SpaceAfterEqual =>
      if IsBlank(c) then Go(r)
      else if c == '#' then Go(r.(prev := Initial, at := Comment))
      else BeginValue(r, c)
    case InValue =>
      if ValueChar(c) then if |r.value| == VALUE_MAX_LEN then Fail else Go(r.(value := r.value + [c]))
      else if IsBlank(c) then AddValue(ordered, r, SpaceAfterValue)
      else if LineEnd(c) then AddValue(ordered, r, Initial)
      else Fail
    case SpaceAfterValue =>
      if IsBlank(c) then Go(r)
      else if c == '#' then Go(r.(prev := Initial, at := Comment))
      else if LineEnd(c) then Go(r.(at := Initial))
      else Fail
    case InQuoted =>
      if c == '"' then if r.value == "" then Go(r.(at := SpaceAfterValue)) else AddValue(ordered, r, SpaceAfterValue)
      else if |r.value| == VALUE_MAX_LEN then Fail
      else if c == '\\' then Go(r.(at := InEscape))
      else Go(r.(value := r.value + [c]))
    case InEscape => if Unescaped(c) == "" then Fail else Go(r.(value := r.value + Unescaped(c), at := InQuoted))
    case AfterOpeningBrace => if IsBlank(c) || LineEnd(c) then Go(r.(at := WaitingForKey)) else Fail
    case AfterClosingBrace => if IsBlank(c) || LineEnd(c) then Go(r.(at := Initial)) else Fail
  }

  ghost function ReadAll(ordered: bool, r: Reading, s: string): Outcome
    decreases |s|
  {
    if s == "" then Go(r)
    else
      match Read(ordered, r, s[0])
      case Go(r') => ReadAll(ordered, r', s[1..])
      case Fail => Fail
  }

  datatype Ending = Rejected | Accepted(keys: seq<Key>)

  ghost function End(ordered: bool, r: Reading): Ending {
    if r.outer != [] then Rejected
    else
      match r.at
      case Comment => if r.prev == WaitingForKey then Rejected else Accepted(r.top.keys)
      case InKey => EndWith(AddSection(ordered, r, Initial))
      case SpaceAfterKey => EndWith(AddSection(ordered, r, Initial))
      case InValue => EndWith(AddValue(ordered, r, Initial))
      case SpaceAfterValue => EndWith(AddValue(ordered, r, Initial))
      case InQuoted => Rejected
      case InEscape => Rejected
      case AfterOpeningBrace => Rejected
      case WaitingForKey => Rejected
      case _ => Accepted(r.top.keys)
  }

  function EndWith(o: Outcome): Ending {
    match o
    case Go(r) => Accepted(r.top.keys)
    case Fail => Rejected
  }

  // ---------------------------------------------------------------- printing

  function Tabs(depth: nat): string {
    if depth == 0 then "" else "\t" + Tabs(depth - 1)
  }

  predicate Plain(value: string) {
    forall i :: 0 <= i < |value| ==> ValueChar(value[i])
  }

  function Escaped(c: char): string {
    match c
    case '"' => "\\\""
    case '\'' => "\\'"
    case '\\' => "\\\\"
    case 't' => "\\t"
    case 'r' => "\\r"
    case 'n' => "\\n"
    case _ => [c]
  }

  function EscapedAll(s: string): string {
    if s == "" then "" else EscapedAll(s[..|s| - 1]) + Escaped(s[|s| - 1])
  }

  function PrintValue(value: string): string {
    if Plain(value) then value + "\n" else "\"" + EscapedAll(value) + "\"\n"
  }

  function Print(keys: seq<Key>, depth: nat): string
    decreases keys, 1
  {
    if keys == [] then "" else PrintKey(keys[0], depth) + Print(keys[1..], depth)
  }

  function PrintKey(k: Key, depth: nat): string
    decreases k, 0
  {
    match k
    case Value(name, value) => Tabs(depth) + name + " = " + PrintValue(value)
    case Section(name, children) =>
      Tabs(depth) + name + "\n" +
      if children == [] then "" else Tabs(depth) + "{\n" + Print(children, depth + 1) + Tabs(depth) + "}\n"
  }

  // What becomes of a value that is printed in quotes: print escapes the letters t, r and n themselves.

  function Misread(c: char): char {
    match c
    case 't' => '\t'
    case 'r' => '\r'
    case 'n' => '\n'
    case _ => c
  }

  function MisreadAll(s: string): (t: string)
    ensures |t| == |s| && forall i :: 0 <= i < |s| ==> t[i] == Misread(s[i])
  {
    if s == "" then "" else MisreadAll(s[..|s| - 1]) + [Misread(s[|s| - 1])]
  }

  function Reread(value: string): string {
    if Plain(value) then value else MisreadAll(value)
  }

  // A key with an empty value is printed, but not read.
  function RereadKeys(keys: seq<Key>): seq<Key>
    decreases keys, 1
  {
    if keys == [] then [] else RereadKeys(keys[..|keys| - 1]) + RereadKey(keys[|keys| - 1])
  }

  function RereadKey(k: Key): (t: seq<Key>)
    ensures |t| <= 1 && (t != [] ==> t[0].name == k.name)
    decreases k, 0
  {
    match k
    case Value(name, value) => if value == "" then [] else [Value(name, Reread(value))]
    case Section(name, children) => [Section(name, RereadKeys(children))]
  }

  // ---------------------------------------------------------------- reading piece by piece

  lemma {:induction false} ReadSplit(ordered: bool, r: Reading, s: string, t: string)
    ensures ReadAll(ordered, r, s + t) ==
              match ReadAll(ordered, r, s)
              case Go(r') => ReadAll(ordered, r', t)
              case Fail => Fail
    decreases |s|
  {
    if s == "" {
      assert s + t == t;
    } else {
      assert (s + t)[0] == s[0] && (s + t)[1..] == s[1..] + t;
      var o := Read(ordered, r, s[0]);
      if o.Go? {
        ReadSplit(ordered, o.r, s[1..], t);
      }
    }
  }

  lemma {:induction false} Compose(ordered: bool, r: Reading, s: string, r1: Reading, t: string, o: Outcome)
    requires ReadAll(ordered, r, s) == Go(r1) && ReadAll(ordered, r1, t) == o
    ensures ReadAll(ordered, r, s + t) == o
  {
    ReadSplit(ordered, r, s, t);
  }

  lemma {:induction false} Extend(ordered: bool, r: Reading, s: string, r1: Reading, c: char)
    requires ReadAll(ordered, r, s) == Go(r1)
    ensures ReadAll(ordered, r, s + [c]) == Read(ordered, r1, c)
  {
    assert [c][1..] == "";
    ReadSplit(ordered, r, s, [c]);
  }

  predicate Between(r: Reading) {
    r.at == Initial || r.at == WaitingForKeyOrBrace || r.at == WaitingForKey
  }

  lemma {:induction false} ReadTabs(ordered: bool, r: Reading, depth: nat)
    requires Between(r)
    ensures ReadAll(ordered, r, Tabs(depth)) == Go(r)
  {
    if depth > 0 {
      assert Tabs(depth)[1..] == Tabs(depth - 1);
      ReadTabs(ordered, r, depth - 1);
    }
  }

  predicate Name(s: string) {
    0 < |s| <= KEY_MAX_LEN && forall i :: 0 <= i < |s| ==> KeyChar(s[i])
  }

  lemma {:induction false} ReadName(ordered: bool, r: Reading, name: string, n: nat)
    requires Between(r) && Name(name) && 0 < n <= |name|
    ensures ReadAll(ordered, r, name[..n]) == Go(r.(key := name[..n], at := InKey))
  {
    if n == 1 {
      assert name[..1] == [name[0]] && [name[0]][1..] == "";
      assert Read(ordered, r, name[0]) == Go(r.(key := [name[0]], at := InKey));
    } else {
      ReadName(ordered, r, name, n - 1);
      assert name[..n] == name[..n - 1] + [name[n - 1]];
      Extend(ordered, r, name[..n - 1], r.(key := name[..n - 1], at := InKey), name[n - 1]);
    }
  }

  // The equals sign and the blanks around it.
  lemma {:induction false} ReadEqual(ordered: bool, r: Reading)
    requires r.at == InKey
    ensures ReadAll(ordered, r, " = ") == Go(r.(at := SpaceAfterEqual))
  {
    assert " = "[1..] == "= " && "= "[1..] == " " && " "[1..] == "";
    assert !KeyChar(' ');
    assert Read(ordered, r, ' ') == Go(r.(at := SpaceAfterKey));
    assert Read(ordered, r.(at := SpaceAfterKey), '=') == Go(r.(at := AfterEqual));
    assert Read(ordered, r.(at := AfterEqual), ' ') == Go(r.(at := SpaceAfterEqual));
  }

  lemma {:induction false} ReadPlain(ordered: bool, r: Reading, v: string, n: nat)
    requires (r.at == AfterEqual || r.at == SpaceAfterEqual) && Plain(v) && 0 < n <= |v| <= VALUE_MAX_LEN
    ensures ReadAll(ordered, r, v[..n]) == Go(r.(value := v[..n], at := InValue))
  {
    assert ValueChar(v[n - 1]);
    if n == 1 {
      assert v[..1] == [v[0]] && [v[0]][1..] == "";
      assert Read(ordered, r, v[0]) == Go(r.(value := [v[0]], at := InValue));
    } else {
      ReadPlain(ordered, r, v, n - 1);
      assert v[..n] == v[..n - 1] + [v[n - 1]];
      Extend(ordered, r, v[..n - 1], r.(value := v[..n - 1], at := InValue), v[n - 1]);
    }
  }

  lemma {:induction false} ReadEscaped(ordered: bool, r: Reading, c: char)
    requires r.at == InQuoted && |r.value| < VALUE_MAX_LEN
    ensures ReadAll(ordered, r, Escaped(c)) == Go(r.(value := r.value + [Misread(c)]))
  {
    var e := Escaped(c);
    if e == [c] {
      assert [c][1..] == "";
    } else {
      var r1 := r.(at := InEscape);
      assert e == ['\\'] + [e[1]] && Unescaped(e[1]) == [Misread(c)];
      assert ['\\'][1..] == "" && ReadAll(ordered, r, ['\\']) == Go(r1);
      Extend(ordered, r, ['\\'], r1, e[1]);
    }
  }

  lemma {:induction false} ReadQuoted(ordered: bool, r: Reading, v: string)
    requires r.at == InQuoted && r.value == "" && |v| <= VALUE_MAX_LEN
    ensures ReadAll(ordered, r, EscapedAll(v)) == Go(r.(value := MisreadAll(v)))
  {
    if v != "" {
      var n := |v| - 1;
      ReadQuoted(ordered, r, v[..n]);
      var r1 := r.(value := MisreadAll(v[..n]));
      ReadEscaped(ordered, r1, v[n]);
      Compose(ordered, r, EscapedAll(v[..n]), r1, Escaped(v[n]), Go(r.(value := MisreadAll(v))));
    }
  }

  // A printed value, from its first character to the end of the line.
  lemma {:induction false} ReadValue(ordered: bool, r: Reading, v: string) returns (r1: Reading)
    requires r.at == SpaceAfterEqual && 0 < |v| <= VALUE_MAX_LEN
    ensures r1.outer == r.outer && r1.top == r.top && r1.key == r.key && r1.value == Reread(v)
    ensures ReadAll(ordered, r, PrintValue(v)) == AddValue(ordered, r1, Initial)
  {
    if Plain(v) {
      r1 := r.(value := v, at := InValue);
      ReadPlain(ordered, r, v, |v|);
      assert v[..|v|] == v;
      Extend(ordered, r, v, r1, '\n');
    } else {
      r1 := ReadQuotedLine(ordered, r, v);
    }
  }

  lemma {:induction false} ReadQuotedLine(ordered: bool, r: Reading, v: string) returns (r1: Reading)
    requires r.at == SpaceAfterEqual && 0 < |v| <= VALUE_MAX_LEN
    ensures r1 == r.(at := InQuoted, value := MisreadAll(v))
    ensures ReadAll(ordered, r, "\"" + EscapedAll(v) + "\"\n") == AddValue(ordered, r1, Initial)
  {
    var r0 := r.(value := "", at := InQuoted);
    r1 := r0.(value := MisreadAll(v));
    assert ['"'][1..] == "" && ReadAll(ordered, r, ['"']) == Go(r0);
    ReadQuoted(ordered, r0, v);
    Compose(ordered, r, ['"'], r0, EscapedAll(v), Go(r1));
    QuoteEnd(ordered, r1);
    Compose(ordered, r, ['"'] + EscapedAll(v), r1, "\"\n", AddValue(ordered, r1, Initial));
    assert ['"'] + EscapedAll(v) + "\"\n" == "\"" + EscapedAll(v) + "\"\n";
  }

  lemma {:induction false} QuoteEnd(ordered: bool, r: Reading)
    requires r.at == InQuoted && r.value != ""
    ensures ReadAll(ordered, r, "\"\n") == AddValue(ordered, r, Initial)
  {
    assert "\"\n"[1..] == "\n" && "\n"[1..] == "";
    var o := Read(ordered, r, '"');
    assert o == AddValue(ordered, r, SpaceAfterValue);
    if o.Go? {
      assert Read(ordered, o.r, '\n') == Go(o.r.(at := Initial));
    }
  }

  // ---------------------------------------------------------------- reading what was printed

  // What print can write so that it can be read at all: names and values of the right length.
  ghost predicate Printable(ordered: bool, keys: seq<Key>)
    decreases keys, 1
  {
    Arranged(ordered, keys) && forall i :: 0 <= i < |keys| ==> PrintableKey(ordered, keys[i])
  }

  ghost predicate PrintableKey(ordered: bool, k: Key)
    decreases k, 0
  {
    Name(k.name) &&
    match k
    case Value(_, value) => |value| <= VALUE_MAX_LEN
    case Section(_, children) => Printable(ordered, children)
  }

  // The key belongs at the end of the current list.
  ghost predicate Fits(ordered: bool, r: Reading, name: string) {
    FindName(r.top.keys, name) == PlaceOf(ordered, r.top.keys, name) == |r.top.keys|
  }

  lemma {:induction false} AddFitting(ordered: bool, r: Reading, k: Key, next: State)
    requires Fits(ordered, r, k.name)
    ensures AddKey(ordered, r, k, next) == Go(r.(top := Level(r.top.keys + [k], |r.top.keys|), at := next))
  {
    assert Added(ordered, r.top.keys, k) == r.top.keys + [k];
  }

  // The name, the equals sign and the blanks around it.
  lemma {:induction false} ReadNameEqual(ordered: bool, r: Reading, name: string, depth: nat)
    requires Between(r) && Name(name)
    ensures ReadAll(ordered, r, Tabs(depth) + name + " = ") == Go(r.(key := name, at := SpaceAfterEqual))
  {
    ReadTabs(ordered, r, depth);
    ReadName(ordered, r, name, |name|);
    assert name[..|name|] == name;
    var r1 := r.(key := name, at := InKey);
    Compose(ordered, r, Tabs(depth), r, name, Go(r1));
    ReadEqual(ordered, r1);
    Compose(ordered, r, Tabs(depth) + name, r1, " = ", Go(r1.(at := SpaceAfterEqual)));
  }

  lemma {:induction false} ReadValueKey(ordered: bool, r: Reading, k: Key, depth: nat) returns (r': Reading)
    requires Between(r) && k.Value? && k.value != "" && PrintableKey(ordered, k) && Fits(ordered, r, k.name)
    ensures ReadAll(ordered, r, PrintKey(k, depth)) == Go(r')
    ensures r'.outer == r.outer && r'.top.keys == r.top.keys + RereadKey(k) && r'.at == Initial
  {
    ReadNameEqual(ordered, r, k.name, depth);
    var r2 := r.(key := k.name, at := SpaceAfterEqual);
    var r3 := ReadValue(ordered, r2, k.value);
    AddFitting(ordered, r3, Value(k.name, Reread(k.value)), Initial);
    r' := r3.(top := Level(r.top.keys + RereadKey(k), |r.top.keys|), at := Initial);
    Compose(ordered, r, Tabs(depth) + k.name + " = ", r2, PrintValue(k.value), Go(r'));
  }

  // An empty value, and with it the key, is dropped at the end of the line.
  lemma {:induction false} ReadEmptyKey(ordered: bool, r: Reading, name: string, depth: nat)
    requires Between(r) && Name(name)
    ensures ReadAll(ordered, r, PrintKey(Value(name, ""), depth)) == Go(r.(key := name, at := Initial))
  {
    ReadNameEqual(ordered, r, name, depth);
    Extend(ordered, r, Tabs(depth) + name + " = ", r.(key := name, at := SpaceAfterEqual), '\n');
    assert PrintValue("") == "" + "\n" == "\n";
    assert Tabs(depth) + name + " = " + ['\n'] == Tabs(depth) + name + " = " + "\n";
  }

  // The name of a section and the end of its line.
  lemma {:induction false} ReadSectionName(ordered: bool, r: Reading, name: string, depth: nat) returns (r': Reading)
    requires Between(r) && Name(name) && Fits(ordered, r, name)
    ensures ReadAll(ordered, r, Tabs(depth) + name + "\n") == Go(r')
    ensures r'.outer == r.outer && r'.at == WaitingForKeyOrBrace
    ensures r'.top == Level(r.top.keys + [Section(name, [])], |r.top.keys|)
  {
    ReadTabs(ordered, r, depth);
    ReadName(ordered, r, name, |name|);
    assert name[..|name|] == name;
    var r1 := r.(key := name, at := InKey);
    Compose(ordered, r, Tabs(depth), r, name, Go(r1));
    AddFitting(ordered, r1, Section(name, []), WaitingForKeyOrBrace);
    r' := r1.(top := Level(r.top.keys + [Section(name, [])], |r.top.keys|), at := WaitingForKeyOrBrace);
    assert !KeyChar('\n');
    Extend(ordered, r, Tabs(depth) + name, r1, '\n');
    assert Tabs(depth) + name + ['\n'] == Tabs(depth) + name + "\n";
  }

  // The brace that opens a list, on a line of its own.
  lemma {:induction false} ReadOpen(ordered: bool, r: Reading, depth: nat)
    requires r.at == WaitingForKeyOrBrace
    ensures ReadAll(ordered, r, Tabs(depth) + "{\n") == Go(OpenBrace(r).(at := WaitingForKey))
  {
    ReadTabs(ordered, r, depth);
    Extend(ordered, r, Tabs(depth), r, '{');
    Extend(ordered, r, Tabs(depth) + ['{'], OpenBrace(r), '\n');
    assert Tabs(depth) + ['{'] + ['\n'] == Tabs(depth) + "{\n";
  }

  lemma {:induction false} ReadClose(ordered: bool, r: Reading, depth: nat) returns (r': Reading)
    requires (r.at == Initial || r.at == WaitingForKeyOrBrace) && r.outer != []
    ensures ReadAll(ordered, r, Tabs(depth) + "}\n") == Go(r') && r'.at == Initial
    ensures var n := |r.outer| - 1; r'.outer == r.outer[..n] && r'.top.keys == Hung(r.outer[n], r.top.keys)
  {
    ReadTabs(ordered, r, depth);
    Extend(ordered, r, Tabs(depth), r, '}');
    var o := CloseBrace(r);
    r' := o.r.(at := Initial);
    Extend(ordered, r, Tabs(depth) + ['}'], o.r, '\n');
    assert Tabs(depth) + ['}'] + ['\n'] == Tabs(depth) + "}\n";
  }

  // Where the reading stands after some keys have been read.
  ghost predicate Past(r: Reading, r': Reading, keys: seq<Key>) {
    r'.outer == r.outer && r'.top.keys == r.top.keys + keys &&
      (keys != [] ==> r'.at == Initial || r'.at == WaitingForKeyOrBrace) && Between(r')
  }

  lemma {:induction false} ReadKey(ordered: bool, r: Reading, k: Key, depth: nat) returns (r': Reading)
    requires Between(r) && PrintableKey(ordered, k) && Fits(ordered, r, k.name)
    ensures ReadAll(ordered, r, PrintKey(k, depth)) == Go(r') && Past(r, r', RereadKey(k))
    ensures r'.at == Initial || r'.at == WaitingForKeyOrBrace
    decreases k, 0
  {
    if k.Value? {
      if k.value == "" {
        ReadEmptyKey(ordered, r, k.name, depth);
        r' := r.(key := k.name, at := Initial);
        assert r.top.keys + [] == r.top.keys;
      } else {
        r' := ReadValueKey(ordered, r, k, depth);
      }
    } else {
      var first := Tabs(depth) + k.name + "\n";
      var r1 := ReadSectionName(ordered, r, k.name, depth);
      if k.children == [] {
        r' := r1;
        assert PrintKey(k, depth) == first + "" == first;
      } else {
        var r2 := ReadChildren(ordered, r1, k.children, depth);
        r' := r2;
        assert r2.top.keys == r.top.keys + RereadKey(k);
        Compose(ordered, r, first, r1, Braced(k.children, depth), Go(r2));
      }
    }
  }

  function Braced(children: seq<Key>, depth: nat): string {
    Tabs(depth) + "{\n" + Print(children, depth + 1) + Tabs(depth) + "}\n"
  }

  lemma {:induction false} ReadChildren(ordered: bool, r: Reading, children: seq<Key>, depth: nat) returns (r': Reading)
    requires r.at == WaitingForKeyOrBrace && children != [] && Printable(ordered, children)
    ensures ReadAll(ordered, r, Braced(children, depth)) == Go(r') && r'.at == Initial
    ensures r'.outer == r.outer && r'.top.keys == Hung(r.top, RereadKeys(children))
    decreases children, 2
  {
    var open, close := Tabs(depth) + "{\n", Tabs(depth) + "}\n";
    ReadOpen(ordered, r, depth);
    var r1 := OpenBrace(r).(at := WaitingForKey);
    var r2 := ReadKeys(ordered, r1, children, 0, depth + 1);
    assert children[0..] == children;
    Compose(ordered, r, open, r1, Print(children, depth + 1), Go(r2));
    r' := ReadClose(ordered, r2, depth);
    Compose(ordered, r, open + Print(children, depth + 1), r2, close, Go(r'));
    assert open + Print(children, depth + 1) + close == Braced(children, depth);
  }

  // The keys from i on, the ones before them being in the list already.
  lemma {:induction false} ReadKeys(ordered: bool, r: Reading, keys: seq<Key>, i: nat, depth: nat) returns (r': Reading)
    requires Between(r) && Printable(ordered, keys) && i <= |keys| && r.top.keys == RereadKeys(keys[..i])
    ensures ReadAll(ordered, r, Print(keys[i..], depth)) == Go(r')
    ensures r'.outer == r.outer && r'.top.keys == RereadKeys(keys) && Between(r')
    ensures i < |keys| ==> r'.at != WaitingForKey
    decreases keys, 1, |keys| - i
  {
    if i == |keys| {
      r' := r;
      assert keys[..i] == keys;
    } else {
      FitsNext(ordered, r, keys, i);
      var r1 := ReadKey(ordered, r, keys[i], depth);
      r' := ReadKeys(ordered, r1, keys, i + 1, depth);
      Compose(ordered, r, PrintKey(keys[i], depth), r1, Print(keys[i+1..], depth), Go(r'));
      PrintFirst(keys, i, depth);
    }
  }

  lemma {:induction false} PrintFirst(keys: seq<Key>, i: nat, depth: nat)
    requires i < |keys|
    ensures Print(keys[i..], depth) == PrintKey(keys[i], depth) + Print(keys[i+1..], depth)
  {
    assert keys[i..][0] == keys[i] && keys[i..][1..] == keys[i+1..];
  }

  lemma {:induction false} FitsNext(ordered: bool, r: Reading, keys: seq<Key>, i: nat)
    requires Arranged(ordered, keys) && i < |keys| && r.top.keys == RereadKeys(keys[..i])
    ensures Fits(ordered, r, keys[i].name) && RereadKeys(keys[..i + 1]) == r.top.keys + RereadKey(keys[i])
  {
    var before := keys[..i];
    forall k | 0 <= k < i
      ensures ComesAfter(ordered, before[k].name, keys[i].name)
    {
      LaterComesAfter(ordered, keys, k, i);
    }
    RereadAfter(ordered, before, keys[i].name);
    AfterPlace(ordered, r.top.keys, keys[i].name);
    assert keys[..i + 1][..i] == before;
  }

  lemma {:induction false} RereadAfter(ordered: bool, keys: seq<Key>, name: string)
    requires After(ordered, keys, name)
    ensures After(ordered, RereadKeys(keys), name)
  {
    if keys != [] {
      var n := |keys| - 1;
      forall k | 0 <= k < n
        ensures ComesAfter(ordered, keys[..n][k].name, name)
      {
        assert ComesAfter(ordered, keys[k].name, name);
      }
      RereadAfter(ordered, keys[..n], name);
      assert ComesAfter(ordered, keys[n].name, name);
    }
  }

  /** What print writes is read without error; quoted values may have changed, and keys with empty values are gone. */
  lemma {:induction false} PrintedRead(ordered: bool, keys: seq<Key>) returns (r: Reading)
    requires Printable(ordered, keys)
    ensures ReadAll(ordered, FRESH, Print(keys, 0)) == Go(r) && End(ordered, r) == Accepted(RereadKeys(keys))
  {
    assert keys[..0] == [];
    r := ReadKeys(ordered, FRESH, keys, 0, 0);
    assert keys[0..] == keys;
  }

  // No value is empty, and no quoted one has one of the letters t, r and n.
  ghost predicate Faithful(keys: seq<Key>)
    decreases keys, 1
  {
    forall i :: 0 <= i < |keys| ==> FaithfulKey(keys[i])
  }

  ghost predicate FaithfulKey(k: Key)
    decreases k, 0
  {
    match k
    case Value(_, value) => value != "" && (Plain(value) || ('t' !in value && 'r' !in value && 'n' !in value))
    case Section(_, children) => Faithful(children)
  }

  lemma {:induction false} RereadSame(keys: seq<Key>)
    ensures |RereadKeys(keys)| <= |keys|
    ensures RereadKeys(keys) == keys <==> Faithful(keys)
    decreases keys, 1
  {
    if keys != [] {
      var n := |keys| - 1;
      RereadSame(keys[..n]);
      RereadKeySame(keys[n]);
      FaithfulLast(keys);
      var front, last := RereadKeys(keys[..n]), RereadKey(keys[n]);
      if front + last == keys {
        assert front == (front + last)[..n] && last == (front + last)[n..];
      }
      assert keys == keys[..n] + [keys[n]];
    }
  }

  lemma {:induction false} FaithfulLast(keys: seq<Key>)
    requires keys != []
    ensures var n := |keys| - 1; Faithful(keys) <==> Faithful(keys[..n]) && FaithfulKey(keys[n])
  {
    var n := |keys| - 1;
    if Faithful(keys[..n]) && FaithfulKey(keys[n]) {
      forall i | 0 <= i < |keys|
        ensures FaithfulKey(keys[i])
      {
        if i < n {
          assert keys[..n][i] == keys[i];
        }
      }
    }
  }

  lemma {:induction false} RereadKeySame(k: Key)
    ensures RereadKey(k) == [k] <==> FaithfulKey(k)
    decreases k, 0
  {
    match k
    case Value(name, value) =>
      if !Plain(value) {
        var t := MisreadAll(value);
        assert t == value <==> forall i :: 0 <= i < |value| ==> t[i] == value[i];
      }
    case Section(name, children) => RereadSame(children);
  }

  /**
   Printing and parsing give the same tree back just when no value is empty and no value that needs quotes contains
   a t, an r or an n; for plain values that are not empty they always do.
   */
  lemma {:induction false} RoundTrip(ordered: bool, keys: seq<Key>)
    requires Printable(ordered, keys)
    ensures var o := ReadAll(ordered, FRESH, Print(keys, 0));
            o.Go? && (End(ordered, o.r) == Accepted(keys) <==> Faithful(keys))
  {
    var r := PrintedRead(ordered, keys);
    RereadSame(keys);
  }

  lemma {:induction false} OnePrintable(ordered: bool, value: string)
    requires |value| <= VALUE_MAX_LEN
    ensures Printable(ordered, [Value("a", value)])
    ensures RereadKeys([Value("a", value)]) == RereadKey(Value("a", value))
  {
    var k := Value("a", value);
    assert KeyChar('a') && PrintableKey(ordered, k);
    assert [k][..0] == [];
  }

  /** A key with an empty value, which the file `a=""` leaves behind, is lost when it is printed and read. */
  lemma {:induction false} EmptyValueLost(ordered: bool)
    ensures var o := ReadAll(ordered, FRESH, Print([Value("a", "")], 0)); o.Go? && End(ordered, o.r) == Accepted([])
  {
    OnePrintable(ordered, "");
    var r := PrintedRead(ordered, [Value("a", "")]);
  }

  /** The value `t `, which has to be quoted, comes back with a tab in place of its letter. */
  lemma {:induction false} LetterMisread(ordered: bool)
    ensures var o := ReadAll(ordered, FRESH, Print([Value("a", "t ")], 0));
            o.Go? && End(ordered, o.r) == Accepted([Value("a", "\t ")])
  {
    OnePrintable(ordered, "t ");
    TwoMisread("t ", "\t ");
    var r := PrintedRead(ordered, [Value("a", "t ")]);
  }

  lemma {:induction false} TwoMisread(v: string, t: string)
    requires |v| == |t| == 2 && !ValueChar(v[1]) && t[0] == Misread(v[0]) && t[1] == Misread(v[1])
    ensures RereadKey(Value("a", v)) == [Value("a", t)]
  {
    assert MisreadAll(v) == t;
  }

  // ---------------------------------------------------------------- the end of the file

  // After a value, its key is in the list already, unless the value was quoted and empty.
  ghost predicate KeyIsIn(r: Reading) {
    && r.prev != SpaceAfterValue
    && (r.at == SpaceAfterValue ==> r.value == "" || FindName(r.top.keys, r.key) < |r.top.keys|)
  }

  lemma {:induction false} AddedFound(ordered: bool, keys: seq<Key>, k: Key)
    ensures FindName(Added(ordered, keys, k), k.name) < |keys| + 1
  {
    var t := Added(ordered, keys, k);
    assert SameName(k.name, t[PlaceOf(ordered, keys, k.name)].name);
  }

  lemma {:induction false} ReadKeepsIn(ordered: bool, r: Reading, c: char)
    requires KeyIsIn(r)
    ensures match Read(ordered, r, c)
            case Go(r') => KeyIsIn(r')
            case Fail => true
  {
    match r.at
    case InKey => ReadKeyKeepsIn(ordered, r, c);
    case SpaceAfterKey => ReadKeyKeepsIn(ordered, r, c);
    case InValue => ReadValueKeepsIn(ordered, r, c);
    case InQuoted => ReadValueKeepsIn(ordered, r, c);
    case _ =>
  }

  lemma {:induction false} ReadValueKeepsIn(ordered: bool, r: Reading, c: char)
    requires KeyIsIn(r) && (r.at == InValue || r.at == InQuoted)
    ensures match Read(ordered, r, c)
            case Go(r') => KeyIsIn(r')
            case Fail => true
  {
    AddValueKeepsIn(ordered, r, SpaceAfterValue);
    AddValueKeepsIn(ordered, r, Initial);
  }

  lemma {:induction false} AddValueKeepsIn(ordered: bool, r: Reading, next: State)
    requires KeyIsIn(r)
    ensures AddValue(ordered, r, next).Go? ==> KeyIsIn(AddValue(ordered, r, next).r)
  {
    AddedFound(ordered, r.top.keys, Value(r.key, r.value));
  }

  // After a name, no value has been read.
  lemma {:induction false} AfterNameElsewhere(ordered: bool, r: Reading, c: char)
    requires r.prev != SpaceAfterValue && (r.at == InKey || r.at == SpaceAfterKey)
    ensures var o := AfterName(ordered, r, c); o.Go? ==> o.r.at != SpaceAfterValue && o.r.prev != SpaceAfterValue
  {
  }

  lemma {:induction false} ReadKeyKeepsIn(ordered: bool, r: Reading, c: char)
    requires KeyIsIn(r) && (r.at == InKey || r.at == SpaceAfterKey)
    ensures match Read(ordered, r, c)
            case Go(r') => KeyIsIn(r')
            case Fail => true
  {
    AfterNameElsewhere(ordered, r, c);
  }

  lemma {:induction false} ReadAllKeepsIn(ordered: bool, r: Reading, s: string)
    requires KeyIsIn(r)
    ensures match ReadAll(ordered, r, s)
            case Go(r') => KeyIsIn(r')
            case Fail => true
    decreases |s|
  {
    if s != "" {
      ReadKeepsIn(ordered, r, s[0]);
      if Read(ordered, r, s[0]).Go? {
        ReadAllKeepsIn(ordered, Read(ordered, r, s[0]).r, s[1..]);
      }
    }
  }

  /**
   A file that ends after a value, with a quote or a blank as its last character, is accepted just when that value is
   empty and its key is new: end_parsing adds the key, which a value that is not empty has already done.
   */
  lemma {:induction false} EndAfterValue(ordered: bool, s: string, r: Reading)
    requires ReadAll(ordered, FRESH, s) == Go(r) && r.at == SpaceAfterValue && r.outer == []
    ensures End(ordered, r).Accepted? <==> r.value == "" && FindName(r.top.keys, r.key) == |r.top.keys|
  {
    ReadAllKeepsIn(ordered, FRESH, s);
  }

  /** An unquoted value at the end of the file is accepted, and rejected once a blank follows it. */
  lemma {:induction false} TrailingBlank(ordered: bool, s: string, r: Reading, c: char)
    requires ReadAll(ordered, FRESH, s) == Go(r) && r.at == InValue && r.outer == [] && IsBlank(c)
    requires FindName(r.top.keys, r.key) == |r.top.keys|
    ensures End(ordered, r).Accepted?
    ensures var o := ReadAll(ordered, FRESH, s + [c]); o.Go? && End(ordered, o.r).Rejected?
  {
    Extend(ordered, FRESH, s, r, c);
    AddedTwice(ordered, r);
  }

  // The blank adds the key, and the end of the file adds it again.
  lemma {:induction false} AddedTwice(ordered: bool, r: Reading)
    requires r.outer == [] && FindName(r.top.keys, r.key) == |r.top.keys|
    ensures var o := AddValue(ordered, r, SpaceAfterValue); o.Go? && End(ordered, o.r).Rejected?
  {
    AddedFound(ordered, r.top.keys, Value(r.key, r.value));
  }

  // The key a and its equals sign.
  const NAMED := FRESH.(key := "a", at := AfterEqual)

  lemma {:induction false} ReadNamed(ordered: bool)
    ensures ReadAll(ordered, FRESH, "a=") == Go(NAMED)
  {
    ReadOne(ordered, FRESH, 'a');
    Extend(ordered, FRESH, ['a'], FRESH.(key := "a", at := InKey), '=');
    assert ['a'] + ['='] == "a=";
  }

  lemma {:induction false} ReadQuote(ordered: bool)
    ensures ReadAll(ordered, FRESH, "a=\"") == Go(NAMED.(at := InQuoted))
  {
    ReadNamed(ordered);
    Extend(ordered, FRESH, "a=", NAMED, '"');
    assert "a=" + ['"'] == "a=\"";
  }

  /** The file `a=""` is accepted, with an empty value; a newline after it would have dropped the key. */
  lemma {:induction false} EmptyQuotesLast(ordered: bool)
    ensures var o := ReadAll(ordered, FRESH, "a=\"\""); o.Go? && End(ordered, o.r) == Accepted([Value("a", "")])
    ensures var o := ReadAll(ordered, FRESH, "a=\"\"\n"); o.Go? && End(ordered, o.r) == Accepted([])
  {
    var r := NAMED.(at := SpaceAfterValue);
    ReadQuote(ordered);
    Extend(ordered, FRESH, "a=\"", NAMED.(at := InQuoted), '"');
    assert "a=\"" + ['"'] == "a=\"\"";
    AddFitting(ordered, r, Value("a", ""), Initial);
    Extend(ordered, FRESH, "a=\"\"", r, '\n');
    assert "a=\"\"" + ['\n'] == "a=\"\"\n";
  }

  /** The file `a="b"` is rejected. */
  lemma {:induction false} QuoteLast(ordered: bool)
    ensures var o := ReadAll(ordered, FRESH, "a=\"b\""); o.Go? && End(ordered, o.r) == Rejected
  {
    var q := NAMED.(at := InQuoted, value := "b");
    ReadQuote(ordered);
    Extend(ordered, FRESH, "a=\"", NAMED.(at := InQuoted), 'b');
    assert "a=\"" + ['b'] == "a=\"b";
    AddFitting(ordered, q, Value("a", "b"), SpaceAfterValue);
    var r := q.(at := SpaceAfterValue, top := Level([Value("a", "b")], 0));
    Extend(ordered, FRESH, "a=\"b", q, '"');
    assert "a=\"b" + ['"'] == "a=\"b\"";
    EndAfterValue(ordered, "a=\"b\"", r);
  }

  /** The file `a=b` is accepted, and rejected with a blank after it. */
  lemma {:induction false} BlankLast(ordered: bool)
    ensures var o := ReadAll(ordered, FRESH, "a=b"); o.Go? && End(ordered, o.r).Accepted?
    ensures var o := ReadAll(ordered, FRESH, "a=b "); o.Go? && End(ordered, o.r) == Rejected
  {
    ReadNamed(ordered);
    Extend(ordered, FRESH, "a=", NAMED, 'b');
    assert "a=" + ['b'] == "a=b" && "a=b" + [' '] == "a=b ";
    TrailingBlank(ordered, "a=b", NAMED.(at := InValue, value := "b"), ' ');
  }

  lemma {:induction false} ReadOne(ordered: bool, r: Reading, c: char)
    ensures ReadAll(ordered, r, [c]) == Read(ordered, r, c)
  {
    assert [c][1..] == "";
  }
}
