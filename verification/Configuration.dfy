/**
 The class of util/configuration.cpp: the parser with its two character buffers, lookups and printing.
 */
module Configuration {
  import opened KeyLists
  import opened ConfigurationExact
  import opened ConfigurationReading
  import opened ConfigurationTrees
  import opened Text
  import opened Wrappers

  // A step has gone the way of the reading.
  ghost predicate Follows(o: Outcome, ok: bool, r: Reading) {
    match o
    case Go(r') => ok && r == r'
    case Fail => !ok
  }

  const MAX_FILE_SIZE := 4 * 1024 * 1024
  const BLOCK_SIZE := 8 * 1024

  // How load ends.
  datatype Loading = Loaded | TooBig | ReadError | Refused

  // What a read returns, out of what is left of the file.
  function Block(returned: nat, left: nat): (n: nat)
    ensures n <= left && n <= BLOCK_SIZE && (left > 0 && returned > 0 ==> n > 0)
  {
    var n := if left < BLOCK_SIZE then left else BLOCK_SIZE;
    if returned < n then returned else n
  }

  // No tree belongs to the file.
  ghost predicate Foreign(ordered: bool, file: string) {
    forall keys :: !StandsFor(ordered, file, keys)
  }

  lemma {:induction false} RefusedEarly(ordered: bool, file: string, i: nat)
    requires i <= |file| && ReadAll(ordered, FRESH, file[..i]) == Fail
    ensures Foreign(ordered, file)
  {
    ReadSplit(ordered, FRESH, file[..i], file[i..]);
    assert file[..i] + file[i..] == file;
    forall keys: seq<Key>
      ensures !StandsFor(ordered, file, keys)
    {
      FileExact(ordered, file, keys);
    }
  }

  lemma {:induction false} AcceptedExactly(ordered: bool, file: string, r: Reading)
    requires ReadAll(ordered, FRESH, file) == Go(r)
    ensures forall keys :: StandsFor(ordered, file, keys) <==> End(ordered, r) == Accepted(keys)
  {
    forall keys: seq<Key>
      ensures StandsFor(ordered, file, keys) <==> End(ordered, r) == Accepted(keys)
    {
      FileExact(ordered, file, keys);
    }
  }

  class Configuration {
    const ordered: bool
    const key: array<char>
    const value: array<char>
    var keylen: nat
    var valuelen: nat
    var state: State
    var prev: State
    var outer: seq<Level>
    var top: Level

    ghost predicate Sized()
      reads this
    {
      key.Length == KEY_MAX_LEN && value.Length == VALUE_MAX_LEN && keylen <= key.Length && valuelen <= value.Length
    }

    ghost predicate Valid()
      reads this, key
    {
      && Sized() && (state == InEscape ==> valuelen < value.Length)
      && Resumes(prev) && (Named(state) ==> Name(key[..keylen])) && AllPrintable(ordered, outer, top)
    }

    // What has been read, as text.
    ghost function Contents(): Reading
      requires Valid()
      reads this, key, value
    {
      Reading(state, prev, key[..keylen], value[..valuelen], outer, top)
    }

    constructor (ordered: bool)
      ensures Valid() && Contents() == FRESH && fresh(key) && fresh(value) && this.ordered == ordered
    {
      this.ordered := ordered;
      key := new char[KEY_MAX_LEN];
      value := new char[VALUE_MAX_LEN];
      keylen, valuelen, state, prev, outer, top := 0, 0, Initial, Initial, [], Level([], 0);
    }

    method PutKey(c: char)
      requires Sized() && keylen < KEY_MAX_LEN
      modifies this`keylen, key
      ensures Sized() && key[..keylen] == old(key[..keylen]) + [c]
    {
      key[keylen] := c;
      keylen := keylen + 1;
    }

    method PutValue(c: char)
      requires Valid() && valuelen < VALUE_MAX_LEN && state != InEscape
      modifies this`valuelen, value
      ensures Valid() && value[..valuelen] == old(value[..valuelen]) + [c]
    {
      value[valuelen] := c;
      valuelen := valuelen + 1;
    }

    // configuration::add_key, with or without a value, and then on to the next state.
    method AddEntry(valued: bool, next: State) returns (ok: bool)
      requires Valid() && next != InEscape && Name(key[..keylen])
      modifies this`top, this`state
      ensures Valid()
      ensures var added := if valued then AddValue(ordered, old(Contents()), next)
                           else AddSection(ordered, old(Contents()), next);
              Follows(added, ok, Contents())
    {
      var name := key[..keylen];
      var k := if valued then Value(name, value[..valuelen]) else Section(name, []);
      var found, pos := Search(ordered, top.keys, name);
      if found {
        return false;
      }
      SectionPrintable(ordered, name);
      AddedPrintable(ordered, top.keys, k);
      top := Level(top.keys[..pos] + [k] + top.keys[pos..], pos);
      state := next;
      return true;
    }

    // configuration::create_keys
    method CreateKeys()
      requires Valid()
      modifies this`outer, this`top, this`state
      ensures Valid() && Contents() == OpenBrace(old(Contents()))
    {
      assert Printable(ordered, []);
      outer := outer + [top];
      top := Level([], 0);
      state := AfterOpeningBrace;
    }

    method CloseKeys() returns (ok: bool)
      requires Valid()
      modifies this`outer, this`top, this`state
      ensures Valid()
      ensures Follows(CloseBrace(old(Contents())), ok, Contents())
    {
      if |outer| == 0 {
        return false;
      }
      var n := |outer| - 1;
      HungPrintable(ordered, outer[n], top.keys);
      top := Level(Hung(outer[n], top.keys), top.pos);
      outer := outer[..n];
      state := AfterClosingBrace;
      return true;
    }

    // ---------------------------------------------------------------- one character

    method BeginKey(c: char)
      requires Valid() && KeyChar(c)
      modifies this`keylen, this`state, key
      ensures Valid() && Contents() == old(Contents()).(key := [c], at := InKey)
    {
      keylen := 0;
      state := InKey;
      PutKey(c);
    }

    // The states in which a key may begin.
    method ParseBetween(c: char) returns (ok: bool)
      requires Valid() && Between(Contents())
      modifies this, key
      ensures Valid() && Follows(ConfigurationReading.Read(ordered, old(Contents()), c), ok, Contents())
    {
      if KeyChar(c) {
        BeginKey(c);
        return true;
      }
      if c == ' ' || c == '\t' || c == '\n' || c == '\r' {
        return true;
      } else if c == '#' {
        prev := state;
        state := Comment;
        return true;
      } else if c == '}' && state != WaitingForKey {
        ok := CloseKeys();
        return;
      } else if c == '{' && state == WaitingForKeyOrBrace {
        CreateKeys();
        return true;
      }
      return false;
    }

    // After the name of a key, or after blanks that follow it.
    method ParseAfterName(c: char) returns (ok: bool)
      requires Valid() && (state == SpaceAfterKey || (state == InKey && !KeyChar(c)))
      modifies this`outer, this`top, this`state, this`prev
      ensures Valid() && Follows(ConfigurationReading.Read(ordered, old(Contents()), c), ok, Contents())
    {
      if c == '=' {
        state := AfterEqual;
        return true;
      } else if c == ' ' || c == '\t' {
        state := SpaceAfterKey;
        return true;
      } else if c == '\n' || c == '\r' {
        ok := AddEntry(false, WaitingForKeyOrBrace);
        return;
      } else if state == InKey {
        return false;
      }
      ok := ParseMark(c);
    }

    method ParseMark(c: char) returns (ok: bool)
      requires Valid() && state == SpaceAfterKey && c != '=' && !IsBlank(c) && !LineEnd(c)
      modifies this`outer, this`top, this`state, this`prev
      ensures Valid() && Follows(ConfigurationReading.Read(ordered, old(Contents()), c), ok, Contents())
    {
      if c == '{' {
        ok := AddEntry(false, SpaceAfterKey);
        if ok {
          CreateKeys();
        }
      } else if c == '}' {
        if |outer| == 0 {
          return false;
        }
        ok := AddEntry(false, SpaceAfterKey);
        if ok {
          ok := CloseKeys();
        }
      } else if c == '#' {
        ok := AddEntry(false, Comment);
        prev := WaitingForKeyOrBrace;
      } else {
        return false;
      }
    }

    method ParseKey(c: char) returns (ok: bool)
      requires Valid() && state == InKey
      modifies this, key
      ensures Valid() && Follows(ConfigurationReading.Read(ordered, old(Contents()), c), ok, Contents())
    {
      if KeyChar(c) {
        if keylen == KEY_MAX_LEN {
          return false;
        }
        PutKey(c);
        return true;
      }
      ok := ParseAfterName(c);
    }

    // After the equals sign, or after blanks that follow it.
    method ParseAfterEqual(c: char) returns (ok: bool)
      requires Valid() && (state == AfterEqual || state == SpaceAfterEqual)
      modifies this, value
      ensures Valid() && Follows(ConfigurationReading.Read(ordered, old(Contents()), c), ok, Contents())
    {
      if c == ' ' || c == '\t' {
        state := SpaceAfterEqual;
      } else if c == '#' && state == SpaceAfterEqual {
        prev := Initial;
        state := Comment;
      } else if c == '"' {
        valuelen := 0;
        state := InQuoted;
      } else if c == '\n' || c == '\r' {
        // The key is ignored.
        state := Initial;
      } else if ValueChar(c) {
        valuelen := 0;
        state := InValue;
        PutValue(c);
      } else {
        return false;
      }
      return true;
    }

    method ParseValue(c: char) returns (ok: bool)
      requires Valid() && state == InValue
      modifies this, value
      ensures Valid() && Follows(ConfigurationReading.Read(ordered, old(Contents()), c), ok, Contents())
    {
      if ValueChar(c) {
        if valuelen == VALUE_MAX_LEN {
          return false;
        }
        PutValue(c);
        return true;
      }
      if c == ' ' || c == '\t' {
        ok := AddEntry(true, SpaceAfterValue);
      } else if c == '\n' || c == '\r' {
        ok := AddEntry(true, Initial);
      } else {
        return false;
      }
    }

    method ParseQuoted(c: char) returns (ok: bool)
      requires Valid() && state == InQuoted
      modifies this, value
      ensures Valid() && Follows(ConfigurationReading.Read(ordered, old(Contents()), c), ok, Contents())
    {
      if c == '"' {
        if valuelen > 0 {
          ok := AddEntry(true, SpaceAfterValue);
          return;
        }
        state := SpaceAfterValue;
        return true;
      }
      if valuelen == VALUE_MAX_LEN {
        return false;
      }
      if c == '\\' {
        state := InEscape;
      } else {
        PutValue(c);
      }
      return true;
    }

    method ParseEscape(c: char) returns (ok: bool)
      requires Valid() && state == InEscape
      modifies this, value
      ensures Valid() && Follows(ConfigurationReading.Read(ordered, old(Contents()), c), ok, Contents())
    {
      state := InQuoted;
      match c {
        case '"' => PutValue('"');
        case '\'' => PutValue('\'');
        case '\\' => PutValue('\\');
        case 't' => PutValue('\t');
        case 'r' => PutValue('\r');
        case 'n' => PutValue('\n');
        case _ => return false;
      }
      return true;
    }

    // The states that only wait for the end of something.
    method ParseRest(c: char) returns (ok: bool)
      requires Valid() && state in {Comment, SpaceAfterValue, AfterOpeningBrace, AfterClosingBrace}
      modifies this`state, this`prev
      ensures Valid() && Follows(ConfigurationReading.Read(ordered, old(Contents()), c), ok, Contents())
    {
      if state == Comment {
        if c == '\n' {
          state := prev;
        }
        return true;
      }
      var blank, end := c == ' ' || c == '\t', c == '\n' || c == '\r';
      if state == SpaceAfterValue {
        if blank {
          return true;
        } else if c == '#' {
          prev := Initial;
          state := Comment;
          return true;
        } else if end {
          state := Initial;
          return true;
        }
      } else if blank || end {
        state := if state == AfterOpeningBrace then WaitingForKey else Initial;
        return true;
      }
      return false;
    }

    // The body of the loop of parse.
    method ParseByte(c: char) returns (ok: bool)
      requires Valid()
      modifies this, key, value
      ensures Valid() && Follows(ConfigurationReading.Read(ordered, old(Contents()), c), ok, Contents())
    {
      match state {
        case Initial => ok := ParseBetween(c);
        case WaitingForKeyOrBrace => ok := ParseBetween(c);
        case WaitingForKey => ok := ParseBetween(c);
        case InKey => ok := ParseKey(c);
        case SpaceAfterKey => ok := ParseAfterName(c);
        case AfterEqual => ok := ParseAfterEqual(c);
        case SpaceAfterEqual => ok := ParseAfterEqual(c);
        case InValue => ok := ParseValue(c);
        case InQuoted => ok := ParseQuoted(c);
        case InEscape => ok := ParseEscape(c);
        case _ => ok := ParseRest(c);
      }
    }

    /** configuration::parse; a file may be handed over in any number of pieces. */
    method Parse(buf: string) returns (ok: bool)
      requires Valid()
      modifies this, key, value
      ensures Valid() && Follows(ReadAll(ordered, old(Contents()), buf), ok, Contents())
    {
      ghost var all := ReadAll(ordered, Contents(), buf);
      var i := 0;
      assert buf[0..] == buf;
      while i < |buf|
        invariant 0 <= i <= |buf| && Valid() && ReadAll(ordered, Contents(), buf[i..]) == all
      {
        assert buf[i..][0] == buf[i] && buf[i..][1..] == buf[i+1..];
        ok := ParseByte(buf[i]);
        if !ok {
          return;
        }
        i := i + 1;
      }
      return true;
    }

    // What can be accepted here has its lists arranged.
    lemma EndSound()
      requires Valid()
      ensures End(ordered, Contents()).Accepted? ==> AllArranged(ordered, End(ordered, Contents()).keys)
    {
      assert Sane(ordered, Contents());
      EndPrintable(ordered, Contents());
      if End(ordered, Contents()).Accepted? {
        PrintableArranged(ordered, End(ordered, Contents()).keys);
      }
    }

    /** configuration::end_parsing */
    method EndParsing() returns (ok: bool)
      requires Valid()
      modifies this`top, this`state
      ensures Valid()
      ensures match End(ordered, old(Contents()))
              case Accepted(keys) => ok && outer == [] && top.keys == keys && AllArranged(ordered, keys)
              case Rejected => !ok
    {
      if |outer| != 0 {
        return false;
      }
      EndSound();
      match state {
        case Comment => ok := prev != WaitingForKey;
        case InKey => ok := AddEntry(false, Initial);
        case SpaceAfterKey => ok := AddEntry(false, Initial);
        case InValue => ok := AddEntry(true, Initial);
        case SpaceAfterValue => ok := AddEntry(true, Initial);
        case InQuoted => ok := false;
        case InEscape => ok := false;
        case AfterOpeningBrace => ok := false;
        case WaitingForKey => ok := false;
        case _ => ok := true;
      }
    }

    method BeginParsing()
      requires Valid() && outer == []
      modifies this
      ensures Valid() && Contents() == FRESH.(top := Level(old(top).keys, 0))
    {
      keylen, valuelen, state, prev, top := 0, 0, Initial, Initial, Level(top.keys, 0);
    }

    // The next block of a file of which i characters have been read.
    method ParseBlock(file: string, i: nat, n: nat) returns (ok: bool)
      requires Valid() && i + n <= |file| && ReadAll(ordered, FRESH, file[..i]) == Go(Contents())
      modifies this, key, value
      ensures Valid()
      ensures if ok then ReadAll(ordered, FRESH, file[..i + n]) == Go(Contents()) else Foreign(ordered, file)
    {
      ReadSplit(ordered, FRESH, file[..i], file[i..i + n]);
      assert file[..i] + file[i..i + n] == file[..i + n];
      ok := Parse(file[i..i + n]);
      if !ok {
        RefusedEarly(ordered, file, i + n);
      }
    }

    // The end of a file that has been read.
    method FinishFile(file: string) returns (ok: bool)
      requires Valid() && ReadAll(ordered, FRESH, file) == Go(Contents())
      modifies this`top, this`state
      ensures Valid() && if ok then outer == [] && StandsFor(ordered, file, top.keys) else Foreign(ordered, file)
    {
      AcceptedExactly(ordered, file, Contents());
      ok := EndParsing();
    }

    /**
     configuration::load, on a configuration without keys.  The file comes in blocks of the sizes that read returns, and
     is accepted if and only if it is one of the grammar; the keys are then the tree that it stands for.
     */
    method Load(file: string, counts: seq<nat>) returns (l: Loading)
      requires Valid() && outer == [] && top.keys == []
      modifies this, key, value
      ensures Valid() && (l == TooBig <==> |file| > MAX_FILE_SIZE)
      ensures l == Loaded ==> outer == [] && StandsFor(ordered, file, top.keys)
      ensures l == Refused ==> Foreign(ordered, file)
      ensures |counts| >= |file| && (forall k :: 0 <= k < |counts| ==> counts[k] > 0) ==> l != ReadError
    {
      if |file| > MAX_FILE_SIZE {
        return TooBig;
      }
      BeginParsing();
      l := LoadBlocks(file, counts);
    }

    // The blocks of a file, and its end.
    method LoadBlocks(file: string, counts: seq<nat>) returns (l: Loading)
      requires Valid() && Contents() == FRESH
      modifies this, key, value
      ensures Valid() && l != TooBig
      ensures l == Loaded ==> outer == [] && StandsFor(ordered, file, top.keys)
      ensures l == Refused ==> Foreign(ordered, file)
      ensures |counts| >= |file| && (forall k :: 0 <= k < |counts| ==> counts[k] > 0) ==> l != ReadError
    {
      var i, k := 0, 0;
      while i < |file|
        invariant k <= i <= |file| && Valid() && ReadAll(ordered, FRESH, file[..i]) == Go(Contents())
      {
        var n := Block(if k < |counts| then counts[k] else 0, |file| - i);
        if n == 0 {
          return ReadError;
        }
        var ok := ParseBlock(file, i, n);
        if !ok {
          return Refused;
        }
        i, k := i + n, k + 1;
      }
      assert file[..i] == file;
      var ok := FinishFile(file);
      return if ok then Loaded else Refused;
    }

    /** configuration::find, once the file has been read to its end. */
    method Find(path: seq<string>) returns (k: Option<Key>)
      requires Valid() && outer == []
      ensures k == Lookup(top.keys, path)
    {
      PrintableArranged(ordered, top.keys);
      k := KeyLists.Find(ordered, top.keys, path);
    }

    // ---------------------------------------------------------------- printing

    static method PrintTabs(depth: nat) returns (out: string)
      ensures out == Tabs(depth)
    {
      out := "";
      for j := 0 to depth
        invariant out == Tabs(j)
      {
        out := "\t" + out;
      }
    }

    // configuration::print, what it writes being its result.
    static method PrintAll(keys: seq<Key>, depth: nat) returns (out: string)
      ensures out == Print(keys, depth)
      decreases keys, 1
    {
      out := "";
      var i := 0;
      assert keys[0..] == keys;
      while i < |keys|
        invariant 0 <= i <= |keys| && Print(keys, depth) == out + Print(keys[i..], depth)
      {
        PrintFirst(keys, i, depth);
        var line := PrintOne(keys[i], depth);
        assert out + (line + Print(keys[i+1..], depth)) == out + line + Print(keys[i+1..], depth);
        out := out + line;
        i := i + 1;
      }
    }

    // The body of its loop.
    static method PrintOne(k: Key, depth: nat) returns (out: string)
      ensures out == PrintKey(k, depth)
      decreases k, 0
    {
      var tabs := PrintTabs(depth);
      if k.Value? {
        var text := PrintText(k.value);
        out := tabs + k.name + " = " + text;
      } else {
        out := tabs + k.name + "\n";
        if |k.children| > 0 {
          var inner := PrintAll(k.children, depth + 1);
          out := out + (tabs + "{\n" + inner + tabs + "}\n");
        } else {
          assert out + "" == out;
        }
      }
    }

    // configuration::print_value
    static method PrintText(text: string) returns (out: string)
      ensures out == PrintValue(text)
    {
      for i := 0 to |text|
        invariant forall k :: 0 <= k < i ==> ValueChar(text[k])
      {
        if !ValueChar(text[i]) {
          out := "";
          for j := 0 to |text|
            invariant out == EscapedAll(text[..j])
          {
            assert text[..j + 1][..j] == text[..j];
            out := out + Escaped(text[j]);
          }
          assert text[..|text|] == text;
          return "\"" + out + "\"\n";
        }
      }
      return text + "\n";
    }
  }
}
