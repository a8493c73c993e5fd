/**
 The trees that the parser of util/configuration.cpp builds: every list is arranged, at every depth, and every name and
 value is one that print can write.
 */
module ConfigurationTrees {
  import opened CaseOrder
  import opened ConfigurationReading
  import opened KeyLists
  import opened Text

  // There is a key whose list or value is still to come.
  predicate Named(at: State) {
    match at
    case InKey => true
    case SpaceAfterKey => true
    case AfterEqual => true
    case SpaceAfterEqual => true
    case InValue => true
    case SpaceAfterValue => true
    case InQuoted => true
    case InEscape => true
    case _ => false
  }

  predicate Resumes(at: State) {
    at == Initial || at == WaitingForKeyOrBrace || at == WaitingForKey
  }

  // All lists from the root down to the current one.
  ghost predicate AllPrintable(ordered: bool, outer: seq<Level>, top: Level) {
    Printable(ordered, top.keys) && forall i :: 0 <= i < |outer| ==> Printable(ordered, outer[i].keys)
  }

  ghost predicate Sane(ordered: bool, r: Reading) {
    && (Named(r.at) ==> Name(r.key)) && |r.value| <= VALUE_MAX_LEN && (r.at == InEscape ==> |r.value| < VALUE_MAX_LEN)
    && Resumes(r.prev) && AllPrintable(ordered, r.outer, r.top)
  }

  lemma {:induction false} AddedPrintable(ordered: bool, keys: seq<Key>, k: Key)
    requires Printable(ordered, keys) && PrintableKey(ordered, k) && FindName(keys, k.name) == |keys|
    ensures Printable(ordered, Added(ordered, keys, k))
  {
    AddedArranged(ordered, keys, k);
    var t, pos := Added(ordered, keys, k), PlaceOf(ordered, keys, k.name);
    forall i | 0 <= i < |t|
      ensures PrintableKey(ordered, t[i])
    {
      assert t[i] == if i < pos then keys[i] else if i == pos then k else keys[i - 1];
    }
  }

  lemma {:induction false} HungPrintable(ordered: bool, parent: Level, children: seq<Key>)
    requires Printable(ordered, parent.keys) && Printable(ordered, children)
    ensures Printable(ordered, Hung(parent, children))
  {
    var t := Hung(parent, children);
    assert forall i :: 0 <= i < |t| ==> t[i].name == parent.keys[i].name;
    forall i | 0 <= i < |t|
      ensures PrintableKey(ordered, t[i])
    {
      assert PrintableKey(ordered, parent.keys[i]);
    }
  }

  // Adding a key, closing a list and opening one.

  lemma {:induction false} AddSane(ordered: bool, r: Reading, k: Key, next: State)
    requires Sane(ordered, r) && PrintableKey(ordered, k) && Name(r.key) && next != InEscape
    ensures AddKey(ordered, r, k, next).Go? ==> Sane(ordered, AddKey(ordered, r, k, next).r)
  {
    if FindName(r.top.keys, k.name) == |r.top.keys| {
      AddedPrintable(ordered, r.top.keys, k);
    }
  }

  lemma {:induction false} OpenSane(ordered: bool, r: Reading)
    requires Sane(ordered, r)
    ensures Sane(ordered, OpenBrace(r))
  {
    assert Printable(ordered, []);
  }

  lemma {:induction false} CloseSane(ordered: bool, r: Reading)
    requires Sane(ordered, r)
    ensures CloseBrace(r).Go? ==> Sane(ordered, CloseBrace(r).r)
  {
    if r.outer != [] {
      HungPrintable(ordered, r.outer[|r.outer| - 1], r.top.keys);
    }
  }

  lemma {:induction false} SectionPrintable(ordered: bool, name: string)
    requires Name(name)
    ensures PrintableKey(ordered, Section(name, []))
  {
    assert Printable(ordered, []);
  }

  // A brace after a name adds its section first.
  lemma {:induction false} BraceSane(ordered: bool, r: Reading, k: Key)
    requires Sane(ordered, r) && PrintableKey(ordered, k) && Name(r.key)
    ensures var o := AddKey(ordered, r, k, SpaceAfterKey);
            o.Go? ==> Sane(ordered, OpenBrace(o.r)) && (CloseBrace(o.r).Go? ==> Sane(ordered, CloseBrace(o.r).r))
  {
    AddSane(ordered, r, k, SpaceAfterKey);
    var o := AddKey(ordered, r, k, SpaceAfterKey);
    if o.Go? {
      OpenSane(ordered, o.r);
      CloseSane(ordered, o.r);
    }
  }

  lemma {:induction false} NameSane(ordered: bool, r: Reading, c: char)
    requires Sane(ordered, r) && (r.at == InKey || r.at == SpaceAfterKey)
    ensures AfterName(ordered, r, c).Go? ==> Sane(ordered, AfterName(ordered, r, c).r)
  {
    var k := Section(r.key, []);
    SectionPrintable(ordered, r.key);
    if LineEnd(c) {
      AddSane(ordered, r, k, WaitingForKeyOrBrace);
    } else if c == '#' {
      AddSane(ordered, r, k, Comment);
    } else {
      BraceSane(ordered, r, k);
    }
  }

  lemma {:induction false} BetweenSane(ordered: bool, r: Reading, c: char)
    requires Sane(ordered, r) && Resumes(r.at)
    ensures BetweenKeys(r, c).Go? ==> Sane(ordered, BetweenKeys(r, c).r)
  {
    OpenSane(ordered, r);
    CloseSane(ordered, r);
  }

  lemma {:induction false} ValueSane(ordered: bool, r: Reading, c: char)
    requires Sane(ordered, r) && (r.at == InValue || r.at == InQuoted || r.at == InEscape)
    ensures Read(ordered, r, c).Go? ==> Sane(ordered, Read(ordered, r, c).r)
  {
    AddSane(ordered, r, Value(r.key, r.value), SpaceAfterValue);
    AddSane(ordered, r, Value(r.key, r.value), Initial);
  }

  lemma {:induction false} ReadSane(ordered: bool, r: Reading, c: char)
    requires Sane(ordered, r)
    ensures Read(ordered, r, c).Go? ==> Sane(ordered, Read(ordered, r, c).r)
  {
    match r.at
    case Initial => BetweenSane(ordered, r, c);
    case WaitingForKeyOrBrace => BetweenSane(ordered, r, c);
    case WaitingForKey => BetweenSane(ordered, r, c);
    case InKey => NameSane(ordered, r, c);
    case SpaceAfterKey => NameSane(ordered, r, c);
    case InValue => ValueSane(ordered, r, c);
    case InQuoted => ValueSane(ordered, r, c);
    case InEscape => ValueSane(ordered, r, c);
    case _ =>
  }

  lemma {:induction false} ReadAllSane(ordered: bool, r: Reading, s: string)
    requires Sane(ordered, r)
    ensures ReadAll(ordered, r, s).Go? ==> Sane(ordered, ReadAll(ordered, r, s).r)
    decreases |s|
  {
    if s != "" {
      ReadSane(ordered, r, s[0]);
      var o := Read(ordered, r, s[0]);
      if o.Go? {
        ReadAllSane(ordered, o.r, s[1..]);
      }
    }
  }

  lemma {:induction false} EndPrintable(ordered: bool, r: Reading)
    requires Sane(ordered, r)
    ensures End(ordered, r).Accepted? ==> Printable(ordered, End(ordered, r).keys)
  {
    if r.at == InKey || r.at == SpaceAfterKey {
      SectionPrintable(ordered, r.key);
      AddSane(ordered, r, Section(r.key, []), Initial);
    } else if r.at == InValue || r.at == SpaceAfterValue {
      AddSane(ordered, r, Value(r.key, r.value), Initial);
    }
  }

  lemma {:induction false} PrintableArranged(ordered: bool, keys: seq<Key>)
    requires Printable(ordered, keys)
    ensures AllArranged(ordered, keys)
    decreases keys
  {
    forall i | 0 <= i < |keys| && keys[i].Section?
      ensures AllArranged(ordered, keys[i].children)
    {
      assert PrintableKey(ordered, keys[i]);
      PrintableArranged(ordered, keys[i].children);
    }
  }

  /**
   A file that is accepted gives a tree in which every list, at every depth, has its names apart and, if it is to be
   ordered, in order; and every name and value of it can be printed.
   */
  lemma {:induction false} AcceptedTree(ordered: bool, s: string, r: Reading)
    requires ReadAll(ordered, FRESH, s) == Go(r) && End(ordered, r).Accepted?
    ensures Printable(ordered, End(ordered, r).keys) && AllArranged(ordered, End(ordered, r).keys)
  {
    assert Printable(ordered, []);
    ReadAllSane(ordered, FRESH, s);
    EndPrintable(ordered, r);
    PrintableArranged(ordered, End(ordered, r).keys);
  }

  /** So for every accepted file, what is printed is read, and gives the same tree just when that is faithful. */
  lemma {:induction false} AcceptedRoundTrip(ordered: bool, s: string, r: Reading)
    requires ReadAll(ordered, FRESH, s) == Go(r) && End(ordered, r).Accepted?
    ensures var keys := End(ordered, r).keys;
            var o := ReadAll(ordered, FRESH, Print(keys, 0));
            o.Go? && End(ordered, o.r) == Accepted(RereadKeys(keys)) && (RereadKeys(keys) == keys <==> Faithful(keys))
  {
    var keys := End(ordered, r).keys;
    AcceptedTree(ordered, s, r);
    var r' := PrintedRead(ordered, keys);
    RereadSame(keys);
  }
}
