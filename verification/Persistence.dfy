/**
 Which requests of a stream are answered, in terms of their headers as they were sent: when a connection is kept and
 when it is closed (add_common_headers in net/internet/http/connection.cpp).
 */
module Persistence {
  import opened CaseOrder
  import opened HeaderBlocks
  import opened HeaderNames
  import opened HeaderNumbers
  import opened HeaderTable
  import opened HeaderValue
  import opened Receiving
  import opened StandardHeaders
  import opened Text
  import opened Wrappers
  import G = LineGrammar
  import H = HeaderParsing
  import L = RequestLine
  import W = LineWriting

  // ---------------------------------------------------------------- the Connection header

  // The value is this word, whatever its case.
  predicate Says(v: Option<string>, word: string) {
    v.Some? && Fold(v.value) == Fold(word)
  }

  // The value that the last field of that name gives.
  function LastOf(fields: seq<Field>, name: string): Option<string> {
    if fields == [] then None
    else
      var f := fields[|fields| - 1];
      if SameName(f.name, name) && Words(f.content) != [] then Some(Join(Words(f.content)))
      else LastOf(fields[..|fields| - 1], name)
  }

  /** A header is looked up as the last field of that name in the block. */
  lemma {:induction false} EntriesLookup(table: Table, fields: seq<Field>, id: nat)
    requires Proper(table) && id < |table|
    ensures Grouped(table, Entries(table, fields))
    ensures ValueOf(Key.Standard(id), Entries(table, fields)) == LastOf(fields, table[id].name)
  {
    if fields != [] {
      var n := |fields| - 1;
      var f := fields[n];
      EntriesLookup(table, fields[..n], id);
      if Words(f.content) != [] {
        var h := Entry(table, Lookup(table, f.name), f.name, Join(Words(f.content)));
        AddedGrouped(table, Entries(table, fields[..n]), h, Key.Standard(id));
        if SameName(f.name, table[id].name) {
          OneEntry(table, f.name, id);
        }
      }
    }
  }

  lemma {:induction false} WordFound(v: string, word: string)
    requires Fold(v) == Fold(word)
    ensures Contains(v, word)
  {
    FoldSame(v, word);
    assert v[0..0 + |word|] == v;
    assert SameAt(v, word, 0);
  }

  lemma {:induction false} LongerMissed(v: string, word: string)
    requires |v| < |word|
    ensures !Contains(v, word)
  {
  }

  function VersionOf(e: Event): L.Version {
    if e.Request? then e.line.version else e.version
  }

  // The word stands in the value, whatever its case.
  ghost predicate Mentions(v: string, word: string) {
    exists i, j :: 0 <= i <= j <= |v| && Fold(v[i..j]) == Fold(word)
  }

  lemma {:induction false} MentionsContains(v: string, word: string)
    ensures Mentions(v, word) <==> Contains(v, word)
  {
    if Mentions(v, word) {
      var i, j :| 0 <= i <= j <= |v| && Fold(v[i..j]) == Fold(word);
      FoldSame(v[i..j], word);
      assert SameAt(v, word, i);
    }
    if Contains(v, word) {
      var i :| 0 <= i <= |v| - |word| && SameAt(v, word, i);
      FoldSame(v[i..i + |word|], word);
    }
  }

  // Whether the connection is kept after the n-th answer.
  ghost predicate Persistent(v: Option<string>, version: L.Version, n: nat) {
    n != 10 &&
    if v.None? then version == L.Http11
    else Mentions(v.value, "keep-alive") || (version == L.Http11 && !Mentions(v.value, "close"))
  }

  /** The Connection header decides, and without one the version; the tenth answer is the last in any case. */
  lemma {:induction false} PersistentCases(v: Option<string>, version: L.Version, n: nat)
    ensures Says(v, "close") ==> !Persistent(v, version, n)
    ensures Says(v, "keep-alive") ==> (Persistent(v, version, n) <==> n != 10)
    ensures v.None? && version == L.Http11 ==> (Persistent(v, version, n) <==> n != 10)
    ensures v.None? && version != L.Http11 ==> !Persistent(v, version, n)
    ensures !Persistent(v, version, 10)
  {
    if v.Some? {
      ValueDecides(v.value);
      MentionsContains(v.value, "close");
      MentionsContains(v.value, "keep-alive");
    }
  }

  /** After the first request of a stream, or after a failure, come the events of the rest, or nothing. */
  lemma {:induction false} EventsAfter(ssl: bool, rules: H.Rules, s: string, n: nat, e: Event, size: nat)
    requires First(ssl, rules, s) == Taken(e, size)
    ensures Events(ssl, rules, s, n) ==
              if Persistent(ValueOf(Key.Standard(CONNECTION), e.entries), VersionOf(e), n + 1)
              then [e] + Events(ssl, rules, s[size..], n + 1) else [e]
  {
    var v := ValueOf(Key.Standard(CONNECTION), e.entries);
    if v.Some? {
      MentionsContains(v.value, "close");
      MentionsContains(v.value, "keep-alive");
      CaseLess(v.value, "Keep-Alive", "keep-alive");
    }
    if KeepsAlive(e, n + 1) {
      KeptSome(ssl, rules, s, n + 1);
    }
  }

  lemma {:induction false} CaseLess(v: string, a: string, b: string)
    requires SameName(a, b)
    ensures Contains(v, a) <==> Contains(v, b)
  {
    FoldSame(a, b);
    MentionsContains(v, a);
    MentionsContains(v, b);
  }

  lemma {:induction false} ValueDecides(v: string)
    ensures Fold(v) == Fold("close") ==> Contains(v, "close") && !Contains(v, "keep-alive")
    ensures Fold(v) == Fold("keep-alive") ==> Contains(v, "keep-alive")
  {
    if Fold(v) == Fold("close") {
      WordFound(v, "close");
      LongerMissed(v, "keep-alive");
    }
    if Fold(v) == Fold("keep-alive") {
      WordFound(v, "keep-alive");
    }
  }

  // ---------------------------------------------------------------- requests as they are sent

  // A request line, a block of headers and the empty line.
  datatype Sent = Sent(line: L.Line, fields: seq<Field>, end: string) {
    function Block(): string {
      Texts(fields) + end
    }

    function Text(): string {
      line.Whole() + Block()
    }

    ghost predicate Valid(ssl: bool) {
      && G.WellFormed(ssl, line) && |line.Whole()| <= L.LINE_MAX_LEN + 1
      && HeaderBlocks.Block(Block(), fields, end) && |Block()| <= H.HEADERS_MAX_LEN
    }

    ghost function Found(table: Table): Event {
      Event.Request(line, Entries(table, fields))
    }
  }

  /** A request is found as it was sent, whatever comes after it. */
  lemma {:induction false} SentFound(ssl: bool, rules: H.Rules, r: Sent, t: string)
    requires r.Valid(ssl) && rules.ignore
    ensures First(ssl, rules, r.Text() + t) == Taken(r.Found(rules.table), |r.Text()|)
  {
    var w, b := r.line.Whole(), r.Block();
    W.WrittenRead(ssl, r.line);
    L.ReadLineSplit(ssl, L.FRESH, 0, w, b + t);
    assert w + (b + t) == r.Text() + t && (r.Text() + t)[|w|..] == b + t;
    BlockFound(rules, b, r.fields, r.end, t);
  }

  // The block is found, whatever comes after it.
  lemma {:induction false} BlockFound(rules: H.Rules, b: string, fields: seq<Field>, end: string, t: string)
    requires rules.ignore && HeaderBlocks.Block(b, fields, end) && |b| <= H.HEADERS_MAX_LEN
    ensures var o := H.ReadAll(rules, H.FRESH, b + t);
            o.Stop? && o.result == H.End && o.r.size == |b| && o.r.entries == Entries(rules.table, fields)
  {
    IgnoresAll(rules, fields);
    BlockRead(rules, b, fields, end);
    H.ReadSplit(rules, H.FRESH, b, t);
  }

  // Whether the connection is kept after this request, the n-th one.
  ghost predicate Kept(r: Sent, n: nat) {
    Persistent(LastOf(r.fields, "Connection"), r.line.version, n)
  }

  /** So it is known from a request what the server does after it. */
  lemma {:induction false} SentFollowed(ssl: bool, rules: H.Rules, r: Sent, t: string, n: nat)
    requires r.Valid(ssl) && rules == H.Rules(TABLE, true)
    ensures Events(ssl, rules, r.Text() + t, n) ==
              if Kept(r, n + 1) then [r.Found(TABLE)] + Events(ssl, rules, t, n + 1) else [r.Found(TABLE)]
  {
    TableProper();
    ConnectionNamed();
    SentFound(ssl, rules, r, t);
    EntriesLookup(TABLE, r.fields, CONNECTION);
    EventsAfter(ssl, rules, r.Text() + t, n, r.Found(TABLE), |r.Text()|);
    assert (r.Text() + t)[|r.Text()|..] == t;
  }

  lemma {:induction false} ConnectionNamed()
    ensures CONNECTION < |TABLE| && TABLE[CONNECTION].name == "Connection"
  {
  }

  // Requests that are sent one after the other.

  function AllText(rs: seq<Sent>): string {
    if rs == [] then "" else rs[0].Text() + AllText(rs[1..])
  }

  // The ones that are answered, up to the first one after which the connection is closed.
  ghost function Answered(rs: seq<Sent>, n: nat): seq<Event> {
    if rs == [] then []
    else [rs[0].Found(TABLE)] + if Kept(rs[0], n + 1) then Answered(rs[1..], n + 1) else []
  }

  /** Of requests sent one after the other, those up to the first that closes the connection are answered. */
  lemma {:induction false} Pipelined(ssl: bool, rules: H.Rules, rs: seq<Sent>, n: nat)
    requires rules == H.Rules(TABLE, true) && forall i :: 0 <= i < |rs| ==> rs[i].Valid(ssl)
    ensures Events(ssl, rules, AllText(rs), n) == Answered(rs, n)
  {
    if rs != [] {
      SentFollowed(ssl, rules, rs[0], AllText(rs[1..]), n);
      Pipelined(ssl, rules, rs[1..], n + 1);
    }
  }

  // Two requests: one asks to close the connection, the other has no headers.

  const CLOSING := Sent(W.GetLine(" "), [Field("Connection", " " + ("close" + "\r\n"))], "\r\n")
  const PLAIN := Sent(W.GetLine(" "), [], "\r\n")

  lemma {:induction false} GetValid(ssl: bool, r: Sent)
    requires r.line == W.GetLine(" ") && r.end == "\r\n" && AllValid(r.fields) && |r.Block()| <= H.HEADERS_MAX_LEN
    ensures r.Valid(ssl)
  {
    W.GetFormed(ssl, " ");
    W.GetWhole(r.line, " ");
    assert |W.GetText(" ")| == 16;
  }

  lemma {:induction false} PlainValid(ssl: bool, r: Sent, n: nat)
    requires r == PLAIN
    ensures r.Valid(ssl) && (Kept(r, n) <==> n != 10)
  {
    GetValid(ssl, r);
    PersistentCases(None, L.Http11, n);
  }

  // A word between a blank and the line end.
  lemma {:induction false} PlainWord(v: string, u: string)
    requires Neat(v) && v != "" && (forall i :: 0 <= i < |v| ==> v[i] != ' ') && u == " " + (v + "\r\n")
    ensures Foldable(u) && Words(u) != [] && Join(Words(u)) == v
  {
    NeatFixed(v);
    WordsBehind(v, "\r\n");
    WordsBefore(" ", v + "\r\n");
    forall i | 0 <= i < |u|
      ensures FoldableAt(u, i)
    {
      assert 0 < i <= |v| ==> u[i] == v[i - 1] && NeatAt(v, i - 1);
    }
  }

  lemma {:induction false} FieldValue(f: Field, v: string)
    requires Token(f.name) && Neat(v) && v != "" && (forall i :: 0 <= i < |v| ==> v[i] != ' ')
    requires f.content == " " + (v + "\r\n")
    ensures f.Valid() && LastOf([f], f.name) == Some(v) && Texts([f]) == f.Text() && |f.Text()| == |f.name| + |v| + 4
  {
    PlainWord(v, f.content);
    assert [f][..0] == [];
  }

  lemma {:induction false} ClosingValid(ssl: bool, r: Sent, n: nat)
    requires r == CLOSING
    ensures r.Valid(ssl) && !Kept(r, n)
  {
    ConnectionNamed();
    TableProper();
    assert Token(TABLE[CONNECTION].name);
    FieldValue(r.fields[0], "close");
    GetValid(ssl, r);
    PersistentCases(Some("close"), L.Http11, n);
  }

  lemma {:induction false} TwoSent(ssl: bool, rules: H.Rules, a: Sent, b: Sent)
    requires rules == H.Rules(TABLE, true) && a.Valid(ssl) && b.Valid(ssl)
    ensures Events(ssl, rules, AllText([a, b]), 0) ==
              if Kept(a, 1) then [a.Found(TABLE), b.Found(TABLE)] else [a.Found(TABLE)]
  {
    Pipelined(ssl, rules, [a, b], 0);
    AnsweredTwo([a, b], 0);
  }

  lemma {:induction false} AnsweredTwo(rs: seq<Sent>, n: nat)
    requires |rs| == 2
    ensures Answered(rs, n) ==
              if Kept(rs[0], n + 1) then [rs[0].Found(TABLE), rs[1].Found(TABLE)] else [rs[0].Found(TABLE)]
  {
    AnsweredOne(rs[1..], n + 1);
  }

  lemma {:induction false} AnsweredOne(rs: seq<Sent>, n: nat)
    requires |rs| == 1
    ensures Answered(rs, n) == [rs[0].Found(TABLE)]
  {
    assert Answered(rs[1..], n + 1) == [];
  }

  /** After `Connection: close`, the second request is not answered. */
  lemma {:induction false} ClosedAfterFirst(ssl: bool, a: Sent, b: Sent)
    requires a == CLOSING && b == PLAIN
    ensures Events(ssl, H.Rules(TABLE, true), AllText([a, b]), 0) == [a.Found(TABLE)]
  {
    PlainValid(ssl, b, 2);
    ClosingValid(ssl, a, 1);
    TwoSent(ssl, H.Rules(TABLE, true), a, b);
  }

  /** Without it, both are. */
  lemma {:induction false} KeptAfterFirst(ssl: bool, a: Sent, b: Sent)
    requires a == PLAIN && b == CLOSING
    ensures Events(ssl, H.Rules(TABLE, true), AllText([a, b]), 0) == [a.Found(TABLE), b.Found(TABLE)]
  {
    PlainValid(ssl, a, 1);
    ClosingValid(ssl, b, 2);
    TwoSent(ssl, H.Rules(TABLE, true), a, b);
  }
}
