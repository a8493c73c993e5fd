/**
 get_ranges of net/internet/http/headers.cpp: the ranges that a Range header asks for (section 14.35.1 of RFC 2616).
 The numbers are off_t of 64 bits, which are taken to wrap around.
 */
module Ranges {
  import opened Number
  import opened Text
  import opened CaseOrder
  import opened Wrappers
  import opened Response

  const MAX_RANGES := 16

  // ---------------------------------------------------------------- numbers

  const OFF := 0x8000_0000_0000_0000

  // What an off_t holds of n.
  function Wrapped(n: nat): int {
    if n % (2 * OFF) < OFF then n % (2 * OFF) else n % (2 * OFF) - 2 * OFF
  }

  // One more digit, unless the number is then smaller.
  function Extended(n: nat, d: nat): Option<nat> {
    var tmp := Wrapped(10 * n + d);
    if tmp < n then None else Some(tmp)
  }

  // What a text of digits is taken for.
  function Read(s: string): Option<nat>
    requires AllDigits(s)
  {
    if s == "" then Some(0)
    else
      match Read(s[..|s| - 1])
      case None => None
      case Some(n) => Extended(n, (s[|s| - 1] - '0') as nat)
  }

  lemma {:induction false} ExtendedExact(n: nat, d: nat)
    requires n < OFF && d < 10
    ensures Extended(n, d) == Some(10 * n + d) <==> 10 * n + d < OFF
    ensures Extended(n, d).Some? ==> Extended(n, d).value < OFF
    ensures OFF <= 10 * n + d < 2 * OFF ==> Extended(n, d) == None
  {
  }

  /** A number is taken for what it is if and only if an off_t can hold it. */
  lemma {:induction false} ReadExact(s: string)
    requires AllDigits(s)
    ensures Read(s) == Some(Value(s)) <==> Value(s) < OFF
    ensures Read(s).Some? ==> Read(s).value < OFF
  {
    if s != "" {
      ReadExact(s[..|s| - 1]);
      ReadLast(s);
    }
  }

  lemma {:induction false} ReadLast(s: string)
    requires s != "" && AllDigits(s) && (Read(s[..|s| - 1]).Some? ==> Read(s[..|s| - 1]).value < OFF)
    requires Read(s[..|s| - 1]) == Some(Value(s[..|s| - 1])) <==> Value(s[..|s| - 1]) < OFF
    ensures Read(s) == Some(Value(s)) <==> Value(s) < OFF
    ensures Read(s).Some? ==> Read(s).value < OFF
  {
    var r := Read(s[..|s| - 1]);
    if r.Some? {
      ExtendedExact(r.value, (s[|s| - 1] - '0') as nat);
    }
  }

  /** The test for overflow sees the first half of them, and with that the header is refused. */
  lemma {:induction false} ReadBetween(s: string)
    requires s != "" && AllDigits(s) && OFF <= Value(s) < 2 * OFF
    ensures Read(s) == None
  {
    var t := s[..|s| - 1];
    ReadExact(t);
    if Read(t).Some? {
      ExtendedExact(Read(t).value, (s[|s| - 1] - '0') as nat);
    }
  }

  /** But not all: 20496382304121724017 is taken for 2049638230412172401. */
  lemma {:induction false} ReadMissed(s: string)
    requires AllDigits(s) && Value(s) == 2049638230412172401
    ensures AllDigits(s + "7") && Value(s + "7") == 20496382304121724017
    ensures Read(s + "7") == Some(2049638230412172401)
  {
    ReadExact(s);
    ReadMore(s, '7');
    ValueMore(s, '7');
  }

  lemma {:induction false} ValueMore(d: string, c: char)
    requires AllDigits(d) && IsDigit(c)
    ensures AllDigits(d + [c]) && Value(d + [c]) == 10 * Value(d) + (c - '0') as nat
  {
    assert (d + [c])[..|d|] == d;
  }

  lemma {:induction false} ReadMore(d: string, c: char)
    requires AllDigits(d) && IsDigit(c)
    ensures AllDigits(d + [c])
    ensures Read(d + [c]) == if Read(d).None? then None else Extended(Read(d).value, (c - '0') as nat)
  {
    assert (d + [c])[..|d|] == d;
  }

  // ---------------------------------------------------------------- the grammar

  predicate Digits(s: string) {
    s != "" && AllDigits(s)
  }

  // A byte-range-spec without and with a last position, and a suffix-byte-range-spec, with the blanks allowed in them.
  datatype Spec =
    | From(b0: string, first: string, b1: string, b2: string)
    | FromTo(b0: string, first: string, b1: string, b2: string, last: string, b3: string)
    | Suffix(b0: string, b2: string, length: string, b3: string)
  {
    predicate Valid() {
      match this
      case From(_, first, _, _) => Blanks(b0) && Digits(first) && Blanks(b1) && Blanks(b2)
      case FromTo(_, first, _, _, last, _) =>
        Blanks(b0) && Digits(first) && Blanks(b1) && Blanks(b2) && Digits(last) && Blanks(b3)
      case Suffix(_, _, length, _) => Blanks(b0) && Blanks(b2) && Digits(length) && Blanks(b3)
    }

    function Text(): string {
      match this
      case From(_, first, _, _) => b0 + first + b1 + "-" + b2
      case FromTo(_, first, _, _, last, _) => b0 + first + b1 + "-" + b2 + last + b3
      case Suffix(_, _, length, _) => b0 + "-" + b2 + length + b3
    }

    function Meaning(): Want
      requires Valid()
    {
      match this
      case From(_, first, _, _) => Open(Value(first))
      case FromTo(_, first, _, _, last, _) => Closed(Value(first), Value(last))
      case Suffix(_, _, length, _) => Last(Value(length))
    }

    // Its numbers are in the range of off_t.
    predicate Fits()
      requires Valid()
    {
      match this
      case From(_, first, _, _) => Value(first) < OFF
      case FromTo(_, first, _, _, last, _) => Value(first) < OFF && Value(last) < OFF
      case Suffix(_, _, length, _) => Value(length) < OFF
    }

    // What it is taken for, unless a number is seen to be out of range.
    function Taken(): Option<Want>
      requires Valid()
    {
      match this
      case From(_, first, _, _) => if Read(first).None? then None else Some(Open(Read(first).value))
      case FromTo(_, first, _, _, last, _) =>
        if Read(first).None? || Read(last).None? then None else Some(Closed(Read(first).value, Read(last).value))
      case Suffix(_, _, length, _) => if Read(length).None? then None else Some(Last(Read(length).value))
    }
  }

  /** A spec is taken for what it means if and only if its numbers are in range. */
  lemma {:induction false} TakenExact(e: Spec)
    requires e.Valid()
    ensures e.Taken() == Some(e.Meaning()) <==> e.Fits()
  {
    match e
    case From(_, first, _, _) => ReadExact(first);
    case FromTo(_, first, _, _, last, _) =>
      ReadExact(first);
      ReadExact(last);
    case Suffix(_, _, length, _) => ReadExact(length);
  }

  // What a spec asks for.
  datatype Want = Open(from: nat) | Closed(from: nat, to: nat) | Last(count: nat)

  // ---------------------------------------------------------------- the ranges

  datatype Answer = Refused | Ranges(list: seq<Range>)

  function Min(a: int, b: int): int {
    if a < b then a else b
  }

  function Max(a: int, b: int): int {
    if a > b then a else b
  }

  // One more spec: it is dropped if the file has no such byte, and there may not be too many.
  function Granted(acc: Answer, w: Want, size: nat): Answer {
    match acc
    case Refused => Refused
    case Ranges(list) =>
      match w
      case Open(from) => if from < size then One(list, from, size - 1) else acc
      case Closed(from, to) =>
        if from > to then Refused else if from < size then One(list, from, Min(to, size - 1)) else acc
      case Last(count) => if count > 0 && size > 0 then One(list, Max(size - count, 0), size - 1) else acc
  }

  function One(list: seq<Range>, from: nat, to: nat): Answer {
    if |list| == MAX_RANGES then Refused else Ranges(list + [Range(from, to)])
  }

  function GrantedAll(wants: seq<Want>, size: nat): Answer {
    if wants == [] then Ranges([]) else Granted(GrantedAll(wants[..|wants| - 1], size), wants[|wants| - 1], size)
  }

  // The specs, as they are taken.
  function AnswerTo(specs: seq<Spec>, size: nat): Answer
    requires forall i :: 0 <= i < |specs| ==> specs[i].Valid()
  {
    if specs == [] then Ranges([])
    else
      match specs[|specs| - 1].Taken()
      case None => Refused
      case Some(w) => Granted(AnswerTo(specs[..|specs| - 1], size), w, size)
  }

  // ---------------------------------------------------------------- the bytes that are asked for

  // Whether a spec asks for the byte at k of a file of that size.
  ghost predicate Asked(w: Want, size: nat, k: nat) {
    match w
    case Open(from) => from <= k < size
    case Closed(from, to) => from <= k <= to && k < size
    case Last(count) => k < size && size <= k + count
  }

  ghost predicate AsksSome(w: Want, size: nat) {
    exists k: nat :: Asked(w, size, k)
  }

  // The range holds these bytes and no others.
  ghost predicate Selects(r: Range, w: Want, size: nat) {
    r.from <= r.to && forall k: nat :: r.from <= k <= r.to <==> Asked(w, size, k)
  }

  // A spec with an unreadable number, or one that ends before it begins.
  predicate Wrong(w: Option<Want>) {
    w.None? || (w.value.Closed? && w.value.from > w.value.to)
  }

  // The specs that ask for some byte, in their order.
  ghost function Asking(wants: seq<Option<Want>>, size: nat): seq<Want> {
    if wants == [] then []
    else
      var earlier, w := Asking(wants[..|wants| - 1], size), wants[|wants| - 1];
      if w.Some? && AsksSome(w.value, size) then earlier + [w.value] else earlier
  }

  // One range for each spec that asks for some byte, in order, with just the bytes it asks for; the header is refused
  // if a spec is wrong or there are too many ranges.
  ghost predicate Honours(answer: Answer, wants: seq<Option<Want>>, size: nat) {
    var asking := Asking(wants, size);
    if |asking| > MAX_RANGES || exists i :: 0 <= i < |wants| && Wrong(wants[i]) then answer == Refused
    else answer.Ranges? && SelectsAll(answer.list, asking, size)
  }

  ghost predicate SelectsAll(list: seq<Range>, asking: seq<Want>, size: nat) {
    |list| == |asking| && forall i :: 0 <= i < |list| ==> Selects(list[i], asking[i], size)
  }

  // What granting one more spec does to the ranges.
  lemma {:induction false} GrantedSelects(list: seq<Range>, w: Want, size: nat)
    requires !Wrong(Some(w))
    ensures var a := Granted(Ranges(list), w, size);
            if !AsksSome(w, size) then a == Ranges(list)
            else if |list| == MAX_RANGES then a == Refused
            else a.Ranges? && |a.list| == |list| + 1 && a.list[..|list|] == list && Selects(a.list[|list|], w, size)
  {
    match w
    case Open(from) => assert from < size ==> Asked(w, size, from);
    case Closed(from, to) => assert from < size ==> Asked(w, size, from);
    case Last(count) => assert count > 0 && size > 0 ==> Asked(w, size, size - 1);
  }

  function Takens(specs: seq<Spec>): (wants: seq<Option<Want>>)
    requires forall i :: 0 <= i < |specs| ==> specs[i].Valid()
    ensures |wants| == |specs| && forall i :: 0 <= i < |specs| ==> wants[i] == specs[i].Taken()
  {
    seq(|specs|, i requires 0 <= i < |specs| => specs[i].Taken())
  }

  /** What the specs are granted is what they ask for. */
  lemma {:induction false} AnswerHonours(specs: seq<Spec>, size: nat)
    requires forall i :: 0 <= i < |specs| ==> specs[i].Valid()
    ensures Honours(AnswerTo(specs, size), Takens(specs), size)
  {
    if specs != [] {
      var n := |specs| - 1;
      AnswerHonours(specs[..n], size);
      assert Takens(specs)[..n] == Takens(specs[..n]);
      HonoursNext(AnswerTo(specs[..n], size), Takens(specs), size);
    }
  }

  lemma {:induction false} HonoursNext(acc: Answer, wants: seq<Option<Want>>, size: nat)
    requires wants != [] && Honours(acc, wants[..|wants| - 1], size)
    ensures var w := wants[|wants| - 1];
            Honours(if w.None? then Refused else Granted(acc, w.value, size), wants, size)
  {
    var n := |wants| - 1;
    if acc.Ranges? && !Wrong(wants[n]) {
      GrantedSelects(acc.list, wants[n].value, size);
    }
    if exists i :: 0 <= i < n && Wrong(wants[..n][i]) {
      var i :| 0 <= i < n && Wrong(wants[..n][i]);
      assert Wrong(wants[i]);
    }
  }

  /** Whatever is granted lies in the file, and there are at most 16 ranges. */
  lemma {:induction false} GrantedSatisfiable(specs: seq<Spec>, size: nat)
    requires forall i :: 0 <= i < |specs| ==> specs[i].Valid()
    ensures var r := AnswerTo(specs, size); r.Ranges? ==> |r.list| <= MAX_RANGES && Satisfiable(r.list, size)
  {
    if specs != [] {
      GrantedSatisfiable(specs[..|specs| - 1], size);
    }
  }

  // ---------------------------------------------------------------- reading one spec

  // What is known of a spec after a part of it.
  datatype Part =
    | Nothing | First(from: nat) | FirstBlank(from: nat) | Dash(from: nat) | Second(from: nat, to: nat)
    | SecondBlank(from: nat, to: nat) | Minus | Count(count: nat) | CountBlank(count: nat) | Bad

  function Next(p: Part, c: char): Part {
    if IsDigit(c) then
      var d := (c - '0') as nat;
      match p
      case Nothing => First(d)
      case First(from) => if Extended(from, d).None? then Bad else First(Extended(from, d).value)
      case Dash(from) => Second(from, d)
      case Second(from, to) => if Extended(to, d).None? then Bad else Second(from, Extended(to, d).value)
      case Minus => Count(d)
      case Count(count) => if Extended(count, d).None? then Bad else Count(Extended(count, d).value)
      case _ => Bad
    else if c == '-' then
      match p
      case Nothing => Minus
      case First(from) => Dash(from)
      case FirstBlank(from) => Dash(from)
      case _ => Bad
    else if IsBlank(c) then
      match p
      case First(from) => FirstBlank(from)
      case Second(from, to) => SecondBlank(from, to)
      case Count(count) => CountBlank(count)
      case _ => p
    else Bad
  }

  function Scan(s: string): Part {
    if s == "" then Nothing else Next(Scan(s[..|s| - 1]), s[|s| - 1])
  }

  function Complete(p: Part): Option<Want> {
    match p
    case Dash(from) => Some(Open(from))
    case Second(from, to) => Some(Closed(from, to))
    case SecondBlank(from, to) => Some(Closed(from, to))
    case Count(count) => Some(Last(count))
    case CountBlank(count) => Some(Last(count))
    case _ => None
  }

  // ---------------------------------------------------------------- a spec is read as the grammar says

  lemma {:induction false} ScanNext(s: string, c: char)
    ensures Scan(s + [c]) == Next(Scan(s), c)
  {
    assert (s + [c])[..|s|] == s;
  }

  lemma {:induction false} ScanBlanks(s: string, b: string)
    requires Blanks(b)
    requires Scan(s).Nothing? || Scan(s).Dash? || Scan(s).Minus? || Scan(s).FirstBlank? || Scan(s).SecondBlank? ||
             Scan(s).CountBlank?
    ensures Scan(s + b) == Scan(s)
  {
    if b == "" {
      assert s + b == s;
    } else {
      var n := |b| - 1;
      ScanBlanks(s, b[..n]);
      ScanNext(s + b[..n], b[n]);
      assert s + b == s + b[..n] + [b[n]];
    }
  }

  // Blanks after a number.
  lemma {:induction false} ScanPause(s: string, b: string)
    requires Blanks(b) && (Scan(s).First? || Scan(s).Second? || Scan(s).Count?)
    ensures Scan(s + b) ==
              if b == "" then Scan(s)
              else match Scan(s)
                   case First(from) => FirstBlank(from)
                   case Second(from, to) => SecondBlank(from, to)
                   case Count(count) => CountBlank(count)
  {
    if b == "" {
      assert s + b == s;
    } else {
      ScanNext(s, b[0]);
      ScanBlanks(s + [b[0]], b[1..]);
      assert s + [b[0]] + b[1..] == s + b;
    }
  }

  // A number after q.
  function WithNumber(q: Part, r: Option<nat>): Part {
    match r
    case None => Bad
    case Some(n) =>
      match q
      case Nothing => First(n)
      case Dash(from) => Second(from, n)
      case Minus => Count(n)
      case _ => Bad
  }

  lemma {:induction false} WithDigit(q: Part, d: string, c: char)
    requires Digits(d) && IsDigit(c) && (q.Nothing? || q.Dash? || q.Minus?)
    ensures AllDigits(d + [c]) && Next(WithNumber(q, Read(d)), c) == WithNumber(q, Read(d + [c]))
  {
    ReadMore(d, c);
  }

  lemma {:induction false} ScanDigits(s: string, d: string)
    requires Digits(d) && (Scan(s).Nothing? || Scan(s).Dash? || Scan(s).Minus?)
    ensures Scan(s + d) == WithNumber(Scan(s), Read(d))
  {
    var n := |d| - 1;
    assert s + d == s + d[..n] + [d[n]] && d == d[..n] + [d[n]];
    ScanNext(s + d[..n], d[n]);
    if n == 0 {
      assert s + d[..n] == s;
      NumberFirst(Scan(s), d[n]);
    } else {
      ScanDigits(s, d[..n]);
      WithDigit(Scan(s), d[..n], d[n]);
    }
  }

  lemma {:induction false} NumberFirst(q: Part, c: char)
    requires IsDigit(c) && (q.Nothing? || q.Dash? || q.Minus?)
    ensures Next(q, c) == WithNumber(q, Read([c]))
  {
    ReadMore("", c);
    assert "" + [c] == [c];
  }

  lemma {:induction false} ScanBad(s: string, more: string)
    requires Scan(s).Bad?
    ensures Scan(s + more).Bad?
  {
    if more == "" {
      assert s + more == s;
    } else {
      var n := |more| - 1;
      ScanBad(s, more[..n]);
      ScanNext(s + more[..n], more[n]);
      assert s + more == s + more[..n] + [more[n]];
    }
  }

  lemma {:induction false} Regrouped(a: string, b: string, c: string, d: string)
    ensures a + (b + c + d) == a + b + c + d
  {
  }

  lemma {:induction false} ScanFirst(b0: string, first: string, b1: string, b2: string)
    requires Blanks(b0) && Digits(first) && Blanks(b1) && Blanks(b2)
    ensures Scan(b0 + first + b1 + "-" + b2) == if Read(first).None? then Bad else Dash(Read(first).value)
  {
    ScanBlanks("", b0);
    assert "" + b0 == b0;
    ScanDigits(b0, first);
    if Read(first).None? {
      ScanBad(b0 + first, b1 + "-" + b2);
      Regrouped(b0 + first, b1, "-", b2);
    } else {
      ScanPause(b0 + first, b1);
      ScanNext(b0 + first + b1, '-');
      ScanBlanks(b0 + first + b1 + "-", b2);
    }
  }

  lemma {:induction false} ScanNumber(h: string, number: string, b: string)
    requires Digits(number) && Blanks(b) && (Scan(h).Dash? || Scan(h).Minus?)
    ensures Complete(Scan(h + number + b)) ==
            match Read(number)
            case None => None
            case Some(n) => Some(if Scan(h).Minus? then Last(n) else Closed(Scan(h).from, n))
  {
    ScanDigits(h, number);
    if Read(number).None? {
      ScanBad(h + number, b);
    } else {
      ScanPause(h + number, b);
    }
  }

  lemma {:induction false} ScanMinus(b0: string, b2: string)
    requires Blanks(b0) && Blanks(b2)
    ensures Scan(b0 + "-" + b2) == Minus
  {
    ScanBlanks("", b0);
    assert "" + b0 == b0;
    ScanNext(b0, '-');
    ScanBlanks(b0 + "-", b2);
  }

  lemma {:induction false} FromToScanned(b0: string, first: string, b1: string, b2: string, last: string, b3: string)
    requires Blanks(b0) && Digits(first) && Blanks(b1) && Blanks(b2) && Digits(last) && Blanks(b3)
    ensures Complete(Scan(b0 + first + b1 + "-" + b2 + last + b3)) ==
            if Read(first).None? || Read(last).None? then None
            else Some(Closed(Read(first).value, Read(last).value))
  {
    ScanFirst(b0, first, b1, b2);
    var head := b0 + first + b1 + "-" + b2;
    if Read(first).None? {
      ScanBad(head, last + b3);
      assert head + (last + b3) == head + last + b3;
    } else {
      ScanNumber(head, last, b3);
    }
  }

  /** Every text of the grammar is read as it is taken. */
  lemma {:induction false} SpecScanned(e: Spec)
    requires e.Valid()
    ensures Complete(Scan(e.Text())) == e.Taken()
  {
    match e
    case Suffix(b0, b2, length, b3) =>
      ScanMinus(b0, b2);
      ScanNumber(b0 + "-" + b2, length, b3);
    case From(b0, first, b1, b2) =>
      ScanFirst(b0, first, b1, b2);
    case FromTo(b0, first, b1, b2, last, b3) =>
      FromToScanned(b0, first, b1, b2, last, b3);
  }

  lemma {:induction false} ScanLast(s: string)
    requires s != ""
    ensures s == s[..|s| - 1] + [s[|s| - 1]] && Scan(s) == Next(Scan(s[..|s| - 1]), s[|s| - 1])
  {
  }

  // A blank after a number, or after other blanks.
  lemma {:induction false} NextBlank(p: Part, c: char)
    requires Next(p, c).FirstBlank? || Next(p, c).SecondBlank? || Next(p, c).CountBlank?
    ensures IsBlank(c)
    ensures match Next(p, c)
            case FirstBlank(from) => p == First(from) || p == Next(p, c)
            case SecondBlank(from, to) => p == Second(from, to) || p == Next(p, c)
            case CountBlank(count) => p == Count(count) || p == Next(p, c)
  {
  }

  // The blanks at the end, if there was a number or nothing before them.
  lemma {:induction false} PeelBlanks(s: string) returns (t: string, b: string)
    ensures s == t + b && Blanks(b) && !Scan(t).FirstBlank? && !Scan(t).SecondBlank? && !Scan(t).CountBlank?
    ensures match Scan(s)
            case FirstBlank(from) => Scan(t) == First(from)
            case SecondBlank(from, to) => Scan(t) == Second(from, to)
            case CountBlank(count) => Scan(t) == Count(count)
            case p => t == s
  {
    t, b := s, "";
    if Scan(s).FirstBlank? || Scan(s).SecondBlank? || Scan(s).CountBlank? {
      ScanLast(s);
      var n := |s| - 1;
      NextBlank(Scan(s[..n]), s[n]);
      t, b := PeelBlanks(s[..n]);
      assert s == t + (b + [s[n]]);
      b := b + [s[n]];
    }
  }

  predicate InNumber(p: Part) {
    p.First? || p.Second? || p.Count?
  }

  // After q, the digits d lead to p.
  predicate Numbered(q: Part, d: string, p: Part)
    requires AllDigits(d)
  {
    match p
    case First(from) => q == Nothing && Read(d) == Some(from)
    case Second(from, to) => q == Dash(from) && Read(d) == Some(to)
    case Count(count) => q == Minus && Read(d) == Some(count)
    case _ => false
  }

  lemma {:induction false} NumberBegins(q: Part, c: char)
    requires InNumber(Next(q, c)) && !InNumber(q)
    ensures Digits([c]) && Numbered(q, [c], Next(q, c))
  {
    ReadMore("", c);
  }

  lemma {:induction false} NumberGoesOn(q: Part, d: string, p: Part, c: char)
    requires InNumber(Next(p, c)) && Digits(d) && Numbered(q, d, p)
    ensures Digits(d + [c]) && Numbered(q, d + [c], Next(p, c))
  {
    ReadMore(d, c);
  }

  // The number at the end.
  lemma {:induction false} PeelDigits(s: string) returns (t: string, d: string)
    requires InNumber(Scan(s))
    ensures s == t + d && Digits(d) && Numbered(Scan(t), d, Scan(s))
  {
    ScanLast(s);
    var n := |s| - 1;
    if InNumber(Scan(s[..n])) {
      t, d := PeelDigits(s[..n]);
      NumberGoesOn(Scan(t), d, Scan(s[..n]), s[n]);
      d := d + [s[n]];
    } else {
      NumberBegins(Scan(s[..n]), s[n]);
      t, d := s[..n], [s[n]];
    }
  }

  // The hyphen and the blanks after it.
  lemma {:induction false} PeelHyphen(s: string) returns (t: string, b: string)
    requires Scan(s).Dash? || Scan(s).Minus?
    ensures s == t + "-" + b && Blanks(b)
    ensures if Scan(s).Minus? then Scan(t) == Nothing
            else Scan(t) == First(Scan(s).from) || Scan(t) == FirstBlank(Scan(s).from)
  {
    ScanLast(s);
    var n := |s| - 1;
    if Scan(s[..n]).Dash? || Scan(s[..n]).Minus? {
      t, b := PeelHyphen(s[..n]);
      b := b + [s[n]];
    } else {
      t, b := s[..n], "";
    }
  }

  lemma {:induction false} NothingBlank(s: string)
    requires Scan(s) == Nothing
    ensures Blanks(s)
  {
    if s != "" {
      ScanLast(s);
      NothingBlank(s[..|s| - 1]);
    }
  }

  // The text up to the hyphen and the blanks after it.
  lemma {:induction false} PeelFirst(s: string) returns (e: Spec)
    requires Scan(s).Dash?
    ensures e.From? && e.Valid() && e.Text() == s && Read(e.first) == Some(Scan(s).from)
  {
    var t, b2 := PeelHyphen(s);
    var u, b1 := PeelBlanks(t);
    var b0, first := PeelDigits(u);
    NothingBlank(b0);
    e := From(b0, first, b1, b2);
  }

  /** And nothing else is read: a text with a meaning belongs to the grammar. */
  lemma {:induction false} ScannedSpec(s: string) returns (e: Spec)
    requires Complete(Scan(s)).Some?
    ensures e.Valid() && e.Text() == s && Complete(Scan(s)) == e.Taken()
  {
    if Scan(s).Dash? {
      e := PeelFirst(s);
    } else {
      var t, b3 := PeelBlanks(s);
      var u, number := PeelDigits(t);
      if Scan(u).Minus? {
        var b0, b2 := PeelHyphen(u);
        NothingBlank(b0);
        e := Suffix(b0, b2, number, b3);
      } else {
        var f := PeelFirst(u);
        e := FromTo(f.b0, f.first, f.b1, f.b2, number, b3);
      }
    }
  }

  // ---------------------------------------------------------------- the whole header

  function GrantedPart(acc: Answer, p: Part, size: nat): Answer {
    match Complete(p)
    case None => Refused
    case Some(w) => Granted(acc, w, size)
  }

  function GrantedTexts(parts: seq<string>, size: nat): Answer {
    if parts == [] then Ranges([])
    else GrantedPart(GrantedTexts(parts[..|parts| - 1], size), Scan(parts[|parts| - 1]), size)
  }

  // What stands after the unit.
  function AfterUnit(s: string, size: nat): Answer {
    if s == "" then Refused
    else if s[0] == '=' then GrantedTexts(Split(',', s[1..]), size)
    else if IsBlank(s[0]) then AfterUnit(s[1..], size)
    else Refused
  }

  function RangesOf(v: string, size: nat): Answer {
    if |v| < 7 || !SameName(v[..5], "bytes") then Refused else AfterUnit(v[5..], size)
  }

  // A header of the grammar.
  ghost predicate Written(v: string, unit: string, blanks: string, specs: seq<Spec>) {
    && SameName(unit, "bytes") && Blanks(blanks) && specs != [] && (forall i :: 0 <= i < |specs| ==> specs[i].Valid())
    && v == unit + (blanks + "=" + Unsplit(',', Texts(specs)))
  }

  function Wants(specs: seq<Spec>): (wants: seq<Want>)
    requires forall i :: 0 <= i < |specs| ==> specs[i].Valid()
    ensures |wants| == |specs|
  {
    if specs == [] then [] else Wants(specs[..|specs| - 1]) + [specs[|specs| - 1].Meaning()]
  }

  function Texts(specs: seq<Spec>): (texts: seq<string>)
    ensures |texts| == |specs|
  {
    if specs == [] then [] else Texts(specs[..|specs| - 1]) + [specs[|specs| - 1].Text()]
  }

  lemma {:induction false} NoComma(e: Spec)
    requires e.Valid()
    ensures ',' !in e.Text() && e.Text() != ""
  {
  }

  lemma {:induction false} TextsAt(specs: seq<Spec>, i: nat)
    requires i < |specs|
    ensures Texts(specs)[i] == specs[i].Text()
  {
    if i < |specs| - 1 {
      TextsAt(specs[..|specs| - 1], i);
    }
  }

  lemma {:induction false} TextsPlain(specs: seq<Spec>)
    requires forall i :: 0 <= i < |specs| ==> specs[i].Valid()
    ensures forall i :: 0 <= i < |specs| ==> ',' !in Texts(specs)[i] && Texts(specs)[i] != ""
  {
    forall i | 0 <= i < |specs|
      ensures ',' !in Texts(specs)[i] && Texts(specs)[i] != ""
    {
      TextsAt(specs, i);
      NoComma(specs[i]);
    }
  }

  lemma {:induction false} GrantedSpecs(specs: seq<Spec>, size: nat)
    requires forall i :: 0 <= i < |specs| ==> specs[i].Valid()
    ensures GrantedTexts(Texts(specs), size) == AnswerTo(specs, size)
  {
    if specs != [] {
      var n := |specs| - 1;
      SpecScanned(specs[n]);
      GrantedSpecs(specs[..n], size);
      assert Texts(specs)[..n] == Texts(specs[..n]);
    }
  }

  lemma {:induction false} GrantedWants(specs: seq<Spec>, size: nat)
    requires forall i :: 0 <= i < |specs| ==> specs[i].Valid() && specs[i].Fits()
    ensures AnswerTo(specs, size) == GrantedAll(Wants(specs), size)
  {
    if specs != [] {
      var n := |specs| - 1;
      TakenExact(specs[n]);
      GrantedWants(specs[..n], size);
      assert Wants(specs)[..n] == Wants(specs[..n]);
    }
  }

  lemma {:induction false} SkipBlanks(blanks: string, s: string, size: nat)
    requires Blanks(blanks)
    ensures AfterUnit(blanks + "=" + s, size) == GrantedTexts(Split(',', s), size)
  {
    if blanks == "" {
      assert (blanks + "=" + s)[1..] == s;
    } else {
      SkipBlanks(blanks[1..], s, size);
      assert (blanks + "=" + s)[1..] == blanks[1..] + "=" + s;
    }
  }

  lemma {:induction false} UnitFirst(v: string, unit: string, rest: string)
    requires |unit| == 5 && v == unit + rest
    ensures v[..5] == unit && v[5..] == rest
  {
  }

  /** A header of the grammar is answered with what its specs ask for, one after the other, if off_t can hold that. */
  lemma {:induction false} WrittenAnswered(v: string, unit: string, blanks: string, specs: seq<Spec>, size: nat)
    requires Written(v, unit, blanks, specs) && forall i :: 0 <= i < |specs| ==> specs[i].Fits()
    ensures RangesOf(v, size) == GrantedAll(Wants(specs), size)
    ensures Honours(RangesOf(v, size), Meanings(specs), size)
  {
    WrittenTaken(v, unit, blanks, specs, size);
    GrantedWants(specs, size);
    forall i | 0 <= i < |specs|
      ensures Takens(specs)[i] == Meanings(specs)[i]
    {
      TakenExact(specs[i]);
    }
    assert Takens(specs) == Meanings(specs);
  }

  function Meanings(specs: seq<Spec>): (wants: seq<Option<Want>>)
    requires forall i :: 0 <= i < |specs| ==> specs[i].Valid()
    ensures |wants| == |specs| && forall i :: 0 <= i < |specs| ==> wants[i] == Some(specs[i].Meaning())
  {
    seq(|specs|, i requires 0 <= i < |specs| => Some(specs[i].Meaning()))
  }

  /** A header of the grammar is answered as its specs are taken. */
  lemma {:induction false} WrittenTaken(v: string, unit: string, blanks: string, specs: seq<Spec>, size: nat)
    requires Written(v, unit, blanks, specs)
    ensures RangesOf(v, size) == AnswerTo(specs, size) && Honours(RangesOf(v, size), Takens(specs), size)
  {
    AnswerHonours(specs, size);
    WrittenRead(v, unit, blanks, specs, size);
  }

  lemma {:induction false} WrittenRead(v: string, unit: string, blanks: string, specs: seq<Spec>, size: nat)
    requires Written(v, unit, blanks, specs)
    ensures RangesOf(v, size) == AnswerTo(specs, size)
  {
    var s := Unsplit(',', Texts(specs));
    TextsPlain(specs);
    SplitUnsplit(',', Texts(specs));
    GrantedSpecs(specs, size);
    SkipBlanks(blanks, s, size);
    UnitFirst(v, unit, blanks + "=" + s);
    assert s != "" by {
      assert Split(',', "") == [""];
    }
    assert |v| == 5 + |blanks| + 1 + |s|;
  }

  // The texts of complete specs.
  lemma {:induction false} Respelled(parts: seq<string>, size: nat) returns (specs: seq<Spec>)
    requires GrantedTexts(parts, size).Ranges?
    ensures Texts(specs) == parts && forall i :: 0 <= i < |specs| ==> specs[i].Valid()
  {
    if parts == [] {
      specs := [];
    } else {
      var n := |parts| - 1;
      specs := Respelled(parts[..n], size);
      var e := ScannedSpec(parts[n]);
      TextsMore(specs, e);
      specs := specs + [e];
      assert parts == parts[..n] + [parts[n]];
    }
  }

  lemma {:induction false} TextsMore(specs: seq<Spec>, e: Spec)
    ensures Texts(specs + [e]) == Texts(specs) + [e.Text()]
  {
    assert (specs + [e])[..|specs|] == specs;
  }

  lemma {:induction false} FindEquals(s: string, size: nat) returns (blanks: string, rest: string)
    requires AfterUnit(s, size).Ranges?
    ensures Blanks(blanks) && s == blanks + "=" + rest && AfterUnit(s, size) == GrantedTexts(Split(',', rest), size)
  {
    if s[0] == '=' {
      blanks, rest := "", s[1..];
    } else {
      blanks, rest := FindEquals(s[1..], size);
      blanks := [s[0]] + blanks;
    }
  }

  /** And only a header of the grammar is answered. */
  lemma {:induction false} AnsweredWritten(v: string, size: nat)
    returns (unit: string, blanks: string, specs: seq<Spec>)
    requires RangesOf(v, size).Ranges?
    ensures Written(v, unit, blanks, specs)
  {
    var rest;
    unit := v[..5];
    blanks, rest := FindEquals(v[5..], size);
    specs := Respelled(Split(',', rest), size);
    UnsplitSplit(',', rest);
    assert v == unit + v[5..];
  }

  // ---------------------------------------------------------------- the state machine

  datatype State =
    | BeforeEquals | AfterEquals | InFrom | AfterFrom | AfterDash | InTo | AfterTo | AfterComma | AfterMinus
    | InCount | AfterCount

  // The specs before the last comma have been answered with acc, and p is known of the one after it; the numbers are
  // those of that spec.  A spec with blanks after its last number is granted already.
  ghost predicate Represents(state: State, from: nat, to: nat, count: nat, list: seq<Range>, acc: Answer, p: Part,
                             size: nat) {
    acc.Ranges? &&
    match state
    case BeforeEquals => false
    case AfterEquals => p == Nothing && list == acc.list
    case AfterComma => p == Nothing && list == acc.list
    case InFrom => p == First(from) && list == acc.list
    case AfterFrom => p == FirstBlank(from) && list == acc.list
    case AfterDash => p == Dash(from) && list == acc.list
    case InTo => p == Second(from, to) && list == acc.list
    case AfterTo => p == SecondBlank(from, to) && Granted(acc, Closed(from, to), size) == Ranges(list)
    case AfterMinus => p == Minus && list == acc.list
    case InCount => p == Count(count) && list == acc.list
    case AfterCount => p == CountBlank(count) && Granted(acc, Last(count), size) == Ranges(list)
  }

  // Nothing that follows can make this acceptable.
  ghost predicate Doomed(acc: Answer, p: Part, size: nat) {
    acc.Refused? || p.Bad? || ((p.SecondBlank? || p.CountBlank?) && GrantedPart(acc, p, size).Refused?)
  }

  // What another character makes of the specs before the last comma and of the one after it.

  function NextAcc(acc: Answer, p: Part, c: char, size: nat): Answer {
    if c == ',' then GrantedPart(acc, p, size) else acc
  }

  function NextPart(p: Part, c: char): Part {
    if c == ',' then Nothing else Next(p, c)
  }

  lemma {:induction false} DoomedNext(acc: Answer, p: Part, c: char, size: nat)
    requires Doomed(acc, p, size)
    ensures Doomed(NextAcc(acc, p, c, size), NextPart(p, c), size) && GrantedPart(acc, p, size).Refused?
  {
  }

  function Earlier(text: string, size: nat): Answer {
    var parts := Split(',', text);
    GrantedTexts(parts[..|parts| - 1], size)
  }

  function Current(text: string): Part {
    var parts := Split(',', text);
    Scan(parts[|parts| - 1])
  }

  lemma {:induction false} TextNext(text: string, c: char, size: nat)
    ensures Earlier(text + [c], size) == NextAcc(Earlier(text, size), Current(text), c, size)
    ensures Current(text + [c]) == NextPart(Current(text), c)
    ensures GrantedTexts(Split(',', text), size) == GrantedPart(Earlier(text, size), Current(text), size)
  {
    var parts := Split(',', text);
    SplitNext(',', text, c);
    ScanNext(parts[|parts| - 1], c);
  }

  lemma {:induction false} DoomedRefused(text: string, more: string, size: nat)
    requires Doomed(Earlier(text, size), Current(text), size)
    ensures GrantedTexts(Split(',', text + more), size) == Refused
    decreases |more|
  {
    if more == "" {
      assert text + more == text;
      DoomedNext(Earlier(text, size), Current(text), ',', size);
      TextNext(text, ',', size);
    } else {
      assert text + [more[0]] + more[1..] == text + more;
      DoomedNext(Earlier(text, size), Current(text), more[0], size);
      TextNext(text, more[0], size);
      DoomedRefused(text + [more[0]], more[1..], size);
    }
  }

  // The ranges are granted where a spec ends.

  method GrantFrom(list: seq<Range>, from: nat, size: nat) returns (ok: bool, list': seq<Range>)
    ensures (if ok then Ranges(list') else Refused) == Granted(Ranges(list), Open(from), size)
  {
    ok, list' := true, list;
    if from < size {
      if |list| == MAX_RANGES {
        return false, list;
      }
      list' := list + [Range(from, size - 1)];
    }
  }

  method GrantFromTo(list: seq<Range>, from: nat, to: nat, size: nat) returns (ok: bool, list': seq<Range>)
    ensures (if ok then Ranges(list') else Refused) == Granted(Ranges(list), Closed(from, to), size)
  {
    ok, list' := true, list;
    if from > to {
      return false, list;
    }
    if from < size {
      if |list| == MAX_RANGES {
        return false, list;
      }
      list' := list + [Range(from, Min(to, size - 1))];
    }
  }

  method GrantSuffix(list: seq<Range>, count: nat, size: nat) returns (ok: bool, list': seq<Range>)
    ensures (if ok then Ranges(list') else Refused) == Granted(Ranges(list), Last(count), size)
  {
    ok, list' := true, list;
    if count > 0 && size > 0 {
      if |list| == MAX_RANGES {
        return false, list;
      }
      list' := list + [Range(Max(size - count, 0), size - 1)];
    }
  }

  // One character after the equals sign.
  method Take(state: State, from: nat, to: nat, count: nat, list: seq<Range>, c: char, size: nat, ghost acc: Answer,
              ghost p: Part)
    returns (ok: bool, state': State, from': nat, to': nat, count': nat, list': seq<Range>)
    requires Represents(state, from, to, count, list, acc, p, size)
    ensures ok ==> Represents(state', from', to', count', list', NextAcc(acc, p, c, size), NextPart(p, c), size)
    ensures !ok ==> Doomed(NextAcc(acc, p, c, size), NextPart(p, c), size)
  {
    ok, state', from', to', count', list' := true, state, from, to, count, list;
    match state {
      case AfterEquals =>
        if IsDigit(c) {
          from', state' := (c - '0') as nat, InFrom;
        } else if c == '-' {
          state' := AfterMinus;
        } else {
          ok := IsBlank(c);
        }
      case InFrom =>
        if IsDigit(c) {
          var tmp := Wrapped(from * 10 + (c - '0') as nat);
          if tmp < from {
            ok := false;
          } else {
            from' := tmp;
          }
        } else if c == '-' {
          state' := AfterDash;
        } else if IsBlank(c) {
          state' := AfterFrom;
        } else {
          ok := false;
        }
      case AfterFrom =>
        if c == '-' {
          state' := AfterDash;
        } else {
          ok := IsBlank(c);
        }
      case AfterDash =>
        if IsDigit(c) {
          to', state' := (c - '0') as nat, InTo;
        } else if c == ',' {
          ok, list' := GrantFrom(list, from, size);
          state' := AfterComma;
        } else {
          ok := IsBlank(c);
        }
      case InTo =>
        if IsDigit(c) {
          var tmp := Wrapped(to * 10 + (c - '0') as nat);
          if tmp < to {
            ok := false;
          } else {
            to' := tmp;
          }
        } else if c == ',' {
          ok, list' := GrantFromTo(list, from, to, size);
          state' := AfterComma;
        } else if IsBlank(c) {
          ok, list' := GrantFromTo(list, from, to, size);
          state' := AfterTo;
        } else {
          ok := false;
        }
      case AfterTo =>
        if c == ',' {
          state' := AfterComma;
        } else {
          ok := IsBlank(c);
        }
      case AfterComma =>
        if IsDigit(c) {
          from', state' := (c - '0') as nat, InFrom;
        } else if c == '-' {
          state' := AfterMinus;
        } else {
          ok := IsBlank(c);
        }
      case AfterMinus =>
        if IsDigit(c) {
          count', state' := (c - '0') as nat, InCount;
        } else {
          ok := IsBlank(c);
        }
      case InCount =>
        if IsDigit(c) {
          var tmp := Wrapped(count * 10 + (c - '0') as nat);
          if tmp < count {
            ok := false;
          } else {
            count' := tmp;
          }
        } else if c == ',' {
          ok, list' := GrantSuffix(list, count, size);
          state' := AfterComma;
        } else if IsBlank(c) {
          ok, list' := GrantSuffix(list, count, size);
          state' := AfterCount;
        } else {
          ok := false;
        }
      case AfterCount =>
        if c == ',' {
          state' := AfterComma;
        } else {
          ok := IsBlank(c);
        }
    }
  }

  method Finish(state: State, from: nat, to: nat, count: nat, list: seq<Range>, size: nat, ghost acc: Answer,
                ghost p: Part)
    returns (ok: bool, list': seq<Range>)
    requires Represents(state, from, to, count, list, acc, p, size)
    ensures (if ok then Ranges(list') else Refused) == GrantedPart(acc, p, size)
  {
    ok, list' := true, list;
    match state {
      case AfterDash => ok, list' := GrantFrom(list, from, size);
      case InTo => ok, list' := GrantFromTo(list, from, to, size);
      case AfterTo =>
      case AfterCount =>
      case InCount => ok, list' := GrantSuffix(list, count, size);
      case _ => ok := false;
    }
  }

  // The blanks and the equals sign after the unit.
  method SkipEquals(v: string, size: nat) returns (ok: bool, i: nat)
    requires |v| >= 5
    ensures ok ==> 5 <= i <= |v| && GrantedTexts(Split(',', v[i..]), size) == AfterUnit(v[5..], size)
    ensures !ok ==> AfterUnit(v[5..], size) == Refused
  {
    i := 5;
    while i < |v|
      invariant 5 <= i <= |v| && AfterUnit(v[i..], size) == AfterUnit(v[5..], size)
    {
      var c := v[i];
      assert v[i..][0] == c && v[i..][1..] == v[i+1..];
      i := i + 1;
      if c == '=' {
        return true, i;
      } else if !IsBlank(c) {
        return false, i;
      }
    }
    return false, i;
  }

  /** headers::get_ranges, for the value of the Range header. */
  method GetRanges(v: string, size: nat) returns (ok: bool, list: seq<Range>)
    ensures (if ok then Ranges(list) else Refused) == RangesOf(v, size)
  {
    ok, list := false, [];
    if |v| < 7 || !SameName(v[..5], "bytes") {
      return;
    }
    var i;
    ok, i := SkipEquals(v, size);
    if ok {
      ok, list := ReadSpecs(v, i, size);
    }
  }

  // The state after the text.
  ghost predicate StandsFor(state: State, from: nat, to: nat, count: nat, list: seq<Range>, text: string, size: nat) {
    Represents(state, from, to, count, list, Earlier(text, size), Current(text), size)
  }

  lemma {:induction false} AtStart(size: nat)
    ensures StandsFor(AfterEquals, 0, 0, 0, [], "", size)
  {
  }

  // The specs, from the i-th character on.
  method ReadSpecs(v: string, start: nat, size: nat) returns (ok: bool, list: seq<Range>)
    requires start <= |v|
    ensures (if ok then Ranges(list) else Refused) == GrantedTexts(Split(',', v[start..]), size)
  {
    list := [];
    var i, state, from: nat, to: nat, count: nat := start, AfterEquals, 0, 0, 0;
    ghost var text := "";
    AtStart(size);
    while i < |v|
      invariant start <= i <= |v| && text == v[start..i]
      invariant StandsFor(state, from, to, count, list, text, size)
    {
      SliceNext(v, start, i);
      ok, state, from, to, count, list := TakeText(state, from, to, count, list, v[i], size, text);
      text := text + [v[i]];
      i := i + 1;
      if !ok {
        DoomedRefused(text, v[i..], size);
        return false, [];
      }
    }
    assert v[start..] == v[start..i];
    ok, list := FinishText(state, from, to, count, list, size, text);
  }

  // One character more than the text that has been read.
  method TakeText(state: State, from: nat, to: nat, count: nat, list: seq<Range>, c: char, size: nat,
                  ghost text: string)
    returns (ok: bool, state': State, from': nat, to': nat, count': nat, list': seq<Range>)
    requires StandsFor(state, from, to, count, list, text, size)
    ensures ok ==> StandsFor(state', from', to', count', list', text + [c], size)
    ensures !ok ==> Doomed(Earlier(text + [c], size), Current(text + [c]), size)
  {
    TextNext(text, c, size);
    ok, state', from', to', count', list' :=
      Take(state, from, to, count, list, c, size, Earlier(text, size), Current(text));
  }

  method FinishText(state: State, from: nat, to: nat, count: nat, list: seq<Range>, size: nat, ghost text: string)
    returns (ok: bool, list': seq<Range>)
    requires StandsFor(state, from, to, count, list, text, size)
    ensures (if ok then Ranges(list') else Refused) == GrantedTexts(Split(',', text), size)
  {
    TextNext(text, ',', size);
    ok, list' := Finish(state, from, to, count, list, size, Earlier(text, size), Current(text));
  }

  /** Every stored range lies in the file, and there are at most 16 of them. */
  lemma {:induction false} AnswerSatisfiable(v: string, size: nat)
    ensures var r := RangesOf(v, size); r.Ranges? ==> |r.list| <= MAX_RANGES && Satisfiable(r.list, size)
  {
    if RangesOf(v, size).Ranges? {
      var unit, blanks, specs := AnsweredWritten(v, size);
      WrittenTaken(v, unit, blanks, specs, size);
      GrantedSatisfiable(specs, size);
    }
  }

  // A spec of one character on each side of the hyphen.
  function Single(d: char): Spec {
    FromTo("", [d], "", "", [d], "")
  }

  lemma {:induction false} SingleMeans(d: char)
    requires IsDigit(d)
    ensures var e := Single(d); var n := (d - '0') as nat;
            e.Valid() && e.Fits() && e.Text() == [d, '-', d] && e.Meaning() == Closed(n, n)
  {
    assert [d][..0] == "" && Value("") == 0;
  }

  lemma {:induction false} PairWritten(v: string, c: char, d: char)
    requires IsDigit(c) && IsDigit(d) && v == "bytes=" + [c, '-', c, ',', d, '-', d]
    ensures Written(v, "bytes", "", [Single(c), Single(d)])
    ensures Wants([Single(c), Single(d)]) == [Single(c).Meaning(), Single(d).Meaning()]
  {
    var e, f := Single(c), Single(d);
    SingleMeans(c);
    SingleMeans(d);
    assert [e, f][..1] == [e] && [e][..0] == [];
    var t := [[c, '-', c], [d, '-', d]];
    assert Texts([e]) == t[..1] && Texts([e, f]) == t;
    assert Unsplit(',', t[..1]) == [c, '-', c];
    assert Unsplit(',', t) == [c, '-', c, ',', d, '-', d];
  }

  /** The two bytes of a file, each as a range of its own. */
  lemma {:induction false} TwoRanges()
    ensures RangesOf("bytes=0-0,1-1", 2) == Ranges([Range(0, 0), Range(1, 1)])
  {
    PairWritten("bytes=0-0,1-1", '0', '1');
    SingleMeans('0');
    SingleMeans('1');
    WrittenAnswered("bytes=0-0,1-1", "bytes", "", [Single('0'), Single('1')], 2);
    var w := [Closed(0, 0), Closed(1, 1)];
    assert w[..1] == [Closed(0, 0)] && w[..1][..0] == [];
  }
}
