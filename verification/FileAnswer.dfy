/**
 The end of process_request in net/internet/http/connection.cpp: a file is to be sent, and the Range header of the
 request decides how much of it.
 */
module FileAnswer {
  import opened HeaderNumbers
  import opened HeaderValue
  import opened HeaderTable
  import opened HeaderParsing
  import opened Headers
  import opened MachineWord
  import opened Number
  import opened Response
  import opened StandardHeaders
  import opened Wrappers
  import opened ByteRanges
  import Ranges

  // What stat, the clock and the configuration say; the dates and the entity tag are texts here.
  datatype Facts = Facts(
    file: string, mime: string, etag: string, modified: string, date: string, keepAlive: bool, boundary: nat)

  datatype Status = WholeFile | Partial | NotSatisfiable | ServerError

  // ---------------------------------------------------------------- what is promised

  // The ranges that are sent: none means the whole file.
  function Chosen(range: Option<string>, size: nat): seq<Range> {
    match range
    case None => []
    case Some(v) => if Ranges.RangesOf(v, size).Ranges? then Ranges.RangesOf(v, size).list else []
  }

  // The Range header is understood.
  predicate Accepted(range: Option<string>, size: nat) {
    range.Some? && Ranges.RangesOf(range.value, size).Ranges?
  }

  lemma {:induction false} ChosenSatisfiable(range: Option<string>, size: nat)
    ensures Satisfiable(Chosen(range, size), size) && |Chosen(range, size)| <= Ranges.MAX_RANGES
  {
    if range.Some? {
      Ranges.AnswerSatisfiable(range.value, size);
    }
  }

  function StatusLine(partial: bool): string {
    if partial then "HTTP/1.1 " + "206" + " Partial Content\r\n" else "HTTP/1.1 " + "200" + " OK\r\n"
  }

  function Code(status: Status): nat {
    match status
    case WholeFile => 200
    case Partial => 206
    case NotSatisfiable => 416
    case ServerError => 500
  }

  // What a client reads from the beginning of the answer.
  ghost predicate Tells(wire: string, status: Status) {
    |wire| >= 13 ==>
      wire[..9] == "HTTP/1.1 " && AllDigits(wire[9..12]) && Value(wire[9..12]) == Code(status) && wire[12] == ' '
  }

  lemma {:induction false} ThreeDigits(s: string)
    requires |s| == 3 && AllDigits(s)
    ensures Value(s) == 100 * (s[0] - '0') as nat + 10 * (s[1] - '0') as nat + (s[2] - '0') as nat
  {
    assert s[..2][..1] == s[..1] && s[..1][..0] == "";
    assert Value(s[..1]) == (s[0] - '0') as nat;
    assert Value(s[..2]) == 10 * Value(s[..1]) + (s[1] - '0') as nat;
  }

  // The line of a status.
  function LineOf(status: Status): string {
    match status
    case WholeFile => StatusLine(false)
    case Partial => StatusLine(true)
    case _ => ErrorLine(status)
  }

  lemma {:induction false} LineTells(status: Status)
    ensures |LineOf(status)| >= 13 && Tells(LineOf(status), status)
  {
    match status
    case WholeFile => PartsTell(status, "200", " OK\r\n");
    case Partial => PartsTell(status, "206", " Partial Content\r\n");
    case NotSatisfiable => PartsTell(status, "416", " Requested Range Not Satisfiable\r\n");
    case ServerError => PartsTell(status, "500", " Internal Server Error\r\n");
  }

  lemma {:induction false} PartsTell(status: Status, digits: string, reason: string)
    requires |digits| == 3 && AllDigits(digits) && reason != "" && reason[0] == ' '
    requires 100 * (digits[0] - '0') as nat + 10 * (digits[1] - '0') as nat + (digits[2] - '0') as nat == Code(status)
    ensures |"HTTP/1.1 " + digits + reason| >= 13 && Tells("HTTP/1.1 " + digits + reason, status)
  {
    ThreeDigits(digits);
    var line := "HTTP/1.1 " + digits + reason;
    assert line[..9] == "HTTP/1.1 " && line[9..12] == digits;
  }

  /** Whatever follows the status line, a client reads the status. */
  lemma {:induction false} StatusTold(status: Status, rest: string, wire: string)
    requires wire <= LineOf(status) + rest
    ensures Tells(wire, status)
  {
    var line := LineOf(status);
    LineTells(status);
    if |wire| >= 13 {
      assert wire[..13] == line[..13];
      assert wire[..9] == wire[..13][..9] && wire[9..12] == wire[..13][9..12] && wire[12] == wire[..13][12];
      assert line[..9] == line[..13][..9] && line[9..12] == line[..13][9..12] && line[12] == line[..13][12];
    }
  }

  // A standard header and its value, as they are given to add.
  datatype Field = Field(id: nat, value: string)

  function ContentRange(r: Range, size: nat): string {
    "bytes " + Decimal(r.from) + "-" + Decimal(r.to) + "/" + Decimal(size)
  }

  /** The header tells the first byte, the last one and the size, and nothing else. */
  lemma {:induction false} RangeTold(r: Range, size: nat, first: string, last: string, total: string)
    requires AllDigits(first) && AllDigits(last) && AllDigits(total)
    requires ContentRange(r, size) == "bytes " + first + "-" + last + "/" + total
    ensures Value(first) == r.from && Value(last) == r.to && Value(total) == size
  {
    var a, b, c := Decimal(r.from), Decimal(r.to), Decimal(size);
    ValueDecimal(r.from);
    ValueDecimal(r.to);
    ValueDecimal(size);
    BytesGrouped(a, b, c);
    BytesGrouped(first, last, total);
    SameAfter("bytes ", a + ("-" + (b + ("/" + c))), first + ("-" + (last + ("/" + total))));
    NumberFirst(a, "-" + (b + ("/" + c)), first, "-" + (last + ("/" + total)), '-');
    SameAfter("-", b + ("/" + c), last + ("/" + total));
    NumberFirst(b, "/" + c, last, "/" + total, '/');
    SameAfter("/", c, total);
  }

  lemma {:induction false} BytesGrouped(a: string, b: string, c: string)
    ensures "bytes " + a + "-" + b + "/" + c == "bytes " + (a + ("-" + (b + ("/" + c))))
  {
    var x := "bytes " + a;
    Three(x, "-", b, "/" + c);
    assert x + "-" + b + ("/" + c) == x + "-" + b + "/" + c;
  }

  function MultipartType(boundary: nat): string {
    "multipart/byteranges; boundary=" + Padded(boundary, BOUNDARY_LEN)
  }

  const WEBSERVER_NAME := "gweb++/0.0.1"

  function CommonFields(facts: Facts): seq<Field> {
    [Field(DATE, facts.date), Field(CONNECTION, if facts.keepAlive then "Keep-Alive" else "close"),
     Field(SERVER, WEBSERVER_NAME)]
  }

  function FileFields(facts: Facts, bodysize: nat): seq<Field> {
    [Field(ETAG, facts.etag), Field(ACCEPT_RANGES, "bytes"), Field(CONTENT_TYPE, facts.mime),
     Field(CONTENT_LENGTH, Decimal(bodysize)), Field(LAST_MODIFIED, facts.modified)]
  }

  function RangeFields(facts: Facts, ranges: seq<Range>): seq<Field> {
    if |ranges| == 0 then []
    else if |ranges| == 1 then [Field(CONTENT_RANGE, ContentRange(ranges[0], |facts.file|))]
    else [Field(CONTENT_TYPE, MultipartType(facts.boundary))]
  }

  function AllFields(facts: Facts, ranges: seq<Range>): seq<Field>
    requires Satisfiable(ranges, |facts.file|)
  {
    CommonFields(facts) + FileFields(facts, |Entity(facts.file, ranges, facts.mime, facts.boundary)|)
    + RangeFields(facts, ranges)
  }

  predicate CanAdd(f: Field) {
    f.id < |TABLE| && Tidied(f.value).Clean?
  }

  predicate AllCanAdd(fields: seq<Field>) {
    forall i :: 0 <= i < |fields| ==> CanAdd(fields[i])
  }

  // The table after add has been called for all of them.
  ghost function AddedAll(fields: seq<Field>): seq<Header>
    requires AllCanAdd(fields)
  {
    if fields == [] then []
    else
      var f := fields[|fields| - 1];
      Added(TABLE, AddedAll(fields[..|fields| - 1]), Entry(TABLE, f.id, "", Tidied(f.value).text))
  }

  /** What add has left is looked up with the last value given for it, and with none if there was none. */
  lemma {:induction false} LookupAdded(fields: seq<Field>, id: nat)
    requires AllCanAdd(fields)
    ensures Stored(TABLE, AddedAll(fields))
    ensures ValueOf(Key.Standard(id), AddedAll(fields)) == LastGiven(fields, id)
  {
    TableProper();
    if fields != [] {
      var n := |fields| - 1;
      var f := fields[n];
      LookupAdded(fields[..n], id);
      AddedStored(TABLE, AddedAll(fields[..n]), f.id, "", f.value);
      AddedGrouped(TABLE, AddedAll(fields[..n]), Entry(TABLE, f.id, "", Tidied(f.value).text), Key.Standard(id));
    }
  }

  function LastGiven(fields: seq<Field>, id: nat): Option<string>
    requires AllCanAdd(fields)
  {
    if fields == [] then None
    else if fields[|fields| - 1].id == id then Some(Tidied(fields[|fields| - 1].value).text)
    else LastGiven(fields[..|fields| - 1], id)
  }

  lemma {:induction false} TableSize()
    ensures |TABLE| == 52
  {
  }

  /** The numbers are those of the names in the table. */
  lemma {:induction false} NumbersNamed()
    ensures |TABLE| == 52 && TABLE[ACCEPT_RANGES].name == "Accept-Ranges" && TABLE[CONNECTION].name == "Connection"
    ensures TABLE[CONTENT_LENGTH].name == "Content-Length" && TABLE[CONTENT_RANGE].name == "Content-Range"
    ensures TABLE[CONTENT_TYPE].name == "Content-Type" && TABLE[DATE].name == "Date" && TABLE[ETAG].name == "ETag"
    ensures TABLE[LAST_MODIFIED].name == "Last-Modified" && TABLE[RANGE].name == "Range"
    ensures TABLE[SERVER].name == "Server"
  {
  }

  // ---------------------------------------------------------------- which values can be added

  lemma {:induction false} NeatJoin(a: string, b: string)
    requires Neat(a) && Neat(b) && a != "" && b != ""
    ensures Neat(a + b) && Neat(a + " " + b)
  {
    assert NeatAt(a, |a| - 1) && NeatAt(b, 0);
    forall i | 0 <= i < |a + b|
      ensures NeatAt(a + b, i)
    {
      if i < |a| {
        assert NeatAt(a, i);
      } else {
        assert NeatAt(b, i - |a|);
      }
    }
    var c := a + " " + b;
    forall i | 0 <= i < |c|
      ensures NeatAt(c, i)
    {
      if i < |a| {
        assert NeatAt(a, i);
      } else if i > |a| {
        assert NeatAt(b, i - |a| - 1);
      }
    }
  }

  lemma {:induction false} DigitsNeat(s: string)
    requires AllDigits(s)
    ensures Neat(s)
  {
    forall i | 0 <= i < |s|
      ensures NeatAt(s, i)
    {
      assert IsDigit(s[i]);
    }
  }

  lemma {:induction false} RangeNeat(r: Range, size: nat)
    ensures Neat(ContentRange(r, size)) && ContentRange(r, size) != ""
  {
    var from, to, n := Decimal(r.from), Decimal(r.to), Decimal(size);
    DigitsNeat(from);
    DigitsNeat(to);
    DigitsNeat(n);
    NeatJoin(from, "-");
    NeatJoin(from + "-", to);
    NeatJoin(from + "-" + to, "/");
    NeatJoin(from + "-" + to + "/", n);
    NeatJoin("bytes", from + "-" + to + "/" + n);
    assert ContentRange(r, size) == "bytes" + " " + (from + "-" + to + "/" + n);
  }

  lemma {:induction false} PaddedDigits(n: nat, width: nat)
    ensures AllDigits(Padded(n, width)) && Padded(n, width) != ""
  {
    var s := Decimal(n);
    if |s| < width {
      var z := Zeros(width - |s|);
      assert forall i :: 0 <= i < |z| ==> z[i] in z;
    }
  }

  lemma {:induction false} MultipartNeat(boundary: nat)
    ensures Neat(MultipartType(boundary)) && MultipartType(boundary) != ""
  {
    var n := Padded(boundary, BOUNDARY_LEN);
    PaddedDigits(boundary, BOUNDARY_LEN);
    DigitsNeat(n);
    NeatJoin("boundary=", n);
    NeatJoin("multipart/byteranges;", "boundary=" + n);
    assert MultipartType(boundary) == "multipart/byteranges;" + " " + ("boundary=" + n);
  }

  lemma {:induction false} NeatCanAdd(f: Field)
    requires f.id < 52 && Neat(f.value) && f.value != ""
    ensures CanAdd(f) && Tidied(f.value).text == f.value
  {
    TableSize();
    NeatFixed(f.value);
  }

  // The values that may be refused are those that come from outside.
  predicate Clean(facts: Facts) {
    Tidied(facts.date).Clean? && Tidied(facts.etag).Clean? && Tidied(facts.mime).Clean? && Tidied(facts.modified).Clean?
  }

  lemma {:induction false} ChoiceNeat(keepAlive: bool)
    ensures Neat(if keepAlive then "Keep-Alive" else "close")
  {
  }

  lemma {:induction false} ServerNeat()
    ensures Neat(WEBSERVER_NAME)
  {
  }

  lemma {:induction false} CommonCanAdd(facts: Facts)
    ensures AllCanAdd(CommonFields(facts)) <==> Tidied(facts.date).Clean?
  {
    TableSize();
    var fields := CommonFields(facts);
    ChoiceNeat(facts.keepAlive);
    ServerNeat();
    NeatCanAdd(fields[1]);
    NeatCanAdd(fields[2]);
    ThreeCanAdd(fields[0], fields[1], fields[2]);
    assert fields == [fields[0], fields[1], fields[2]];
  }

  lemma {:induction false} ThreeCanAdd(a: Field, b: Field, c: Field)
    requires CanAdd(b) && CanAdd(c)
    ensures AllCanAdd([a, b, c]) <==> CanAdd(a)
  {
    assert [a, b, c][0] == a;
  }

  lemma {:induction false} FileCanAdd(facts: Facts, bodysize: nat)
    ensures AllCanAdd(FileFields(facts, bodysize)) <==>
              Tidied(facts.etag).Clean? && Tidied(facts.mime).Clean? && Tidied(facts.modified).Clean?
  {
    TableSize();
    var fields := FileFields(facts, bodysize);
    NeatCanAdd(fields[1]);
    DigitsNeat(Decimal(bodysize));
    NeatCanAdd(fields[3]);
    assert CanAdd(fields[0]) <==> Tidied(facts.etag).Clean?;
    assert CanAdd(fields[2]) <==> Tidied(facts.mime).Clean?;
    assert CanAdd(fields[4]) <==> Tidied(facts.modified).Clean?;
  }

  lemma {:induction false} RangeCanAdd(facts: Facts, ranges: seq<Range>)
    ensures AllCanAdd(RangeFields(facts, ranges))
  {
    var fields := RangeFields(facts, ranges);
    if |ranges| == 1 {
      RangeNeat(ranges[0], |facts.file|);
      NeatCanAdd(fields[0]);
    } else if |ranges| > 1 {
      MultipartNeat(facts.boundary);
      NeatCanAdd(fields[0]);
    }
  }

  lemma {:induction false} FieldsCanAdd(facts: Facts, ranges: seq<Range>)
    requires Satisfiable(ranges, |facts.file|)
    ensures AllCanAdd(AllFields(facts, ranges)) <==> Clean(facts)
  {
    CommonCanAdd(facts);
    FileCanAdd(facts, |Entity(facts.file, ranges, facts.mime, facts.boundary)|);
    RangeCanAdd(facts, ranges);
    BothCanAdd(CommonFields(facts), FileFields(facts, |Entity(facts.file, ranges, facts.mime, facts.boundary)|));
    BothCanAdd(CommonFields(facts) + FileFields(facts, |Entity(facts.file, ranges, facts.mime, facts.boundary)|),
               RangeFields(facts, ranges));
  }

  lemma {:induction false} BothCanAdd(a: seq<Field>, b: seq<Field>)
    ensures AllCanAdd(a + b) <==> AllCanAdd(a) && AllCanAdd(b)
  {
    if AllCanAdd(a + b) {
      assert forall i :: 0 <= i < |a| ==> a[i] == (a + b)[i];
      assert forall i :: 0 <= i < |b| ==> b[i] == (a + b)[|a| + i];
    }
  }

  // ---------------------------------------------------------------- how often a header occurs

  ghost function Occurrences(id: nat, s: seq<Header>): nat {
    if s == [] then 0 else Occurrences(id, s[..|s| - 1]) + if s[|s| - 1].id == id then 1 else 0
  }

  ghost function TimesGiven(id: nat, fields: seq<Field>): nat {
    if fields == [] then 0
    else TimesGiven(id, fields[..|fields| - 1]) + if fields[|fields| - 1].id == id then 1 else 0
  }

  lemma {:induction false} OccurrencesJoin(id: nat, s: seq<Header>, t: seq<Header>)
    ensures Occurrences(id, s + t) == Occurrences(id, s) + Occurrences(id, t)
  {
    if t == [] {
      assert s + t == s;
    } else {
      var n := |t| - 1;
      OccurrencesJoin(id, s, t[..n]);
      assert (s + t)[..|s| + n] == s + t[..n];
    }
  }

  lemma {:induction false} OccurrencesInsert(id: nat, s: seq<Header>, pos: nat, h: Header)
    requires pos <= |s|
    ensures Occurrences(id, InsertAt(s, pos, h)) == Occurrences(id, s) + if h.id == id then 1 else 0
  {
    var a, b := s[..pos], s[pos..];
    OccurrencesJoin(id, a, b);
    OccurrencesJoin(id, a + [h], b);
    OccurrencesJoin(id, a, [h]);
    assert a + b == s && a + [h] + b == InsertAt(s, pos, h);
  }

  lemma {:induction false} OccurrencesAdded(id: nat, fields: seq<Field>)
    requires AllCanAdd(fields)
    ensures Occurrences(id, AddedAll(fields)) == TimesGiven(id, fields)
  {
    if fields != [] {
      var n := |fields| - 1;
      var f, s := fields[n], AddedAll(fields[..n]);
      OccurrencesAdded(id, fields[..n]);
      var h := Entry(TABLE, f.id, "", Tidied(f.value).text);
      OccurrencesInsert(id, s, SlotOf(TABLE, KeyOf(h), s), h);
    }
  }

  lemma {:induction false} TimesJoin(id: nat, a: seq<Field>, b: seq<Field>)
    ensures TimesGiven(id, a + b) == TimesGiven(id, a) + TimesGiven(id, b)
  {
    if b == [] {
      assert a + b == a;
    } else {
      var n := |b| - 1;
      TimesJoin(id, a, b[..n]);
      assert (a + b)[..|a| + n] == a + b[..n];
    }
  }

  lemma {:induction false} LastJoin(id: nat, a: seq<Field>, b: seq<Field>)
    requires AllCanAdd(a) && AllCanAdd(b) && AllCanAdd(a + b)
    ensures LastGiven(a + b, id) == if LastGiven(b, id).Some? then LastGiven(b, id) else LastGiven(a, id)
  {
    if b == [] {
      assert a + b == a;
    } else {
      var n := |b| - 1;
      assert (a + b)[..|a| + n] == a + b[..n];
      if b[n].id != id {
        LastJoin(id, a, b[..n]);
      }
    }
  }

  lemma {:induction false} GivenOnce(id: nat, f: Field)
    requires CanAdd(f)
    ensures LastGiven([f], id) == if f.id == id then Some(Tidied(f.value).text) else None
    ensures TimesGiven(id, [f]) == if f.id == id then 1 else 0
  {
    assert [f][..0] == [];
  }

  // One of the fields has that number, the others have not.
  lemma {:induction false} GivenAmong(id: nat, a: seq<Field>, f: Field, b: seq<Field>)
    requires AllCanAdd(a) && AllCanAdd(b) && CanAdd(f) && AllCanAdd(a + [f] + b)
    requires f.id == id && (forall i :: 0 <= i < |a| ==> a[i].id != id) && (forall i :: 0 <= i < |b| ==> b[i].id != id)
    ensures LastGiven(a + [f] + b, id) == Some(Tidied(f.value).text) && TimesGiven(id, a + [f] + b) == 1
  {
    GivenOnce(id, f);
    NotGiven(id, a);
    NotGiven(id, b);
    BothCanAdd(a + [f], b);
    TimesJoin(id, a + [f], b);
    TimesJoin(id, a, [f]);
    LastJoin(id, a + [f], b);
    LastJoin(id, a, [f]);
  }

  lemma {:induction false} NotGiven(id: nat, a: seq<Field>)
    requires AllCanAdd(a) && forall i :: 0 <= i < |a| ==> a[i].id != id
    ensures LastGiven(a, id) == None && TimesGiven(id, a) == 0
  {
    if a != [] {
      NotGiven(id, a[..|a| - 1]);
    }
  }

  lemma {:induction false} CommonGiven(facts: Facts, id: nat)
    requires AllCanAdd(CommonFields(facts)) && (id == CONTENT_LENGTH || id == CONTENT_RANGE || id == CONTENT_TYPE)
    ensures LastGiven(CommonFields(facts), id) == None && TimesGiven(id, CommonFields(facts)) == 0
  {
    NotGiven(id, CommonFields(facts));
  }

  lemma {:induction false} FileGiven(facts: Facts, bodysize: nat)
    requires AllCanAdd(FileFields(facts, bodysize)) && Tidied(facts.mime).Clean?
    ensures var fields := FileFields(facts, bodysize);
            && LastGiven(fields, CONTENT_LENGTH) == Some(Decimal(bodysize)) && TimesGiven(CONTENT_LENGTH, fields) == 1
            && LastGiven(fields, CONTENT_TYPE) == Some(Tidied(facts.mime).text) && TimesGiven(CONTENT_TYPE, fields) == 1
            && LastGiven(fields, CONTENT_RANGE) == None && TimesGiven(CONTENT_RANGE, fields) == 0
  {
    var fields := FileFields(facts, bodysize);
    assert fields == fields[..3] + [fields[3]] + fields[4..];
    GivenAmong(CONTENT_LENGTH, fields[..3], fields[3], fields[4..]);
    DigitsNeat(Decimal(bodysize));
    NeatCanAdd(fields[3]);
    assert fields == fields[..2] + [fields[2]] + fields[3..];
    GivenAmong(CONTENT_TYPE, fields[..2], fields[2], fields[3..]);
    NotGiven(CONTENT_RANGE, fields);
  }

  // What the answer says about its body.
  ghost predicate Described(facts: Facts, ranges: seq<Range>, t: seq<Header>)
    requires Satisfiable(ranges, |facts.file|) && Clean(facts)
  {
    && ValueOf(Key.Standard(CONTENT_LENGTH), t) ==
      Some(Decimal(|Entity(facts.file, ranges, facts.mime, facts.boundary)|))
    && Occurrences(CONTENT_LENGTH, t) == 1
    && ValueOf(Key.Standard(CONTENT_RANGE), t) ==
         (if |ranges| == 1 then Some(ContentRange(ranges[0], |facts.file|)) else None)
    && ValueOf(Key.Standard(CONTENT_TYPE), t) ==
         Some(if |ranges| > 1 then MultipartType(facts.boundary) else Tidied(facts.mime).text)
    && Occurrences(CONTENT_TYPE, t) == (if |ranges| > 1 then 2 else 1)
    && Announced(facts.keepAlive, t) && Dated(facts, t)
  }

  // The date, the entity tag and the time of the last change are told.
  ghost predicate Dated(facts: Facts, t: seq<Header>)
    requires Clean(facts)
  {
    && ValueOf(Key.Standard(DATE), t) == Some(Tidied(facts.date).text)
    && ValueOf(Key.Standard(ETAG), t) == Some(Tidied(facts.etag).text)
    && ValueOf(Key.Standard(LAST_MODIFIED), t) == Some(Tidied(facts.modified).text)
  }

  // The client is told whether the connection stays open.
  ghost predicate Announced(keepAlive: bool, t: seq<Header>) {
    && ValueOf(Key.Standard(CONNECTION), t) == Some(if keepAlive then "Keep-Alive" else "close")
    && Occurrences(CONNECTION, t) == 1
  }

  // The common headers are the only ones that say so.
  lemma {:induction false} ConnectionGiven(facts: Facts, more: seq<Field>)
    requires AllCanAdd(CommonFields(facts)) && AllCanAdd(more) && forall i :: 0 <= i < |more| ==>
             more[i].id != CONNECTION
    ensures AllCanAdd(CommonFields(facts) + more)
    ensures Announced(facts.keepAlive, AddedAll(CommonFields(facts) + more))
  {
    var fields := CommonFields(facts);
    var a, f, b := fields[..1], fields[1], fields[2..] + more;
    BothCanAdd(fields, more);
    BothCanAdd(a, [f]);
    assert fields + more == a + [f] + b;
    assert forall i :: 0 <= i < |b| ==> b[i] in fields[2..] || b[i] in more;
    BothCanAdd(a + [f], b);
    GivenAmong(CONNECTION, a, f, b);
    ChoiceNeat(facts.keepAlive);
    NeatCanAdd(f);
    LookupAdded(fields + more, CONNECTION);
    OccurrencesAdded(CONNECTION, fields + more);
  }

  lemma {:induction false} RangeGiven(facts: Facts, ranges: seq<Range>)
    requires AllCanAdd(RangeFields(facts, ranges))
    ensures var fields := RangeFields(facts, ranges);
            && LastGiven(fields, CONTENT_LENGTH) == None && TimesGiven(CONTENT_LENGTH, fields) == 0
            && LastGiven(fields, CONTENT_RANGE) ==
                 (if |ranges| == 1 then Some(ContentRange(ranges[0], |facts.file|)) else None)
            && LastGiven(fields, CONTENT_TYPE) == (if |ranges| > 1 then Some(MultipartType(facts.boundary)) else None)
            && TimesGiven(CONTENT_TYPE, fields) == if |ranges| > 1 then 1 else 0
  {
    if |ranges| == 1 {
      RangeNeat(ranges[0], |facts.file|);
    } else if |ranges| > 1 {
      MultipartNeat(facts.boundary);
    }
    if |ranges| > 0 {
      var f := RangeFields(facts, ranges)[0];
      NeatCanAdd(f);
      GivenOnce(CONTENT_LENGTH, f);
      GivenOnce(CONTENT_RANGE, f);
      GivenOnce(CONTENT_TYPE, f);
    }
  }

  lemma {:induction false} GivenInAll(id: nat, a: seq<Field>, b: seq<Field>, c: seq<Field>)
    requires AllCanAdd(a) && AllCanAdd(b) && AllCanAdd(c)
    ensures AllCanAdd(a + b + c) &&
            TimesGiven(id, a + b + c) == TimesGiven(id, a) + TimesGiven(id, b) + TimesGiven(id, c)
    ensures LastGiven(a + b + c, id) ==
              if LastGiven(c, id).Some? then LastGiven(c, id)
              else if LastGiven(b, id).Some? then LastGiven(b, id)
              else LastGiven(a, id)
  {
    BothCanAdd(a, b);
    BothCanAdd(a + b, c);
    TimesJoin(id, a, b);
    TimesJoin(id, a + b, c);
    LastJoin(id, a, b);
    LastJoin(id, a + b, c);
  }

  /**
   The header block describes the body that follows it.  But several ranges come with two Content-Type headers,
   although that header is not a list.
   */
  lemma {:induction false} AllDescribed(facts: Facts, ranges: seq<Range>)
    requires Satisfiable(ranges, |facts.file|) && AllCanAdd(AllFields(facts, ranges)) && Clean(facts)
    ensures Described(facts, ranges, AddedAll(AllFields(facts, ranges)))
  {
    var n := |Entity(facts.file, ranges, facts.mime, facts.boundary)|;
    var a, b, c := CommonFields(facts), FileFields(facts, n), RangeFields(facts, ranges);
    CommonCanAdd(facts);
    FileCanAdd(facts, n);
    RangeCanAdd(facts, ranges);
    FileGiven(facts, n);
    RangeGiven(facts, ranges);
    EachGiven(a, b, c, CONTENT_LENGTH, facts);
    EachGiven(a, b, c, CONTENT_RANGE, facts);
    EachGiven(a, b, c, CONTENT_TYPE, facts);
    AllAnnounced(facts, ranges);
    AllDated(facts, ranges);
  }

  lemma {:induction false} AllDated(facts: Facts, ranges: seq<Range>)
    requires Satisfiable(ranges, |facts.file|) && AllCanAdd(AllFields(facts, ranges)) && Clean(facts)
    ensures Dated(facts, AddedAll(AllFields(facts, ranges)))
  {
    var n := |Entity(facts.file, ranges, facts.mime, facts.boundary)|;
    var fields := CommonFields(facts) + FileFields(facts, n) + RangeFields(facts, ranges);
    Places(facts, n, ranges, fields);
    OnlyOne(fields, 0, DATE);
    OnlyOne(fields, 3, ETAG);
    OnlyOne(fields, 7, LAST_MODIFIED);
  }

  lemma {:induction false} Places(facts: Facts, n: nat, ranges: seq<Range>, fields: seq<Field>)
    requires fields == CommonFields(facts) + FileFields(facts, n) + RangeFields(facts, ranges)
    ensures 8 <= |fields| <= 9
    ensures fields[0] == Field(DATE, facts.date) && fields[3] == Field(ETAG, facts.etag)
    ensures fields[7] == Field(LAST_MODIFIED, facts.modified)
    ensures forall j :: 0 <= j < |fields| ==>
              (fields[j].id == DATE ==> j == 0) && (fields[j].id == ETAG ==> j == 3) &&
              (fields[j].id == LAST_MODIFIED ==> j == 7)
  {
    var a, b, c := CommonFields(facts), FileFields(facts, n), RangeFields(facts, ranges);
    assert forall j :: 3 <= j < 8 ==> fields[j] == b[j - 3];
    assert forall j :: 8 <= j < |fields| ==> fields[j] == c[j - 8];
  }

  lemma {:induction false} OnlyOne(fields: seq<Field>, i: nat, id: nat)
    requires AllCanAdd(fields) && i < |fields| && fields[i].id == id
    requires forall j :: 0 <= j < |fields| && j != i ==> fields[j].id != id
    ensures ValueOf(Key.Standard(id), AddedAll(fields)) == Some(Tidied(fields[i].value).text)
  {
    var a, b := fields[..i], fields[i + 1..];
    assert fields == a + [fields[i]] + b;
    BothCanAdd(a + [fields[i]], b);
    BothCanAdd(a, [fields[i]]);
    GivenAmong(id, a, fields[i], b);
    LookupAdded(fields, id);
  }

  lemma {:induction false} AllAnnounced(facts: Facts, ranges: seq<Range>)
    requires Satisfiable(ranges, |facts.file|) && AllCanAdd(AllFields(facts, ranges))
    ensures Announced(facts.keepAlive, AddedAll(AllFields(facts, ranges)))
  {
    var n := |Entity(facts.file, ranges, facts.mime, facts.boundary)|;
    var a, b, c := CommonFields(facts), FileFields(facts, n), RangeFields(facts, ranges);
    BothCanAdd(a + b, c);
    BothCanAdd(a, b);
    BothCanAdd(b, c);
    assert a + b + c == a + (b + c);
    NotConnection(facts, n, ranges);
    ConnectionGiven(facts, b + c);
  }

  lemma {:induction false} NotConnection(facts: Facts, n: nat, ranges: seq<Range>)
    ensures var fields := FileFields(facts, n) + RangeFields(facts, ranges);
            forall i :: 0 <= i < |fields| ==> fields[i].id != CONNECTION
  {
  }

  /** The smallest answer with two Content-Type headers: a file of two bytes, both asked for, each by itself. */
  lemma {:induction false} TwoTypes(facts: Facts)
    requires |facts.file| == 2 && Clean(facts)
    ensures var ranges := Chosen(Some("bytes=0-0,1-1"), 2);
            Satisfiable(ranges, 2) && AllCanAdd(AllFields(facts, ranges)) &&
            Occurrences(CONTENT_TYPE, AddedAll(AllFields(facts, ranges))) == 2
  {
    Ranges.TwoRanges();
    var ranges := [Range(0, 0), Range(1, 1)];
    FieldsCanAdd(facts, ranges);
    AllDescribed(facts, ranges);
  }

  lemma {:induction false} EachGiven(a: seq<Field>, b: seq<Field>, c: seq<Field>, id: nat, facts: Facts)
    requires AllCanAdd(a) && AllCanAdd(b) && AllCanAdd(c) && a == CommonFields(facts)
    requires id == CONTENT_LENGTH || id == CONTENT_RANGE || id == CONTENT_TYPE
    ensures AllCanAdd(a + b + c)
    ensures ValueOf(Key.Standard(id), AddedAll(a + b + c)) ==
              if LastGiven(c, id).Some? then LastGiven(c, id) else LastGiven(b, id)
    ensures Occurrences(id, AddedAll(a + b + c)) == TimesGiven(id, b) + TimesGiven(id, c)
  {
    CommonGiven(facts, id);
    GivenInAll(id, a, b, c);
    LookupAdded(a + b + c, id);
    OccurrencesAdded(id, a + b + c);
  }

  // ---------------------------------------------------------------- error pages

  function ErrorLine(status: Status): string {
    if status == NotSatisfiable then "HTTP/1.1 " + "416" + " Requested Range Not Satisfiable\r\n"
    else "HTTP/1.1 " + "500" + " Internal Server Error\r\n"
  }

  const PAGE_TYPE := "text/html; charset=UTF-8"

  // The size of a file of which no byte is sent.
  function SizeOnly(size: nat): string {
    "bytes " + ("*/" + Decimal(size))
  }

  function PageFields(facts: Facts, status: Status, page: string): seq<Field> {
    (if status == NotSatisfiable then [Field(CONTENT_RANGE, SizeOnly(|facts.file|))] else [])
    + [Field(CONTENT_TYPE, PAGE_TYPE), Field(CONTENT_LENGTH, Decimal(|page|))]
  }

  lemma {:induction false} SizeNeat(size: nat)
    ensures Neat(SizeOnly(size)) && SizeOnly(size) != ""
  {
    var n := Decimal(size);
    DigitsNeat(n);
    NeatJoin("*/", n);
    NeatJoin("bytes", "*/" + n);
    assert SizeOnly(size) == "bytes" + " " + ("*/" + n);
  }

  lemma {:induction false} TypeNeat()
    ensures Neat(PAGE_TYPE)
  {
    var a, b := "text/html;", "charset=UTF-8";
    assert Neat(a) && Neat(b);
    NeatJoin(a, b);
    assert PAGE_TYPE == a + " " + b;
  }

  lemma {:induction false} PageCanAdd(facts: Facts, status: Status, page: string)
    ensures AllCanAdd(PageFields(facts, status, page))
  {
    SizeNeat(|facts.file|);
    TypeNeat();
    DigitsNeat(Decimal(|page|));
    NeatCanAdd(Field(CONTENT_RANGE, SizeOnly(|facts.file|)));
    NeatCanAdd(Field(CONTENT_TYPE, PAGE_TYPE));
    NeatCanAdd(Field(CONTENT_LENGTH, Decimal(|page|)));
  }

  // What an error page says about itself.
  ghost predicate PageDescribed(facts: Facts, status: Status, page: string, t: seq<Header>) {
    && Stored(TABLE, t) && ValueOf(Key.Standard(CONTENT_LENGTH), t) == Some(Decimal(|page|))
    && ValueOf(Key.Standard(CONTENT_RANGE), t) ==
         (if status == NotSatisfiable then Some(SizeOnly(|facts.file|)) else None)
    && Announced(facts.keepAlive, t)
  }

  lemma {:induction false} PageGiven(facts: Facts, status: Status, page: string)
    ensures var fields := PageFields(facts, status, page);
            AllCanAdd(fields) && LastGiven(fields, CONTENT_LENGTH) == Some(Decimal(|page|)) &&
            LastGiven(fields, CONTENT_RANGE) ==
              if status == NotSatisfiable then Some(SizeOnly(|facts.file|)) else None
  {
    var fields := PageFields(facts, status, page);
    var n := |fields| - 1;
    PageCanAdd(facts, status, page);
    DigitsNeat(Decimal(|page|));
    NeatCanAdd(fields[n]);
    assert fields == fields[..n] + [fields[n]] + [];
    NotGiven(CONTENT_RANGE, fields[1..]);
    assert fields == fields[..1] + fields[1..];
    GivenOnce(CONTENT_RANGE, fields[0]);
    BothCanAdd(fields[..1], fields[1..]);
    LastJoin(CONTENT_RANGE, fields[..1], fields[1..]);
    if status == NotSatisfiable {
      SizeNeat(|facts.file|);
      NeatCanAdd(fields[0]);
    }
  }

  lemma {:induction false} AllPageDescribed(facts: Facts, status: Status, page: string)
    requires AllCanAdd(CommonFields(facts))
    ensures AllCanAdd(CommonFields(facts) + PageFields(facts, status, page))
    ensures PageDescribed(facts, status, page, AddedAll(CommonFields(facts) + PageFields(facts, status, page)))
  {
    var a, b := CommonFields(facts), PageFields(facts, status, page);
    PageCanAdd(facts, status, page);
    ConnectionGiven(facts, b);
    PageLengths(facts, status, page);
  }

  lemma {:induction false} PageLengths(facts: Facts, status: Status, page: string)
    requires AllCanAdd(CommonFields(facts)) && AllCanAdd(CommonFields(facts) + PageFields(facts, status, page))
    ensures var t := AddedAll(CommonFields(facts) + PageFields(facts, status, page));
            Stored(TABLE, t) && ValueOf(Key.Standard(CONTENT_LENGTH), t) == Some(Decimal(|page|)) &&
            ValueOf(Key.Standard(CONTENT_RANGE), t) ==
              if status == NotSatisfiable then Some(SizeOnly(|facts.file|)) else None
  {
    var a, b := CommonFields(facts), PageFields(facts, status, page);
    PageGiven(facts, status, page);
    BothCanAdd(a, b);
    CommonGiven(facts, CONTENT_LENGTH);
    CommonGiven(facts, CONTENT_RANGE);
    LastJoin(CONTENT_LENGTH, a, b);
    LastJoin(CONTENT_RANGE, a, b);
    LookupAdded(a + b, CONTENT_LENGTH);
    LookupAdded(a + b, CONTENT_RANGE);
  }

  // ---------------------------------------------------------------- the answer

  // A table to which some fields have been added.
  ghost predicate Holds(h: Headers, fields: seq<Field>)
    reads h
  {
    h.table == TABLE && h.Valid() && AllCanAdd(fields) && h.headers == AddedAll(fields)
  }

  lemma {:induction false} NextAdded(fields: seq<Field>, f: Field)
    requires AllCanAdd(fields) && f.id < |TABLE|
    ensures CanAdd(f) <==> Tidied(f.value).Clean?
    ensures CanAdd(f) ==> AllCanAdd(fields + [f]) && AddedAll(fields + [f]) ==
                            Added(TABLE, AddedAll(fields), Entry(TABLE, f.id, "", Tidied(f.value).text))
  {
    assert (fields + [f])[..|fields|] == fields;
  }

  method AddField(h: Headers, f: Field, ghost fields: seq<Field>) returns (ok: bool)
    requires Holds(h, fields) && f.id < 52
    modifies h`headers
    ensures ok == CanAdd(f) && (ok ==> Holds(h, fields + [f]))
  {
    TableSize();
    NextAdded(fields, f);
    ok := h.Add(f.id, "", f.value);
  }

  method AddCommonHeaders(h: Headers, facts: Facts) returns (ok: bool)
    requires Holds(h, [])
    modifies h`headers
    ensures ok == AllCanAdd(CommonFields(facts)) && (ok ==> Holds(h, CommonFields(facts)))
  {
    ghost var fields := CommonFields(facts);
    assert fields[..0] == [] && fields[..1] == fields[..0] + [fields[0]];
    ok := AddField(h, Field(DATE, facts.date), fields[..0]);
    if ok {
      assert fields[..2] == fields[..1] + [fields[1]];
      ok := AddField(h, Field(CONNECTION, if facts.keepAlive then "Keep-Alive" else "close"), fields[..1]);
    }
    if ok {
      assert fields == fields[..2] + [fields[2]];
      ok := AddField(h, Field(SERVER, WEBSERVER_NAME), fields[..2]);
    }
  }

  // The headers of the file itself, after the common ones.
  method AddFileHeaders(h: Headers, facts: Facts, bodysize: nat, ghost before: seq<Field>) returns (ok: bool)
    requires Holds(h, before)
    modifies h`headers
    ensures ok == AllCanAdd(FileFields(facts, bodysize))
    ensures ok ==> Holds(h, before + FileFields(facts, bodysize))
  {
    ghost var fields := FileFields(facts, bodysize);
    FieldSteps(before, fields);
    ok := AddField(h, Field(ETAG, facts.etag), before);
    if ok {
      ok := AddField(h, Field(ACCEPT_RANGES, "bytes"), before + fields[..1]);
    }
    if ok {
      ok := AddField(h, Field(CONTENT_TYPE, facts.mime), before + fields[..2]);
    }
    if ok {
      ok := AddLengthAndTime(h, Field(CONTENT_LENGTH, Decimal(bodysize)), Field(LAST_MODIFIED, facts.modified),
                             before + fields[..3]);
    }
  }

  method AddLengthAndTime(h: Headers, size: Field, time: Field, ghost before: seq<Field>) returns (ok: bool)
    requires Holds(h, before) && size.id < 52 && time.id < 52
    modifies h`headers
    ensures ok == (CanAdd(size) && CanAdd(time)) && (ok ==> Holds(h, before + [size] + [time]))
  {
    ok := AddField(h, size, before);
    if ok {
      ok := AddField(h, time, before + [size]);
    }
  }

  lemma {:induction false} FieldSteps(before: seq<Field>, fields: seq<Field>)
    requires |fields| == 5
    ensures before + fields[..1] == before + [fields[0]]
    ensures before + fields[..2] == before + fields[..1] + [fields[1]]
    ensures before + fields[..3] == before + fields[..2] + [fields[2]]
    ensures before + fields == before + fields[..3] + [fields[3]] + [fields[4]]
    ensures AllCanAdd(fields) <==>
              CanAdd(fields[0]) && CanAdd(fields[1]) && CanAdd(fields[2]) && CanAdd(fields[3]) && CanAdd(fields[4])
  {
    FieldStep(before, fields, 0);
    FieldStep(before, fields, 1);
    FieldStep(before, fields, 2);
    FieldStep(before, fields, 3);
    FieldStep(before, fields, 4);
    assert before + fields[..0] == before && fields[..5] == fields;
  }

  lemma {:induction false} FieldStep(before: seq<Field>, fields: seq<Field>, i: nat)
    requires i < |fields|
    ensures before + fields[..i + 1] == before + fields[..i] + [fields[i]]
  {
  }

  // The header of the only range, or of several.
  method AddRangeHeader(h: Headers, facts: Facts, ranges: seq<Range>, ghost before: seq<Field>) returns (ok: bool)
    requires Holds(h, before)
    modifies h`headers
    ensures ok && Holds(h, before + RangeFields(facts, ranges))
  {
    RangeCanAdd(facts, ranges);
    if |ranges| == 0 {
      assert before + [] == before;
      return true;
    }
    var f := if |ranges| == 1 then Field(CONTENT_RANGE, ContentRange(ranges[0], |facts.file|))
             else Field(CONTENT_TYPE, MultipartType(facts.boundary));
    assert RangeFields(facts, ranges)[0] == f;
    ok := AddField(h, f, before);
  }

  // headers::get_ranges on the request's headers.
  method ChooseRanges(h: Headers, size: nat) returns (accepted: bool, ranges: seq<Range>)
    requires h.table == TABLE && h.Valid()
    ensures var range := ValueOf(Key.Standard(RANGE), h.headers);
            accepted == Accepted(range, size) && ranges == Chosen(range, size)
  {
    TableSize();
    var range := h.Get(RANGE);
    if range.None? {
      return false, [];
    }
    accepted, ranges := Ranges.GetRanges(range.value, size);
    if !accepted {
      ranges := [];
    }
  }

  method BuildHeaders(h: Headers, facts: Facts, ranges: seq<Range>, bodysize: nat) returns (ok: bool)
    requires h.table == TABLE && h.Valid() && Satisfiable(ranges, |facts.file|)
    requires bodysize == |Entity(facts.file, ranges, facts.mime, facts.boundary)|
    modifies h
    ensures ok == Clean(facts) && (ok ==> Holds(h, AllFields(facts, ranges)))
  {
    ghost var common, fields := CommonFields(facts), FileFields(facts, bodysize);
    CommonCanAdd(facts);
    FileCanAdd(facts, bodysize);
    h.Reset();
    ok := AddCommonHeaders(h, facts);
    if ok {
      ok := AddFileHeaders(h, facts, bodysize, common);
    }
    if ok {
      ok := AddRangeHeader(h, facts, ranges, common + fields);
    }
  }

  // How the headers of a page are added: its size, if only that is told, and then the two others.
  lemma {:induction false} PageSteps(before: seq<Field>, facts: Facts, status: Status, page: string)
    ensures var size := Field(CONTENT_RANGE, SizeOnly(|facts.file|));
            var mid := if status == NotSatisfiable then before + [size] else before;
            var kind, length := Field(CONTENT_TYPE, PAGE_TYPE), Field(CONTENT_LENGTH, Decimal(|page|));
            CanAdd(size) && CanAdd(kind) && CanAdd(length) &&
            before + PageFields(facts, status, page) == mid + [kind] + [length]
  {
    var own := PageFields(facts, NotSatisfiable, page);
    PageCanAdd(facts, NotSatisfiable, page);
    assert CanAdd(own[0]) && CanAdd(own[1]) && CanAdd(own[2]);
  }

  // The headers of the page, after the common ones.
  method AddPageHeaders(h: Headers, facts: Facts, status: Status, page: string, ghost before: seq<Field>)
    returns (ok: bool)
    requires Holds(h, before)
    modifies h`headers
    ensures ok && Holds(h, before + PageFields(facts, status, page))
  {
    PageSteps(before, facts, status, page);
    var kind, length := Field(CONTENT_TYPE, PAGE_TYPE), Field(CONTENT_LENGTH, Decimal(|page|));
    if status != NotSatisfiable {
      ok := AddLengthAndTime(h, kind, length, before);
      return;
    }
    var size := Field(CONTENT_RANGE, SizeOnly(|facts.file|));
    ok := AddField(h, size, before);
    if ok {
      ok := AddLengthAndTime(h, kind, length, before + [size]);
    }
  }

  // The headers of error::build_page; their table is one that all connections share.
  method BuildPage(h: Headers, facts: Facts, status: Status, page: string) returns (ok: bool)
    requires h.table == TABLE && h.Valid()
    modifies h
    ensures ok == Tidied(facts.date).Clean? && (ok ==> h.Valid() && PageDescribed(facts, status, page, h.headers))
  {
    CommonCanAdd(facts);
    h.Reset();
    ok := AddCommonHeaders(h, facts);
    if ok {
      AllPageDescribed(facts, status, page);
      ok := AddPageHeaders(h, facts, status, page, CommonFields(facts));
    }
  }

  // What the client is told, the Range header of the request being as given.
  function StatusOf(range: Option<string>, facts: Facts): Status {
    if Accepted(range, |facts.file|) && Chosen(range, |facts.file|) == [] then NotSatisfiable
    else if !Clean(facts) then ServerError
    else if Accepted(range, |facts.file|) then Partial
    else WholeFile
  }

  lemma {:induction false} LineFirst(line: string, block: string, body: string)
    ensures line + block + body == line + (block + body) && "" + line == line
  {
  }

  lemma {:induction false} FileTold(partial: bool, block: string, body: string, wire: string)
    requires wire <= StatusLine(partial) + block + body
    ensures Tells(wire, if partial then Partial else WholeFile)
  {
    LineFirst(StatusLine(partial), block, body);
    StatusTold(if partial then Partial else WholeFile, block + body, wire);
  }

  lemma {:induction false} PageTold(status: Status, block: string, body: string, wire: string)
    requires status == NotSatisfiable || status == ServerError
    requires wire <= "" + ErrorLine(status) + block + body
    ensures Tells(wire, status)
  {
    LineFirst(ErrorLine(status), block, body);
    StatusTold(status, block + body, wire);
  }

  // The body is sent after the block, and only what the request's method asks for.
  ghost predicate Delivered(conn: Connection, block: string, body: string)
    reads conn
  {
    conn.wire <= block + body && (conn.state == RequestCompleted ==> conn.wire == block + body)
  }

  method SendFile(conn: Connection, block: string, events: nat) returns (ok: bool)
    requires conn.job.Valid() && conn.job.page == ""
    modifies conn
    ensures var job := old(conn.job);
            Delivered(conn, block, if job.head then "" else Entity(job.file, job.ranges, job.mime, job.boundary))
  {
    ghost var job := conn.job;
    conn.wire := "";
    conn.PrepareFile(block);
    ok := conn.Deliver(events, block + if job.head then "" else Entity(job.file, job.ranges, job.mime, job.boundary));
  }

  // What the client gets instead of the file, after `stray`; nothing, if the page cannot be built.
  ghost predicate PageSent(conn: Connection, stray: string, status: Status, facts: Facts, head: bool, page: string,
                           t: seq<Header>)
    reads conn
  {
    if Tidied(facts.date).Clean? then
      PageDescribed(facts, status, page, t) &&
      Delivered(conn, stray + ErrorLine(status) + Serialized(t), if head then "" else page) &&
      (stray == "" && (status == NotSatisfiable || status == ServerError) ==> Tells(conn.wire, status))
    else conn.wire == ""
  }

  // kPreparingErrorPage and the states after it; what has been appended to the output stays there.
  method SendPage(conn: Connection, pages: Headers, head: bool, facts: Facts, status: Status, page: string, events: nat)
    requires pages.table == TABLE && pages.Valid()
    modifies conn, pages
    ensures PageSent(conn, old(conn.out), status, facts, head, page, pages.headers)
  {
    conn.wire := "";
    var ok := BuildPage(pages, facts, status, page);
    if ok {
      var buf := pages.Serialize();
      ghost var stray := conn.out;
      SendBlock(conn, head, conn.out + ErrorLine(status) + buf, page, events);
      if stray == "" && (status == NotSatisfiable || status == ServerError) {
        PageTold(status, buf, if head then "" else page, conn.wire);
      }
    }
  }

  method SendBlock(conn: Connection, head: bool, block: string, page: string, events: nat)
    requires conn.wire == ""
    modifies conn
    ensures Delivered(conn, block, if head then "" else page)
  {
    conn.PreparePage(head, block, page);
    var ok := conn.Deliver(events, block + if head then "" else page);
  }

  // The file is sent, or these parts of it.
  ghost predicate FileSent(conn: Connection, partial: bool, ranges: seq<Range>, head: bool, facts: Facts,
                           t: seq<Header>)
    reads conn
  {
    && Satisfiable(ranges, |facts.file|) && |ranges| <= Ranges.MAX_RANGES && Clean(facts) && partial == (ranges != [])
    && Stored(TABLE, t) && Described(facts, ranges, t) && Tells(conn.wire, if partial then Partial else WholeFile)
    && Delivered(conn, StatusLine(partial) + Serialized(t),
                 if head then "" else Entity(facts.file, ranges, facts.mime, facts.boundary))
  }

  /**
   From the Range header to the last byte.  The answer is 416 if and only if the header is understood and asks for
   no byte of the file.  Otherwise, unless a value cannot be put in a header, it is 206 for the ranges of the header
   or 200 for the whole file; its header block describes the body, and what the socket takes is a beginning of the
   two, and all of them when the request is completed.  If a value cannot be put in a header, the error page follows
   the status line of the file.
   */
  method AnswerFile(conn: Connection, h: Headers, pages: Headers, head: bool, facts: Facts, again: bool,
                    page: Status -> string, events: nat)
    returns (status: Status)
    requires h.table == TABLE && h.Valid() && facts.boundary < WORD && conn.out == ""
    requires pages != h && pages.table == TABLE && pages.Valid()
    modifies conn, h, pages
    ensures status == StatusOf(old(ValueOf(Key.Standard(RANGE), h.headers)), facts)
    ensures status == WholeFile || status == Partial ==>
              var range := old(ValueOf(Key.Standard(RANGE), h.headers));
              FileSent(conn, status == Partial, Chosen(range, |facts.file|), head, facts, h.headers)
    ensures status == NotSatisfiable ==> PageSent(conn, "", status, facts, head, page(status), pages.headers)
    ensures status == ServerError ==>
              PageSent(conn, StatusLine(Accepted(old(ValueOf(Key.Standard(RANGE), h.headers)), |facts.file|)), status,
                       facts.(keepAlive := again), head, page(status), pages.headers)
  {
    ghost var range := ValueOf(Key.Standard(RANGE), h.headers);
    var accepted, ranges := ChooseRanges(h, |facts.file|);
    if accepted && |ranges| == 0 {
      SendPage(conn, pages, head, facts, NotSatisfiable, page(NotSatisfiable), events);
      return NotSatisfiable;
    }
    ChosenSatisfiable(range, |facts.file|);
    conn.out := conn.out + StatusLine(accepted);
    var ok := AnswerRanges(conn, h, pages, head, facts, again, page(ServerError), accepted, ranges, events);
    status := if !ok then ServerError else if accepted then Partial else WholeFile;
  }

  // The same, after the status line.
  method AnswerRanges(conn: Connection, h: Headers, pages: Headers, head: bool, facts: Facts, again: bool, page: string,
                      ghost partial: bool, ranges: seq<Range>, events: nat)
    returns (ok: bool)
    requires h.table == TABLE && h.Valid() && facts.boundary < WORD
    requires Satisfiable(ranges, |facts.file|) && |ranges| <= Ranges.MAX_RANGES
    requires pages != h && pages.table == TABLE && pages.Valid()
    requires conn.out == StatusLine(partial) && partial == (ranges != [])
    modifies conn, h, pages
    ensures ok == Clean(facts) && (ok ==> FileSent(conn, partial, ranges, head, facts, h.headers))
    ensures !ok ==> PageSent(conn, StatusLine(partial), ServerError, facts.(keepAlive := again), head, page,
                             pages.headers)
  {
    ok := SendRanges(conn, h, head, facts, partial, ranges, events);
    if !ok {
      SendPage(conn, pages, head, facts.(keepAlive := again), ServerError, page, events);
    }
  }

  // The headers of the file and the file, after the status line.
  method SendRanges(conn: Connection, h: Headers, head: bool, facts: Facts, ghost partial: bool, ranges: seq<Range>,
                    events: nat)
    returns (ok: bool)
    requires h.table == TABLE && h.Valid() && facts.boundary < WORD
    requires Satisfiable(ranges, |facts.file|) && |ranges| <= Ranges.MAX_RANGES
    requires conn.out == StatusLine(partial) && partial == (ranges != [])
    modifies conn, h
    ensures ok == Clean(facts) && (!ok ==> conn.out == old(conn.out))
    ensures ok ==> FileSent(conn, partial, ranges, head, facts, h.headers)
  {
    var bodysize := conn.Plan(head, facts.file, ranges, facts.mime, facts.boundary);
    ok := BuildHeaders(h, facts, ranges, bodysize);
    if ok {
      LookupAdded(AllFields(facts, ranges), RANGE);
      AllDescribed(facts, ranges);
      var buf := h.Serialize();
      var sent := SendFile(conn, conn.out + buf, events);
      FileTold(partial, buf, if head then "" else Entity(facts.file, ranges, facts.mime, facts.boundary), conn.wire);
    }
  }
}
