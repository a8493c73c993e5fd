/**
 The receiving half of net/internet/http/connection.cpp: requests that follow one another in the input, whatever the
 pieces in which they arrive.
 */
module Receiving {
  import opened CaseOrder
  import opened HeaderNames
  import opened HeaderNumbers
  import opened HeaderTable
  import opened LineParsing
  import opened Text
  import opened Wrappers
  import H = HeaderParsing
  import Headers
  import L = RequestLine
  import LineGrammar
  import LineWriting

  const MAX_REQUESTS := 10

  // A request, or what was wrong with it; the headers are those in the table at that time.
  datatype Event =
    | Request(line: L.Line, entries: seq<Header>)
    | Failed(failure: L.Failure, version: L.Version, entries: seq<Header>)

  datatype Head = Waiting | Taken(event: Event, size: nat)

  // ---------------------------------------------------------------- what the stream says

  // What is wrong with a request whose headers cannot be parsed.
  function FailureOf(result: H.Result): L.Failure {
    match result
    case NoMemory => L.ServerError
    case TooLarge => L.TooLarge
    case _ => L.BadRequest
  }

  // The first request of the stream.  After a failure, parsing goes on where the part that failed began.
  ghost function First(ssl: bool, rules: H.Rules, s: string): (head: Head)
    ensures head.Taken? ==> head.size <= |s|
  {
    LineGrammar.UnreadKeeps(ssl, L.FRESH, s);
    match L.ReadLine(ssl, L.FRESH, 0, s)
    case Going(_) => Waiting
    case Refused(failure, l, n) => Taken(Event.Failed(failure, l.version, []), n)
    case Complete(l, n) => AfterLine(rules, l, n, s)
  }

  ghost function AfterLine(rules: H.Rules, l: L.Line, n: nat, s: string): (head: Head)
    requires n <= |s|
    ensures head.Taken? ==> head.size <= |s|
  {
    H.EndSize(rules, H.FRESH, s[n..]);
    match H.ReadAll(rules, H.FRESH, s[n..])
    case Go(_) => Waiting
    case Stop(result, r) =>
      if result == H.End then Taken(Event.Request(l, r.entries), n + r.size)
      else Taken(Event.Failed(FailureOf(result), l.version, r.entries), n)
  }

  // add_common_headers: whether the connection stays open after the answer, the n-th one on it.
  ghost predicate StaysOpen(version: L.Version, entries: seq<Header>, n: nat) {
    n != MAX_REQUESTS &&
    match ValueOf(Key.Standard(CONNECTION), entries)
    case None => version == L.Http11
    case Some(v) => Contains(v, "Keep-Alive") || (!Contains(v, "close") && version == L.Http11)
  }

  ghost predicate KeepsAlive(e: Event, n: nat) {
    StaysOpen(if e.Request? then e.line.version else e.version, e.entries, n)
  }

  /** The requests of a stream, and the failures; `n` answers have been given before. */
  ghost function Events(ssl: bool, rules: H.Rules, s: string, n: nat): seq<Event>
    decreases |s|
  {
    match First(ssl, rules, s)
    case Waiting => []
    case Taken(e, size) =>
      if KeepsAlive(e, n + 1) && size > 0 then [e] + Events(ssl, rules, s[size..], n + 1) else [e]
  }

  /** What has been found in the beginning of a stream is found in the whole of it. */
  lemma {:induction false} FirstMore(ssl: bool, rules: H.Rules, s: string, t: string)
    requires First(ssl, rules, s).Taken?
    ensures First(ssl, rules, s + t) == First(ssl, rules, s)
  {
    var o := L.ReadLine(ssl, L.FRESH, 0, s);
    L.ReadLineSplit(ssl, L.FRESH, 0, s, t);
    if o.Complete? {
      LineGrammar.UnreadKeeps(ssl, L.FRESH, s);
      AfterMore(rules, o.line, o.size, s, t);
    }
  }

  lemma {:induction false} AfterMore(rules: H.Rules, l: L.Line, n: nat, s: string, t: string)
    requires n <= |s| && AfterLine(rules, l, n, s).Taken?
    ensures AfterLine(rules, l, n, s + t) == AfterLine(rules, l, n, s)
  {
    assert (s + t)[n..] == s[n..] + t;
    H.ReadSplit(rules, H.FRESH, s[n..], t);
  }

  // A connection stays open only if something has been taken from the stream.
  lemma {:induction false} KeptSome(ssl: bool, rules: H.Rules, s: string, n: nat)
    requires First(ssl, rules, s).Taken? && KeepsAlive(First(ssl, rules, s).event, n)
    ensures First(ssl, rules, s).size > 0
  {
    LineGrammar.UnreadKeeps(ssl, L.FRESH, s);
    RefusedFirst(ssl, L.FRESH, s);
  }

  lemma {:induction false} RefusedFirst(ssl: bool, l: L.Line, s: string)
    requires l.at.BeforeMethod? && l.version == L.Http09
    ensures match L.ReadLine(ssl, l, 0, s)
            case Refused(_, l', n) => n == 0 ==> l'.version == L.Http09
            case _ => true
  {
    if s != "" {
      var o := L.Next(ssl, l, 0, s[0]);
      if o.Going? {
        RefusedLater(ssl, o.line, 1, s[1..]);
      }
    }
  }

  lemma {:induction false} RefusedLater(ssl: bool, l: L.Line, size: nat, s: string)
    ensures match L.ReadLine(ssl, l, size, s)
            case Refused(_, _, n) => n >= size
            case _ => true
    decreases |s|
  {
    if s != "" {
      var o := L.Next(ssl, l, size, s[0]);
      if o.Going? {
        RefusedLater(ssl, o.line, size + 1, s[1..]);
      }
    }
  }

  // ---------------------------------------------------------------- where the server is in the stream

  // The events of a stream, when some requests have been answered before.
  type Finder = (string, nat) -> seq<Event>

  ghost function EventsOf(ssl: bool, rules: H.Rules): Finder {
    (s: string, n: nat) => Events(ssl, rules, s, n)
  }

  /**
   Whatever comes after what has arrived, the requests of the whole are those that have been found and, if the
   connection stays open, those of the rest.
   */
  ghost predicate Explained(events: Finder, stream: string, log: seq<Event>, open: bool, rest: string) {
    forall t: string :: ExplainedWith(events, stream, log, open, rest, t)
  }

  ghost predicate ExplainedWith(events: Finder, stream: string, log: seq<Event>, open: bool, rest: string, t: string) {
    events(stream + t, 0) == log + if open then events(rest + t, |log|) else []
  }

  lemma {:induction false} ExplainedMore(events: Finder, stream: string, log: seq<Event>, open: bool, rest: string,
                                         piece: string)
    requires Explained(events, stream, log, open, rest)
    ensures Explained(events, stream + piece, log, open, rest + piece)
  {
    forall t: string
      ensures ExplainedWith(events, stream + piece, log, open, rest + piece, t)
    {
      assert ExplainedWith(events, stream, log, open, rest, piece + t);
      assert stream + piece + t == stream + (piece + t) && rest + piece + t == rest + (piece + t);
    }
  }

  // Whatever comes after s, its first event is e, and those of s' follow if the connection stays open.
  ghost predicate Followed(events: Finder, s: string, n: nat, e: Event, open: bool, s': string) {
    forall t: string :: FollowedWith(events, s, n, e, open, s', t)
  }

  ghost predicate FollowedWith(events: Finder, s: string, n: nat, e: Event, open: bool, s': string, t: string) {
    events(s + t, n) == [e] + if open then events(s' + t, n + 1) else []
  }

  lemma {:induction false} EventsNext(ssl: bool, rules: H.Rules, s: string, n: nat, e: Event, size: nat)
    requires First(ssl, rules, s) == Taken(e, size) && (KeepsAlive(e, n + 1) ==> size > 0)
    ensures Followed(EventsOf(ssl, rules), s, n, e, KeepsAlive(e, n + 1), s[size..])
  {
    var events, open, s' := EventsOf(ssl, rules), KeepsAlive(e, n + 1), s[size..];
    forall t: string
      ensures FollowedWith(events, s, n, e, open, s', t)
    {
      FirstMore(ssl, rules, s, t);
      assert (s + t)[size..] == s[size..] + t;
    }
  }

  lemma {:induction false} ExplainedNext(events: Finder, stream: string, log: seq<Event>, rest: string, e: Event,
                                         open: bool, rest': string)
    requires Explained(events, stream, log, true, rest) && Followed(events, rest, |log|, e, open, rest')
    ensures Explained(events, stream, log + [e], open, rest')
  {
    forall t: string
      ensures ExplainedWith(events, stream, log + [e], open, rest', t)
    {
      assert ExplainedWith(events, stream, log, true, rest, t);
      assert FollowedWith(events, rest, |log|, e, open, rest', t);
      assert |log + [e]| == |log| + 1;
      Regroup(log, e, if open then events(rest' + t, |log| + 1) else []);
    }
  }

  lemma {:induction false} Regroup(log: seq<Event>, e: Event, later: seq<Event>)
    ensures log + ([e] + later) == log + [e] + later
  {
  }

  /** Nothing is left to be found, if the rest is not a whole request or the connection is closed. */
  lemma {:induction false} ExplainedAll(events: Finder, stream: string, log: seq<Event>, open: bool, rest: string)
    requires Explained(events, stream, log, open, rest)
    ensures log <= events(stream, 0)
    ensures (open ==> events(rest, |log|) == []) ==> log == events(stream, 0)
  {
    assert ExplainedWith(events, stream, log, open, rest, "");
    assert stream + "" == stream && rest + "" == rest;
  }

  // ---------------------------------------------------------------- the connection

  datatype State = ReadingRequestLine | AfterRequestLine | ReadingHeaders | Responding | RequestCompleted

  // What run does after one turn of its loop: it goes on, returns true or returns false.
  datatype Turn = GoOn | Return | Close

  // The request line is being read.
  ghost predicate LineState(ssl: bool, input: string, size: nat, line: L.Line) {
    size <= |input| && L.ReadLine(ssl, L.FRESH, 0, input[..size]) == L.Going(line)
  }

  // The request line is complete, and the headers are being read.
  ghost predicate HeadersState(ssl: bool, rules: H.Rules, input: string, inp: nat, line: L.Line, seen: string,
                               r: H.Reading) {
    && L.ReadLine(ssl, L.FRESH, 0, input) == L.Complete(line, inp) && inp <= |input|
    && seen <= input[inp..] && H.ReadAll(rules, H.FRESH, seen) == H.Go(r)
  }

  lemma {:induction false} LineStateMore(ssl: bool, input: string, piece: string, size: nat, line: L.Line)
    requires LineState(ssl, input, size, line)
    ensures LineState(ssl, input + piece, size, line)
  {
    assert (input + piece)[..size] == input[..size];
  }

  lemma {:induction false} HeadersStateMore(ssl: bool, rules: H.Rules, input: string, piece: string, inp: nat,
                                            line: L.Line, seen: string, r: H.Reading)
    requires HeadersState(ssl, rules, input, inp, line, seen, r)
    ensures HeadersState(ssl, rules, input + piece, inp, line, seen, r)
  {
    L.ReadLineSplit(ssl, L.FRESH, 0, input, piece);
    assert (input + piece)[inp..] == input[inp..] + piece;
  }

  // The line has been read to the end of the input.
  lemma {:induction false} LineRead(ssl: bool, input: string, size: nat, line: L.Line)
    requires LineState(ssl, input, size, line)
    ensures L.ReadLine(ssl, L.FRESH, 0, input) == L.ReadLine(ssl, line, size, input[size..])
  {
    L.ReadLineSplit(ssl, L.FRESH, 0, input[..size], input[size..]);
    assert input[..size] + input[size..] == input;
  }

  lemma {:induction false} HeadersRead(rules: H.Rules, b: string, seen: string, r: H.Reading)
    requires seen <= b && H.ReadAll(rules, H.FRESH, seen) == H.Go(r)
    ensures H.ReadAll(rules, H.FRESH, b) == H.ReadAll(rules, r, b[|seen|..])
  {
    H.ReadSplit(rules, H.FRESH, seen, b[|seen|..]);
    assert seen + b[|seen|..] == b;
  }

  // What the headers come to, from the rest of them on.
  lemma {:induction false} FirstHeaders(ssl: bool, rules: H.Rules, input: string, inp: nat, line: L.Line, seen: string,
                                        r: H.Reading)
    requires HeadersState(ssl, rules, input, inp, line, seen, r)
    ensures First(ssl, rules, input) ==
              match H.ReadAll(rules, r, input[inp..][|seen|..])
              case Go(_) => Waiting
              case Stop(result, r') =>
                if result == H.End then Taken(Event.Request(line, r'.entries), inp + r'.size)
                else Taken(Event.Failed(FailureOf(result), line.version, r'.entries), inp)
  {
    HeadersRead(rules, input[inp..], seen, r);
  }

  class Receiver {
    const parser: LineParser
    const headers: Headers.Headers
    var input: string             // _M_in
    var inp: nat                  // _M_inp
    var state: State
    var keepAlive: bool
    var nrequests: nat
    var readable: bool
    var arriving: seq<string>     // what the socket is going to deliver, piece by piece
    ghost var stream: string      // everything it has delivered
    ghost var log: seq<Event>     // the requests that have been handed over, and the failures

    ghost predicate Reading()
      reads this
    {
      state.ReadingRequestLine? || state.AfterRequestLine? || state.ReadingHeaders?
    }

    // What has arrived and does not belong to a request that has been found.
    ghost function Rest(): string
      reads this
    {
      if Reading() || inp > |input| then input else input[inp..]
    }

    ghost predicate Located()
      reads this, headers
    {
      && nrequests == |log| && inp <= |input|
      && Explained(EventsOf(parser.ssl, headers.Settings()), stream, log, Reading() || keepAlive, Rest())
    }

    ghost predicate Positioned()
      reads this, parser, headers
    {
      match state
      case ReadingRequestLine =>
        && parser.ReadyFor(input) && inp == parser.st.size && LineState(parser.ssl, input, inp, parser.line)
        && headers.Ready() && headers.seen == "" && headers.reading == H.FRESH
      case AfterRequestLine => AtHeaders() && headers.seen == ""
      case ReadingHeaders => AtHeaders()
      case _ => keepAlive ==> inp > 0
    }

    ghost predicate AtHeaders()
      reads this, parser, headers
    {
      && Models(input, parser.st, parser.line) && headers.Ready()
      && HeadersState(parser.ssl, headers.Settings(), input, inp, parser.line, headers.seen, headers.reading)
    }

    ghost predicate Valid()
      reads this, parser, headers
    {
      && Proper(headers.table) && CONNECTION < |headers.table|
      && Located() && Positioned()
    }

    // All that has arrived has been looked at.
    ghost predicate Drained()
      reads this, headers
    {
      match state
      case ReadingRequestLine => inp == |input|
      case AfterRequestLine => inp == |input|
      case ReadingHeaders => inp <= |input| && headers.seen == input[inp..]
      case _ => true
    }

    constructor (ssl: bool, table: Table)
      requires Proper(table) && CONNECTION < |table|
      ensures Valid() && Drained() && stream == "" && log == [] && arriving == [] && state == ReadingRequestLine
      ensures fresh(parser) && fresh(headers) && parser.ssl == ssl && headers.table == table && headers.ignoreErrors
    {
      parser := new LineParser(ssl);
      headers := new Headers.Headers(table, true);
      input, inp, state, keepAlive, nrequests, readable, arriving := "", 0, ReadingRequestLine, false, 0, false, [];
      stream, log := "", [];
      new;
      assert input[..0] == "";
    }

    // More bytes in the buffer.
    method Append(piece: string)
      requires Valid() && Reading()
      modifies this`input, this`stream
      ensures Valid() && input == old(input) + piece && stream == old(stream) + piece
    {
      ExplainedMore(EventsOf(parser.ssl, headers.Settings()), stream, log, true, input, piece);
      if state.ReadingRequestLine? {
        ModelsMore(input, piece, parser.st, parser.line);
        LineStateMore(parser.ssl, input, piece, inp, parser.line);
      } else {
        ModelsMore(input, piece, parser.st, parser.line);
        HeadersStateMore(parser.ssl, headers.Settings(), input, piece, inp, parser.line, headers.seen, headers.reading);
      }
      input := input + piece;
      stream := stream + piece;
    }

    // tcp_connection::read: the next piece, nothing if none has arrived yet, or the end of the connection.
    method Read() returns (ok: bool, count: nat)
      requires Valid() && Reading()
      modifies this`input, this`stream, this`arriving, this`readable
      ensures Valid() && stream + Concat(arriving) == old(stream) + Concat(old(arriving))
      ensures |arriving| <= |old(arriving)| && (ok && count > 0 ==> |arriving| < |old(arriving)|)
      ensures readable || arriving == [] || !old(readable)
      ensures ok && count == 0 ==> input == old(input) && arriving == old(arriving) == []
    {
      count := 0;
      if |arriving| == 0 {
        readable := false;
        return true, 0;
      }
      var piece := arriving[0];
      arriving := arriving[1..];
      assert stream + (piece + Concat(arriving)) == stream + piece + Concat(arriving);
      Append(piece);
      return piece != "", |piece|;
    }

    // add_common_headers, as far as the connection is concerned.
    method AddCommonHeaders(version: L.Version)
      requires headers.Valid() && CONNECTION < |headers.table|
      modifies this`nrequests, this`keepAlive
      ensures nrequests == old(nrequests) + 1 && keepAlive == StaysOpen(version, headers.headers, nrequests)
    {
      nrequests := nrequests + 1;
      if nrequests == MAX_REQUESTS {
        keepAlive := false;
        return;
      }
      var v := headers.Get(CONNECTION);
      if v.None? {
        keepAlive := version == L.Http11;
        return;
      }
      var kept := FindNeedle(v.value, "Keep-Alive");
      var closed := FindNeedle(v.value, "close");
      keepAlive := kept || (!closed && version == L.Http11);
    }

    // The socket has more pieces to deliver, and run is told so.
    method Arrive(pieces: seq<string>)
      requires Valid()
      modifies this`arriving, this`readable
      ensures Valid() && arriving == old(arriving) + pieces && readable
    {
      arriving, readable := arriving + pieces, true;
    }

    // At most one more request has been handed over, and then it is to be answered.
    twostate predicate Handed()
      reads this
    {
      nrequests == old(nrequests) + if state.Responding? then 1 else 0
    }

    // A request has been found, or a failure; process_request or error::build_page answers it.
    method Answer(ghost e: Event, version: L.Version)
      requires Proper(headers.table) && CONNECTION < |headers.table| && headers.Valid()
      requires Reading() && nrequests == |log|
      requires Explained(EventsOf(parser.ssl, headers.Settings()), stream, log, true, input)
      requires First(parser.ssl, headers.Settings(), input) == Taken(e, inp)
      requires e.entries == headers.headers && version == if e.Request? then e.line.version else e.version
      modifies this`nrequests, this`keepAlive, this`log, this`state
      ensures Valid() && state == Responding && log == old(log) + [e] && Handed()
    {
      AddCommonHeaders(version);
      assert keepAlive == KeepsAlive(e, |log| + 1);
      if keepAlive {
        KeptSome(parser.ssl, headers.Settings(), input, |log| + 1);
      }
      EventsNext(parser.ssl, headers.Settings(), input, |log|, e, inp);
      ExplainedNext(EventsOf(parser.ssl, headers.Settings()), stream, log, input, e, keepAlive, input[inp..]);
      log := log + [e];
      state := Responding;
    }

    // parse_request_line, and what run makes of its result.
    method ParseLine()
      requires Valid() && state == ReadingRequestLine
      modifies this`inp, this`state, this`nrequests, this`keepAlive, this`log, parser
      ensures Valid() && (state == ReadingRequestLine ==> Drained())
      ensures state != ReadingHeaders && Handed()
    {
      ghost var rules := headers.Settings();
      LineRead(parser.ssl, input, inp, parser.line);
      var result := parser.Parse(input);
      inp := parser.st.size;
      match result {
        case NotYet =>
          assert input[..inp] == input;
        case Done =>
          assert "" <= input[inp..];
          state := AfterRequestLine;
        case Failed(failure) =>
          Answer(Event.Failed(failure, parser.st.version, []), parser.st.version);
      }
    }

    // headers::parse on what comes after the request line.
    method ParseRest() returns (result: H.Result)
      requires Valid() && (state == AfterRequestLine || state == ReadingHeaders)
      modifies headers
      ensures headers.Valid() && Located() && (result == H.NotEnd ==> AtHeaders() && headers.seen == input[inp..])
      ensures result == H.End ==>
                First(parser.ssl, headers.Settings(), input) ==
                  Taken(Event.Request(parser.line, headers.headers), inp + headers.state.size)
      ensures result != H.NotEnd && result != H.End ==>
                First(parser.ssl, headers.Settings(), input) ==
                  Taken(Event.Failed(FailureOf(result), parser.line.version, headers.headers), inp)
    {
      ghost var rules, line := headers.Settings(), parser.line;
      FirstHeaders(parser.ssl, rules, input, inp, line, headers.seen, headers.reading);
      HeadersRead(rules, input[inp..], headers.seen, headers.reading);
      H.StopResult(rules, headers.reading, input[inp..][|headers.seen|..]);
      result := headers.Parse(input[inp..]);
    }

    // What run makes of the result of headers::parse.
    method ParseHeaders()
      requires Valid() && (state == AfterRequestLine || state == ReadingHeaders)
      modifies this`inp, this`state, this`nrequests, this`keepAlive, this`log, headers
      ensures Valid() && Drained() && (state == ReadingHeaders || state == Responding) && Handed()
    {
      ghost var line := parser.line;
      var version := parser.st.version;
      var result := ParseRest();
      if result == H.NotEnd {
        state := ReadingHeaders;
      } else if result == H.End {
        inp := inp + headers.state.size;
        Answer(Event.Request(line, headers.headers), version);
      } else {
        Answer(Event.Failed(FailureOf(result), version, headers.headers), version);
      }
    }

    // The request has been answered: what is left of the input comes to its front.
    method NextRequest()
      requires Valid() && state == RequestCompleted && keepAlive
      modifies this`input, this`inp, this`state, parser, headers
      ensures Valid() && state == ReadingRequestLine && |input| < |old(input)|
    {
      parser.Reset();
      headers.Reset();
      var left := |input| - inp;
      if left > 0 {
        input := input[inp..];
      } else {
        assert input[inp..] == "";
        input := "";
      }
      inp := 0;
      state := ReadingRequestLine;
      assert input[..0] == "";
    }

    // The answer has been sent.
    method Complete()
      requires Valid() && state == Responding
      modifies this`state
      ensures Valid() && Delivered() && Advanced() && state == RequestCompleted
    {
      state := RequestCompleted;
    }

    // Reads if there is nothing left to be parsed.
    method Refill() returns (turn: Turn)
      requires Valid() && (state == ReadingRequestLine || state == AfterRequestLine)
      modifies this`input, this`stream, this`arriving, this`readable
      ensures Valid() && stream + Concat(arriving) == old(stream) + Concat(old(arriving)) &&
              |arriving| <= |old(arriving)|
      ensures turn == Return ==> Drained() && (old(readable) ==> arriving == [])
      ensures readable || arriving == [] || !old(readable)
      ensures turn == GoOn && |arriving| == |old(arriving)| ==> inp < |old(input)| && input == old(input)
    {
      if inp == |input| {
        if !readable {
          return Return;
        }
        var ok, count := Read();
        if !ok {
          return Close;
        }
        if count == 0 {
          return Return;
        }
      }
      return GoOn;
    }

    // How far the request is from being completed, in turns of the loop.
    ghost function Distance(): nat
      reads this
    {
      match state
      case ReadingRequestLine => if inp < |input| then 6 else 5
      case AfterRequestLine => 4
      case ReadingHeaders => 3
      case Responding => 2
      case RequestCompleted => 1
    }

    // One turn got somewhere: a piece less to come, a request less in the input, or a state further.
    twostate predicate Advanced()
      reads this
    {
      |arriving| < |old(arriving)| ||
      (|arriving| == |old(arriving)| &&
        (|input| < |old(input)| || (input == old(input) && Distance() < old(Distance()))))
    }

    // Everything that the socket delivers comes into the stream.
    twostate predicate Delivered()
      reads this
    {
      && stream + Concat(arriving) == old(stream + Concat(arriving)) && |arriving| <= |old(arriving)|
      && (readable || arriving == [] || !old(readable))
    }

    method TurnLine() returns (turn: Turn)
      requires Valid() && state == ReadingRequestLine && (readable || arriving == [])
      modifies this, parser
      ensures Valid() && Delivered() && state != ReadingHeaders && Handed()
      ensures turn == GoOn ==> Advanced()
      ensures (turn != Return || Drained()) && (turn == Return ==> arriving == [] && Reading())
      ensures turn == Close ==> Reading()
    {
      turn := Refill();
      if turn != GoOn {
        return turn;
      }
      ParseLine();
      return GoOn;
    }

    method TurnAfterLine() returns (turn: Turn)
      requires Valid() && state == AfterRequestLine && (readable || arriving == [])
      modifies this, headers
      ensures Valid() && Delivered() && (state == AfterRequestLine || Drained()) && Handed()
      ensures turn == GoOn ==> Advanced()
      ensures turn == Return ==> arriving == [] && state == ReadingHeaders
      ensures turn == Close ==> Reading()
    {
      turn := Refill();
      if turn == GoOn {
        ParseHeaders();
        return GoOn;
      }
      if turn == Return {
        state := ReadingHeaders;
        return Return;
      }
      return Close;
    }

    // Reads in any case.
    method RefillHeaders() returns (turn: Turn)
      requires Valid() && state == ReadingHeaders && Drained() && (readable || arriving == [])
      modifies this`input, this`stream, this`arriving, this`readable
      ensures Valid() && Delivered() && (turn == Return ==> Drained() && arriving == [])
      ensures turn == GoOn ==> |arriving| < |old(arriving)|
      ensures state == ReadingHeaders
    {
      if !readable {
        return Return;
      }
      var ok, count := Read();
      return if !ok then Close else if count == 0 then Return else GoOn;
    }

    method TurnHeaders() returns (turn: Turn)
      requires Valid() && state == ReadingHeaders && Drained() && (readable || arriving == [])
      modifies this, headers
      ensures Valid() && Delivered() && (turn == Close || Drained()) && Handed()
      ensures turn == GoOn ==> |arriving| < |old(arriving)|
      ensures turn != GoOn ==> state == ReadingHeaders && (turn == Return ==> arriving == [])
    {
      turn := RefillHeaders();
      if turn == GoOn {
        ParseHeaders();
      }
    }

    method TurnCompleted() returns (turn: Turn)
      requires Valid() && state == RequestCompleted && (readable || arriving == [])
      modifies this, parser, headers
      ensures Valid() && Delivered() && (state == RequestCompleted || state == ReadingRequestLine) && Handed()
      ensures turn == GoOn ==> Advanced()
      ensures turn != Return && (turn == Close ==> state == RequestCompleted && !keepAlive)
    {
      if !keepAlive {
        return Close;
      }
      NextRequest();
      return GoOn;
    }

    // The requests of everything that has been delivered.
    ghost function Found(): seq<Event>
      reads this
    {
      Events(parser.ssl, headers.Settings(), stream, 0)
    }

    lemma NothingLeft()
      requires Valid() && Reading() && Drained()
      ensures First(parser.ssl, headers.Settings(), input).Waiting?
    {
      if state.ReadingRequestLine? {
        assert input[..inp] == input;
      }
    }

    /** What has been handed over is what the stream holds, as far as it has been looked at. */
    lemma HandedOver()
      requires Valid()
      ensures log <= Found() && (Reading() && Drained() ==> log == Found()) &&
              (!Reading() && !keepAlive ==> log == Found())
    {
      if Reading() && Drained() {
        NothingLeft();
      }
      ExplainedAll(EventsOf(parser.ssl, headers.Settings()), stream, log, Reading() || keepAlive, Rest());
    }

    // One turn of the loop in run, unless an answer is being sent.
    method Step() returns (turn: Turn)
      requires Valid() && state != Responding && (state == ReadingHeaders ==> Drained()) && (readable || arriving == [])
      modifies this, parser, headers
      ensures Valid() && Delivered() && (state == ReadingHeaders && turn != Close ==> Drained()) && Handed()
      ensures turn == GoOn ==> Advanced()
      ensures turn == Return ==> Reading() && Drained() && arriving == []
      ensures turn == Close && state == RequestCompleted ==> !keepAlive
    {
      match state {
        case ReadingRequestLine => turn := TurnLine();
        case AfterRequestLine => turn := TurnAfterLine();
        case ReadingHeaders => turn := TurnHeaders();
        case RequestCompleted => turn := TurnCompleted();
      }
    }
  }

  /** Two connections that have been sent the same bytes have found the same requests, however the bytes were split. */
  lemma SameRequests(a: Receiver, b: Receiver)
    requires a.Valid() && a.Reading() && a.Drained() && b.Valid() && b.Reading() && b.Drained()
    requires a.parser.ssl == b.parser.ssl && a.headers.Settings() == b.headers.Settings() && a.stream == b.stream
    ensures a.log == b.log
  {
    a.HandedOver();
    b.HandedOver();
  }
}
