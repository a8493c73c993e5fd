/**
 The whole of run in net/internet/http/connection.cpp: requests are read from one stream, and their answers are written
 to the other.
 */
module Serving {
  import opened HeaderNames
  import opened HeaderNumbers
  import opened MachineWord
  import opened Receiving
  import opened Text
  import Headers
  import R = Response

  // What process_request or error::build_page prepares: a page, or a file or parts of it, after a header block.
  datatype Reply =
    | Page(head: bool, block: string, page: string)
    | File(head: bool, block: string, file: string, ranges: seq<R.Range>, mime: string, boundary: nat)
  {
    predicate Valid() {
      File? ==> R.Satisfiable(ranges, |file|) && boundary < WORD
    }

    function Bytes(): string
      requires Valid()
    {
      block + if head then "" else if Page? then page else R.Entity(file, ranges, mime, boundary)
    }
  }

  type Sound = r: Reply | r.Valid() witness Page(false, "", "")

  // Whatever the site answers to each request, one after the other.
  type Site = nat -> Sound

  // The first n texts, one after the other.
  function Joined(texts: nat -> string, n: nat): string {
    if n == 0 then "" else Joined(texts, n - 1) + texts(n - 1)
  }

  lemma {:induction false} JoinedMore(texts: nat -> string, m: nat, n: nat)
    requires m <= n
    ensures Joined(texts, m) <= Joined(texts, n)
  {
    if m < n {
      JoinedMore(texts, m, n - 1);
      PrefixMore(Joined(texts, m), Joined(texts, n - 1), texts(n - 1));
    }
  }

  // The answers to the first n requests.
  function Replies(site: Site, n: nat): string {
    Joined((i: nat) => site(i).Bytes(), n)
  }

  lemma {:induction false} PrefixMore(a: string, b: string, c: string)
    requires a <= b
    ensures a <= b + c
  {
  }

  lemma {:induction false} WireWithin(site: Site, wire: string, owed: string, m: nat, n: nat)
    requires wire + owed == Replies(site, m) && m <= n
    ensures wire <= Replies(site, n)
  {
    JoinedMore((i: nat) => site(i).Bytes(), m, n);
    PrefixMore(wire, wire, owed);
  }

  lemma {:induction false} RepliesNext(site: Site, n: nat, wire: string)
    requires wire == Replies(site, n)
    ensures wire + site(n).Bytes() == Replies(site, n + 1)
  {
  }

  // The answers to n requests are sent or being sent, except for the last one, if it is not prepared.
  ghost predicate Balanced(site: Site, n: nat, responding: bool, completed: bool, whole: string) {
    || (!responding && completed && whole == Replies(site, n))
    || (responding && !completed && whole == Replies(site, n))
    || (responding && completed && n > 0 && whole == Replies(site, n - 1))
  }

  // At most one more request: then its answer is not prepared.
  lemma {:induction false} HandedOver(site: Site, n: nat, n': nat, responding: bool, whole: string)
    requires whole == Replies(site, n) && n' == n + if responding then 1 else 0
    ensures Balanced(site, n', responding, true, whole)
  {
  }

  class Session {
    const receiver: Receiver
    const sender: R.Connection
    const site: Site

    constructor (ssl: bool, table: Table, site: Site)
      requires Proper(table) && CONNECTION < |table|
      ensures Valid() && receiver.Drained() && receiver.stream == "" && receiver.arriving == [] && this.site == site
      ensures receiver.parser.ssl == ssl && receiver.headers.table == table
      ensures fresh(receiver) && fresh(receiver.parser) && fresh(receiver.headers) && fresh(sender)
    {
      receiver := new Receiver(ssl, table);
      sender := new R.Connection();
      this.site := site;
    }

    // kProcessingRequest and kPreparingErrorPage: the last request handed over has no answer yet.
    predicate Processing()
      reads receiver, sender
    {
      receiver.state == Responding && sender.state == R.RequestCompleted
    }

    // What the socket has taken and what it is still to take are the answers to the requests before.
    ghost predicate Answered()
      reads receiver, sender
    {
      sender.Valid() &&
      Balanced(site, receiver.nrequests, receiver.state == Responding, sender.state == R.RequestCompleted,
               sender.Whole())
    }

    ghost predicate Valid()
      reads this, receiver, receiver.parser, receiver.headers, sender
    {
      receiver.Valid() && Answered()
    }

    // Between two turns of run.
    ghost predicate Ready()
      reads receiver, receiver.headers
    {
      && (receiver.state == ReadingHeaders ==> receiver.Drained())
      && (receiver.readable || receiver.arriving == [])
    }

    // process_request and error::build_page
    method Prepare()
      requires Answered() && Processing()
      modifies sender
      ensures Answered() && !Processing()
    {
      var reply := site(receiver.nrequests - 1);
      RepliesNext(site, receiver.nrequests - 1, sender.wire);
      match reply {
        case Page(head, block, page) =>
          sender.PreparePage(head, block, page);
        case File(head, block, file, ranges, mime, boundary) =>
          var bodysize := sender.Plan(head, file, ranges, mime, boundary);
          sender.PrepareFile(block);
      }
    }

    method TurnProcessing()
      requires Valid() && Processing() && Ready()
      modifies sender
      ensures Valid() && !Processing() && Ready()
    {
      Prepare();
    }

    method TurnReading() returns (turn: Turn)
      requires Valid() && receiver.state != Responding && Ready()
      modifies receiver, receiver.parser, receiver.headers
      ensures Valid() && receiver.Delivered() && (turn != Close ==> Ready())
      ensures turn == GoOn ==> receiver.Advanced()
      ensures turn == Return ==> receiver.Reading() && receiver.Drained() && receiver.arriving == []
      ensures turn == Close && receiver.state == RequestCompleted ==> !receiver.keepAlive
    {
      ghost var whole := sender.Whole();
      assert sender as object !in {receiver, receiver.parser, receiver.headers};
      turn := receiver.Step();
      assert sender.Valid() && sender.Whole() == whole;
      HandedOver(site, old(receiver.nrequests), receiver.nrequests, receiver.state == Responding, whole);
    }

    method TurnSending() returns (turn: Turn)
      requires Valid() && receiver.state == Responding && !Processing() && Ready()
      modifies receiver`state, sender
      ensures Valid() && receiver.Delivered() && Ready()
      ensures turn == GoOn ==> receiver.Advanced()
      ensures turn != GoOn ==> receiver.state == Responding
    {
      var ok := sender.Run();
      if !ok {
        return Close;
      }
      if sender.state != R.RequestCompleted {
        return Return;
      }
      receiver.Complete();
      return GoOn;
    }

    // One turn got somewhere: the receiver did, or an answer has been prepared.
    twostate predicate Advanced()
      reads receiver, sender
    {
      || receiver.Advanced()
      || (old(Processing()) && !Processing() && receiver.arriving == old(receiver.arriving) &&
          receiver.input == old(receiver.input) && receiver.Distance() == old(receiver.Distance()))
    }

    method Step() returns (turn: Turn)
      requires Valid() && Ready()
      modifies receiver, receiver.parser, receiver.headers, sender
      ensures Valid() && receiver.Delivered() && (turn != Close ==> Ready())
      ensures turn == GoOn ==> Advanced()
      ensures turn == Return && receiver.Reading() ==> receiver.Drained() && receiver.arriving == []
      ensures turn == Close && receiver.state == RequestCompleted ==> !receiver.keepAlive
    {
      if Processing() {
        TurnProcessing();
        turn := GoOn;
      } else if receiver.state == Responding {
        turn := TurnSending();
      } else {
        turn := TurnReading();
      }
    }

    // Every request of the stream so far has its answer, in full.
    ghost predicate AllServed()
      reads receiver, receiver.headers, sender
    {
      receiver.log == receiver.Found() && sender.wire == Replies(site, |receiver.Found()|)
    }

    /** What the socket has taken is a beginning of the answers to the requests of the stream, one after the other. */
    lemma Served()
      requires Valid()
      ensures sender.wire <= Replies(site, |receiver.Found()|)
      ensures receiver.Reading() && receiver.Drained() ==> AllServed()
      ensures receiver.state == RequestCompleted && !receiver.keepAlive ==> AllServed()
    {
      receiver.HandedOver();
      var n := if Processing() then receiver.nrequests - 1 else receiver.nrequests;
      var owed := R.Owed(sender.job, sender.state, sender.out, sender.outp, sender.nrange);
      WireWithin(site, sender.wire, owed, n, |receiver.Found()|);
    }

    /**
     run, as often as a socket has something to deliver or takes something.  Whatever the pieces are in which the bytes
     arrive, and however few of them the socket takes at a time: what it has taken is a beginning of the answers to the
     requests in the bytes delivered so far, in their order, and all of them when the connection waits for more, or is
     closed after an answer.
     */
    method Run() returns (ok: bool)
      requires Valid() && Ready()
      modifies receiver, receiver.parser, receiver.headers, sender
      ensures Valid() && (ok ==> Ready())
      ensures receiver.stream + Concat(receiver.arriving) == old(receiver.stream + Concat(receiver.arriving))
      ensures sender.wire <= Replies(site, |receiver.Found()|)
      ensures ok && receiver.Reading() ==> receiver.arriving == [] && receiver.Drained() && AllServed()
      ensures !ok && receiver.state == RequestCompleted ==> AllServed()
    {
      var turn := GoOn;
      while turn == GoOn
        invariant Valid() && (turn != Close ==> Ready())
        invariant receiver.stream + Concat(receiver.arriving) == old(receiver.stream + Concat(receiver.arriving))
        invariant turn == Return && receiver.Reading() ==> receiver.Drained() && receiver.arriving == []
        invariant turn == Close && receiver.state == RequestCompleted ==> !receiver.keepAlive
        decreases if turn == GoOn then 1 else 0, |receiver.arriving|, |receiver.input|, receiver.Distance(),
                  if Processing() then 1 else 0
      {
        turn := Step();
      }
      Served();
      ok := turn == Return;
    }

    // tcp_connection::on_readable: the socket has more pieces to deliver.
    method OnReadable(pieces: seq<string>) returns (ok: bool)
      requires Valid() && Ready()
      modifies receiver, receiver.parser, receiver.headers, sender
      ensures Valid() && sender.wire <= Replies(site, |receiver.Found()|)
      ensures ok && receiver.Reading() ==>
                receiver.Drained() && receiver.arriving == [] && AllServed() &&
                receiver.stream == old(receiver.stream) + Concat(old(receiver.arriving) + pieces)
      ensures !ok && receiver.state == RequestCompleted ==> AllServed()
    {
      receiver.Arrive(pieces);
      ok := Run();
    }

    // tcp_connection::on_writable: the socket takes something again.
    method OnWritable() returns (ok: bool)
      requires Valid() && Ready()
      modifies receiver, receiver.parser, receiver.headers, sender
      ensures Valid() && sender.wire <= Replies(site, |receiver.Found()|)
      ensures ok && receiver.Reading() ==> receiver.Drained() && receiver.arriving == [] && AllServed()
      ensures !ok && receiver.state == RequestCompleted ==> AllServed()
    {
      sender.writable := true;
      ok := Run();
    }
  }
}
