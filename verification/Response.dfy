/**
 The sending half of net/internet/http/connection.cpp and the socket writes of net/tcp_connection.cpp: how a
 response leaves the server in as many pieces as the socket cares to take.
 */
module Response {
  import opened MachineWord
  import opened Number
  import opened Text

  // util::range: both ends belong to it.
  datatype Range = Range(from: nat, to: nat)

  const BOUNDARY_LEN := 11

  datatype State =
    | SendingTwoBuffers | SendingHeaders | SendingBody | SendingPartHeader | SendingMultipartFooter | RequestCompleted

  // What stays the same while a response is sent: its page is an error page or a directory listing.
  datatype Job = Job(head: bool, page: string, file: string, ranges: seq<Range>, mime: string, boundary: nat) {
    ghost predicate Valid() {
      Satisfiable(ranges, |file|) && boundary < WORD
    }
  }

  // ---------------------------------------------------------------- what is promised

  predicate Satisfiable(ranges: seq<Range>, size: nat) {
    forall i :: 0 <= i < |ranges| ==> ranges[i].from <= ranges[i].to < size
  }

  function Slice(file: string, r: Range): string
    requires r.from <= r.to < |file|
  {
    file[r.from..r.to + 1]
  }

  function PartHeader(boundary: nat, mime: string, size: nat, r: Range): string {
    "\r\n--" + Padded(boundary, BOUNDARY_LEN) + "\r\nContent-Type: " + mime
    + "\r\nContent-Range: bytes " + Decimal(r.from) + "-" + Decimal(r.to) + "/" + Decimal(size) + "\r\n\r\n"
  }

  function Footer(boundary: nat): string {
    "\r\n--" + Padded(boundary, BOUNDARY_LEN) + "--\r\n"
  }

  // The body of a multipart/byteranges response.
  function Multipart(file: string, ranges: seq<Range>, mime: string, boundary: nat): string
    requires Satisfiable(ranges, |file|)
  {
    if ranges == [] then Footer(boundary)
    else
      PartHeader(boundary, mime, |file|, ranges[0]) + Slice(file, ranges[0])
      + Multipart(file, ranges[1..], mime, boundary)
  }

  // The body of the response to a GET.
  function Entity(file: string, ranges: seq<Range>, mime: string, boundary: nat): string
    requires Satisfiable(ranges, |file|)
  {
    if |ranges| == 0 then file
    else if |ranges| == 1 then Slice(file, ranges[0])
    else Multipart(file, ranges, mime, boundary)
  }

  lemma {:induction false} PartHeaderLength(boundary: nat, mime: string, size: nat, r: Range)
    requires boundary < WORD
    ensures |PartHeader(boundary, mime, size, r)| ==
              2 + 2 + BOUNDARY_LEN + 2 + 14 + |mime| + 2 + 21 + |Decimal(r.from)| + 1 + |Decimal(r.to)| + 1
                + |Decimal(size)| + 2 + 2
    ensures |Footer(boundary)| == 2 + 2 + BOUNDARY_LEN + 2 + 2
  {
    assert Pow10(BOUNDARY_LEN) == 100_000_000_000 by {
      assert Pow10(4) == 10_000;
      assert Pow10(8) == 10_000 * Pow10(4);
    }
    PaddedLength(boundary, BOUNDARY_LEN);
  }

  // ---------------------------------------------------------------- writing to the socket

  const AGAIN := -1      // EAGAIN
  const FAILED := -2     // any other error
  const IOV_MAX := 1024

  lemma {:induction false} ConcatSkip(bufs: seq<string>, i: nat, offset: nat)
    requires i < |bufs| && offset <= |Concat(bufs[i..])|
    ensures Concat(bufs[i..]) == bufs[i] + Concat(bufs[i+1..])
    ensures Concat(bufs[i..])[offset..] ==
              if offset >= |bufs[i]| then Concat(bufs[i+1..])[offset - |bufs[i]|..]
              else bufs[i][offset..] + Concat(bufs[i+1..])
  {
    assert bufs[i..][1..] == bufs[i+1..];
  }

  // ---------------------------------------------------------------- what is owed

  // What comes after the slice of range n.
  ghost function Rest(job: Job, n: nat): string
    requires job.Valid() && n < |job.ranges|
  {
    if |job.ranges| == 1 then "" else Multipart(job.file, job.ranges[n+1..], job.mime, job.boundary)
  }

  // What comes after the header block.
  ghost function Body(job: Job): string
    requires job.Valid()
  {
    if job.head || job.file == "" then ""
    else if job.ranges == [] then job.file
    else Slice(job.file, job.ranges[0]) + Rest(job, 0)
  }

  ghost predicate Proper(job: Job, state: State, out: string, outp: nat, n: nat) {
    && job.Valid()
    && match state
       case SendingTwoBuffers => outp <= |out| + |job.page|
       case SendingHeaders => outp <= |out| && n == 0
       case SendingBody =>
         if job.ranges == [] then outp <= |job.file|
         else n < |job.ranges| && job.ranges[n].from <= outp <= job.ranges[n].to + 1
       case SendingPartHeader => outp <= |out| && n < |job.ranges| && |job.ranges| > 1
       case SendingMultipartFooter => outp <= |out|
       case RequestCompleted => true
  }

  // The bytes that the socket has still to take.
  ghost function Owed(job: Job, state: State, out: string, outp: nat, n: nat): string
    requires Proper(job, state, out, outp, n)
  {
    match state
    case SendingTwoBuffers => (out + job.page)[outp..]
    case SendingHeaders => out[outp..] + Body(job)
    case SendingBody => if job.ranges == [] then job.file[outp..]
      else job.file[outp..job.ranges[n].to + 1] + Rest(job, n)
    case SendingPartHeader => out[outp..] + (Slice(job.file, job.ranges[n]) + Rest(job, n))
    case SendingMultipartFooter => out[outp..]
    case RequestCompleted => ""
  }

  // How far the response is from being complete, in states.
  ghost function Distance(job: Job, state: State, n: nat): nat {
    var left := if n <= |job.ranges| then 3 * (|job.ranges| - n) else 0;
    match state
    case SendingTwoBuffers => 1
    case SendingHeaders => 3 * |job.ranges| + 5
    case SendingBody => left + 2
    case SendingPartHeader => left + 3
    case SendingMultipartFooter => 1
    case RequestCompleted => 0
  }

  // Taking more from the source of a piece leaves the whole unchanged.
  lemma {:induction false} Taken(w: string, source: string, p: nat, q: nat, rest: string)
    requires p <= q <= |source|
    ensures (w + source[p..q]) + (source[q..] + rest) == w + (source[p..] + rest)
    ensures (w + source[p..q]) + source[q..] == w + source[p..]
  {
    assert source[p..] == source[p..q] + source[q..];
  }

  // The end of a piece of the body.
  lemma {:induction false} NextPart(job: Job, n: nat)
    requires job.Valid() && n < |job.ranges| && |job.ranges| > 1
    ensures Rest(job, n) ==
              if n + 1 == |job.ranges| then Footer(job.boundary)
              else PartHeader(job.boundary, job.mime, |job.file|, job.ranges[n + 1])
                   + (Slice(job.file, job.ranges[n + 1]) + Rest(job, n + 1))
  {
    if n + 1 < |job.ranges| {
      assert job.ranges[n+1..][1..] == job.ranges[n+2..];
    }
  }

  lemma {:induction false} RangeTaken(job: Job, out: string, w: string, p: nat, q: nat, n: nat)
    requires Proper(job, SendingBody, out, p, n) && job.ranges != [] && p <= q <= job.ranges[n].to + 1
    ensures w + job.file[p..q] + Owed(job, SendingBody, out, q, n) == w + Owed(job, SendingBody, out, p, n)
  {
    var source := job.file[..job.ranges[n].to + 1];
    Taken(w, source, p, q, Rest(job, n));
    assert source[p..q] == job.file[p..q] && source[q..] == job.file[q..job.ranges[n].to + 1] &&
      source[p..] == job.file[p..job.ranges[n].to + 1];
  }

  // A part header or the footer, before any of it has been sent.
  lemma {:induction false} NextOwed(job: Job, n: nat)
    requires job.Valid() && n < |job.ranges| && |job.ranges| > 1
    ensures if n + 1 == |job.ranges|
            then Owed(job, SendingMultipartFooter, Footer(job.boundary), 0, n + 1) == Rest(job, n)
            else var header := PartHeader(job.boundary, job.mime, |job.file|, job.ranges[n + 1]);
                 Owed(job, SendingPartHeader, header, 0, n + 1) == Rest(job, n)
  {
    NextPart(job, n);
    if n + 1 == |job.ranges| {
      var footer := Footer(job.boundary);
      assert footer[0..] == footer;
    } else {
      var header := PartHeader(job.boundary, job.mime, |job.file|, job.ranges[n + 1]);
      assert header[0..] == header;
    }
  }

  // The end of a slice.
  lemma {:induction false} RangeDone(job: Job, out: string, n: nat)
    requires job.Valid() && n < |job.ranges|
    ensures Proper(job, SendingBody, out, job.ranges[n].to + 1, n) &&
            Owed(job, SendingBody, out, job.ranges[n].to + 1, n) == Rest(job, n)
  {
    var end := job.ranges[n].to + 1;
    assert job.file[end..end] + Rest(job, n) == Rest(job, n);
  }

  lemma {:induction false} HeadersDone(job: Job, out: string)
    requires job.Valid()
    ensures Owed(job, SendingHeaders, out, |out|, 0) == Body(job)
    ensures job.head || job.file == "" ==> Body(job) == ""
    ensures !job.head && job.file != "" && job.ranges == [] ==> Owed(job, SendingBody, out, 0, 0) == Body(job)
    ensures !job.head && job.file != "" && job.ranges != [] ==>
              Proper(job, SendingBody, out, job.ranges[0].from, 0) &&
                Owed(job, SendingBody, out, job.ranges[0].from, 0) == Body(job)
  {
    assert out[|out|..] + Body(job) == Body(job);
  }

  lemma {:induction false} PartHeaderDone(job: Job, out: string, n: nat)
    requires Proper(job, SendingPartHeader, out, |out|, n)
    ensures Proper(job, SendingBody, out, job.ranges[n].from, n)
    ensures Owed(job, SendingBody, out, job.ranges[n].from, n) == Owed(job, SendingPartHeader, out, |out|, n)
  {
    SentAll(out, Slice(job.file, job.ranges[n]) + Rest(job, n));
  }

  lemma {:induction false} SentAll(out: string, rest: string)
    ensures out[|out|..] + rest == rest
  {
  }

  lemma {:induction false} Prepared(job: Job, block: string)
    requires job.Valid()
    ensures var first := |job.ranges| > 1 && !job.head;
            var out := if first then block + PartHeader(job.boundary, job.mime, |job.file|, job.ranges[0]) else block;
            Proper(job, SendingHeaders, out, 0, 0) && Owed(job, SendingHeaders, out, 0, 0) ==
              block + if job.head then "" else Entity(job.file, job.ranges, job.mime, job.boundary)
  {
    if |job.ranges| > 1 && !job.head {
      var header := PartHeader(job.boundary, job.mime, |job.file|, job.ranges[0]);
      Regroup(block, header, Slice(job.file, job.ranges[0]), Rest(job, 0));
      assert (block + header)[0..] == block + header;
    } else {
      assert block[0..] == block;
      if |job.ranges| == 1 && !job.head {
        assert Body(job) == Slice(job.file, job.ranges[0]);
      }
    }
  }

  lemma {:induction false} Regroup(a: string, b: string, c: string, d: string)
    ensures (a + b) + (c + d) == a + ((b + c) + d)
  {
  }

  class Connection {
    var job: Job
    var state: State
    var out: string                 // the header block, a part header or the footer
    var outp: nat                   // how much of the current source has been sent
    var nrange: nat
    var writable: bool
    ghost var wire: string          // everything that the socket has taken

    constructor ()
      ensures Valid() && state == RequestCompleted && wire == ""
    {
      job := Job(false, "", "", [], "", 0);
      state, out, outp, nrange, writable, wire := RequestCompleted, "", 0, 0, false, "";
    }

    ghost predicate Valid()
      reads this
    {
      Proper(job, state, out, outp, nrange)
    }

    // What the socket has taken and what it is still to take.
    ghost function Whole(): string
      requires Valid()
      reads this
    {
      wire + Owed(job, state, out, outp, nrange)
    }

    ghost function Left(): nat
      reads this
    {
      Distance(job, state, nrange)
    }

    // A foreign call: the socket takes any part of the bytes, from the front, or none and tells why.
    method Send(bytes: string) returns (r: int)
      modifies this`wire
      ensures FAILED <= r <= |bytes| && wire == old(wire) + bytes[..if r < 0 then 0 else r]
    {
      r := *;
      if !(FAILED <= r <= |bytes|) {
        r := AGAIN;
      }
      wire := wire + bytes[..if r < 0 then 0 else r];
    }

    // What all three write functions do with what the socket returned; the timer is not modelled here.
    method Sent(r: int, count: nat) returns (ok: bool)
      requires FAILED <= r <= count
      modifies this`outp, this`writable
      ensures ok == (r != FAILED) && outp == old(outp) + if r < 0 then 0 else r
      ensures writable == (old(writable) && (r == count || r == FAILED))
    {
      if r < 0 {
        if r == AGAIN {
          writable := false;
        } else {
          return false;
        }
      } else {
        outp := outp + r;
        if r < count {
          writable := false;
        }
      }
      return true;
    }

    // tcp_connection::unsecure_write
    method Write() returns (ok: bool)
      requires outp <= |out|
      modifies this`outp, this`writable, this`wire
      ensures old(outp) <= outp <= |out| && wire == old(wire) + out[old(outp)..outp]
      ensures ok && writable ==> outp == |out|
    {
      var count := |out| - outp;
      var r := Send(out[outp..]);
      assert out[outp..][..if r < 0 then 0 else r] == out[outp..outp + if r < 0 then 0 else r];
      ok := Sent(r, count);
    }

    // Passes over the buffers that have been sent.
    static method SkipSent(bufs: seq<string>, outp: nat) returns (i: nat, offset: nat)
      requires outp <= |Concat(bufs)|
      ensures i <= |bufs| && offset <= |Concat(bufs[i..])| && Concat(bufs)[outp..] == Concat(bufs[i..])[offset..]
      ensures i < |bufs| ==> offset < |bufs[i]|
    {
      i, offset := 0, outp;
      assert bufs[0..] == bufs;
      while i < |bufs| && offset >= |bufs[i]|
        invariant i <= |bufs| && offset <= |Concat(bufs[i..])| && Concat(bufs)[outp..] == Concat(bufs[i..])[offset..]
      {
        ConcatSkip(bufs, i, offset);
        offset := offset - |bufs[i]|;
        i := i + 1;
      }
    }

    // The rest of the first buffer, and the buffers after it.
    static method Gather(bufs: seq<string>, i: nat, offset: nat) returns (vec: seq<string>, total: nat)
      requires i <= |bufs| && offset <= |Concat(bufs[i..])| && (i < |bufs| ==> offset < |bufs[i]|)
      ensures Concat(vec) == Concat(bufs[i..])[offset..] && total == |Concat(vec)|
    {
      vec, total := [], 0;
      var k: nat, off: nat := i, offset;
      while k < |bufs|
        invariant i <= k <= |bufs| && total == |Concat(vec)| && off <= |Concat(bufs[k..])| &&
                  (k < |bufs| ==> off <= |bufs[k]|)
        invariant Concat(bufs[i..])[offset..] == Concat(vec) + Concat(bufs[k..])[off..]
      {
        GatherOne(vec, bufs, k, off);
        vec, total := vec + [bufs[k][off..]], total + |bufs[k]| - off;
        off := 0;
        k := k + 1;
      }
      assert Concat(bufs[k..])[off..] == "";
    }

    static lemma {:induction false} GatherOne(vec: seq<string>, bufs: seq<string>, k: nat, off: nat)
      requires k < |bufs| && off <= |bufs[k]|
      ensures off <= |Concat(bufs[k..])|
      ensures Concat(vec) + Concat(bufs[k..])[off..] == Concat(vec + [bufs[k][off..]]) + Concat(bufs[k+1..])[0..]
      ensures |Concat(vec + [bufs[k][off..]])| == |Concat(vec)| + |bufs[k]| - off
    {
      assert bufs[k..][1..] == bufs[k+1..];
      ConcatAppend(vec, bufs[k][off..]);
      assert Concat(bufs[k..])[off..] == bufs[k][off..] + Concat(bufs[k+1..]);
    }

    // tcp_connection::unsecure_writev
    method Writev(bufs: seq<string>) returns (ok: bool)
      requires outp <= |Concat(bufs)|
      modifies this`outp, this`writable, this`wire
      ensures old(outp) <= outp <= |Concat(bufs)| && wire == old(wire) + Concat(bufs)[old(outp)..outp]
      ensures ok && writable ==> outp == |Concat(bufs)|
    {
      ghost var all, p, w := Concat(bufs), outp, wire;
      if |bufs| > IOV_MAX {
        assert all[p..p] == "";
        return false;
      }
      var i, offset := SkipSent(bufs, outp);
      var vec, total := Gather(bufs, i, offset);
      var r := Send(Concat(vec));
      ghost var k := if r < 0 then 0 else r;
      assert wire == w + all[p..][..k] && all[p..][..k] == all[p..p + k];
      ok := Sent(r, total);
    }

    // tcp_connection::unsecure_sendfile, up to the end of the file or of a range
    method Sendfile(end: nat) returns (ok: bool)
      requires outp <= end <= |job.file|
      modifies this`outp, this`writable, this`wire
      ensures old(outp) <= outp <= end && wire == old(wire) + job.file[old(outp)..outp]
      ensures ok && writable ==> outp == end
    {
      var count := end - outp;
      var r := Send(job.file[outp..end]);
      assert job.file[outp..end][..if r < 0 then 0 else r] == job.file[outp..outp + if r < 0 then 0 else r];
      ok := Sent(r, count);
    }

    // ---------------------------------------------------------------- the state machine

    method SendTwoBuffers() returns (ok: bool)
      requires Valid() && state == SendingTwoBuffers
      modifies this`state, this`outp, this`writable, this`wire
      ensures Valid() && Whole() == old(Whole()) && (ok && writable ==> Left() < old(Left())) && Left() <= old(Left())
      ensures !ok ==> state == old(state)
    {
      ghost var w, p := wire, outp;
      assert [out, job.page][1..] == [job.page] && Concat([job.page]) == job.page;
      ok := Writev([out, job.page]);
      Taken(w, out + job.page, p, outp, "");
      if ok && outp == |out| + |job.page| {
        state := RequestCompleted;
      }
    }

    method SendHeaders() returns (ok: bool)
      requires Valid() && state == SendingHeaders
      modifies this`state, this`outp, this`writable, this`wire
      ensures Valid() && Whole() == old(Whole()) && (ok && writable ==> Left() < old(Left())) && Left() <= old(Left())
      ensures !ok ==> state == old(state)
    {
      ghost var w, p := wire, outp;
      ok := Write();
      Taken(w, out, p, outp, Body(job));
      if ok && outp == |out| {
        FinishHeaders();
      }
    }

    // The header block has been sent.
    method FinishHeaders()
      requires Valid() && state == SendingHeaders && outp == |out|
      modifies this`state, this`outp
      ensures Valid() && Owed(job, state, out, outp, nrange) == old(Owed(job, state, out, outp, nrange))
      ensures state == SendingBody || state == RequestCompleted
    {
      HeadersDone(job, out);
      if job.head {
        state := RequestCompleted;
      } else if |job.file| == 0 {
        state := RequestCompleted;
      } else {
        if |job.ranges| == 0 {
          outp := 0;
        } else {
          outp := job.ranges[0].from;
        }
        state := SendingBody;
      }
    }

    method SendBody() returns (ok: bool)
      requires Valid() && state == SendingBody
      modifies this`state, this`out, this`outp, this`nrange, this`writable, this`wire
      ensures Valid() && Whole() == old(Whole()) && (ok && writable ==> Left() < old(Left())) && Left() <= old(Left())
      ensures !ok ==> state == old(state)
    {
      if |job.ranges| == 0 {
        ok := SendFile();
      } else {
        ok := SendRange();
      }
    }

    method SendFile() returns (ok: bool)
      requires Valid() && state == SendingBody && job.ranges == []
      modifies this`state, this`outp, this`writable, this`wire
      ensures Valid() && Whole() == old(Whole()) && (ok && writable ==> Left() < old(Left())) && Left() <= old(Left())
      ensures !ok ==> state == old(state)
    {
      ghost var w, p := wire, outp;
      ok := Sendfile(|job.file|);
      Taken(w, job.file, p, outp, "");
      if ok && outp == |job.file| {
        state := RequestCompleted;
      }
    }

    method SendRange() returns (ok: bool)
      requires Valid() && state == SendingBody && job.ranges != []
      modifies this`state, this`out, this`outp, this`nrange, this`writable, this`wire
      ensures Valid() && Whole() == old(Whole()) && (ok && writable ==> Left() < old(Left())) && Left() <= old(Left())
      ensures !ok ==> state == old(state)
    {
      ghost var w, p := wire, outp;
      var range := job.ranges[nrange];
      ok := Sendfile(range.to + 1);
      RangeTaken(job, out, w, p, outp, nrange);
      if ok && outp == range.to + 1 {
        FinishRange();
      }
    }

    // The slice of a range has been sent.
    method FinishRange()
      requires Valid() && state == SendingBody && job.ranges != [] && outp == job.ranges[nrange].to + 1
      modifies this`state, this`out, this`outp, this`nrange
      ensures Valid() && Whole() == old(Whole()) && Left() < old(Left())
    {
      RangeDone(job, out, nrange);
      if |job.ranges| == 1 {
        state := RequestCompleted;
      } else {
        MoveOn();
      }
    }

    // The next part header, or the footer after the last part.
    method MoveOn()
      requires job.Valid() && nrange < |job.ranges| && |job.ranges| > 1
      modifies this`state, this`out, this`outp, this`nrange
      ensures Valid() && Owed(job, state, out, outp, nrange) == Rest(job, old(nrange)) && nrange == old(nrange) + 1
      ensures state == if nrange == |job.ranges| then SendingMultipartFooter else SendingPartHeader
    {
      NextOwed(job, nrange);
      out := "";
      nrange := nrange + 1;
      outp := 0;
      if nrange == |job.ranges| {
        StartFooter();
      } else {
        StartPart();
      }
    }

    method StartFooter()
      requires job.Valid() && out == "" && outp == 0
      modifies this`state, this`out
      ensures state == SendingMultipartFooter && Valid() && out == Footer(job.boundary)
    {
      BuildFooter();
      state := SendingMultipartFooter;
    }

    method StartPart()
      requires job.Valid() && out == "" && outp == 0 && nrange < |job.ranges| && |job.ranges| > 1
      modifies this`state, this`out
      ensures state == SendingPartHeader && Valid()
      ensures out == PartHeader(job.boundary, job.mime, |job.file|, job.ranges[nrange])
    {
      BuildPartHeader();
      state := SendingPartHeader;
    }

    method BuildFooter()
      modifies this`out
      ensures out == old(out) + Footer(job.boundary) && (old(out) == "" ==> out == Footer(job.boundary))
    {
      out := out + Footer(job.boundary);
    }

    method BuildPartHeader()
      requires job.Valid() && nrange < |job.ranges|
      modifies this`out
      ensures out == old(out) + PartHeader(job.boundary, job.mime, |job.file|, job.ranges[nrange])
      ensures old(out) == "" ==> out == PartHeader(job.boundary, job.mime, |job.file|, job.ranges[nrange])
    {
      out := out + PartHeader(job.boundary, job.mime, |job.file|, job.ranges[nrange]);
    }

    method SendPartHeader() returns (ok: bool)
      requires Valid() && state == SendingPartHeader
      modifies this`state, this`outp, this`writable, this`wire
      ensures Valid() && Whole() == old(Whole()) && (ok && writable ==> Left() < old(Left())) && Left() <= old(Left())
      ensures !ok ==> state == old(state)
    {
      ghost var w, p := wire, outp;
      ok := Write();
      Taken(w, out, p, outp, Slice(job.file, job.ranges[nrange]) + Rest(job, nrange));
      if ok && outp == |out| {
        PartHeaderDone(job, out, nrange);
        outp := job.ranges[nrange].from;
        state := SendingBody;
      }
    }

    method SendMultipartFooter() returns (ok: bool)
      requires Valid() && state == SendingMultipartFooter
      modifies this`state, this`outp, this`writable, this`wire
      ensures Valid() && Whole() == old(Whole()) && (ok && writable ==> Left() < old(Left())) && Left() <= old(Left())
      ensures !ok ==> state == old(state)
    {
      ghost var w, p := wire, outp;
      ok := Write();
      Taken(w, out, p, outp, "");
      if ok && outp == |out| {
        state := RequestCompleted;
      }
    }

    // One turn of the loop in run.
    method Step() returns (ok: bool)
      requires Valid() && state != RequestCompleted
      modifies this`state, this`out, this`outp, this`nrange, this`writable, this`wire
      ensures Valid() && Whole() == old(Whole()) && (ok && writable ==> Left() < old(Left())) && Left() <= old(Left())
      ensures !ok ==> state == old(state)
    {
      match state {
        case SendingTwoBuffers => ok := SendTwoBuffers();
        case SendingHeaders => ok := SendHeaders();
        case SendingBody => ok := SendBody();
        case SendingPartHeader => ok := SendPartHeader();
        case SendingMultipartFooter => ok := SendMultipartFooter();
      }
    }

    // connection::run, from the time the response is prepared: it stops when the socket takes no more, when it
    // fails, or when all has been sent.
    method Run() returns (ok: bool)
      requires Valid()
      modifies this`state, this`out, this`outp, this`nrange, this`writable, this`wire
      ensures Valid() && Whole() == old(Whole())
      ensures if ok then state == RequestCompleted || !writable else state != RequestCompleted
    {
      while state != RequestCompleted
        invariant Valid() && Whole() == old(Whole())
        decreases Left(), writable
      {
        if !writable {
          return true;
        }
        ok := Step();
        if !ok {
          return;
        }
      }
      return true;
    }

    // What process_request settles before it writes the header block, which needs the length of the body.
    method Plan(head: bool, file: string, ranges: seq<Range>, mime: string, boundary: nat) returns (bodysize: nat)
      requires Satisfiable(ranges, |file|) && boundary < WORD
      modifies this`job
      ensures job == Job(head, "", file, ranges, mime, boundary)
      ensures bodysize == |Entity(file, ranges, mime, boundary)|
    {
      job := Job(head, "", file, ranges, mime, boundary);
      bodysize := ComputeContentLength();
    }

    // The end of process_request, with the header block already serialized.
    method PrepareFile(block: string)
      requires job.Valid()
      modifies this`state, this`out, this`outp, this`nrange
      ensures Valid() && state == SendingHeaders
      ensures Owed(job, state, out, outp, nrange) ==
                block + if job.head then "" else Entity(job.file, job.ranges, job.mime, job.boundary)
    {
      out, outp, nrange, state := block, 0, 0, SendingHeaders;
      if |job.ranges| > 1 && !job.head {
        BuildPartHeader();
      }
      Prepared(job, block);
    }

    method ComputeContentLength() returns (n: nat)
      requires job.Valid()
      ensures n == |Entity(job.file, job.ranges, job.mime, job.boundary)|
    {
      if |job.ranges| == 0 {
        return |job.file|;
      }
      if |job.ranges| == 1 {
        return job.ranges[0].to - job.ranges[0].from + 1;
      }
      n := 0;
      var len := Length(|job.file|);
      var i := 0;
      assert job.ranges[0..] == job.ranges;
      while i < |job.ranges|
        invariant i <= |job.ranges|
        invariant |Multipart(job.file, job.ranges, job.mime, job.boundary)| ==
                  n + |Multipart(job.file, job.ranges[i..], job.mime, job.boundary)|
      {
        var r := job.ranges[i];
        var from := Length(r.from);
        var to := Length(r.to);
        PartHeaderLength(job.boundary, job.mime, |job.file|, r);
        assert job.ranges[i..][0] == r && job.ranges[i..][1..] == job.ranges[i+1..];
        n := n + (2 + 2 + BOUNDARY_LEN + 2 + 14 + |job.mime| + 2 + 21 + from + 1 + to + 1 + len + 2 + 2);
        n := n + (r.to - r.from + 1);
        i := i + 1;
      }
      PartHeaderLength(job.boundary, job.mime, |job.file|, Range(0, 0));
      n := n + 2 + 2 + BOUNDARY_LEN + 2 + 2;
    }

    // error::build_page
    method PreparePage(head: bool, block: string, page: string)
      modifies this`job, this`state, this`out, this`outp, this`nrange
      ensures Valid() && Owed(job, state, out, outp, nrange) == block + if head then "" else page
      ensures state != RequestCompleted
    {
      job, out, outp, nrange := Job(head, page, "", [], "", 0), block, 0, 0;
      state := if head then SendingHeaders else SendingTwoBuffers;
      assert out[0..] == out && (out + page)[0..] == out + page;
    }

    /**
     However many times and in whatever pieces the socket takes the bytes, what it has taken is a beginning of the
     header block followed by the body, and all of it once the request is completed.
     */
    method Deliver(events: nat, ghost response: string) returns (ok: bool)
      requires Valid() && wire == "" && Owed(job, state, out, outp, nrange) == response
      modifies this`state, this`out, this`outp, this`nrange, this`writable, this`wire
      ensures wire <= response
      ensures state == RequestCompleted ==> wire == response
    {
      ok := true;
      var k := 0;
      while k < events && ok
        invariant Valid() && Whole() == response
      {
        writable := true;
        ok := Run();
        k := k + 1;
      }
    }

    // From the request to the last byte: the Content-Length promised up front is the length of the body that a GET
    // receives, in full once the request is completed.
    method Answer(head: bool, block: string, file: string, ranges: seq<Range>, mime: string, boundary: nat, events: nat)
      returns (ok: bool, bodysize: nat)
      requires Satisfiable(ranges, |file|) && boundary < WORD
      modifies this
      ensures bodysize == |Entity(file, ranges, mime, boundary)|
      ensures wire <= block + if head then "" else Entity(file, ranges, mime, boundary)
      ensures state == RequestCompleted && !head ==>
              wire == block + Entity(file, ranges, mime, boundary) && |wire| == |block| + bodysize
      ensures state == RequestCompleted && head ==> wire == block
    {
      wire := "";
      bodysize := Plan(head, file, ranges, mime, boundary);
      PrepareFile(block);
      ok := Deliver(events, block + if head then "" else Entity(file, ranges, mime, boundary));
    }
  }
}
