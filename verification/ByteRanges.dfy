/**
 What a client reads from the body of a multipart/byteranges response (section 19.2 of RFC 2616): the parts between the
 boundaries, each with its type, its range and its bytes.
 */
module ByteRanges {
  import opened MachineWord
  import opened Number
  import opened Response

  // ---------------------------------------------------------------- parts

  // A part, with the three numbers of its range as they are written.
  datatype Part = Part(mime: string, first: string, last: string, size: string, data: string) {
    function Head(): string {
      "\r\nContent-Type: " + mime + "\r\nContent-Range: bytes " + first + "-" + last + "/" + size + "\r\n"
    }

    function Text(): string {
      Head() + ("\r\n" + data)
    }
  }

  predicate Numeral(s: string) {
    s != "" && AllDigits(s)
  }

  // The part tells of these bytes of the file, and holds them.
  ghost predicate Describes(p: Part, file: string, r: Range, mime: string) {
    && p.mime == mime && Numeral(p.first) && Numeral(p.last) && Numeral(p.size)
    && Value(p.first) == r.from <= Value(p.last) == r.to < Value(p.size) == |file|
    && p.data == file[Value(p.first)..Value(p.last) + 1]
  }

  ghost predicate DescribesAll(parts: seq<Part>, file: string, ranges: seq<Range>, mime: string) {
    |parts| == |ranges| && forall i :: 0 <= i < |parts| ==> Describes(parts[i], file, ranges[i], mime)
  }

  // The boundary of the header, as it stands before every part.
  function Delimiter(boundary: string): string {
    "\r\n--" + boundary
  }

  function Joined(d: string, parts: seq<Part>): string {
    if parts == [] then d + "--\r\n" else d + parts[0].Text() + Joined(d, parts[1..])
  }

  /** The body consists of parts that tell of the ranges, in their order. */
  lemma {:induction false} BodyParts(file: string, ranges: seq<Range>, mime: string, boundary: nat)
    returns (parts: seq<Part>)
    requires Satisfiable(ranges, |file|)
    ensures DescribesAll(parts, file, ranges, mime)
    ensures Multipart(file, ranges, mime, boundary) == Joined(Delimiter(Padded(boundary, BOUNDARY_LEN)), parts)
  {
    var d := Delimiter(Padded(boundary, BOUNDARY_LEN));
    if ranges == [] {
      parts := [];
      assert Footer(boundary) == d + "--\r\n";
    } else {
      var p := RangePart(file, ranges[0], mime, boundary);
      var rest := BodyParts(file, ranges[1..], mime, boundary);
      parts := [p] + rest;
      assert parts[1..] == rest;
    }
  }

  lemma {:induction false} RangePart(file: string, r: Range, mime: string, boundary: nat) returns (p: Part)
    requires r.from <= r.to < |file|
    ensures Describes(p, file, r, mime)
    ensures PartHeader(boundary, mime, |file|, r) + Slice(file, r) ==
              Delimiter(Padded(boundary, BOUNDARY_LEN)) + p.Text()
  {
    p := Part(mime, Decimal(r.from), Decimal(r.to), Decimal(|file|), Slice(file, r));
    ValueDecimal(r.from);
    ValueDecimal(r.to);
    ValueDecimal(|file|);
    var d := Delimiter(Padded(boundary, BOUNDARY_LEN));
    HeadLast(d, "\r\nContent-Type: ", mime, "\r\nContent-Range: bytes ", p.first, p.last, p.size, "\r\n", "\r\n");
    assert "\r\n" + "\r\n" == "\r\n\r\n";
    Regrouped(d, p.Head(), "\r\n", p.data);
  }

  lemma {:induction false} HeadLast(d: string, a: string, mime: string, b: string, first: string, last: string,
                                    size: string, c: string, e: string)
    ensures d + a + mime + b + first + "-" + last + "/" + size + (c + e) ==
              d + (a + mime + b + first + "-" + last + "/" + size + c) + e
  {
    var h := a + mime + b + first + "-" + last + "/" + size;
    HeadGroups(d, a + mime + b, first + "-", last + "/", size);
    HeadGroups(d, a, mime, b, first + "-" + last + "/" + size);
    assert h == a + mime + b + (first + "-" + last + "/" + size);
  }

  lemma {:induction false} HeadGroups(d: string, a: string, b: string, c: string, e: string)
    ensures d + a + b + c + e == d + (a + b + c + e) && a + b + c + e == a + (b + c + e)
  {
  }

  lemma {:induction false} Regrouped(a: string, b: string, c: string, d: string)
    ensures a + b + c + d == a + (b + (c + d))
  {
  }

  // ---------------------------------------------------------------- splitting at the boundary

  predicate At(s: string, d: string, i: nat) {
    i + |d| <= |s| && s[i..i + |d|] == d
  }

  predicate Occurs(d: string, s: string) {
    exists i :: 0 <= i <= |s| && At(s, d, i)
  }

  // What stands between the delimiters, from left to right.
  function SplitAt(d: string, s: string): (pieces: seq<string>)
    requires d != ""
    ensures pieces != []
    decreases |s|
  {
    if |s| < |d| then [s]
    else if At(s, d, 0) then [""] + SplitAt(d, s[|d|..])
    else
      var r := SplitAt(d, s[1..]);
      [[s[0]] + r[0]] + r[1..]
  }

  // The first character of the delimiter occurs only there.
  predicate Clear(d: string) {
    d != "" && forall i :: 0 < i < |d| ==> d[i] != d[0]
  }

  lemma {:induction false} SplitNext(d: string, text: string, rest: string)
    requires Clear(d) && !Occurs(d, text)
    ensures SplitAt(d, text + d + rest) == [text] + SplitAt(d, rest)
    decreases |text|
  {
    var s := text + d + rest;
    if text == "" {
      assert s[0..|d|] == d && s[|d|..] == rest;
    } else {
      NotAtFront(d, text, rest);
      forall i | 0 <= i <= |text[1..]|
        ensures !At(text[1..], d, i)
      {
        assert At(text[1..], d, i) ==> At(text, d, i + 1);
      }
      SplitNext(d, text[1..], rest);
      assert s[1..] == text[1..] + d + rest && [s[0]] + text[1..] == text;
      assert ([text[1..]] + SplitAt(d, rest))[1..] == SplitAt(d, rest);
    }
  }

  lemma {:induction false} NotAtFront(d: string, text: string, rest: string)
    requires Clear(d) && !Occurs(d, text) && text != ""
    ensures !At(text + d + rest, d, 0)
  {
    var s, n := text + d + rest, |text|;
    if |d| <= n {
      assert s[0..|d|] == text[0..|d|] && !At(text, d, 0);
    } else {
      assert s[0..|d|][n] == s[n] == d[0] != d[n];
    }
  }

  // No piece holds the delimiter, and the first one is a beginning.
  lemma {:induction false} PiecesFree(d: string, s: string)
    requires d != ""
    ensures var r := SplitAt(d, s); r[0] <= s && forall k :: 0 <= k < |r| ==> !Occurs(d, r[k])
    decreases |s|
  {
    if |s| >= |d| {
      if At(s, d, 0) {
        PiecesFree(d, s[|d|..]);
      } else {
        PiecesFree(d, s[1..]);
        var r := SplitAt(d, s[1..]);
        OneMoreFree(d, s, r[0]);
      }
    }
  }

  lemma {:induction false} OneMoreFree(d: string, s: string, piece: string)
    requires d != "" && s != "" && !At(s, d, 0) && piece <= s[1..] && !Occurs(d, piece)
    ensures [s[0]] + piece <= s && !Occurs(d, [s[0]] + piece)
  {
    var p := [s[0]] + piece;
    forall i | 0 <= i <= |p|
      ensures !At(p, d, i)
    {
      if i + |d| <= |p| {
        if i == 0 {
          assert p[0..|d|] == s[0..|d|];
        } else {
          assert p[i..i + |d|] == piece[i - 1..i - 1 + |d|] && !At(piece, d, i - 1);
        }
      }
    }
  }

  function Texts(parts: seq<Part>): (texts: seq<string>)
    ensures |texts| == |parts| && forall i :: 0 <= i < |parts| ==> texts[i] == parts[i].Text()
  {
    seq(|parts|, i requires 0 <= i < |parts| => parts[i].Text())
  }

  lemma {:induction false} PartsSplit(d: string, before: string, parts: seq<Part>)
    requires Clear(d) && |d| > 4 && !Occurs(d, before)
    requires forall i :: 0 <= i < |parts| ==> !Occurs(d, parts[i].Text())
    ensures SplitAt(d, before + Joined(d, parts)) == [before] + Texts(parts) + ["--\r\n"]
    decreases |parts|
  {
    if parts == [] {
      SplitNext(d, before, "--\r\n");
      assert before + (d + "--\r\n") == before + d + "--\r\n";
    } else {
      var t, rest := parts[0].Text(), Joined(d, parts[1..]);
      SplitNext(d, before, t + rest);
      Spliced(before, d, t, rest);
      PartsSplit(d, t, parts[1..]);
      TextsFirst(parts);
      Rejoined(before, t, Texts(parts[1..]), "--\r\n");
    }
  }

  lemma {:induction false} TextsFirst(parts: seq<Part>)
    requires parts != []
    ensures Texts(parts) == [parts[0].Text()] + Texts(parts[1..])
  {
  }

  lemma {:induction false} Spliced(before: string, d: string, t: string, rest: string)
    ensures before + (d + t + rest) == before + d + (t + rest)
  {
  }

  lemma {:induction false} Rejoined(before: string, t: string, later: seq<string>, end: string)
    ensures [before] + ([t] + later + [end]) == [before] + ([t] + later) + [end]
  {
  }

  /** A client that splits the body at the boundary finds the parts if and only if the boundary is in none of them. */
  lemma {:induction false} SplitExact(d: string, parts: seq<Part>)
    requires Clear(d) && |d| > 4
    ensures SplitAt(d, Joined(d, parts)) == [""] + Texts(parts) + ["--\r\n"]
            <==> forall i :: 0 <= i < |parts| ==> !Occurs(d, parts[i].Text())
  {
    if forall i :: 0 <= i < |parts| ==> !Occurs(d, parts[i].Text()) {
      PartsSplit(d, "", parts);
      assert "" + Joined(d, parts) == Joined(d, parts);
    }
    if SplitAt(d, Joined(d, parts)) == [""] + Texts(parts) + ["--\r\n"] {
      SplitFree(d, Joined(d, parts), parts);
    }
  }

  lemma {:induction false} SplitFree(d: string, s: string, parts: seq<Part>)
    requires d != "" && SplitAt(d, s) == [""] + Texts(parts) + ["--\r\n"]
    ensures forall i :: 0 <= i < |parts| ==> !Occurs(d, parts[i].Text())
  {
    var all := [""] + Texts(parts) + ["--\r\n"];
    PiecesFree(d, s);
    forall i | 0 <= i < |parts|
      ensures !Occurs(d, parts[i].Text())
    {
      assert all[i + 1] == parts[i].Text();
    }
  }

  // ---------------------------------------------------------------- reading a part

  // What a part may be told from: its type has no line end, and its numbers are digits.
  ghost predicate Readable(p: Part) {
    '\r' !in p.mime && Numeral(p.first) && Numeral(p.last) && Numeral(p.size)
  }

  // The text of a part, from one mark to the next.
  lemma {:induction false} TextSteps(p: Part)
    ensures p.Text() == "\r\nContent-Type: " + (p.mime + ("\r\nContent-Range: bytes " + Numbers(p)))
  {
    StepsOf("\r\nContent-Type: ", p.mime, "\r\nContent-Range: bytes ", p.first, p.last, p.size, "\r\n",
            "\r\n" + p.data);
  }

  function Numbers(p: Part): string {
    p.first + ("-" + (p.last + ("/" + (p.size + ("\r\n" + ("\r\n" + p.data))))))
  }

  lemma {:induction false} StepsOf(a: string, mime: string, b: string, first: string, last: string, size: string,
                                   c: string, e: string)
    ensures a + mime + b + first + "-" + last + "/" + size + c + e ==
              a + (mime + (b + (first + ("-" + (last + ("/" + (size + (c + e))))))))
  {
    var x := a + mime + b;
    Three(x + first + "-" + last, "/", size, c + e);
    Three(x + first, "-", last, "/" + (size + (c + e)));
    Three(a, mime, b, first + ("-" + (last + ("/" + (size + (c + e))))));
    assert x + first + "-" + last + "/" + size + c + e == x + first + "-" + last + "/" + size + (c + e);
  }

  lemma {:induction false} Three(x: string, a: string, b: string, r: string)
    ensures x + a + b + r == x + (a + (b + r))
  {
  }

  lemma {:induction false} SameAfter(a: string, r: string, s: string)
    requires a + r == a + s
    ensures r == s
  {
    assert (a + r)[|a|..] == r && (a + s)[|a|..] == s;
  }

  // What comes before a mark is told by the mark.
  lemma {:induction false} SameBefore(a: string, r: string, b: string, s: string, stop: char)
    requires stop !in a && stop !in b && r != "" && s != "" && r[0] == s[0] == stop && a + r == b + s
    ensures a == b && r == s
  {
    assert (a + r)[|a|] == stop && (b + s)[|b|] == stop;
    assert forall k :: 0 <= k < |a| ==> (a + r)[k] == a[k];
    assert forall k :: 0 <= k < |b| ==> (b + s)[k] == b[k];
    assert (a + r)[..|a|] == a && (b + s)[..|b|] == b;
    SameAfter(a, r, s);
  }

  lemma {:induction false} NoDigit(s: string, c: char)
    requires AllDigits(s) && !IsDigit(c)
    ensures c !in s
  {
  }

  /** A text is that of one part at most. */
  lemma {:induction false} PartUnique(p: Part, q: Part)
    requires Readable(p) && Readable(q) && p.Text() == q.Text()
    ensures p == q
  {
    var b := "\r\nContent-Range: bytes ";
    TextSteps(p);
    TextSteps(q);
    SameAfter("\r\nContent-Type: ", p.mime + (b + Numbers(p)), q.mime + (b + Numbers(q)));
    SameBefore(p.mime, b + Numbers(p), q.mime, b + Numbers(q), '\r');
    SameAfter(b, Numbers(p), Numbers(q));
    NumbersUnique(p, q);
  }

  lemma {:induction false} NumbersUnique(p: Part, q: Part)
    requires Readable(p) && Readable(q) && Numbers(p) == Numbers(q)
    ensures p.first == q.first && p.last == q.last && p.size == q.size && p.data == q.data
  {
    var pd, qd := "\r\n" + p.data, "\r\n" + q.data;
    var ps, qs := p.size + ("\r\n" + pd), q.size + ("\r\n" + qd);
    NumberFirst(p.first, "-" + (p.last + ("/" + ps)), q.first, "-" + (q.last + ("/" + qs)), '-');
    SameAfter("-", p.last + ("/" + ps), q.last + ("/" + qs));
    NumberFirst(p.last, "/" + ps, q.last, "/" + qs, '/');
    SameAfter("/", ps, qs);
    NumberFirst(p.size, "\r\n" + pd, q.size, "\r\n" + qd, '\r');
    SameAfter("\r\n", pd, qd);
    SameAfter("\r\n", p.data, q.data);
  }

  lemma {:induction false} NumberFirst(a: string, r: string, b: string, s: string, stop: char)
    requires AllDigits(a) && AllDigits(b) && !IsDigit(stop)
    requires r != "" && s != "" && r[0] == s[0] == stop && a + r == b + s
    ensures a == b && r == s
  {
    NoDigit(a, stop);
    NoDigit(b, stop);
    SameBefore(a, r, b, s, stop);
  }

  // ---------------------------------------------------------------- where the boundary may be

  // Carriage returns stand at the beginning of the lines of the head, which begin with a C, and at its end.
  lemma {:induction false} MarkAt(s: string, a: string, mime: string, b: string, numbers: string, c: string,
                                  tail: string,
                                  i: nat)
    requires s == a + mime + b + numbers + c + tail && i < |s| - |tail| && s[i] == '\r'
    requires |a| > 2 && |b| > 2 && |c| == 2 && tail != ""
    requires '\r' !in mime && '\r' !in numbers && '\r' !in a[1..] && '\r' !in b[1..] && '\r' !in c[1..]
    ensures s[i + 2] == a[2] || s[i + 2] == b[2] || s[i + 2] == tail[0]
  {
    var m, n, k := |a| + |mime|, |a| + |mime| + |b|, |a| + |mime| + |b| + |numbers|;
    assert s[2] == a[2] && s[m + 2] == b[2] && s[k + 2] == tail[0];
    assert forall j :: 0 < j < |a| ==> s[j] == a[1..][j - 1];
    assert forall j :: |a| <= j < m ==> s[j] == mime[j - |a|];
    assert forall j :: m < j < n ==> s[j] == b[1..][j - m - 1];
    assert forall j :: n <= j < k ==> s[j] == numbers[j - n];
    assert s[k + 1] == c[1..][0];
  }

  // The delimiter is in the whole text if and only if it is in the tail, where it cannot begin before the tail.
  lemma {:induction false} OccursInTail(d: string, head: string, tail: string)
    requires forall i :: 0 <= i <= |head + tail| && At(head + tail, d, i) ==> i >= |head|
    ensures Occurs(d, head + tail) <==> Occurs(d, tail)
  {
    var t, n := head + tail, |head|;
    if Occurs(d, t) {
      var i :| 0 <= i <= |t| && At(t, d, i);
      assert t[i..i + |d|] == tail[i - n..i - n + |d|];
      assert At(tail, d, i - n);
    }
    if Occurs(d, tail) {
      var i :| 0 <= i <= |tail| && At(tail, d, i);
      assert t[n + i..n + i + |d|] == tail[i..i + |d|];
      assert At(t, d, n + i);
    }
  }

  lemma {:induction false} AtMarks(s: string, d: string, i: nat)
    requires At(s, d, i) && |d| > 2 && d[0] == '\r' && d[2] == '-'
    ensures i + 2 < |s| && s[i] == '\r' && s[i + 2] == '-'
  {
    assert s[i..i + |d|][0] == s[i] && s[i..i + |d|][2] == s[i + 2];
  }

  /** The boundary can only be in the data, or at its beginning. */
  lemma {:induction false} BoundaryInData(d: string, p: Part)
    requires Readable(p) && |d| > 2 && d[0] == '\r' && d[2] == '-'
    ensures Occurs(d, p.Text()) <==> Occurs(d, "\r\n" + p.data)
  {
    var t, head, tail := p.Text(), p.Head(), "\r\n" + p.data;
    assert t == head + tail;
    forall i | 0 <= i <= |t| && At(t, d, i)
      ensures i >= |head|
    {
      AtMarks(t, d, i);
      HeadMark(p, i);
    }
    OccursInTail(d, head, tail);
  }

  lemma {:induction false} HeadMark(p: Part, i: nat)
    requires Readable(p) && i + 2 < |p.Text()| && p.Text()[i] == '\r' && p.Text()[i + 2] == '-'
    ensures i >= |p.Head()|
  {
    var a, b := "\r\nContent-Type: ", "\r\nContent-Range: bytes ";
    MarksPlain(a, b, "\r\n");
    HeadMarkOf(p.Text(), p.Head(), a, p.mime, b, p.first, p.last, p.size, "\r\n", "\r\n" + p.data, i);
  }

  lemma {:induction false} MarksPlain(a: string, b: string, c: string)
    requires a == "\r\nContent-Type: " && b == "\r\nContent-Range: bytes " && c == "\r\n"
    ensures |a| > 2 && |b| > 2 && a[2] != '-' && b[2] != '-'
    ensures '\r' !in a[1..] && '\r' !in b[1..] && '\r' !in c[1..]
  {
  }

  lemma {:induction false} HeadMarkOf(s: string, head: string, a: string, mime: string, b: string, first: string,
                                      last: string, size: string, c: string, tail: string, i: nat)
    requires head == a + mime + b + first + "-" + last + "/" + size + c && s == head + tail
    requires AllDigits(first) && AllDigits(last) && AllDigits(size) && i + 2 < |s| && s[i] == '\r' && s[i + 2] == '-'
    requires |a| > 2 && |b| > 2 && |c| == 2 && tail != "" && a[2] != '-' && b[2] != '-' && tail[0] != '-'
    requires '\r' !in mime && '\r' !in a[1..] && '\r' !in b[1..] && '\r' !in c[1..]
    ensures i >= |head|
  {
    NumbersPlain(first, last, size);
    HeadNumbers(a, mime, b, first, last, size, c);
    HeadMarkIn(s, a, mime, b, first + "-" + last + "/" + size, c, tail, i);
  }

  lemma {:induction false} HeadMarkIn(s: string, a: string, mime: string, b: string, numbers: string, c: string,
                                      tail: string, i: nat)
    requires s == a + mime + b + numbers + c + tail && i + 2 < |s| && s[i] == '\r' && s[i + 2] == '-'
    requires |a| > 2 && |b| > 2 && |c| == 2 && tail != "" && a[2] != '-' && b[2] != '-' && tail[0] != '-'
    requires '\r' !in mime && '\r' !in numbers && '\r' !in a[1..] && '\r' !in b[1..] && '\r' !in c[1..]
    ensures i >= |a + mime + b + numbers + c|
  {
    if i < |s| - |tail| {
      MarkAt(s, a, mime, b, numbers, c, tail, i);
    }
  }

  lemma {:induction false} NumbersPlain(first: string, last: string, size: string)
    requires AllDigits(first) && AllDigits(last) && AllDigits(size)
    ensures '\r' !in first + "-" + last + "/" + size
  {
    NoDigit(first, '\r');
    NoDigit(last, '\r');
    NoDigit(size, '\r');
  }

  lemma {:induction false} HeadNumbers(a: string, mime: string, b: string, first: string, last: string, size: string,
                                       c: string)
    ensures a + mime + b + first + "-" + last + "/" + size + c ==
              a + mime + b + (first + "-" + last + "/" + size) + c
  {
    var x := a + mime + b;
    HeadGroups(x, first, "-", last, "/" + size);
    assert first + "-" + last + ("/" + size) == first + "-" + last + "/" + size;
    assert x + first + "-" + last + "/" + size == x + first + "-" + last + ("/" + size);
  }

  // ---------------------------------------------------------------- the whole body

  /**
   The body of an answer with several ranges consists of parts that tell of the ranges, in their order.  A client that
   splits it at the boundary that the header names finds just these parts, if and only if no range has the boundary in
   its bytes, after a line end or at the very beginning.
   */
  lemma {:induction false} BodyRead(file: string, ranges: seq<Range>, mime: string, boundary: nat)
    returns (parts: seq<Part>)
    requires |ranges| > 1 && Satisfiable(ranges, |file|) && boundary < WORD && '\r' !in mime
    ensures DescribesAll(parts, file, ranges, mime) && forall i :: 0 <= i < |parts| ==> Readable(parts[i])
    ensures var d := Delimiter(Padded(boundary, BOUNDARY_LEN));
            var body := Entity(file, ranges, mime, boundary);
            body == Joined(d, parts) &&
            (SplitAt(d, body) == [""] + Texts(parts) + ["--\r\n"]
             <==> forall i :: 0 <= i < |ranges| ==> !Occurs(d, "\r\n" + Slice(file, ranges[i])))
  {
    parts := BodyParts(file, ranges, mime, boundary);
    DelimiterClear(boundary);
    PartsFound(Delimiter(Padded(boundary, BOUNDARY_LEN)), parts, file, ranges, mime);
  }

  /** A file that begins with the boundary, of which its first bytes and its last one are asked for. */
  lemma {:induction false} BoundaryClash(file: string, mime: string, boundary: nat) returns (parts: seq<Part>)
    requires boundary < WORD && '\r' !in mime && file == Delimiter(Padded(boundary, BOUNDARY_LEN)) + "ab"
    ensures var d, n := Delimiter(Padded(boundary, BOUNDARY_LEN)), |file|;
            var ranges := [Range(0, n - 2), Range(n - 1, n - 1)];
            DescribesAll(parts, file, ranges, mime) &&
            SplitAt(d, Entity(file, ranges, mime, boundary)) != [""] + Texts(parts) + ["--\r\n"]
  {
    var n := |file|;
    var ranges := [Range(0, n - 2), Range(n - 1, n - 1)];
    TwoSatisfiable(n);
    parts := BodyRead(file, ranges, mime, boundary);
    BeginsWith(Delimiter(Padded(boundary, BOUNDARY_LEN)), file, ranges[0]);
  }

  lemma {:induction false} TwoSatisfiable(n: nat)
    requires n > 1
    ensures Satisfiable([Range(0, n - 2), Range(n - 1, n - 1)], n)
  {
  }

  lemma {:induction false} BeginsWith(d: string, file: string, r: Range)
    requires file == d + "ab" && r == Range(0, |file| - 2)
    ensures Occurs(d, "\r\n" + Slice(file, r))
  {
    var s := "\r\n" + Slice(file, r);
    assert s[2..2 + |d|] == d;
    assert At(s, d, 2);
  }

  lemma {:induction false} PartsFound(d: string, parts: seq<Part>, file: string, ranges: seq<Range>, mime: string)
    requires Clear(d) && |d| > 4 && d[0] == '\r' && d[2] == '-' && '\r' !in mime
    requires Satisfiable(ranges, |file|) && DescribesAll(parts, file, ranges, mime)
    ensures forall i :: 0 <= i < |parts| ==> Readable(parts[i])
    ensures SplitAt(d, Joined(d, parts)) == [""] + Texts(parts) + ["--\r\n"]
            <==> forall i :: 0 <= i < |ranges| ==> !Occurs(d, "\r\n" + Slice(file, ranges[i]))
  {
    SplitExact(d, parts);
    forall i | 0 <= i < |ranges|
      ensures Readable(parts[i]) && (Occurs(d, parts[i].Text()) <==> Occurs(d, "\r\n" + Slice(file, ranges[i])))
    {
      PartFree(d, parts[i], file, ranges[i], mime);
    }
  }

  lemma {:induction false} PartFree(d: string, p: Part, file: string, r: Range, mime: string)
    requires |d| > 4 && d[0] == '\r' && d[2] == '-' && '\r' !in mime
    requires r.from <= r.to < |file| && Describes(p, file, r, mime)
    ensures Readable(p) && (Occurs(d, p.Text()) <==> Occurs(d, "\r\n" + Slice(file, r)))
  {
    BoundaryInData(d, p);
  }

  lemma {:induction false} DelimiterClear(boundary: nat)
    ensures var d := Delimiter(Padded(boundary, BOUNDARY_LEN)); Clear(d) && |d| > 4 && d[0] == '\r' && d[2] == '-'
  {
    var n := Padded(boundary, BOUNDARY_LEN);
    PaddedNumeral(boundary, BOUNDARY_LEN);
    NoDigit(n, '\r');
    var d := "\r\n--" + n;
    assert forall i :: 4 <= i < |d| ==> d[i] == n[i - 4];
  }

  lemma {:induction false} PaddedNumeral(n: nat, width: nat)
    ensures Numeral(Padded(n, width)) && Value(Padded(n, width)) == n
  {
    ValueDecimal(n);
    if |Decimal(n)| < width {
      ZerosBefore(width - |Decimal(n)|, Decimal(n));
    }
  }

  lemma {:induction false} ZerosBefore(k: nat, s: string)
    requires AllDigits(s)
    ensures AllDigits(Zeros(k) + s) && Value(Zeros(k) + s) == Value(s)
    decreases k
  {
    if k > 0 {
      ZerosBefore(k - 1, s);
      ZeroBefore(Zeros(k - 1) + s);
      assert Zeros(k) + s == "0" + (Zeros(k - 1) + s);
    } else {
      assert Zeros(0) + s == s;
    }
  }

  lemma {:induction false} ZeroBefore(s: string)
    requires AllDigits(s)
    ensures AllDigits("0" + s) && Value("0" + s) == Value(s)
  {
    if s != "" {
      var n := |s| - 1;
      ZeroBefore(s[..n]);
      assert ("0" + s)[..n + 1] == "0" + s[..n];
    }
  }
}
