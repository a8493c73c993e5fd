/**
 The table of standard headers in net/internet/http/headers.cpp, in parts of four.
 */
module StandardHeaders {
  import opened CaseOrder
  import opened HeaderNames

  const PART1: seq<Standard> := [
    Standard("Accept", Request, true, false),
    Standard("Accept-Charset", Request, true, false),
    Standard("Accept-Encoding", Request, true, false),
    Standard("Accept-Language", Request, true, false)
  ]

  const PART2: seq<Standard> := [
    Standard("Accept-Ranges", Response, true, false),
    Standard("Age", Response, false, true),
    Standard("Allow", Entity, true, false),
    Standard("Authorization", Request, false, false)
  ]

  const PART3: seq<Standard> := [
    Standard("Cache-Control", General, true, false),
    Standard("Connection", General, true, false),
    Standard("Content-Encoding", Entity, true, false),
    Standard("Content-Language", Entity, true, false)
  ]

  const PART4: seq<Standard> := [
    Standard("Content-Length", Entity, false, true),
    Standard("Content-Location", Entity, false, true),
    Standard("Content-MD5", Entity, false, true),
    Standard("Content-Range", Entity, false, false)
  ]

  const PART5: seq<Standard> := [
    Standard("Content-Type", Entity, false, false),
    Standard("Cookie", Request, true, false),
    Standard("Date", General, false, false),
    Standard("ETag", Response, false, true)
  ]

  const PART6: seq<Standard> := [
    Standard("Expect", Request, true, false),
    Standard("Expires", Entity, false, false),
    Standard("From", Request, false, true),
    Standard("Host", Request, false, true)
  ]

  const PART7: seq<Standard> := [
    Standard("If-Match", Request, true, false),
    Standard("If-Modified-Since", Request, false, false),
    Standard("If-None-Match", Request, true, false),
    Standard("If-Range", Request, false, false)
  ]

  const PART8: seq<Standard> := [
    Standard("If-Unmodified-Since", Request, false, false),
    Standard("Keep-Alive", General, true, false),
    Standard("Last-Modified", Entity, false, false),
    Standard("Location", Response, false, true)
  ]

  const PART9: seq<Standard> := [
    Standard("Max-Forwards", Request, false, true),
    Standard("Pragma", General, true, false),
    Standard("Proxy-Authenticate", Response, true, false),
    Standard("Proxy-Authorization", Request, false, false)
  ]

  const PART10: seq<Standard> := [
    Standard("Proxy-Connection", General, true, false),
    Standard("Range", Request, false, false),
    Standard("Referer", Request, false, true),
    Standard("Retry-After", Response, false, false)
  ]

  const PART11: seq<Standard> := [
    Standard("Server", Response, true, false),
    Standard("Set-Cookie", Response, true, false),
    Standard("Status", Response, false, false),
    Standard("TE", Request, true, false)
  ]

  const PART12: seq<Standard> := [
    Standard("Trailer", General, true, false),
    Standard("Transfer-Encoding", General, true, false),
    Standard("Upgrade", General, true, false),
    Standard("User-Agent", Request, true, false)
  ]

  const PART13: seq<Standard> := [
    Standard("Vary", Response, true, false),
    Standard("Via", General, true, false),
    Standard("Warning", General, true, false),
    Standard("WWW-Authenticate", Response, true, false)
  ]

  const FIRST := PART1 + PART2 + PART3 + PART4 + PART5
  const SECOND := PART6 + PART7 + PART8 + PART9
  const THIRD := PART10 + PART11 + PART12 + PART13
  const TABLE: Table := FIRST + SECOND + THIRD

  // Every name comes before the next one.
  ghost predicate Rising(table: seq<Standard>) {
    && (forall i :: 0 < i < |table| ==> Lex(table[i - 1].name, table[i].name) < 0)
    && (forall i :: 0 <= i < |table| ==> Token(table[i].name))
  }

  // The names are alike up to k; there they differ, or the first one ends.
  lemma {:induction false} Differ(a: string, b: string, k: nat)
    requires k <= |a| && k < |b| && (k < |a| ==> Lower(a[k]) < Lower(b[k]))
    requires forall i :: 0 <= i < k ==> Lower(a[i]) == Lower(b[i])
    ensures Lex(a, b) < 0
  {
    if k > 0 {
      Differ(a[1..], b[1..], k - 1);
    }
  }

  // t continues s.
  ghost predicate Continues(s: seq<Standard>, t: seq<Standard>) {
    Rising(t) && s != [] && t != [] && Lex(s[|s| - 1].name, t[0].name) < 0
  }

  lemma {:induction false} Names1(a: string, b: string, c: string, d: string)
    requires a == "Accept" && b == "Accept-Charset" && c == "Accept-Encoding" && d == "Accept-Language"
    ensures Token(a) && Token(b) && Token(c) && Token(d)
  {
  }

  // The same, with only the last part of t to look at.
  lemma {:induction false} JoinLast(s: seq<Standard>, t: seq<Standard>, last: seq<Standard>, u: seq<Standard>)
    requires Continues(s, t) && Continues(last, u) && |last| <= |t| && t[|t| - |last|..] == last
    ensures Continues(s, t + u)
  {
    assert t[|t| - 1] == last[|last| - 1];
  }

  lemma {:induction false} JoinThirds(s: seq<Standard>, t: seq<Standard>, u: seq<Standard>, v: seq<Standard>,
                                      last: seq<Standard>, last': seq<Standard>)
    requires Continues(s, t) && Continues(last, u) && Continues(last', v)
    requires |last| <= |t| && t[|t| - |last|..] == last && |last'| <= |u| && u[|u| - |last'|..] == last'
    ensures Rising(t + u + v)
  {
    JoinLast(s, t, last, u);
    assert (t + u)[|t + u| - |last'|..] == last';
    JoinLast(s, t + u, last', v);
  }

  // Four names after p.
  ghost predicate Row(p: string, a: string, b: string, c: string, d: string) {
    && Lex(p, a) < 0 && Lex(a, b) < 0 && Lex(b, c) < 0 && Lex(c, d) < 0
    && Token(a) && Token(b) && Token(c) && Token(d)
  }

  lemma {:induction false} RowContinues(s: seq<Standard>, t: seq<Standard>)
    requires s != [] && |t| == 4 && Row(s[|s| - 1].name, t[0].name, t[1].name, t[2].name, t[3].name)
    ensures Continues(s, t)
  {
  }

  lemma {:induction false} Part1(p: string, a: string, b: string, c: string, d: string)
    requires p == "" && a == "Accept" && b == "Accept-Charset" && c == "Accept-Encoding" && d == "Accept-Language"
    ensures Row(p, a, b, c, d)
  {
    Names1(a, b, c, d);
    Differ(p, a, 0);
    Differ(a, b, 6);
    Differ(b, c, 7);
    Differ(c, d, 7);
  }

  lemma {:induction false} Names2(a: string, b: string, c: string, d: string)
    requires a == "Accept-Ranges" && b == "Age" && c == "Allow" && d == "Authorization"
    ensures Token(a) && Token(b) && Token(c) && Token(d)
  {
  }

  lemma {:induction false} Part2(p: string, a: string, b: string, c: string, d: string)
    requires p == "Accept-Language" && a == "Accept-Ranges" && b == "Age" && c == "Allow" && d == "Authorization"
    ensures Row(p, a, b, c, d)
  {
    Names2(a, b, c, d);
    Differ(p, a, 7);
    Differ(a, b, 1);
    Differ(b, c, 1);
    Differ(c, d, 1);
  }

  lemma {:induction false} Names3(a: string, b: string, c: string, d: string)
    requires a == "Cache-Control" && b == "Connection" && c == "Content-Encoding" && d == "Content-Language"
    ensures Token(a) && Token(b) && Token(c) && Token(d)
  {
  }

  lemma {:induction false} Part3(p: string, a: string, b: string, c: string, d: string)
    requires p == "Authorization" && a == "Cache-Control" && b == "Connection" && c == "Content-Encoding" &&
             d == "Content-Language"
    ensures Row(p, a, b, c, d)
  {
    Names3(a, b, c, d);
    Differ(p, a, 0);
    Differ(a, b, 1);
    Differ(b, c, 3);
    Differ(c, d, 8);
  }

  lemma {:induction false} Names4(a: string, b: string, c: string, d: string)
    requires a == "Content-Length" && b == "Content-Location" && c == "Content-MD5" && d == "Content-Range"
    ensures Token(a) && Token(b) && Token(c) && Token(d)
  {
  }

  lemma {:induction false} Part4(p: string, a: string, b: string, c: string, d: string)
    requires p == "Content-Language" && a == "Content-Length" && b == "Content-Location" && c == "Content-MD5" &&
             d == "Content-Range"
    ensures Row(p, a, b, c, d)
  {
    Names4(a, b, c, d);
    Differ(p, a, 9);
    Differ(a, b, 9);
    Differ(b, c, 8);
    Differ(c, d, 8);
  }

  lemma {:induction false} Names5(a: string, b: string, c: string, d: string)
    requires a == "Content-Type" && b == "Cookie" && c == "Date" && d == "ETag"
    ensures Token(a) && Token(b) && Token(c) && Token(d)
  {
  }

  lemma {:induction false} Part5(p: string, a: string, b: string, c: string, d: string)
    requires p == "Content-Range" && a == "Content-Type" && b == "Cookie" && c == "Date" && d == "ETag"
    ensures Row(p, a, b, c, d)
  {
    Names5(a, b, c, d);
    Differ(p, a, 8);
    Differ(a, b, 2);
    Differ(b, c, 0);
    Differ(c, d, 0);
  }

  lemma {:induction false} Names6(a: string, b: string, c: string, d: string)
    requires a == "Expect" && b == "Expires" && c == "From" && d == "Host"
    ensures Token(a) && Token(b) && Token(c) && Token(d)
  {
  }

  lemma {:induction false} Part6(p: string, a: string, b: string, c: string, d: string)
    requires p == "ETag" && a == "Expect" && b == "Expires" && c == "From" && d == "Host"
    ensures Row(p, a, b, c, d)
  {
    Names6(a, b, c, d);
    Differ(p, a, 1);
    Differ(a, b, 3);
    Differ(b, c, 0);
    Differ(c, d, 0);
  }

  lemma {:induction false} Names7(a: string, b: string, c: string, d: string)
    requires a == "If-Match" && b == "If-Modified-Since" && c == "If-None-Match" && d == "If-Range"
    ensures Token(a) && Token(b) && Token(c) && Token(d)
  {
  }

  lemma {:induction false} Part7(p: string, a: string, b: string, c: string, d: string)
    requires p == "Host" && a == "If-Match" && b == "If-Modified-Since" && c == "If-None-Match" && d == "If-Range"
    ensures Row(p, a, b, c, d)
  {
    Names7(a, b, c, d);
    Differ(p, a, 0);
    Differ(a, b, 4);
    Differ(b, c, 3);
    Differ(c, d, 3);
  }

  lemma {:induction false} Names8(a: string, b: string, c: string, d: string)
    requires a == "If-Unmodified-Since" && b == "Keep-Alive" && c == "Last-Modified" && d == "Location"
    ensures Token(a) && Token(b) && Token(c) && Token(d)
  {
  }

  lemma {:induction false} Part8(p: string, a: string, b: string, c: string, d: string)
    requires p == "If-Range" && a == "If-Unmodified-Since" && b == "Keep-Alive" && c == "Last-Modified" &&
             d == "Location"
    ensures Row(p, a, b, c, d)
  {
    Names8(a, b, c, d);
    Differ(p, a, 3);
    Differ(a, b, 0);
    Differ(b, c, 0);
    Differ(c, d, 1);
  }

  lemma {:induction false} Names9(a: string, b: string, c: string, d: string)
    requires a == "Max-Forwards" && b == "Pragma" && c == "Proxy-Authenticate" && d == "Proxy-Authorization"
    ensures Token(a) && Token(b) && Token(c) && Token(d)
  {
  }

  lemma {:induction false} Part9(p: string, a: string, b: string, c: string, d: string)
    requires p == "Location" && a == "Max-Forwards" && b == "Pragma" && c == "Proxy-Authenticate" &&
             d == "Proxy-Authorization"
    ensures Row(p, a, b, c, d)
  {
    Names9(a, b, c, d);
    Differ(p, a, 0);
    Differ(a, b, 0);
    Differ(b, c, 2);
    Differ(c, d, 10);
  }

  lemma {:induction false} Names10(a: string, b: string, c: string, d: string)
    requires a == "Proxy-Connection" && b == "Range" && c == "Referer" && d == "Retry-After"
    ensures Token(a) && Token(b) && Token(c) && Token(d)
  {
  }

  lemma {:induction false} Part10(p: string, a: string, b: string, c: string, d: string)
    requires p == "Proxy-Authorization" && a == "Proxy-Connection" && b == "Range" && c == "Referer" &&
             d == "Retry-After"
    ensures Row(p, a, b, c, d)
  {
    Names10(a, b, c, d);
    Differ(p, a, 6);
    Differ(a, b, 0);
    Differ(b, c, 1);
    Differ(c, d, 2);
  }

  lemma {:induction false} Names11(a: string, b: string, c: string, d: string)
    requires a == "Server" && b == "Set-Cookie" && c == "Status" && d == "TE"
    ensures Token(a) && Token(b) && Token(c) && Token(d)
  {
  }

  lemma {:induction false} Part11(p: string, a: string, b: string, c: string, d: string)
    requires p == "Retry-After" && a == "Server" && b == "Set-Cookie" && c == "Status" && d == "TE"
    ensures Row(p, a, b, c, d)
  {
    Names11(a, b, c, d);
    Differ(p, a, 0);
    Differ(a, b, 2);
    Differ(b, c, 1);
    Differ(c, d, 0);
  }

  lemma {:induction false} Names12(a: string, b: string, c: string, d: string)
    requires a == "Trailer" && b == "Transfer-Encoding" && c == "Upgrade" && d == "User-Agent"
    ensures Token(a) && Token(b) && Token(c) && Token(d)
  {
  }

  lemma {:induction false} Part12(p: string, a: string, b: string, c: string, d: string)
    requires p == "TE" && a == "Trailer" && b == "Transfer-Encoding" && c == "Upgrade" && d == "User-Agent"
    ensures Row(p, a, b, c, d)
  {
    Names12(a, b, c, d);
    Differ(p, a, 1);
    Differ(a, b, 3);
    Differ(b, c, 0);
    Differ(c, d, 1);
  }

  lemma {:induction false} Names13(a: string, b: string, c: string, d: string)
    requires a == "Vary" && b == "Via" && c == "Warning" && d == "WWW-Authenticate"
    ensures Token(a) && Token(b) && Token(c) && Token(d)
  {
  }

  lemma {:induction false} Part13(p: string, a: string, b: string, c: string, d: string)
    requires p == "User-Agent" && a == "Vary" && b == "Via" && c == "Warning" && d == "WWW-Authenticate"
    ensures Row(p, a, b, c, d)
  {
    Names13(a, b, c, d);
    Differ(p, a, 0);
    Differ(a, b, 1);
    Differ(b, c, 0);
    Differ(c, d, 1);
  }

  lemma {:induction false} FirstRising()
    ensures Continues([Standard("", General, false, false)], FIRST)
  {
    Part1("", PART1[0].name, PART1[1].name, PART1[2].name, PART1[3].name);
    RowContinues([Standard("", General, false, false)], PART1);
    Part2(PART1[3].name, PART2[0].name, PART2[1].name, PART2[2].name, PART2[3].name);
    RowContinues(PART1, PART2);
    Part3(PART2[3].name, PART3[0].name, PART3[1].name, PART3[2].name, PART3[3].name);
    RowContinues(PART2, PART3);
    Part4(PART3[3].name, PART4[0].name, PART4[1].name, PART4[2].name, PART4[3].name);
    RowContinues(PART3, PART4);
    Part5(PART4[3].name, PART5[0].name, PART5[1].name, PART5[2].name, PART5[3].name);
    RowContinues(PART4, PART5);
    JoinLast([Standard("", General, false, false)], PART1, PART1, PART2);
    JoinLast([Standard("", General, false, false)], PART1 + PART2, PART2, PART3);
    JoinLast([Standard("", General, false, false)], PART1 + PART2 + PART3, PART3, PART4);
    JoinLast([Standard("", General, false, false)], PART1 + PART2 + PART3 + PART4, PART4, PART5);
  }

  lemma {:induction false} SecondRising()
    ensures Continues(PART5, SECOND)
  {
    Part6(PART5[3].name, PART6[0].name, PART6[1].name, PART6[2].name, PART6[3].name);
    RowContinues(PART5, PART6);
    Part7(PART6[3].name, PART7[0].name, PART7[1].name, PART7[2].name, PART7[3].name);
    RowContinues(PART6, PART7);
    Part8(PART7[3].name, PART8[0].name, PART8[1].name, PART8[2].name, PART8[3].name);
    RowContinues(PART7, PART8);
    Part9(PART8[3].name, PART9[0].name, PART9[1].name, PART9[2].name, PART9[3].name);
    RowContinues(PART8, PART9);
    JoinLast(PART5, PART6, PART6, PART7);
    JoinLast(PART5, PART6 + PART7, PART7, PART8);
    JoinLast(PART5, PART6 + PART7 + PART8, PART8, PART9);
  }

  lemma {:induction false} ThirdRising()
    ensures Continues(PART9, THIRD)
  {
    Part10(PART9[3].name, PART10[0].name, PART10[1].name, PART10[2].name, PART10[3].name);
    RowContinues(PART9, PART10);
    Part11(PART10[3].name, PART11[0].name, PART11[1].name, PART11[2].name, PART11[3].name);
    RowContinues(PART10, PART11);
    Part12(PART11[3].name, PART12[0].name, PART12[1].name, PART12[2].name, PART12[3].name);
    RowContinues(PART11, PART12);
    Part13(PART12[3].name, PART13[0].name, PART13[1].name, PART13[2].name, PART13[3].name);
    RowContinues(PART12, PART13);
    JoinLast(PART9, PART10, PART10, PART11);
    JoinLast(PART9, PART10 + PART11, PART11, PART12);
    JoinLast(PART9, PART10 + PART11 + PART12, PART12, PART13);
  }

  /** The binary search may be used: the table is sorted, and its names are tokens. */
  lemma {:induction false} TableProper()
    ensures |TABLE| == 52 && Proper(TABLE)
  {
    FirstRising();
    SecondRising();
    ThirdRising();
    JoinThirds([Standard("", General, false, false)], FIRST, SECOND, THIRD, PART5, PART9);
    SortedNeighbours(TABLE);
  }

  // ---------------------------------------------------------------- kinds

  // Section 4.5 of RFC 2616, and two names that are not in it.
  const GENERAL: seq<string> := [
    "Cache-Control", "Connection", "Date", "Pragma", "Trailer", "Transfer-Encoding", "Upgrade", "Via", "Warning",
    "Keep-Alive", "Proxy-Connection"
  ]

  // Section 5.3, and one name that is not in it.
  const REQUEST: seq<string> := [
    "Accept", "Accept-Charset", "Accept-Encoding", "Accept-Language", "Authorization", "Expect", "From", "Host",
    "If-Match", "If-Modified-Since", "If-None-Match", "If-Range", "If-Unmodified-Since", "Max-Forwards",
    "Proxy-Authorization", "Range", "Referer", "TE", "User-Agent", "Cookie"
  ]

  // Section 6.2, and two names that are not in it.
  const RESPONSE: seq<string> := [
    "Accept-Ranges", "Age", "ETag", "Location", "Proxy-Authenticate", "Retry-After", "Server", "Vary",
    "WWW-Authenticate", "Set-Cookie", "Status"
  ]

  // Section 7.1.
  const ENTITY: seq<string> := [
    "Allow", "Content-Encoding", "Content-Language", "Content-Length", "Content-Location", "Content-MD5",
    "Content-Range", "Content-Type", "Expires", "Last-Modified"
  ]

  predicate Among(s: Standard) {
    match s.kind
    case General => s.name in GENERAL
    case Request => s.name in REQUEST
    case Response => s.name in RESPONSE
    case Entity => s.name in ENTITY
  }

  predicate AllAmong(s: seq<Standard>) {
    forall i :: 0 <= i < |s| ==> Among(s[i])
  }

  lemma {:induction false} BothAmong(s: seq<Standard>, t: seq<Standard>)
    requires AllAmong(s) && AllAmong(t)
    ensures AllAmong(s + t)
  {
  }

  lemma {:induction false} Among1()
    ensures AllAmong(PART1) && AllAmong(PART2)
  {
  }

  lemma {:induction false} Among2()
    ensures AllAmong(PART3) && AllAmong(PART4)
  {
  }

  lemma {:induction false} Among3()
    ensures AllAmong(PART5) && AllAmong(PART6)
  {
  }

  lemma {:induction false} Among4()
    ensures AllAmong(PART7) && AllAmong(PART8)
  {
  }

  lemma {:induction false} Among5()
    ensures AllAmong(PART9) && AllAmong(PART10)
  {
  }

  lemma {:induction false} Among6()
    ensures AllAmong(PART11) && AllAmong(PART12) && AllAmong(PART13)
  {
  }

  lemma {:induction false} FirstAmong()
    ensures AllAmong(FIRST)
  {
    Among1();
    Among2();
    Among3();
    BothAmong(PART1, PART2);
    BothAmong(PART1 + PART2, PART3);
    BothAmong(PART1 + PART2 + PART3, PART4);
    BothAmong(PART1 + PART2 + PART3 + PART4, PART5);
  }

  lemma {:induction false} SecondAmong()
    ensures AllAmong(SECOND)
  {
    Among3();
    Among4();
    Among5();
    BothAmong(PART6, PART7);
    BothAmong(PART6 + PART7, PART8);
    BothAmong(PART6 + PART7 + PART8, PART9);
  }

  lemma {:induction false} ThirdAmong()
    ensures AllAmong(THIRD)
  {
    Among5();
    Among6();
    BothAmong(PART10, PART11);
    BothAmong(PART10 + PART11, PART12);
    BothAmong(PART10 + PART11 + PART12, PART13);
  }

  /** Every name of the table has the kind that the standard gives it; the four lists have 52 names together. */
  lemma {:induction false} KindsListed()
    ensures AllAmong(TABLE) && |TABLE| == |GENERAL| + |REQUEST| + |RESPONSE| + |ENTITY|
  {
    FirstAmong();
    SecondAmong();
    ThirdAmong();
    BothAmong(FIRST, SECOND);
    BothAmong(FIRST + SECOND, THIRD);
  }

  // search_standard_header
  method Search(name: string) returns (id: nat)
    ensures id == Lookup(TABLE, name)
  {
    TableProper();
    id := SearchStandard(TABLE, name);
  }
}
