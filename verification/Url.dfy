/**
 The percent-encoder of net/internet/url.cpp, and how parse_path undoes it.
 */
module Url {
  import opened Path
  import opened Text

  predicate IsUnreserved(c: char) {
    'A' <= c <= 'Z' || 'a' <= c <= 'z' || '0' <= c <= '9' || c in "-._~"
  }

  // A lower-case hexadecimal digit.
  function Nibble(v: nat): char
    requires v < 16
  {
    if v < 10 then '0' + v as char else 'a' + (v - 10) as char
  }

  function EncodeChar(c: char): (s: string)
    requires c as int < 256
    ensures 1 <= |s| <= 3
  {
    if IsUnreserved(c) || c == '/' then [c] else ['%', Nibble(c as int / 16), Nibble(c as int % 16)]
  }

  function Encode(url: string): (s: string)
    requires Octets(url)
    ensures |url| <= |s| <= 3 * |url|
  {
    if url == "" then "" else EncodeChar(url[0]) + Encode(url[1..])
  }

  method PutEncoded(buf: array<char>, n: nat, c: char) returns (n': nat)
    requires c as int < 256 && n + 3 <= buf.Length
    modifies buf
    ensures n' == n + |EncodeChar(c)| && buf[..n'] == old(buf[..n]) + EncodeChar(c)
  {
    if IsUnreserved(c) || c == '/' {
      n' := Put(buf, n, c);
    } else {
      n' := Put(buf, n, '%');
      n' := Put(buf, n', Nibble(c as int / 16));
      n' := Put(buf, n', Nibble(c as int % 16));
    }
  }

  // url::encode.  Three bytes for each one are enough.
  method EncodeUrl(url: string) returns (r: string)
    requires Octets(url)
    ensures r == Encode(url)
  {
    var buf := new char[3 * |url|];
    var i: nat, n: nat := 0, 0;
    assert url[0..] == url;
    while i < |url|
      invariant i <= |url| && n <= 3 * i
      invariant Encode(url) == buf[..n] + Encode(url[i..])
    {
      ghost var before := buf[..n];
      n := PutEncoded(buf, n, url[i]);
      EncodeNext(before, url, i);
      i := i + 1;
    }
    return buf[..n];
  }

  lemma {:induction false} EncodeNext(before: string, url: string, i: nat)
    requires Octets(url) && i < |url|
    ensures before + Encode(url[i..]) == before + EncodeChar(url[i]) + Encode(url[i+1..])
  {
    assert url[i..][0] == url[i] && url[i..][1..] == url[i+1..];
  }

  lemma {:induction false} HexNibbles(v: nat, rest: string)
    requires v < 256
    ensures Hex([Nibble(v / 16), Nibble(v % 16)] + rest) == v
  {
    NibbleDigit(v / 16);
    NibbleDigit(v % 16);
  }

  lemma {:induction false} NibbleDigit(v: nat)
    requires v < 16
    ensures HexDigit(Nibble(v)) == v
  {
  }

  lemma {:induction false} DecodeChar(c: char, rest: string)
    requires c as int < 256
    ensures Decode(EncodeChar(c) + rest) == Joined([c], Decode(rest))
  {
    var e := EncodeChar(c) + rest;
    if IsUnreserved(c) || c == '/' {
      assert e[0] == c && e[1..] == rest;
    } else {
      var v := c as int;
      HexNibbles(v, rest);
      assert e[0] == '%' && e[1..] == [Nibble(v / 16), Nibble(v % 16)] + rest && e[3..] == rest;
    }
  }

  lemma {:induction false} DecodeEncode(s: string)
    requires Octets(s)
    ensures Decode(Encode(s)) == Decoded(s, true)
  {
    if s != "" {
      DecodeChar(s[0], Encode(s[1..]));
      DecodeEncode(s[1..]);
      assert s == [s[0]] + s[1..];
    }
  }

  lemma {:induction false} EnterKept(w: Walk, segment: string)
    requires w.Walk? && Kept(segment)
    ensures Enter(w, segment) == Walk(w.stack + [segment], true)
  {
  }

  lemma {:induction false} WalkKept(segments: seq<string>)
    requires forall i :: 0 <= i < |segments| ==> Kept(segments[i])
    ensures WalkAll(START, segments) == Walk(segments, segments != [])
  {
    if segments != [] {
      var n := |segments| - 1;
      var first := segments[..n];
      assert segments == first + [segments[n]] && forall i :: 0 <= i < n ==> first[i] == segments[i];
      WalkKept(first);
      EnterKept(Walk(first, first != []), segments[n]);
    }
  }

  // A normal form is left alone by the resolution.
  lemma {:induction false} NormalStays(q: string)
    requires Normal(q) && |q| >= 2
    ensures Finish(Walked(q[1..]), Current(q[1..])) == Ok(q)
  {
    var s := Split('/', q[1..]);
    var n := |s| - 1;
    WalkKept(s[..n]);
    RenderSplit(q[1..]);
    assert s == s[..n] + [s[n]] && q == "/" + q[1..];
    if s[n] == "" {
      assert Render(s[..n]) + "/" + "" == Render(s[..n]) + "/";
      assert n > 0;
    }
  }

  /**
   A path in normal form, so any that parse_path can produce, survives being encoded and parsed, unless it is the
   single slash, which parse_path takes for the empty path.
   */
  lemma {:induction false} EncodeUndone(q: string)
    requires Normal(q) && Octets(q)
    ensures PathOf(Encode(q)) == Ok(q) <==> q != "/"
  {
    if |q| >= 2 {
      var e := Encode(q);
      assert e == "/" + Encode(q[1..]) && e[1..] == Encode(q[1..]);
      DecodeEncode(q[1..]);
      NormalStays(q);
    } else if |q| == 1 {
      assert q == "/" && Encode(q) == "/" + Encode("");
    }
  }

  /** Parsing, encoding and parsing again changes nothing, with the same exception. */
  lemma {:induction false} ParseEncodeParse(p: string)
    requires Octets(p) && PathOf(p).Ok?
    ensures var q := PathOf(p).path; Octets(q) && (PathOf(Encode(q)) == Ok(q) <==> q != "/")
  {
    OutputNormal(p);
    EncodeUndone(PathOf(p).path);
  }

  // ---------------------------------------------------------------- what the encoding consists of

  // The unreserved characters of section 2.3 of RFC 3986, and the slash.
  predicate Alone(c: char) {
    Alphanumeric(c) || c in "-._~/"
  }

  // An escape stands for a character that cannot stand for itself.
  predicate Escape(s: string, v: nat) {
    |s| == 3 && v < 256 && !Alone(v as char) && s[0] == '%' && s[1] == SMALL_HEX[v / 16] && s[2] == SMALL_HEX[v % 16]
  }

  // Characters that stand for themselves, and escapes, which are necessary.
  ghost predicate Strict(e: string)
    decreases |e|
  {
    || e == ""
    || (Alone(e[0]) && Strict(e[1..]))
    || (|e| >= 3 && (exists v: nat :: Escape(e[..3], v)) && Strict(e[3..]))
  }

  /** The encoding has nothing but unreserved characters, slashes and escapes, and no escape without need. */
  lemma {:induction false} EncodeStrict(url: string)
    requires Octets(url)
    ensures Strict(Encode(url))
  {
    if url != "" {
      var c, rest := url[0], Encode(url[1..]);
      EncodeStrict(url[1..]);
      EncodeOne(c);
      var e := EncodeChar(c);
      assert (e + rest)[|e|..] == rest && (e + rest)[..|e|] == e;
    }
  }

  lemma {:induction false} EncodeOne(c: char)
    requires c as int < 256
    ensures if Alone(c) then EncodeChar(c) == [c] else Escape(EncodeChar(c), c as nat)
  {
    InRanges(c);
    NibbleListed(c as int / 16);
    NibbleListed(c as int % 16);
  }

  lemma {:induction false} NibbleListed(v: nat)
    requires v < 16
    ensures Nibble(v) == SMALL_HEX[v]
  {
  }
}
