/** Strings: writing them into a buffer, and the parts between separators. */
module Text {

  predicate IsBlank(c: char) {
    c == ' ' || c == '\t'
  }

  predicate Blanks(s: string) {
    forall k :: 0 <= k < |s| ==> IsBlank(s[k])
  }

  // *dest++ = c
  method Put(dest: array<char>, n: nat, c: char) returns (n': nat)
    requires n < dest.Length
    modifies dest
    ensures n' == n + 1 && dest[..n'] == old(dest[..n]) + [c]
  {
    dest[n] := c;
    n' := n + 1;
  }

  // The parts of s between the separators; there is always one at least.
  function Split(sep: char, s: string): (parts: seq<string>)
    ensures |parts| > 0
  {
    if s == "" then [""]
    else
      var r := Split(sep, s[..|s| - 1]);
      var n := |r| - 1;
      if s[|s| - 1] == sep then r + [""] else r[..n] + [r[n] + [s[|s| - 1]]]
  }

  lemma {:induction false} SliceNext(s: string, i: nat, j: nat)
    requires i <= j < |s|
    ensures s[i..j] + [s[j]] == s[i..j + 1] && s[i..j + 1] + s[j + 1..] == s[i..]
  {
  }

  lemma {:induction false} SplitNext(sep: char, text: string, c: char)
    ensures var r := Split(sep, text); var n := |r| - 1; var r' := Split(sep, text + [c]);
            if c == sep then r'[..|r'| - 1] == r && r'[|r'| - 1] == ""
            else r'[..|r'| - 1] == r[..n] && r'[|r'| - 1] == r[n] + [c]
  {
    assert (text + [c])[..|text|] == text;
    var r := Split(sep, text);
    if c == sep {
      assert (r + [""])[..|r|] == r;
    } else {
      assert Split(sep, text + [c])[..|r| - 1] == r[..|r| - 1];
    }
  }

  lemma {:induction false} SplitMore(sep: char, text: string, part: string)
    requires sep !in part
    ensures var r := Split(sep, text); Split(sep, text + part) == r[..|r| - 1] + [r[|r| - 1] + part]
  {
    var r := Split(sep, text);
    if part == "" {
      assert text + part == text && r == r[..|r| - 1] + [r[|r| - 1]];
      assert r[|r| - 1] + part == r[|r| - 1];
    } else {
      var n := |part| - 1;
      SplitMore(sep, text, part[..n]);
      assert (text + part)[..|text| + n] == text + part[..n];
      assert r[|r| - 1] + part[..n] + [part[n]] == r[|r| - 1] + part;
    }
  }

  function Unsplit(sep: char, parts: seq<string>): string {
    if parts == [] then ""
    else if |parts| == 1 then parts[0]
    else Unsplit(sep, parts[..|parts| - 1]) + [sep] + parts[|parts| - 1]
  }

  lemma {:induction false} UnsplitSplit(sep: char, s: string)
    ensures Unsplit(sep, Split(sep, s)) == s
  {
    if s != "" {
      var n := |s| - 1;
      var r := Split(sep, s[..n]);
      var m := |r| - 1;
      UnsplitSplit(sep, s[..n]);
      assert s == s[..n] + [s[n]];
      if s[n] == sep {
        assert (r + [""])[..m + 1] == r;
        assert s[..n] + [sep] + "" == s[..n] + [sep];
      } else {
        assert Split(sep, s)[..m] == r[..m];
        assert m > 0 ==> Unsplit(sep, r[..m]) + [sep] + (r[m] + [s[n]]) == Unsplit(sep, r[..m]) + [sep] + r[m] + [s[n]];
      }
    }
  }

  lemma {:induction false} SplitUnsplit(sep: char, parts: seq<string>)
    requires parts != [] && forall i :: 0 <= i < |parts| ==> sep !in parts[i]
    ensures Split(sep, Unsplit(sep, parts)) == parts
  {
    var n := |parts| - 1;
    if n == 0 {
      SplitMore(sep, "", parts[0]);
      assert "" + parts[0] == parts[0];
    } else {
      SplitUnsplit(sep, parts[..n]);
      OnePart(sep, Unsplit(sep, parts[..n]), parts[n]);
      assert parts == parts[..n] + [parts[n]];
    }
  }

  lemma {:induction false} OnePart(sep: char, text: string, part: string)
    requires sep !in part
    ensures Split(sep, text + [sep] + part) == Split(sep, text) + [part]
  {
    SplitNext(sep, text, sep);
    SplitMore(sep, text + [sep], part);
    assert "" + part == part;
  }

  // ---------------------------------------------------------------- one after the other

  function Concat(bufs: seq<string>): string {
    if bufs == [] then "" else bufs[0] + Concat(bufs[1..])
  }

  lemma {:induction false} ConcatAppend(bufs: seq<string>, b: string)
    ensures Concat(bufs + [b]) == Concat(bufs) + b
  {
    if bufs == [] {
      assert bufs + [b] == [b];
    } else {
      assert (bufs + [b])[1..] == bufs[1..] + [b];
      ConcatAppend(bufs[1..], b);
    }
  }

  // ---------------------------------------------------------------- letters and digits, one by one

  const CAPITALS := "ABCDEFGHIJKLMNOPQRSTUVWXYZ"
  const SMALL := "abcdefghijklmnopqrstuvwxyz"
  const DIGITS := "0123456789"

  predicate Alphanumeric(c: char) {
    c in CAPITALS || c in SMALL || c in DIGITS
  }

  lemma {:induction false} InAlphabet(c: char, first: char, alphabet: string)
    requires alphabet != "" && forall i :: 0 <= i < |alphabet| ==> alphabet[i] as int == first as int + i
    ensures c in alphabet <==> first <= c <= alphabet[|alphabet| - 1]
  {
    if first <= c <= alphabet[|alphabet| - 1] {
      assert alphabet[c as int - first as int] == c;
    }
  }

  // The ranges hold just the characters that are listed.
  lemma {:induction false} InRanges(c: char)
    ensures Alphanumeric(c) <==> 'A' <= c <= 'Z' || 'a' <= c <= 'z' || '0' <= c <= '9'
  {
    InAlphabet(c, 'A', CAPITALS);
    InAlphabet(c, 'a', SMALL);
    InAlphabet(c, '0', DIGITS);
  }
}
