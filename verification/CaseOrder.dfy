/** Comparing strings without regard to case, as strncasecmp does. */
module CaseOrder {
  import Text

  function Lower(c: char): char {
    if 'A' <= c <= 'Z' then c + ('a' - 'A') else c
  }

  /** Each of the 26 capital letters becomes the small one, and nothing else changes. */
  lemma {:induction false} LowerListed(c: char)
    ensures forall k :: 0 <= k < 26 && Text.CAPITALS[k] == c ==> Lower(c) == Text.SMALL[k]
    ensures c !in Text.CAPITALS ==> Lower(c) == c
  {
    if 'A' <= c <= 'Z' {
      assert Text.CAPITALS[c as int - 'A' as int] == c;
    }
  }

  predicate SameName(a: string, b: string) {
    |a| == |b| && forall i :: 0 <= i < |a| ==> Lower(a[i]) == Lower(b[i])
  }

  function Fold(s: string): (t: string)
    ensures |t| == |s| && forall i :: 0 <= i < |s| ==> t[i] == Lower(s[i])
  {
    seq(|s|, i requires 0 <= i < |s| => Lower(s[i]))
  }

  lemma {:induction false} FoldSame(a: string, b: string)
    ensures SameName(a, b) <==> Fold(a) == Fold(b)
  {
    if SameName(a, b) {
      assert forall i :: 0 <= i < |a| ==> Fold(a)[i] == Fold(b)[i];
    }
    if Fold(a) == Fold(b) {
      assert forall i :: 0 <= i < |a| ==> Lower(a[i]) == Fold(a)[i] == Fold(b)[i] == Lower(b[i]);
    }
  }

  // strncasecmp(a, b, |a|)
  function Compare(a: string, b: string): int {
    if a == "" then 0
    else if b == "" then 1
    else if Lower(a[0]) != Lower(b[0]) then Lower(a[0]) as int - Lower(b[0]) as int
    else Compare(a[1..], b[1..])
  }

  // The order of the dictionary, in which a prefix comes first.
  ghost function Lex(a: string, b: string): int {
    var c := Compare(a, b);
    if c != 0 then c else |a| - |b|
  }

  lemma {:induction false} CompareZero(a: string, b: string)
    requires Compare(a, b) == 0
    ensures |a| <= |b| && forall i :: 0 <= i < |a| ==> Lower(a[i]) == Lower(b[i])
  {
    if a != "" {
      CompareZero(a[1..], b[1..]);
      assert forall i :: 0 < i < |a| ==> a[i] == a[1..][i - 1] && b[i] == b[1..][i - 1];
    }
  }

  lemma {:induction false} CompareSame(a: string, b: string)
    requires SameName(a, b)
    ensures Compare(a, b) == 0
  {
    if a != "" {
      CompareSame(a[1..], b[1..]);
    }
  }

  lemma {:induction false} LexZero(a: string, b: string)
    ensures Lex(a, b) == 0 <==> SameName(a, b)
  {
    if Lex(a, b) == 0 {
      CompareZero(a, b);
    }
    if SameName(a, b) {
      CompareSame(a, b);
    }
  }

  lemma {:induction false} LexTransitive(a: string, b: string, c: string)
    requires Lex(a, b) <= 0 && Lex(b, c) <= 0
    ensures Lex(a, c) <= 0 && (Lex(a, b) < 0 || Lex(b, c) < 0 ==> Lex(a, c) < 0)
  {
    if a != "" && b != "" && c != "" && Lower(a[0]) == Lower(b[0]) == Lower(c[0]) {
      LexTransitive(a[1..], b[1..], c[1..]);
    }
  }

  lemma {:induction false} LexFlip(a: string, b: string)
    ensures Lex(a, b) < 0 <==> Lex(b, a) > 0
  {
    if a != "" && b != "" && Lower(a[0]) == Lower(b[0]) {
      LexFlip(a[1..], b[1..]);
    }
  }

  // The needle stands somewhere in the haystack.
  predicate Contains(haystack: string, needle: string) {
    exists i :: 0 <= i <= |haystack| - |needle| && SameAt(haystack, needle, i)
  }

  predicate SameAt(haystack: string, needle: string, i: int)
    requires 0 <= i <= |haystack| - |needle|
  {
    SameName(haystack[i..i + |needle|], needle)
  }

  // string::memcasemem
  method FindNeedle(haystack: string, needle: string) returns (found: bool)
    ensures found <==> Contains(haystack, needle)
  {
    var i := 0;
    while i <= |haystack| - |needle|
      invariant 0 <= i && forall k :: 0 <= k < i && k <= |haystack| - |needle| ==> !SameAt(haystack, needle, k)
    {
      if SameAt(haystack, needle, i) {
        return true;
      }
      i := i + 1;
    }
    return false;
  }
}
