/** Sequences with one element put in or taken out. */
module Sequences {

  ghost predicate NoDup<P>(s: seq<P>) {
    forall i, j :: 0 <= i < j < |s| ==> s[i] != s[j]
  }

  ghost function Range<P>(s: seq<P>): set<P> {
    set n | n in s
  }

  // What insert does to the sequence of handles.
  ghost predicate Inserted<P>(s: seq<P>, s': seq<P>, z: P, i: nat) {
    i <= |s| && s' == s[..i] + [z] + s[i..]
  }

  // s' is s without its i-th element, z.
  ghost predicate Removed<P>(s: seq<P>, s': seq<P>, z: P, i: nat) {
    i < |s| && s[i] == z && s' == s[..i] + s[i+1..]
  }

  lemma {:induction false} NoDupAround<P>(l: seq<P>, x: P, r: seq<P>)
    requires NoDup(l) && NoDup(r) && x !in l && x !in r && forall n :: n in l ==> n !in r
    ensures NoDup(l + [x] + r)
  {
    var s := l + [x] + r;
    forall i, j | 0 <= i < j < |s|
      ensures s[i] != s[j]
    {
      if i < |l| { assert s[i] in l; }
      if j > |l| { assert s[j] == r[j - |l| - 1] && s[j] in r; }
      if i > |l| { assert s[i] == r[i - |l| - 1]; }
    }
  }

  lemma {:induction false} RangePop<P>(s: seq<P>)
    requires NoDup(s) && |s| > 0
    ensures var last := s[|s| - 1]; var rest := s[..|s| - 1];
            NoDup(rest) && last in s && last !in rest && Range(s) == Range(rest) + {last} &&
            forall n :: n in rest ==> n in s
  {
    assert s == s[..|s| - 1] + [s[|s| - 1]];
  }

  lemma {:induction false} Cut<P>(p: seq<P>, z: P, q: seq<P>)
    ensures Removed(p + [z] + q, p + q, z, |p|)
  {
    var s := p + [z] + q;
    assert s[..|p|] == p && s[|p| + 1..] == q;
  }

  // What comes right after x in s.
  ghost function Following<P>(s: seq<P>, x: P, nil: P): P
    requires x in s
  {
    var i :| 0 <= i < |s| && s[i] == x;
    if i + 1 < |s| then s[i + 1] else nil
  }
}
