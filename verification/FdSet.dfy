/**
 net/fdset.cpp: a sparse set of descriptors.  `entries[fd]` says where fd stands in `index`, and
 `index[..used]` lists the members.
 */
module FdSet {
  import opened Sequences

  // The sequence without its i-th element, whose place the last one takes.
  function SwapRemove<T>(s: seq<T>, i: nat): (r: seq<T>)
    requires i < |s|
    ensures |r| == |s| - 1
  {
    var n := |s| - 1;
    if i < n then s[i := s[n]][..n] else s[..n]
  }

  // A duplicate-free list of numbers below n that misses one of them is shorter than n.
  lemma {:induction false} Room(s: seq<nat>, n: nat, x: nat)
    requires NoDup(s) && x < n && x !in s && forall i :: 0 <= i < |s| ==> s[i] < n
    ensures |s| < n
    decreases n
  {
    if n - 1 in s {
      var k :| 0 <= k < |s| && s[k] == n - 1;
      var s' := SwapRemove(s, k);
      assert forall i :: 0 <= i < |s'| ==> s'[i] == if i == k then s[|s| - 1] else s[i];
      assert x != n - 1 && x !in s';
      Room(s', n - 1, x);
    } else if x < n - 1 {
      forall i | 0 <= i < |s| ensures s[i] < n - 1 { assert s[i] in s; }
      Room(s, n - 1, x);
    } else if |s| > 0 {
      forall i | 0 <= i < |s| ensures s[i] < n - 1 { assert s[i] in s; }
      var s' := s[..|s| - 1];
      forall i | 0 <= i < |s'| ensures s'[i] != s[|s| - 1] { assert s'[i] == s[i]; }
      Room(s', n - 1, s[|s| - 1]);
    }
  }

  class FdSet {
    const entries: array<int>   // the index field of the entry of each descriptor, -1 for none
    const index: array<nat>
    var used: nat

    ghost predicate Valid()
      reads this, entries, index
    {
      && entries.Length == index.Length && used <= index.Length
      && (forall i :: 0 <= i < used ==> index[i] < entries.Length && entries[index[i]] == i)
      && (forall fd :: 0 <= fd < entries.Length && entries[fd] != -1 ==>
            0 <= entries[fd] < used && index[entries[fd]] == fd)
    }

    // The members, in the order of the index array.
    ghost function Members(): seq<nat>
      reads this, index
    {
      if used <= index.Length then index[..used] else []
    }

    constructor (size: nat)
      ensures Valid() && Members() == [] && fresh(entries) && fresh(index) && entries.Length == size
    {
      entries := new int[size](_ => -1);
      index := new nat[size];
      used := 0;
    }

    lemma {:induction false} Membership(fd: nat)
      requires Valid() && fd < entries.Length
      ensures fd in Members() <==> entries[fd] != -1
    {
      if entries[fd] != -1 {
        assert Members()[entries[fd]] == fd;
      }
    }

    lemma {:induction false} MembersDistinct()
      requires Valid()
      ensures NoDup(Members())
    {
    }

    // Never overruns the index array: there is room as long as fd is not a member.
    method Add(fd: nat) returns (ok: bool)
      requires Valid() && fd < entries.Length
      modifies this, entries, index
      ensures Valid() && ok == (fd !in old(Members()))
      ensures Members() == if ok then old(Members()) + [fd] else old(Members())
    {
      Membership(fd);
      if entries[fd] != -1 {
        return false;
      }
      MembersDistinct();
      Room(Members(), entries.Length, fd);
      entries[fd] := used;
      index[used] := fd;
      used := used + 1;
      return true;
    }

    method Remove(fd: nat) returns (ok: bool, ghost i: nat)
      requires Valid() && fd < entries.Length
      modifies this, entries, index
      ensures Valid() && ok == (fd in old(Members()))
      ensures ok ==>
                i == old(entries[fd]) < |old(Members())| && old(Members())[i] == fd &&
                Members() == SwapRemove(old(Members()), i)
      ensures !ok ==> Members() == old(Members())
    {
      Membership(fd);
      i := 0;
      var at := entries[fd];
      if at == -1 {
        return false, i;
      }
      i := at;
      entries[fd] := -1;
      used := used - 1;
      if at < used {
        index[at] := index[used];
        entries[index[at]] := at;
      }
      return true, i;
    }
  }
}
