/**
 The key lists of util/configuration.cpp: names differ when case is disregarded, and an ordered list is sorted.
 */
module KeyLists {
  import opened CaseOrder
  import opened Wrappers

  // A key that may have children but has none is a section without children.
  datatype Key = Value(name: string, value: string) | Section(name: string, children: seq<Key>)

  ghost predicate Arranged(ordered: bool, keys: seq<Key>) {
    forall i, j :: 0 <= i < j < |keys| ==>
      if ordered then Lex(keys[i].name, keys[j].name) < 0 else !SameName(keys[i].name, keys[j].name)
  }

  // The key with that name, or the number of keys, found by looking at all of them.
  function FindName(keys: seq<Key>, name: string): (i: nat)
    ensures i <= |keys| && (i < |keys| ==> SameName(name, keys[i].name))
    ensures i == |keys| ==> forall k :: 0 <= k < |keys| ==> !SameName(name, keys[k].name)
  {
    if keys == [] then 0
    else
      var n := |keys| - 1;
      var i := FindName(keys[..n], name);
      assert forall k :: 0 <= k < n ==> keys[..n][k] == keys[k];
      if i < n then i else if SameName(name, keys[n].name) then n else n + 1
  }

  // Where a new name goes: after the keys that come before it in the order, or to the end.
  ghost function PlaceOf(ordered: bool, keys: seq<Key>, name: string): (pos: nat)
    ensures pos <= |keys|
    ensures ordered ==> forall k :: pos <= k < |keys| ==> Lex(name, keys[k].name) < 0
    ensures ordered && pos > 0 ==> Lex(name, keys[pos - 1].name) >= 0
  {
    if !ordered || keys == [] then |keys|
    else
      var n := |keys| - 1;
      if Lex(name, keys[n].name) < 0 then PlaceOf(ordered, keys[..n], name) else n + 1
  }

  lemma {:induction false} OneName(ordered: bool, keys: seq<Key>, name: string, i: nat)
    requires Arranged(ordered, keys) && i < |keys| && SameName(name, keys[i].name)
    ensures FindName(keys, name) == i
  {
    var j := FindName(keys, name);
    SameAgain(name, keys[i].name, keys[j].name);
    LexZero(keys[i].name, keys[j].name);
    LexZero(keys[j].name, keys[i].name);
  }

  lemma {:induction false} SameAgain(name: string, a: string, b: string)
    requires SameName(name, a) && SameName(name, b)
    ensures SameName(a, b) && SameName(b, a)
  {
  }

  // Names before i come before `name`, and those from j on come after it.
  lemma {:induction false} Pivot(keys: seq<Key>, name: string, pivot: nat)
    requires Arranged(true, keys) && pivot < |keys|
    ensures Lex(name, keys[pivot].name) < 0 ==> forall k :: pivot <= k < |keys| ==> Lex(name, keys[k].name) < 0
    ensures Lex(name, keys[pivot].name) > 0 ==> forall k :: 0 <= k <= pivot ==> Lex(name, keys[k].name) > 0
  {
    var p := keys[pivot].name;
    LexFlip(name, p);
    LexFlip(p, name);
    forall k | pivot < k < |keys| && Lex(name, p) < 0
      ensures Lex(name, keys[k].name) < 0
    {
      LexTransitive(name, p, keys[k].name);
    }
    forall k | 0 <= k < pivot && Lex(name, p) > 0
      ensures Lex(name, keys[k].name) > 0
    {
      LexTransitive(keys[k].name, p, name);
      LexFlip(keys[k].name, name);
    }
  }

  lemma {:induction false} Absent(keys: seq<Key>, name: string, pos: nat)
    requires pos <= |keys| && (forall k :: 0 <= k < pos ==> Lex(name, keys[k].name) > 0)
    requires forall k :: pos <= k < |keys| ==> Lex(name, keys[k].name) < 0
    ensures FindName(keys, name) == |keys| && PlaceOf(true, keys, name) == pos
  {
    forall k | 0 <= k < |keys|
      ensures !SameName(name, keys[k].name)
    {
      LexZero(name, keys[k].name);
    }
    var p := PlaceOf(true, keys, name);
    assert p > 0 ==> Lex(name, keys[p - 1].name) >= 0;
    assert pos > 0 ==> Lex(name, keys[pos - 1].name) > 0;
  }

  /** configuration::search, binary in an ordered list and linear in any other. */
  method Search(ordered: bool, keys: seq<Key>, key: string) returns (found: bool, pos: nat)
    requires Arranged(ordered, keys)
    ensures found == (FindName(keys, key) < |keys|)
    ensures pos == if found then FindName(keys, key) else PlaceOf(ordered, keys, key)
  {
    if ordered {
      var i, j := 0, |keys| - 1;
      while i <= j
        invariant 0 <= i <= |keys| && i - 1 <= j < |keys|
        invariant forall k :: 0 <= k < i ==> Lex(key, keys[k].name) > 0
        invariant forall k :: j < k < |keys| ==> Lex(key, keys[k].name) < 0
      {
        var pivot := (i + j) / 2;
        var name := keys[pivot].name;
        var n := if |key| < |name| then |key| else |name|;
        var ret := Compare(key[..n], name);
        Pivot(keys, key, pivot);
        CompareShort(key, name, n);
        if ret < 0 {
          j := pivot - 1;
        } else if ret == 0 {
          if |key| < |name| {
            j := pivot - 1;
          } else if |key| == |name| {
            LexZero(key, name);
            OneName(ordered, keys, key, pivot);
            return true, pivot;
          } else {
            i := pivot + 1;
          }
        } else {
          i := pivot + 1;
        }
      }
      Absent(keys, key, i);
      return false, i;
    } else {
      var i := 0;
      while i < |keys|
        invariant 0 <= i <= |keys| && forall k :: 0 <= k < i ==> !SameName(key, keys[k].name)
      {
        if SameName(key, keys[i].name) {
          OneName(ordered, keys, key, i);
          return true, i;
        }
        i := i + 1;
      }
      return false, i;
    }
  }

  // Comparing as many characters as both have.
  lemma {:induction false} CompareShort(a: string, b: string, n: nat)
    requires n == if |a| < |b| then |a| else |b|
    ensures var c := Compare(a[..n], b);
            if c != 0 then Lex(a, b) == c else (Lex(a, b) < 0 <==> |a| < |b|) && (Lex(a, b) > 0 <==> |a| > |b|)
  {
    if a != "" && b != "" {
      if Lower(a[0]) == Lower(b[0]) {
        CompareShort(a[1..], b[1..], n - 1);
        assert a[..n][1..] == a[1..][..n - 1];
      }
    }
  }

  // ---------------------------------------------------------------- adding

  ghost function Added(ordered: bool, keys: seq<Key>, k: Key): (t: seq<Key>)
    ensures var pos := PlaceOf(ordered, keys, k.name);
            |t| == |keys| + 1 &&
            forall i :: 0 <= i < |t| ==> t[i] == if i < pos then keys[i] else if i == pos then k else keys[i - 1]
  {
    PutAt(keys, PlaceOf(ordered, keys, k.name), k)
  }

  function PutAt(keys: seq<Key>, pos: nat, k: Key): (t: seq<Key>)
    requires pos <= |keys|
    ensures |t| == |keys| + 1
    ensures forall i :: 0 <= i < |t| ==> t[i] == if i < pos then keys[i] else if i == pos then k else keys[i - 1]
  {
    keys[..pos] + [k] + keys[pos..]
  }

  /** A key whose name is new leaves the list arranged. */
  lemma {:induction false} AddedArranged(ordered: bool, keys: seq<Key>, k: Key)
    requires Arranged(ordered, keys) && FindName(keys, k.name) == |keys|
    ensures Arranged(ordered, Added(ordered, keys, k))
  {
    forall i, j | 0 <= i < j <= |keys|
      ensures var a, b := Added(ordered, keys, k)[i].name, Added(ordered, keys, k)[j].name;
              if ordered then Lex(a, b) < 0 else !SameName(a, b)
    {
      AddedPair(ordered, keys, k, i, j);
    }
  }

  lemma {:induction false} AddedAt(ordered: bool, keys: seq<Key>, k: Key, i: nat)
    requires i <= |keys|
    ensures var pos := PlaceOf(ordered, keys, k.name);
            Added(ordered, keys, k)[i] == if i < pos then keys[i] else if i == pos then k else keys[i - 1]
  {
  }

  lemma {:induction false} AddedPair(ordered: bool, keys: seq<Key>, k: Key, i: nat, j: nat)
    requires Arranged(ordered, keys) && FindName(keys, k.name) == |keys| && i < j <= |keys|
    ensures var a, b := Added(ordered, keys, k)[i].name, Added(ordered, keys, k)[j].name;
            if ordered then Lex(a, b) < 0 else !SameName(a, b)
  {
    var pos := PlaceOf(ordered, keys, k.name);
    AddedAt(ordered, keys, k, i);
    AddedAt(ordered, keys, k, j);
    if j == pos {
      Beside(ordered, keys, k.name, i);
    } else if i == pos {
      Beside(ordered, keys, k.name, j - 1);
      SameFlip(keys[j - 1].name, k.name);
    }
  }

  lemma {:induction false} Beside(ordered: bool, keys: seq<Key>, name: string, i: nat)
    requires Arranged(ordered, keys) && FindName(keys, name) == |keys| && i < |keys|
    ensures var pos := PlaceOf(ordered, keys, name);
            ordered ==> if i < pos then Lex(keys[i].name, name) < 0 else Lex(name, keys[i].name) < 0
    ensures !SameName(keys[i].name, name)
  {
    var pos, other := PlaceOf(ordered, keys, name), keys[i].name;
    assert !SameName(name, other);
    SameFlip(name, other);
    LexZero(name, other);
    if ordered && i < pos {
      LexZero(name, keys[pos - 1].name);
      LexFlip(keys[pos - 1].name, name);
      if i < pos - 1 {
        LexTransitive(other, keys[pos - 1].name, name);
      }
    }
  }

  lemma {:induction false} SameFlip(a: string, b: string)
    ensures SameName(a, b) <==> SameName(b, a)
  {
  }

  // The name comes after all keys of the list, and is none of theirs.
  ghost predicate After(ordered: bool, keys: seq<Key>, name: string) {
    forall k :: 0 <= k < |keys| ==> ComesAfter(ordered, keys[k].name, name)
  }

  ghost predicate ComesAfter(ordered: bool, other: string, name: string) {
    !SameName(name, other) && (ordered ==> Lex(name, other) > 0)
  }

  lemma {:induction false} AfterPlace(ordered: bool, keys: seq<Key>, name: string)
    requires After(ordered, keys, name)
    ensures FindName(keys, name) == PlaceOf(ordered, keys, name) == |keys|
  {
    if keys != [] {
      assert ComesAfter(ordered, keys[|keys| - 1].name, name);
      var i := FindName(keys, name);
      assert i < |keys| ==> ComesAfter(ordered, keys[i].name, name);
    }
  }

  // In an arranged list, a later name comes after an earlier one.
  lemma {:induction false} LaterComesAfter(ordered: bool, keys: seq<Key>, k: nat, i: nat)
    requires Arranged(ordered, keys) && k < i < |keys|
    ensures ComesAfter(ordered, keys[k].name, keys[i].name)
  {
    var name, other := keys[i].name, keys[k].name;
    SameFlip(name, other);
    if ordered {
      LexZero(other, name);
      LexFlip(other, name);
      LexFlip(name, other);
      LexZero(name, other);
    }
  }

  // ---------------------------------------------------------------- lookups

  // The key at the end of a path of names, found by looking at all keys on the way.
  function Lookup(keys: seq<Key>, path: seq<string>): Option<Key> {
    if path == [] then None
    else
      var i := FindName(keys, path[0]);
      if i == |keys| then None
      else if |path| == 1 then Some(keys[i])
      else if keys[i].Value? then None
      else Lookup(keys[i].children, path[1..])
  }

  ghost predicate AllArranged(ordered: bool, keys: seq<Key>)
    decreases keys
  {
    Arranged(ordered, keys) &&
    forall i :: 0 <= i < |keys| && keys[i].Section? ==> AllArranged(ordered, keys[i].children)
  }

  /** configuration::find */
  method Find(ordered: bool, root: seq<Key>, path: seq<string>) returns (k: Option<Key>)
    requires AllArranged(ordered, root)
    ensures k == Lookup(root, path)
  {
    var keys, argc := root, 0;
    k := None;
    while argc < |path|
      invariant 0 <= argc <= |path| && AllArranged(ordered, keys)
      invariant if argc < |path| then Lookup(root, path) == Lookup(keys, path[argc..]) else Lookup(root, path) == k
    {
      var key := path[argc];
      assert path[argc..][0] == key && path[argc..][1..] == path[argc+1..];
      argc := argc + 1;
      var found, pos := Search(ordered, keys, key);
      if !found {
        return None;
      }
      k := Some(keys[pos]);
      if keys[pos].Value? || |keys[pos].children| == 0 {
        if argc < |path| {
          return None;
        }
        return;
      }
      keys := keys[pos].children;
    }
  }
}
