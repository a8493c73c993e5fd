/**
 The names of headers, and the binary search of net/internet/http/headers.cpp in the table of standard headers.
 */
module HeaderNames {
  import opened CaseOrder

  const UNKNOWN := 255
  const MAX_LEN := 256

  datatype Type = General | Request | Response | Entity

  datatype Standard = Standard(name: string, kind: Type, list: bool, token: bool)

  type Table = t: seq<Standard> | |t| <= UNKNOWN

  predicate IsControl(c: char) {
    c < ' ' || c == 127 as char
  }

  predicate IsSeparator(c: char) {
    match c
    case '(' | ')' | '<' | '>' | '@' | ',' | ';' | ':' | '\\' | '"' => true
    case '/' | '[' | ']' | '?' | '=' | '{' | '}' | ' ' | '\t' => true
    case _ => false
  }

  predicate NameChar(c: char) {
    c as int < 128 && !IsControl(c) && !IsSeparator(c)
  }

  predicate Token(s: string) {
    0 < |s| <= MAX_LEN && forall i :: 0 <= i < |s| ==> NameChar(s[i])
  }

  // ---------------------------------------------------------------- the table of standard headers

  ghost predicate Sorted(table: seq<Standard>) {
    forall i, j :: 0 <= i < j < |table| ==> Lex(table[i].name, table[j].name) < 0
  }

  ghost predicate Proper(table: Table) {
    Sorted(table) && forall i :: 0 <= i < |table| ==> Token(table[i].name)
  }

  // It is enough to compare neighbours.
  lemma {:induction false} SortedNeighbours(table: seq<Standard>)
    requires forall i :: 0 < i < |table| ==> Lex(table[i - 1].name, table[i].name) < 0
    ensures Sorted(table)
  {
    forall i, j | 0 <= i < j < |table|
      ensures Lex(table[i].name, table[j].name) < 0
    {
      Neighbours(table, i, j);
    }
  }

  lemma {:induction false} Neighbours(table: seq<Standard>, i: nat, j: nat)
    requires forall k :: 0 < k < |table| ==> Lex(table[k - 1].name, table[k].name) < 0
    requires i < j < |table|
    ensures Lex(table[i].name, table[j].name) < 0
  {
    if i + 1 < j {
      Neighbours(table, i, j - 1);
      LexTransitive(table[i].name, table[j - 1].name, table[j].name);
    }
  }

  // The entry with that name, found by looking at all of them.
  function Lookup(table: Table, name: string): (id: nat)
    ensures id < |table| || id == UNKNOWN
    ensures id < |table| ==> SameName(name, table[id].name)
    ensures id == UNKNOWN ==> forall i :: 0 <= i < |table| ==> !SameName(name, table[i].name)
  {
    if table == [] then UNKNOWN
    else
      var n := |table| - 1;
      if SameName(name, table[n].name) then n
      else
        var id := Lookup(table[..n], name);
        assert forall i :: 0 <= i < n ==> table[..n][i] == table[i];
        id
  }

  lemma {:induction false} OneEntry(table: Table, name: string, id: nat)
    requires Proper(table) && id < |table| && SameName(name, table[id].name)
    ensures Lookup(table, name) == id
  {
    var k := Lookup(table, name);
    LexZero(table[k].name, table[id].name);
    LexZero(table[id].name, table[k].name);
  }

  /** The binary search of search_standard_header finds what looking at all entries would find. */
  method SearchStandard(table: Table, name: string) returns (id: nat)
    requires Proper(table)
    ensures id == Lookup(table, name)
  {
    var i, j := 0, |table| - 1;
    while i <= j
      invariant 0 <= i <= |table| && -1 <= j < |table|
      invariant forall k :: 0 <= k < i ==> !SameName(name, table[k].name)
      invariant forall k :: j < k < |table| ==> !SameName(name, table[k].name)
    {
      var pivot := (i + j) / 2;
      var ret := Compare(name, table[pivot].name);
      Halves(table, name, pivot);
      if ret < 0 {
        j := pivot - 1;
      } else if ret == 0 {
        CompareZero(name, table[pivot].name);
        if |name| < |table[pivot].name| {
          j := pivot - 1;
        } else if |name| == |table[pivot].name| {
          OneEntry(table, name, pivot);
          return pivot;
        } else {
          i := pivot + 1;
        }
      } else {
        i := pivot + 1;
      }
    }
    return UNKNOWN;
  }

  lemma {:induction false} Halves(table: Table, name: string, pivot: nat)
    requires Proper(table) && pivot < |table|
    ensures Lex(name, table[pivot].name) < 0 ==> forall k :: pivot <= k < |table| ==> !SameName(name, table[k].name)
    ensures Lex(name, table[pivot].name) > 0 ==> forall k :: 0 <= k <= pivot ==> !SameName(name, table[k].name)
  {
    var p := table[pivot].name;
    forall k | 0 <= k < |table| && SameName(name, table[k].name)
      ensures (k > pivot ==> Lex(p, name) < 0) && (k < pivot ==> Lex(name, p) < 0) && (k == pivot ==> Lex(name, p) == 0)
    {
      var t := table[k].name;
      LexZero(name, t);
      LexZero(t, name);
      if k > pivot {
        LexTransitive(p, t, name);
      } else if k < pivot {
        LexTransitive(name, t, p);
      }
    }
    LexFlip(name, p);
    LexFlip(p, name);
  }
}
