/**
 The table of headers in net/internet/http/headers.cpp: general headers come first, then those of requests, of
 responses and of entities, and then the ones that are not standard; equal names stand together.
 */
module HeaderTable {
  import opened CaseOrder
  import opened HeaderNames
  import opened Wrappers

  // The name of a standard header is the one in the table of standard headers.
  datatype Header = Header(id: nat, name: string, value: string)

  // What a lookup asks for: a standard header by its number, any other by its name, in lower case.
  datatype Key = Standard(id: nat) | Other(name: string)

  function KeyOf(h: Header): Key {
    if h.id == UNKNOWN then Other(Fold(h.name)) else Key.Standard(h.id)
  }

  function Order(t: Type): nat {
    match t
    case General => 0
    case Request => 1
    case Response => 2
    case Entity => 3
  }

  // Where a header belongs; the ones that are not standard come last.
  function Rank(table: Table, key: Key): nat {
    match key
    case Standard(id) => if id < |table| then Order(table[id].kind) else 4
    case Other(_) => 4
  }

  ghost predicate Known(table: Table, h: Header) {
    h.id == UNKNOWN || (h.id < |table| && h.id < UNKNOWN && h.name == table[h.id].name)
  }

  ghost predicate Grouped(table: Table, s: seq<Header>) {
    && (forall i :: 0 <= i < |s| ==> Known(table, s[i]))
    && (forall i, j :: 0 <= i < j < |s| ==> Rank(table, KeyOf(s[i])) <= Rank(table, KeyOf(s[j])))
    && (forall i, j, k :: 0 <= i < j < k < |s| && KeyOf(s[i]) == KeyOf(s[k]) ==> KeyOf(s[i]) == KeyOf(s[j]))
  }

  // A standard header of that kind.
  predicate OfKind(table: Table, h: Header, kind: Type) {
    h.id < |table| && table[h.id].kind == kind
  }

  /** General headers come before those of requests, of responses and of entities, and the unknown ones come last. */
  lemma {:induction false} KindsInOrder(table: Table, s: seq<Header>, i: nat, j: nat)
    requires Grouped(table, s) && i < j < |s|
    ensures OfKind(table, s[j], General) ==> OfKind(table, s[i], General)
    ensures OfKind(table, s[j], Request) ==> OfKind(table, s[i], General) || OfKind(table, s[i], Request)
    ensures OfKind(table, s[j], Response) ==> !OfKind(table, s[i], Entity) && s[i].id < |table|
    ensures s[j].id < |table| ==> s[i].id < |table|
  {
    assert Rank(table, KeyOf(s[i])) <= Rank(table, KeyOf(s[j]));
  }

  // ---------------------------------------------------------------- looking at all entries

  // The last entry that matches, or the number of entries.
  function Last(key: Key, s: seq<Header>): (i: nat)
    ensures i <= |s| && (i < |s| ==> KeyOf(s[i]) == key)
    ensures forall k :: 0 <= k < |s| && KeyOf(s[k]) == key ==> k <= i < |s|
  {
    if s == [] then 0
    else
      var n := |s| - 1;
      if KeyOf(s[n]) == key then n
      else
        var i := Last(key, s[..n]);
        assert forall k :: 0 <= k < n ==> s[..n][k] == s[k];
        if i < n then i else |s|
  }

  // The most recently added value of a name.
  function ValueOf(key: Key, s: seq<Header>): Option<string> {
    var i := Last(key, s);
    if i < |s| then Some(s[i].value) else None
  }

  // Where a new entry goes: after the last one of its name, or else before those of a higher rank.
  ghost predicate Slot(table: Table, key: Key, s: seq<Header>, pos: nat) {
    pos <= |s| &&
    var i := Last(key, s);
    if i < |s| then pos == i + 1
    else (forall k :: 0 <= k < pos ==> Rank(table, KeyOf(s[k])) <= Rank(table, key)) &&
         (forall k :: pos <= k < |s| ==> Rank(table, key) < Rank(table, KeyOf(s[k])))
  }

  // ---------------------------------------------------------------- inserting and removing

  function InsertAt<T>(s: seq<T>, pos: nat, h: T): (t: seq<T>)
    requires pos <= |s|
    ensures |t| == |s| + 1 && t[pos] == h
    ensures forall i :: 0 <= i < pos ==> t[i] == s[i]
    ensures forall i :: pos < i < |t| ==> t[i] == s[i - 1]
  {
    s[..pos] + [h] + s[pos..]
  }

  function RemoveAt<T>(s: seq<T>, pos: nat): (t: seq<T>)
    requires pos < |s|
    ensures |t| == |s| - 1
    ensures forall i :: 0 <= i < pos ==> t[i] == s[i]
    ensures forall i :: pos <= i < |t| ==> t[i] == s[i + 1]
  {
    s[..pos] + s[pos + 1..]
  }

  lemma {:induction false} SlotRanks(table: Table, s: seq<Header>, h: Header, pos: nat)
    requires Grouped(table, s) && Known(table, h) && Slot(table, KeyOf(h), s, pos)
    ensures forall k :: 0 <= k < pos ==> Rank(table, KeyOf(s[k])) <= Rank(table, KeyOf(h))
    ensures forall k :: pos <= k < |s| ==> Rank(table, KeyOf(h)) <= Rank(table, KeyOf(s[k])) && KeyOf(s[k]) != KeyOf(h)
    ensures forall k :: 0 <= k < pos && KeyOf(s[k]) == KeyOf(h) ==> KeyOf(s[pos - 1]) == KeyOf(h)
    ensures pos > 0 && KeyOf(s[pos - 1]) != KeyOf(h) ==>
              forall k :: pos <= k < |s| ==> Rank(table, KeyOf(h)) < Rank(table, KeyOf(s[k]))
  {
  }

  // The same key does not stand on both sides of the slot.
  lemma {:induction false} SlotApart(table: Table, s: seq<Header>, h: Header, pos: nat, i: nat, k: nat)
    requires Grouped(table, s) && Known(table, h) && Slot(table, KeyOf(h), s, pos) && i < pos <= k < |s|
    ensures KeyOf(s[i]) != KeyOf(s[k])
  {
    SlotRanks(table, s, h, pos);
    var first, last, next := KeyOf(s[i]), KeyOf(s[pos - 1]), KeyOf(s[k]);
    assert last != KeyOf(h) ==> Rank(table, first) < Rank(table, next);
    assert i < pos - 1 && first == next ==> first == last;
  }

  // The key of an entry after the insertion.
  function KeyAt(s: seq<Header>, h: Header, pos: nat, i: nat): Key
    requires pos <= |s| && i <= |s|
  {
    KeyOf(if i < pos then s[i] else if i == pos then h else s[i - 1])
  }

  lemma {:induction false} GroupedInsert(table: Table, s: seq<Header>, h: Header, pos: nat)
    requires Grouped(table, s) && Known(table, h) && Slot(table, KeyOf(h), s, pos)
    ensures Grouped(table, InsertAt(s, pos, h))
  {
    var t := InsertAt(s, pos, h);
    RanksInsert(table, s, h, pos);
    forall i, j, k | 0 <= i < j < k < |t| && KeyOf(t[i]) == KeyOf(t[k])
      ensures KeyOf(t[i]) == KeyOf(t[j])
    {
      KeysAt(s, h, pos, i);
      KeysAt(s, h, pos, j);
      KeysAt(s, h, pos, k);
      ContiguousInsert(table, s, h, pos, i, j, k);
    }
  }

  lemma {:induction false} KeysAt(s: seq<Header>, h: Header, pos: nat, i: nat)
    requires pos <= |s| && i <= |s|
    ensures KeyOf(InsertAt(s, pos, h)[i]) == KeyAt(s, h, pos, i)
  {
  }

  lemma {:induction false} RanksInsert(table: Table, s: seq<Header>, h: Header, pos: nat)
    requires Grouped(table, s) && Known(table, h) && Slot(table, KeyOf(h), s, pos)
    ensures var t := InsertAt(s, pos, h);
            (forall i :: 0 <= i < |t| ==> Known(table, t[i])) &&
            (forall i, j :: 0 <= i < j < |t| ==> Rank(table, KeyOf(t[i])) <= Rank(table, KeyOf(t[j])))
  {
    SlotRanks(table, s, h, pos);
    var t := InsertAt(s, pos, h);
    forall i, j | 0 <= i < j < |t|
      ensures Rank(table, KeyOf(t[i])) <= Rank(table, KeyOf(t[j]))
    {
      assert t[i] == if i < pos then s[i] else if i == pos then h else s[i - 1];
      assert t[j] == if j < pos then s[j] else if j == pos then h else s[j - 1];
    }
  }

  lemma {:induction false} ContiguousInsert(table: Table, s: seq<Header>, h: Header, pos: nat, i: nat, j: nat, k: nat)
    requires Grouped(table, s) && Known(table, h) && Slot(table, KeyOf(h), s, pos) && i < j < k <= |s|
    requires KeyAt(s, h, pos, i) == KeyAt(s, h, pos, k)
    ensures KeyAt(s, h, pos, i) == KeyAt(s, h, pos, j)
  {
    FirstOfGroup(table, s, h, pos);
    var k' := k - 1;
    if i < pos < k {
      SlotApart(table, s, h, pos, i, k');
    } else if k == pos {
      LastInGroup(table, s, h, pos, i);
      EndsTogether(table, s, i, j, k');
    } else if k < pos {
      EndsTogether(table, s, i, j, k);
    } else if i > pos {
      EndsTogether(table, s, i - 1, j - 1, k');
    }
  }

  lemma {:induction false} LastInGroup(table: Table, s: seq<Header>, h: Header, pos: nat, i: nat)
    requires Slot(table, KeyOf(h), s, pos) && i < pos && KeyOf(s[i]) == KeyOf(h)
    ensures KeyOf(s[pos - 1]) == KeyOf(h)
  {
  }

  lemma {:induction false} FirstOfGroup(table: Table, s: seq<Header>, h: Header, pos: nat)
    requires Slot(table, KeyOf(h), s, pos)
    ensures forall k :: pos <= k < |s| ==> KeyOf(s[k]) != KeyOf(h)
  {
  }

  lemma {:induction false} EndsTogether(table: Table, s: seq<Header>, i: nat, j: nat, k: nat)
    requires Grouped(table, s) && i <= j <= k < |s| && KeyOf(s[i]) == KeyOf(s[k])
    ensures KeyOf(s[i]) == KeyOf(s[j])
  {
  }

  lemma {:induction false} GroupedRemove(table: Table, s: seq<Header>, pos: nat)
    requires Grouped(table, s) && pos < |s|
    ensures Grouped(table, RemoveAt(s, pos))
  {
    var t := RemoveAt(s, pos);
    forall i, j, k | 0 <= i < j < k < |t| && KeyOf(t[i]) == KeyOf(t[k])
      ensures KeyOf(t[i]) == KeyOf(t[j])
    {
      assert t[i] == s[if i < pos then i else i + 1] && t[j] == s[if j < pos then j else j + 1] &&
        t[k] == s[if k < pos then k else k + 1];
    }
  }

  // How many entries there are before those of a higher rank.
  ghost function FirstAbove(table: Table, key: Key, s: seq<Header>): (pos: nat)
    ensures pos <= |s| && (pos > 0 ==> Rank(table, KeyOf(s[pos - 1])) <= Rank(table, key))
    ensures forall k :: pos <= k < |s| ==> Rank(table, key) < Rank(table, KeyOf(s[k]))
  {
    if s == [] then 0
    else
      var n := |s| - 1;
      if Rank(table, KeyOf(s[n])) > Rank(table, key) then FirstAbove(table, key, s[..n]) else n + 1
  }

  // The one slot there is.
  ghost function SlotOf(table: Table, key: Key, s: seq<Header>): (pos: nat)
    ensures pos <= |s|
  {
    if Last(key, s) < |s| then Last(key, s) + 1 else FirstAbove(table, key, s)
  }

  lemma {:induction false} SlotUnique(table: Table, key: Key, s: seq<Header>, p: nat, q: nat)
    requires Slot(table, key, s, p) && Slot(table, key, s, q)
    ensures p == q
  {
    if Last(key, s) == |s| {
      if p < |s| {
        SlotSplits(table, key, s, p, p);
        SlotSplits(table, key, s, q, p);
      }
      if q < |s| {
        SlotSplits(table, key, s, p, q);
        SlotSplits(table, key, s, q, q);
      }
    }
  }

  lemma {:induction false} SlotSplits(table: Table, key: Key, s: seq<Header>, pos: nat, k: nat)
    requires Slot(table, key, s, pos) && Last(key, s) == |s| && k < |s|
    ensures k < pos <==> Rank(table, KeyOf(s[k])) <= Rank(table, key)
  {
  }

  lemma {:induction false} SlotOfSlot(table: Table, key: Key, s: seq<Header>)
    requires Grouped(table, s)
    ensures Slot(table, key, s, SlotOf(table, key, s))
  {
    var pos := SlotOf(table, key, s);
    if Last(key, s) == |s| {
      forall k | 0 <= k < pos
        ensures Rank(table, KeyOf(s[k])) <= Rank(table, key)
      {
        if k < pos - 1 {
          assert Rank(table, KeyOf(s[k])) <= Rank(table, KeyOf(s[pos - 1]));
        }
      }
    }
  }

  // What adding a header with a clean value does.
  ghost function Added(table: Table, s: seq<Header>, h: Header): seq<Header> {
    InsertAt(s, SlotOf(table, KeyOf(h), s), h)
  }

  /** Adding keeps the table grouped; its name is looked up with the new value, and every other name as before. */
  lemma {:induction false} AddedGrouped(table: Table, s: seq<Header>, h: Header, key: Key)
    requires Grouped(table, s) && Known(table, h)
    ensures Grouped(table, Added(table, s, h))
    ensures ValueOf(key, Added(table, s, h)) == if key == KeyOf(h) then Some(h.value) else ValueOf(key, s)
  {
    var pos := SlotOf(table, KeyOf(h), s);
    SlotOfSlot(table, KeyOf(h), s);
    GroupedInsert(table, s, h, pos);
    SlotRanks(table, s, h, pos);
    LastInserted(s, h, pos, key);
  }

  lemma {:induction false} NextSlot(table: Table, s: seq<Header>, i: nat)
    requires Grouped(table, s) && i < |s|
    ensures Slot(table, KeyOf(s[i]), s[..i], i)
  {
    var t, key := s[..i], KeyOf(s[i]);
    var last := Last(key, t);
    if last < i {
      assert KeyOf(s[last]) == KeyOf(s[i]);
      assert KeyOf(t[i - 1]) == KeyOf(s[i - 1]) == key;
    } else {
      forall k | 0 <= k < i ensures Rank(table, KeyOf(t[k])) <= Rank(table, key) {
        assert t[k] == s[k];
      }
    }
  }

  /** Adding the entries of a table one by one, in their order, gives the table back. */
  lemma {:induction false} AddedInOrder(table: Table, s: seq<Header>, i: nat)
    requires Grouped(table, s) && i < |s|
    ensures Added(table, s[..i], s[i]) == s[..i + 1]
  {
    var t, key := s[..i], KeyOf(s[i]);
    NextSlot(table, s, i);
    GroupedPrefix(table, s, i);
    SlotOfSlot(table, key, t);
    SlotUnique(table, key, t, i, SlotOf(table, key, t));
  }

  lemma {:induction false} GroupedPrefix(table: Table, s: seq<Header>, i: nat)
    requires Grouped(table, s) && i <= |s|
    ensures Grouped(table, s[..i])
  {
  }

  function Entry(table: Table, id: nat, name: string, value: string): (h: Header)
    requires id == UNKNOWN || id < |table|
    ensures KeyOf(h) == if id == UNKNOWN then Other(Fold(name)) else Key.Standard(id)
  {
    Header(id, if id == UNKNOWN then name else table[id].name, value)
  }

  // ---------------------------------------------------------------- lookups afterwards

  lemma {:induction false} LastIs(key: Key, s: seq<Header>, i: nat)
    requires i <= |s| && (i < |s| ==> KeyOf(s[i]) == key)
    requires forall k :: 0 <= k < |s| && (k > i || i == |s|) ==> KeyOf(s[k]) != key
    ensures Last(key, s) == i
  {
  }

  lemma {:induction false} LastInserted(s: seq<Header>, h: Header, pos: nat, key: Key)
    requires pos <= |s| && forall k :: pos <= k < |s| ==> KeyOf(s[k]) != KeyOf(h)
    ensures ValueOf(key, InsertAt(s, pos, h)) == if key == KeyOf(h) then Some(h.value) else ValueOf(key, s)
  {
    var t := InsertAt(s, pos, h);
    if key == KeyOf(h) {
      LastIs(key, t, pos);
    } else {
      var i := Last(key, s);
      LastIs(key, t, if i < pos then i else i + 1);
    }
  }

  /** After a removal, the name has the value that was added before, and every other name has its value still. */
  lemma {:induction false} LookupRemoved(s: seq<Header>, gone: Key, key: Key)
    requires Last(gone, s) < |s|
    ensures var pos := Last(gone, s);
            ValueOf(key, RemoveAt(s, pos)) == ValueOf(key, if key == gone then s[..pos] else s)
  {
    var pos := Last(gone, s);
    if key == gone {
      RemovedSame(s, pos, key);
    } else {
      RemovedOther(s, pos, key);
    }
  }

  lemma {:induction false} RemovedSame(s: seq<Header>, pos: nat, key: Key)
    requires pos < |s| && forall k :: pos < k < |s| ==> KeyOf(s[k]) != key
    ensures ValueOf(key, RemoveAt(s, pos)) == ValueOf(key, s[..pos])
  {
    var t, i := RemoveAt(s, pos), Last(key, s[..pos]);
    assert forall k :: 0 <= k < pos ==> s[..pos][k] == t[k];
    LastIs(key, t, if i < pos then i else |t|);
  }

  lemma {:induction false} RemovedOther(s: seq<Header>, pos: nat, key: Key)
    requires pos < |s| && KeyOf(s[pos]) != key
    ensures ValueOf(key, RemoveAt(s, pos)) == ValueOf(key, s)
  {
    var i := Last(key, s);
    LastIs(key, RemoveAt(s, pos), if i < pos then i else i - 1);
  }

  // ---------------------------------------------------------------- stopping early

  // The search has come as far as pos without finding anything.
  ghost predicate Passed(table: Table, key: Key, s: seq<Header>, pos: nat) {
    pos <= |s| && forall k :: 0 <= k < pos ==> KeyOf(s[k]) != key && Rank(table, KeyOf(s[k])) <= Rank(table, key)
  }

  lemma {:induction false} PassOne(table: Table, key: Key, s: seq<Header>, pos: nat)
    requires Passed(table, key, s, pos) && pos < |s| && KeyOf(s[pos]) != key &&
             Rank(table, KeyOf(s[pos])) <= Rank(table, key)
    ensures Passed(table, key, s, pos + 1)
  {
  }

  // It may stop after the first entry that does not match any more.
  lemma {:induction false} SearchEnds(table: Table, s: seq<Header>, key: Key, pos: nat)
    requires Grouped(table, s) && 0 < pos <= |s| && KeyOf(s[pos - 1]) == key && (pos < |s| ==> KeyOf(s[pos]) != key)
    ensures Last(key, s) == pos - 1
  {
    LastIs(key, s, pos - 1);
  }

  // It may stop before the first entry of a higher rank.
  lemma {:induction false} SearchMisses(table: Table, s: seq<Header>, key: Key, pos: nat)
    requires Grouped(table, s) && Passed(table, key, s, pos) &&
             (pos < |s| ==> Rank(table, key) < Rank(table, KeyOf(s[pos])))
    ensures Last(key, s) == |s| && SlotOf(table, key, s) == pos
  {
    forall k | pos <= k < |s|
      ensures Rank(table, key) < Rank(table, KeyOf(s[k])) && KeyOf(s[k]) != key
    {
      if k > pos {
        assert Rank(table, KeyOf(s[pos])) <= Rank(table, KeyOf(s[k]));
      }
    }
    LastIs(key, s, |s|);
    SlotOfSlot(table, key, s);
    SlotUnique(table, key, s, pos, SlotOf(table, key, s));
  }

  // Before an entry that is not standard, no matching one can end: those that are standard come first.
  lemma {:induction false} StandardFirst(table: Table, s: seq<Header>, name: string, pos: nat)
    requires Grouped(table, s) && pos < |s| && s[pos].id != UNKNOWN
    ensures pos > 0 ==> KeyOf(s[pos - 1]) != Other(name)
    ensures KeyOf(s[pos]) != Other(name) && Rank(table, KeyOf(s[pos])) <= Rank(table, Other(name))
  {
    if pos > 0 {
      assert Rank(table, KeyOf(s[pos - 1])) <= Rank(table, KeyOf(s[pos])) < 4;
    }
  }
}
