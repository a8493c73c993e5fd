/**
 net/poll_selector.cpp: the array handed to poll(2), kept parallel to the index array of the descriptor set.
 */
module PollSelector {
  import opened FdSet
  import opened Sequences

  // The bits of revents that `process` looks at, and whether any other bit is set.
  datatype Revents = Revents(pollin: bool, pollout: bool, other: bool) {
    predicate Any() {
      pollin || pollout || other
    }
  }

  const NOTHING := Revents(false, false, false)

  datatype PollFd = PollFd(fd: nat, events: nat, revents: Revents)

  function Fds(polls: seq<PollFd>): (r: seq<nat>)
    ensures |r| == |polls| && forall i :: 0 <= i < |r| ==> r[i] == polls[i].fd
  {
    if polls == [] then [] else Fds(polls[..|polls| - 1]) + [polls[|polls| - 1].fd]
  }

  lemma {:induction false} FdsAppend(polls: seq<PollFd>, p: PollFd)
    ensures Fds(polls + [p]) == Fds(polls) + [p.fd]
  {
    assert (polls + [p])[..|polls|] == polls;
  }

  lemma {:induction false} SwapRemoveFds(polls: seq<PollFd>, i: nat)
    requires i < |polls|
    ensures Fds(SwapRemove(polls, i)) == SwapRemove(Fds(polls), i)
  {
  }

  // Where fd stands.
  function Find(polls: seq<PollFd>, fd: nat): (i: nat)
    ensures i <= |polls| && (i < |polls| <==> fd in Fds(polls)) && (i < |polls| ==> polls[i].fd == fd)
  {
    if polls == [] then 0
    else
      var n := |polls| - 1;
      var i := Find(polls[..n], fd);
      assert forall f :: f in Fds(polls) <==> f in Fds(polls[..n]) || f == polls[n].fd;
      if i < n then i else if polls[n].fd == fd then n else n + 1
  }

  // What the three operations do to the watched descriptors.

  function AddPoll(polls: seq<PollFd>, fd: nat, ev: nat): seq<PollFd> {
    if fd in Fds(polls) then polls else polls + [PollFd(fd, ev, NOTHING)]
  }

  function RemovePoll(polls: seq<PollFd>, fd: nat): seq<PollFd> {
    var i := Find(polls, fd);
    if i < |polls| then SwapRemove(polls, i) else polls
  }

  function ModifyPoll(polls: seq<PollFd>, fd: nat, ev: nat): seq<PollFd> {
    var i := Find(polls, fd);
    if i < |polls| then polls[i := PollFd(fd, ev, NOTHING)] else polls
  }

  lemma {:induction false} FindUnique(polls: seq<PollFd>, i: nat)
    requires NoDup(Fds(polls)) && i < |polls|
    ensures Find(polls, polls[i].fd) == i
  {
    var j := Find(polls, polls[i].fd);
    assert Fds(polls)[i] == polls[i].fd;
    assert j < |polls| && Fds(polls)[j] == Fds(polls)[i];
  }

  lemma {:induction false} RemoveAt(polls: seq<PollFd>, i: nat)
    requires NoDup(Fds(polls)) && i < |polls|
    ensures RemovePoll(polls, polls[i].fd) == SwapRemove(polls, i)
    ensures Fds(SwapRemove(polls, i)) == SwapRemove(Fds(polls), i)
  {
    FindUnique(polls, i);
    SwapRemoveFds(polls, i);
  }

  class Selector {
    const fdset: FdSet
    const events: array<PollFd>

    // Every entry of the array that poll sees belongs to the member at the same place of the set.
    ghost predicate Valid()
      reads this, fdset, fdset.entries, fdset.index, events
    {
      && fdset.Valid() && events.Length == fdset.entries.Length
      && Fds(Polls()) == fdset.Members()
    }

    ghost function Polls(): seq<PollFd>
      reads fdset, events
    {
      if fdset.used <= events.Length then events[..fdset.used] else []
    }

    ghost function Footprint(): set<object>
    {
      {fdset, fdset.entries, fdset.index, events}
    }

    constructor (size: nat)
      ensures Valid() && Polls() == [] && fresh(fdset) && fresh(Footprint()) && events.Length == size
    {
      fdset := new FdSet(size);
      events := new PollFd[size](_ => PollFd(0, 0, NOTHING));
    }

    method Add(fd: nat, ev: nat)
      requires Valid() && fd < events.Length
      modifies Footprint()
      ensures Valid() && Polls() == AddPoll(old(Polls()), fd, ev)
    {
      ghost var polls, p := Polls(), PollFd(fd, ev, NOTHING);
      assert fd in Fds(polls) <==> fd in fdset.Members();
      var ok := fdset.Add(fd);
      if !ok {
        return;
      }
      FdsAppend(polls, p);
      var index := fdset.used - 1;
      events[index] := PollFd(fd, ev, NOTHING);
      assert events[..fdset.used] == polls + [p];
    }

    // Closing the descriptor is a foreign call.
    method Remove(fd: nat)
      requires Valid() && fd < events.Length
      modifies Footprint()
      ensures Valid() && Polls() == RemovePoll(old(Polls()), fd)
    {
      fdset.Membership(fd);
      var index := fdset.entries[fd];
      if index < 0 {
        return;
      }
      Drop(fd, index);
    }

    // The removal itself, of the member at `index`.
    method Drop(fd: nat, index: nat)
      requires Valid() && fd < events.Length && fdset.entries[fd] == index
      modifies Footprint()
      ensures Valid() && fd in old(fdset.Members()) && Polls() == RemovePoll(old(Polls()), fd)
    {
      ghost var polls := Polls();
      fdset.Membership(fd);
      fdset.MembersDistinct();
      assert fdset.Members()[index] == fd;
      RemoveAt(polls, index);
      var ok;
      ghost var i;
      ok, i := fdset.Remove(fd);
      MoveLast(index, fdset.used);
    }

    // The last of n + 1 entries moves to `index`.
    method MoveLast(index: nat, n: nat)
      requires index <= n < events.Length
      modifies events
      ensures events[..n] == SwapRemove(old(events[..n + 1]), index)
    {
      if index < n {
        events[index] := events[n];
      }
    }

    method Modify(fd: nat, ev: nat) returns (ok: bool)
      requires Valid() && fd < events.Length
      modifies events
      ensures Valid() && ok == (fd in old(Fds(Polls()))) && Polls() == ModifyPoll(old(Polls()), fd, ev)
    {
      fdset.Membership(fd);
      var index := fdset.entries[fd];
      if index < 0 {
        return false;
      }
      fdset.MembersDistinct();
      assert fdset.Members()[index] == fd;
      ghost var polls := Polls();
      FindUnique(polls, index);
      events[index] := events[index].(events := ev, revents := NOTHING);
      assert Polls() == polls[index := PollFd(fd, ev, NOTHING)];
      return true;
    }
  }

  // ---------------------------------------------------------------- readiness

  // The ready entries, each as often as it occurs.
  function ReadyBag(polls: seq<PollFd>): multiset<PollFd> {
    if polls == [] then multiset{}
    else (if polls[0].revents.Any() then multiset{polls[0]} else multiset{}) + ReadyBag(polls[1..])
  }

  lemma {:induction false} ReadyConcat(a: seq<PollFd>, b: seq<PollFd>)
    ensures ReadyBag(a + b) == ReadyBag(a) + ReadyBag(b)
    decreases |a|
  {
    if a == [] {
      assert a + b == b;
    } else {
      assert (a + b)[0] == a[0] && (a + b)[1..] == a[1..] + b;
      ReadyConcat(a[1..], b);
    }
  }

  // Swap-removal at the front of what is still to be visited loses only the removed entry.
  lemma {:induction false} ReadySwapRemove(polls: seq<PollFd>, i: nat)
    requires i < |polls|
    ensures ReadyBag(polls[i..]) == ReadyBag([polls[i]]) + ReadyBag(SwapRemove(polls, i)[i..])
  {
    var n := |polls| - 1;
    assert polls[i..] == [polls[i]] + polls[i+1..];
    ReadyConcat([polls[i]], polls[i+1..]);
    if i < n {
      var mid, last := polls[i+1..n], [polls[n]];
      assert polls[i+1..] == mid + last;
      assert SwapRemove(polls, i)[i..] == last + mid;
      ReadyConcat(mid, last);
      ReadyConcat(last, mid);
    }
  }

  // A handler has run for entry i: it may have changed that entry, but not its descriptor, and it may have added
  // entries, which are not ready.
  ghost predicate Touched(polls: seq<PollFd>, polls': seq<PollFd>, i: nat)
    requires i < |polls|
  {
    && |polls| <= |polls'| && polls'[i].fd == polls[i].fd
    && (forall k :: 0 <= k < |polls| && k != i ==> polls'[k] == polls[k])
    && (forall k :: |polls| <= k < |polls'| ==> !polls'[k].revents.Any())
  }

  lemma {:induction false} TouchedBag(polls: seq<PollFd>, polls': seq<PollFd>, i: nat)
    requires i < |polls| && Touched(polls, polls', i)
    ensures ReadyBag(polls'[i+1..]) == ReadyBag(polls[i+1..])
  {
    var n := |polls|;
    assert polls'[i+1..] == polls[i+1..] + polls'[n..];
    ReadyConcat(polls[i+1..], polls'[n..]);
    NoneReady(polls'[n..]);
  }

  lemma {:induction false} NoneReady(polls: seq<PollFd>)
    requires forall k :: 0 <= k < |polls| ==> !polls[k].revents.Any()
    ensures ReadyBag(polls) == multiset{}
  {
    if polls != [] {
      NoneReady(polls[1..]);
    }
  }

  lemma {:induction false} ReadyFirst(polls: seq<PollFd>, i: nat)
    requires i < |polls|
    ensures ReadyBag(polls[i..]) == ReadyBag([polls[i]]) + ReadyBag(polls[i+1..])
    ensures ReadyBag([polls[i]]) == if polls[i].revents.Any() then multiset{polls[i]} else multiset{}
  {
    assert polls[i..] == [polls[i]] + polls[i+1..];
    ReadyConcat([polls[i]], polls[i+1..]);
  }

  // What one round of the loop leaves to be visited, the entry being kept or removed.
  lemma {:induction false} RoundBag(polls: seq<PollFd>, polls': seq<PollFd>, i: nat)
    requires i < |polls| && Touched(polls, polls', i)
    ensures ReadyBag(polls'[i+1..]) == ReadyBag(polls[i+1..]) == ReadyBag(SwapRemove(polls', i)[i..])
  {
    TouchedBag(polls, polls', i);
    ReadyFirst(polls', i);
    ReadySwapRemove(polls', i);
    BagCancel(ReadyBag([polls'[i]]), ReadyBag(polls'[i+1..]), ReadyBag(SwapRemove(polls', i)[i..]));
  }

  lemma {:induction false} BagCancel<T>(a: multiset<T>, b: multiset<T>, c: multiset<T>)
    requires a + b == a + c
    ensures b == c
  {
    assert b == (a + b) - a && c == (a + c) - a;
  }

  // What was visited and what is ready from i on make up `all`, and n counts the latter.
  ghost predicate Pending(all: multiset<PollFd>, visited: seq<PollFd>, n: nat, polls: seq<PollFd>, i: nat) {
    i <= |polls| && multiset(visited) + ReadyBag(polls[i..]) == all && n == |ReadyBag(polls[i..])|
  }

  lemma {:induction false} VisitFirst(all: multiset<PollFd>, visited: seq<PollFd>, n: nat, polls: seq<PollFd>, i: nat)
    requires Pending(all, visited, n, polls, i) && i < |polls|
    ensures if !polls[i].revents.Any() then Pending(all, visited, n, polls, i + 1)
            else
              n > 0 &&
              forall polls', i' :: 0 <= i' <= |polls'| && ReadyBag(polls'[i'..]) == ReadyBag(polls[i+1..]) ==>
                Pending(all, visited + [polls[i]], n - 1, polls', i')
  {
    ReadyFirst(polls, i);
  }

  lemma {:induction false} VisitedAll(all: multiset<PollFd>, visited: seq<PollFd>, n: nat, polls: seq<PollFd>, i: nat)
    requires Pending(all, visited, n, polls, i) && (i == |polls| || n == 0)
    ensures multiset(visited) == all
  {
  }

  // The visited entries are the ready ones, each of them once.
  ghost predicate OnceEach(polls: seq<PollFd>, visited: seq<PollFd>) {
    forall p :: multiset(visited)[p] == if p in polls && p.revents.Any() then 1 else 0
  }

  /** With distinct descriptors, every ready entry is in the bag exactly once, and nothing else is. */
  lemma {:induction false} ReadyOnce(polls: seq<PollFd>)
    requires NoDup(Fds(polls))
    ensures forall visited :: multiset(visited) == ReadyBag(polls) ==> OnceEach(polls, visited)
  {
    forall p ensures ReadyBag(polls)[p] == if p in polls && p.revents.Any() then 1 else 0 {
      ReadyCount(polls, p);
    }
  }

  lemma {:induction false} ReadyCount(polls: seq<PollFd>, p: PollFd)
    requires NoDup(Fds(polls))
    ensures ReadyBag(polls)[p] == if p in polls && p.revents.Any() then 1 else 0
  {
    if polls != [] {
      var rest := polls[1..];
      assert forall k :: 0 <= k < |rest| ==> Fds(rest)[k] == Fds(polls)[k + 1];
      ReadyCount(rest, p);
      assert forall k :: 0 <= k < |rest| ==> Fds(polls)[k + 1] != Fds(polls)[0] && rest[k] != polls[0];
      assert p in polls <==> p == polls[0] || p in rest;
    }
  }
}
