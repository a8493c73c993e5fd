/**
 net/tcp_server.cpp, the timer handling of net/tcp_connection.cpp and the event loop of net/poll_selector.cpp:
 who owns which timer, and who is called when.
 */
module TcpServer {
  import opened MachineWord
  import opened Sequences
  import opened RedBlackShape
  import opened RedBlackOrder
  import opened RedBlackTree
  import opened Timers
  import opened FdSet
  import opened PollSelector

  // The part of a connection that timers and events touch.
  datatype Connection = Connection(fd: nat, timer: Ptr, timerSet: bool, readable: bool, writable: bool)

  // What run() does with timers and events before it returns.
  datatype RunStep = ArmTimer | DropTimer | WaitFor(events: nat) | Blocked(writing: bool)

  // A call of a handler: a listener accepts, or a connection runs, with its flags as run finds them.  If run changes
  // the events to wait for, what poll has reported for the descriptor is gone.
  datatype Call =
    | Accepting(fd: nat, client: int, allowed: bool)
    | Running(fd: nat, writing: bool, readable: bool, writable: bool, modified: bool, ok: bool)

  // Every descriptor is watched at most once.  Its handler is a listener, or the connection that knows this
  // descriptor as its own.
  ghost predicate Watched(polls: seq<PollFd>, conns: seq<Connection>, listeners: set<nat>) {
    NoDup(Fds(polls)) && forall p :: p in polls ==> p.fd < |conns| && (p.fd in listeners || conns[p.fd].fd == p.fd)
  }

  // ---------------------------------------------------------------- ownership

  // The connection with an armed timer holds the iterator of a live node that names this connection, and its
  // descriptor is being watched.
  ghost predicate Holds(h: seq<Ptr>, data: map<Ptr, Timer>, conns: seq<Connection>, fds: seq<nat>, c: nat)
    requires c < |conns|
  {
    conns[c].timer in h && conns[c].timer in data && data[conns[c].timer].handler == c && conns[c].fd == c && c in fds
  }

  // The node belongs to a connection that holds it.
  ghost predicate HeldBy(data: map<Ptr, Timer>, conns: seq<Connection>, n: Ptr) {
    n in data && data[n].handler < |conns| && conns[data[n].handler].timerSet && conns[data[n].handler].timer == n
  }

  // The live nodes, except the orphans, and the connections with armed timers are in bijection.
  ghost predicate Owned(h: seq<Ptr>, data: map<Ptr, Timer>, conns: seq<Connection>, fds: seq<nat>, orphans: set<Ptr>) {
    && (forall c :: 0 <= c < |conns| && conns[c].timerSet ==>
          Holds(h, data, conns, fds, c) && conns[c].timer !in orphans)
    && (forall n :: n in h && n !in orphans ==> HeldBy(data, conns, n))
  }

  lemma {:induction false} OwnedArm(h: seq<Ptr>, h': seq<Ptr>, data: map<Ptr, Timer>, conns: seq<Connection>,
                                    fds: seq<nat>, c: nat, z: Ptr, i: nat, t: Timer)
    requires Owned(h, data, conns, fds, {}) && c < |conns| && !conns[c].timerSet && conns[c].fd == c && c in fds
    requires Inserted(h, h', z, i) && z !in h && t.handler == c
    ensures Owned(h', data[z := t], conns[c := conns[c].(timer := z, timerSet := true)], fds, {})
  {
    assert forall n :: n in h' <==> n in h || n == z;
  }

  lemma {:induction false} OwnedDrop(h: seq<Ptr>, h': seq<Ptr>, data: map<Ptr, Timer>, data': map<Ptr, Timer>,
                                     conns: seq<Connection>, fds: seq<nat>, c: nat, i: nat)
    requires Owned(h, data, conns, fds, {}) && c < |conns| && conns[c].timerSet && NoDup(h)
    requires Removed(h, h', conns[c].timer, i) && (data' == data || data' == data - {conns[c].timer})
    ensures Owned(h', data', conns[c := conns[c].(timerSet := false)], fds, {})
  {
    RemovedMembers(h, h', conns[c].timer, i);
  }

  // The expired node is taken from its connection, but is still in the tree.
  lemma {:induction false} OwnedExpire(h: seq<Ptr>, data: map<Ptr, Timer>, conns: seq<Connection>, fds: seq<nat>,
                                       n: Ptr)
    requires Owned(h, data, conns, fds, {}) && n in h
    ensures HeldBy(data, conns, n)
    ensures var c := data[n].handler; Owned(h, data, conns[c := conns[c].(timerSet := false)], fds, {n})
  {
  }

  lemma {:induction false} OwnedErase(h: seq<Ptr>, h': seq<Ptr>, data: map<Ptr, Timer>, data': map<Ptr, Timer>,
                                      conns: seq<Connection>, fds: seq<nat>, n: Ptr, i: nat)
    requires Owned(h, data, conns, fds, {n}) && NoDup(h)
    requires Removed(h, h', n, i) && (data' == data || data' == data - {n})
    ensures Owned(h', data', conns, fds, {})
  {
    RemovedMembers(h, h', n, i);
  }

  lemma {:induction false} RemovedMembers(h: seq<Ptr>, h': seq<Ptr>, z: Ptr, i: nat)
    requires Removed(h, h', z, i) && NoDup(h)
    ensures forall n :: n in h' <==> n in h && n != z
  {
    forall n | n in h && n != z
      ensures n in h'
    {
      var j :| 0 <= j < |h| && h[j] == n;
      assert h'[if j < i then j else j - 1] == n;
    }
    forall n | n in h'
      ensures n in h && n != z
    {
      var j :| 0 <= j < |h'| && h'[j] == n;
      assert n == h[if j < i then j else j + 1];
    }
  }

  // Of the live nodes just z has gone, if there is one to go; the others keep their timers.
  ghost predicate Dropped(h: seq<Ptr>, data: map<Ptr, Timer>, h': seq<Ptr>, data': map<Ptr, Timer>, gone: set<Ptr>) {
    && (forall n :: n in h' <==> n in h && n !in gone)
    && (forall n :: n in h' && n in data ==> n in data' && data'[n] == data[n])
  }

  // The same, and z, which is none of the others, is a new node with the timer t.
  ghost predicate Renewed(h: seq<Ptr>, data: map<Ptr, Timer>, h': seq<Ptr>, data': map<Ptr, Timer>, gone: set<Ptr>,
                          z: Ptr, t: Timer) {
    && z in h' && z in data' && data'[z] == t && (z in h ==> z in gone)
    && (forall n :: n != z ==> (n in h' <==> n in h && n !in gone))
    && (forall n :: n != z && n in h' && n in data ==> n in data' && data'[n] == data[n])
  }

  lemma {:induction false} RenewedTimer(h: seq<Ptr>, data: map<Ptr, Timer>, h1: seq<Ptr>, data1: map<Ptr, Timer>,
                                        h': seq<Ptr>, gone: set<Ptr>, z: Ptr, i: nat, t: Timer)
    requires Dropped(h, data, h1, data1, gone) && Inserted(h1, h', z, i) && z !in h1
    ensures Renewed(h, data, h', data1[z := t], gone, z, t)
  {
    assert forall n :: n in h' <==> n in h1 || n == z;
  }

  lemma {:induction false} TimerSetAgain(a: seq<Connection>, b: seq<Connection>, d: seq<Connection>, c: nat)
    requires c < |a| && b == a[c := a[c].(timerSet := false)] && c < |d|
    requires d == b[c := b[c].(timerSet := true, timer := d[c].timer)]
    ensures d == a[c := a[c].(timerSet := true, timer := d[c].timer)]
  {
  }

  // A descriptor is added to the watched ones, or one without a timer is dropped.
  lemma {:induction false} OwnedWatch(h: seq<Ptr>, data: map<Ptr, Timer>, conns: seq<Connection>, fds: seq<nat>,
                                      fds': seq<nat>, orphans: set<Ptr>)
    requires Owned(h, data, conns, fds, orphans)
    requires forall c :: 0 <= c < |conns| && conns[c].timerSet && c in fds ==> c in fds'
    ensures Owned(h, data, conns, fds', orphans)
  {
  }

  // f is the handler of one of the timers.
  ghost predicate Behind(fired: seq<Ptr>, data: map<Ptr, Timer>, f: nat) {
    exists n :: n in fired && n in data && data[n].handler == f
  }

  // So far `fired` have gone off, in the order of the tree, and the descriptors of their connections are no longer
  // watched.
  ghost predicate Expired(now: Msec, h: seq<Ptr>, data: map<Ptr, Timer>, fds: seq<nat>, fired: seq<Ptr>, h': seq<Ptr>,
                          data': map<Ptr, Timer>, fds': seq<nat>) {
    && h == fired + h'
    && (forall n :: n in h' ==> n in data && n in data' && data'[n] == data[n])
    && (forall n :: n in fired ==> n in data && !StillRunning(now, data[n]) && data[n].handler in fds)
    && (forall f :: f in fds' <==> f in fds && !Behind(fired, data, f))
  }

  lemma {:induction false} ExpireOne(now: Msec, h: seq<Ptr>, data: map<Ptr, Timer>, fds: seq<nat>, fired: seq<Ptr>,
                                     h1: seq<Ptr>, data1: map<Ptr, Timer>, fds1: seq<nat>, data': map<Ptr, Timer>,
                                     fds': seq<nat>)
    requires Expired(now, h, data, fds, fired, h1, data1, fds1) && |h1| > 0 && NoDup(h)
    requires h1[0] in data1 && !StillRunning(now, data1[h1[0]]) && data1[h1[0]].handler in fds1
    requires data' == data1 || data' == data1 - {h1[0]}
    requires forall f :: f in fds' <==> f in fds1 && f != data1[h1[0]].handler
    ensures Expired(now, h, data, fds, fired + [h1[0]], h1[1..], data', fds')
  {
    var fired', h' := fired + [h1[0]], h1[1..];
    assert h == fired' + h';
    assert forall n :: n in fired' <==> n in fired || n == h1[0];
    forall n | n in h'
      ensures n in h1 && n != h1[0]
    {
      var j :| 0 <= j < |h'| && h'[j] == n;
      assert h[|fired'| + j] == n && h[|fired|] == h1[0];
    }
  }

  lemma {:induction false} PlainOrder(lo: int, a: Timer, b: Timer)
    requires lo <= a.msec < lo + HALF && lo <= b.msec < lo + HALF
    ensures Minus(b, a) < 0 <==> b.msec < a.msec
  {
  }

  // When each node was added, counted in nodes, and the number of the next one.
  datatype Births = Births(of: map<Ptr, nat>, next: nat)

  function Later(births: Births, n: Ptr): Births {
    Births(births.of[n := births.next], births.next + 1)
  }

  // Nodes with the same deadline stand in the order in which they were added.
  ghost predicate InTurn(h: seq<Ptr>, data: map<Ptr, Timer>, births: Births) {
    && (forall n :: n in h ==> n in data && n in births.of && births.of[n] < births.next)
    && (forall i, j :: 0 <= i < j < |h| && data[h[i]].msec == data[h[j]].msec ==> births.of[h[i]] < births.of[h[j]])
  }

  ghost predicate OnTime(h: seq<Ptr>, data: map<Ptr, Timer>, births: Births, lo: int, hi: int) {
    && Ordered(Minus, h, data) && InTurn(h, data, births)
    && 0 <= lo <= hi < lo + HALF && hi < WORD && forall n :: n in h ==> lo <= data[n].msec <= hi
  }

  lemma {:induction false} OnTimeOrder(lo: int, hi: int, keys: set<Timer>)
    requires 0 <= lo <= hi < lo + HALF && hi < WORD && forall t :: t in keys ==> lo <= t.msec <= hi
    ensures StrictWeak(Minus, keys)
  {
    forall t | t in keys
      ensures Unwrap(lo, t) == t.msec
    {
      assert 0 <= t.msec - lo < WORD;
    }
    WindowOrder(lo, keys);
  }

  lemma {:induction false} OnTimeComparable(h: seq<Ptr>, nodes: set<Ptr>, data: map<Ptr, Timer>, births: Births,
                                            lo: int, hi: int, t: Timer)
    requires OnTime(h, data, births, lo, hi) && lo <= t.msec <= hi && forall n :: n in nodes <==> n in h
    ensures CanPlace(Minus, t, h, data, {t} + set n | n in nodes && n in data :: data[n])
  {
    OnTimeOrder(lo, hi, {t} + set n | n in nodes && n in data :: data[n]);
  }

  lemma {:induction false} OnTimeInsert(h: seq<Ptr>, h': seq<Ptr>, data: map<Ptr, Timer>, births: Births,
                                        lo: int, hi: int, z: Ptr, i: nat, t: Timer)
    requires OnTime(h, data, births, lo, hi) && Inserted(h, h', z, i) && z !in h && lo <= t.msec <= hi
    requires Ordered(Minus, h', data[z := t]) && Between(Minus, t, h, i, data)
    ensures OnTime(h', data[z := t], Later(births, z), lo, hi)
  {
    assert forall n :: n in h' ==> n in h || n == z;
    InTurnInsert(h, h', data, births, z, i, t);
  }

  // The new node comes after those with the same deadline.
  lemma {:induction false} InTurnInsert(h: seq<Ptr>, h': seq<Ptr>, data: map<Ptr, Timer>, births: Births, z: Ptr,
                                        i: nat, t: Timer)
    requires InTurn(h, data, births) && Inserted(h, h', z, i) && z !in h && Between(Minus, t, h, i, data)
    ensures InTurn(h', data[z := t], Later(births, z))
  {
    assert forall n :: n in h' ==> n in h || n == z;
    assert forall n :: i <= n < |h| ==> data[h[n]].msec != t.msec;
    forall j, k | 0 <= j < k < |h'| && data[z := t][h'[j]].msec == data[z := t][h'[k]].msec
      ensures Later(births, z).of[h'[j]] < Later(births, z).of[h'[k]]
    {
      InTurnPair(h, h', data, births, z, i, t, j, k);
    }
  }

  lemma {:induction false} InTurnPair(h: seq<Ptr>, h': seq<Ptr>, data: map<Ptr, Timer>, births: Births, z: Ptr,
                                      i: nat, t: Timer, j: nat, k: nat)
    requires InTurn(h, data, births) && Inserted(h, h', z, i) && z !in h
    requires forall n :: i <= n < |h| ==> data[h[n]].msec != t.msec
    requires j < k < |h'| && h'[j] in data[z := t] && h'[k] in data[z := t]
    requires data[z := t][h'[j]].msec == data[z := t][h'[k]].msec
    ensures h'[j] in Later(births, z).of && h'[k] in Later(births, z).of
    ensures Later(births, z).of[h'[j]] < Later(births, z).of[h'[k]]
  {
    var j', k' := if j < i then j else j - 1, if k < i then k else k - 1;
    if k == i {
      assert h'[k] == z && h'[j] == h[j'] && h[j'] in h;
    } else if j != i {
      assert h'[j] == h[j'] && h'[k] == h[k'] && h[j'] in h && h[k'] in h;
    }
  }

  lemma {:induction false} OnTimeRemove(h: seq<Ptr>, h': seq<Ptr>, data: map<Ptr, Timer>, data': map<Ptr, Timer>,
                                        births: Births, lo: int, hi: int, z: Ptr, i: nat)
    requires OnTime(h, data, births, lo, hi) && Removed(h, h', z, i) && NoDup(h)
    requires (data' == data || data' == data - {z}) && Ordered(Minus, h', data')
    ensures OnTime(h', data', births, lo, hi)
  {
    RemovedMembers(h, h', z, i);
    InTurnRemove(h, h', data, data', births, z, i);
  }

  lemma {:induction false} InTurnRemove(h: seq<Ptr>, h': seq<Ptr>, data: map<Ptr, Timer>, data': map<Ptr, Timer>,
                                        births: Births, z: Ptr, i: nat)
    requires InTurn(h, data, births) && Removed(h, h', z, i) && (data' == data || data' == data - {z})
    requires forall n :: n in h' <==> n in h && n != z
    ensures InTurn(h', data', births)
  {
    assert forall n :: n in h' ==> data'[n] == data[n];
    forall j, k | 0 <= j < k < |h'| && data'[h'[j]].msec == data'[h'[k]].msec
      ensures births.of[h'[j]] < births.of[h'[k]]
    {
      InTurnStays(h, h', data, births, z, i, j, k);
    }
  }

  lemma {:induction false} InTurnStays(h: seq<Ptr>, h': seq<Ptr>, data: map<Ptr, Timer>, births: Births, z: Ptr, i: nat,
                                       j: nat, k: nat)
    requires InTurn(h, data, births) && Removed(h, h', z, i) && j < k < |h'| && h'[j] in data && h'[k] in data
    requires data[h'[j]].msec == data[h'[k]].msec
    ensures h'[j] in births.of && h'[k] in births.of && births.of[h'[j]] < births.of[h'[k]]
  {
    assert h'[j] == h[if j < i then j else j + 1] && h'[k] == h[if k < i then k else k + 1];
  }

  // What is due has been removed from the front, so the rest lies ahead.
  lemma {:induction false} OnTimeAfter(h: seq<Ptr>, data: map<Ptr, Timer>, births: Births, lo: int, now: Msec, hi: int)
    requires OnTime(h, data, births, lo, hi) && lo <= now <= hi && (h != [] ==> StillRunning(now, data[h[0]]))
    ensures OnTime(h, data, births, now, hi)
  {
    forall n | n in h
      ensures now <= data[n].msec
    {
      var j :| 0 <= j < |h| && h[j] == n;
      if j > 0 {
        assert h[0] in h;
        PlainOrder(lo, data[h[0]], data[n]);
      }
    }
  }

  // The timers that went off are those that were due, in deadline order and in the order of insertion among equals.
  ghost predicate DueInOrder(now: Msec, h: seq<Ptr>, data: map<Ptr, Timer>, births: Births, fired: seq<Ptr>) {
    && (forall n :: n in h ==> n in data && n in births.of && (n in fired <==> data[n].msec <= now))
    && (forall i :: 0 <= i < |fired| ==> fired[i] in h)
    && (forall i, j :: 0 <= i < j < |fired| ==>
          data[fired[i]].msec < data[fired[j]].msec ||
          (data[fired[i]].msec == data[fired[j]].msec && births.of[fired[i]] < births.of[fired[j]]))
  }

  /** handle_expired is exact as long as no deadline wraps around and they lie less than half the range apart. */
  lemma {:induction false} ExpiredExactly(now: Msec, lo: int, hi: int, h: seq<Ptr>, data: map<Ptr, Timer>,
                                          births: Births, fds: seq<nat>, fired: seq<Ptr>, h': seq<Ptr>,
                                          data': map<Ptr, Timer>, fds': seq<nat>)
    requires Expired(now, h, data, fds, fired, h', data', fds') && OnTime(h, data, births, lo, hi)
    requires h' != [] ==> StillRunning(now, data'[h'[0]])
    ensures DueInOrder(now, h, data, births, fired)
  {
    forall n | n in h'
      ensures StillRunning(now, data[n])
    {
      var j :| 0 <= j < |h'| && h'[j] == n;
      assert h[|fired|] == h'[0] && h[|fired| + j] == n && h'[0] in h';
      if j > 0 {
        PlainOrder(lo, data[h'[0]], data[n]);
      }
    }
    forall i, j | 0 <= i < j < |fired|
      ensures data[fired[i]].msec < data[fired[j]].msec ||
              (data[fired[i]].msec == data[fired[j]].msec && births.of[fired[i]] < births.of[fired[j]])
    {
      assert h[i] == fired[i] && h[j] == fired[j];
      PlainOrder(lo, data[fired[i]], data[fired[j]]);
    }
    assert forall i :: 0 <= i < |fired| ==> h[i] == fired[i];
  }

  // Deadlines on an axis that does not wrap around, in the order of the tree: each less than half the range from the
  // time n, and all of them in a window of that width.
  ghost predicate Deadlines(base: int, n: int, h: seq<Ptr>, data: map<Ptr, Timer>, d: seq<int>) {
    |d| == |h| && forall i :: 0 <= i < |h| ==> h[i] in data && DueAt(base, n, data[h[i]], d[i])
  }

  ghost predicate DueAt(base: int, n: int, t: Timer, d: int) {
    t.msec == d % WORD && base <= d < base + HALF && -HALF < d - n < HALF
  }

  lemma {:induction false} DeadlinesSorted(base: int, n: int, h: seq<Ptr>, data: map<Ptr, Timer>, d: seq<int>, i: nat,
                                           j: nat)
    requires Deadlines(base, n, h, data, d) && Ordered(Minus, h, data) && i < j < |h|
    ensures d[i] <= d[j]
  {
    UnwrapDeadline(base, data[h[i]], d[i]);
    UnwrapDeadline(base, data[h[j]], d[j]);
    UnwrapMinus(base, data[h[j]], data[h[i]]);
  }

  // The first of the timers that have not gone off is still running, as handle_expired sees it.
  ghost predicate Stopped(now: Msec, h': seq<Ptr>, data': map<Ptr, Timer>) {
    h' != [] ==> h'[0] in data' && StillRunning(now, data'[h'[0]])
  }

  // k timers have gone off, and these are the ones that were due.
  ghost predicate RightlyFired(n: int, d: seq<int>, k: nat) {
    forall i :: 0 <= i < |d| ==> (i < k <==> d[i] <= n)
  }

  // All timers before the one at i are due; since they are sorted, the one before it tells.
  ghost predicate Reached(n: int, d: seq<int>, i: nat) {
    i < |d| && (i == 0 || d[i - 1] <= n)
  }

  // No multiple of 2^32 lies between the time and those deadlines that are due, or the first one that is not.
  ghost predicate SameEpoch(n: int, d: seq<int>) {
    forall i: nat :: Reached(n, d, i) ==> d[i] / WORD == n / WORD
  }

  // The test was right for the timer at i, if it came to it.
  lemma {:induction false} TestedExactly(base: int, n: int, h: seq<Ptr>, data: map<Ptr, Timer>, d: seq<int>,
                                         fds: seq<nat>, fired: seq<Ptr>, h': seq<Ptr>, data': map<Ptr, Timer>,
                                         fds': seq<nat>, i: nat)
    requires Expired(n % WORD, h, data, fds, fired, h', data', fds') && Stopped(n % WORD, h', data')
    requires Deadlines(base, n, h, data, d) && i <= |fired| && i < |d|
    ensures (i < |fired| <==> d[i] <= n) <==> d[i] / WORD == n / WORD
  {
    ExpiryTestExact(n, d[i], data[h[i]]);
    if i < |fired| {
      assert h[i] == fired[i] && fired[i] in fired;
    } else {
      assert h[i] == h'[0] && h'[0] in h';
    }
  }

  // All that went off were due, if no wrap-around came between.
  lemma {:induction false} FiredDue(base: int, n: int, h: seq<Ptr>, data: map<Ptr, Timer>, d: seq<int>,
                                    fds: seq<nat>, fired: seq<Ptr>, h': seq<Ptr>, data': map<Ptr, Timer>,
                                    fds': seq<nat>, k: nat)
    requires Expired(n % WORD, h, data, fds, fired, h', data', fds') && Stopped(n % WORD, h', data')
    requires Deadlines(base, n, h, data, d) && SameEpoch(n, d) && k <= |fired|
    ensures forall i :: 0 <= i < k ==> d[i] <= n
  {
    if k > 0 {
      FiredDue(base, n, h, data, d, fds, fired, h', data', fds', k - 1);
      TestedExactly(base, n, h, data, d, fds, fired, h', data', fds', k - 1);
      assert Reached(n, d, k - 1);
    }
  }

  /**
   handle_expired fires exactly the timers that are due if and only if no multiple of 2^32 milliseconds lies between
   the time and a deadline that is due, or the first one after those.
   */
  lemma {:induction false} ExpiryExact(base: int, n: int, h: seq<Ptr>, data: map<Ptr, Timer>, d: seq<int>,
                                       fds: seq<nat>, fired: seq<Ptr>, h': seq<Ptr>, data': map<Ptr, Timer>,
                                       fds': seq<nat>)
    requires Expired(n % WORD, h, data, fds, fired, h', data', fds') && Stopped(n % WORD, h', data')
    requires Deadlines(base, n, h, data, d) && Ordered(Minus, h, data)
    ensures RightlyFired(n, d, |fired|) <==> SameEpoch(n, d)
  {
    var k := |fired|;
    if RightlyFired(n, d, k) {
      forall i: nat | Reached(n, d, i)
        ensures d[i] / WORD == n / WORD
      {
        TestedExactly(base, n, h, data, d, fds, fired, h', data', fds', i);
      }
    }
    if SameEpoch(n, d) {
      FiredDue(base, n, h, data, d, fds, fired, h', data', fds', k);
      if k < |d| {
        TestedExactly(base, n, h, data, d, fds, fired, h', data', fds', k);
        assert Reached(n, d, k);
        forall i | k < i < |d|
          ensures n < d[i]
        {
          DeadlinesSorted(base, n, h, data, d, k, i);
        }
      }
    }
  }

  /** A timer due in 16 milliseconds, just after the clock wraps around, goes off at once. */
  lemma {:induction false} FiresEarly(h: seq<Ptr>, data: map<Ptr, Timer>, fds: seq<nat>, fired: seq<Ptr>, h': seq<Ptr>,
                                      data': map<Ptr, Timer>, fds': seq<nat>)
    requires var n := WORD - 8;
             Expired(n % WORD, h, data, fds, fired, h', data', fds') && Stopped(n % WORD, h', data') &&
             Deadlines(WORD - 8, n, h, data, [WORD + 8])
    ensures fired == h && |h| == 1 && !RightlyFired(WORD - 8, [WORD + 8], |fired|)
  {
    assert [WORD + 8][0] > WORD - 8;
    assert |h| == |fired| + |h'|;
    assert h[0] == (fired + h')[0];
  }

  /**
   Just after the wrap-around, a timer that has been due for 16 milliseconds does not go off, nor does the one behind
   it, which has been due for 4 and would go off alone.
   */
  lemma {:induction false} BlocksOthers(h: seq<Ptr>, data: map<Ptr, Timer>, fds: seq<nat>, fired: seq<Ptr>,
                                        h': seq<Ptr>, data': map<Ptr, Timer>, fds': seq<nat>)
    requires var n := WORD + 8;
             Expired(n % WORD, h, data, fds, fired, h', data', fds') && Stopped(n % WORD, h', data') &&
             (Deadlines(WORD - 8, n, h, data, [WORD - 8]) || Deadlines(WORD - 8, n, h, data, [WORD - 8, WORD + 4]))
    ensures fired == []
    ensures |h| == 2 ==> !StillRunning(8, data[h[1]])
  {
    var n, base := WORD + 8, WORD - 8;
    if |h| == 1 {
      TestedExactly(base, n, h, data, [WORD - 8], fds, fired, h', data', fds', 0);
    } else {
      TestedExactly(base, n, h, data, [WORD - 8, WORD + 4], fds, fired, h', data', fds', 0);
    }
  }

  // The clock moves on, by less than half its range, and no deadline set now wraps around.
  ghost predicate Ticks(since: int, now: int, next: int, maxIdle: nat) {
    since <= now <= next && next + maxIdle * 1000 < since + HALF && next + maxIdle * 1000 < WORD
  }

  ghost predicate Steady(times: seq<Msec>, maxIdle: nat) {
    forall k :: 0 < k < |times| ==> Ticks(times[k - 1], times[k - 1], times[k], maxIdle)
  }

  // The connections whose timer is armed.
  ghost function Armed(conns: seq<Connection>): set<nat> {
    set c | 0 <= c < |conns| && conns[c].timerSet
  }

  /** There are as many live nodes as connections with an armed timer. */
  lemma {:induction false} OneTimerEach(h: seq<Ptr>, data: map<Ptr, Timer>, conns: seq<Connection>, fds: seq<nat>)
    requires Owned(h, data, conns, fds, {}) && NoDup(h)
    ensures |Armed(conns)| == |h|
  {
    var owners := seq(|h|, i requires 0 <= i < |h| => assert HeldBy(data, conns, h[i]); data[h[i]].handler);
    assert forall i :: 0 <= i < |h| ==> HeldBy(data, conns, h[i]) && owners[i] == data[h[i]].handler;
    assert forall i :: 0 <= i < |h| ==> conns[owners[i]].timer == h[i];
    forall c | c in Armed(conns)
      ensures c in owners
    {
      var i :| 0 <= i < |h| && h[i] == conns[c].timer;
      assert owners[i] == c;
    }
    RangeSize(owners);
    assert Armed(conns) == Range(owners);

  }

  lemma {:induction false} RangeSize<P>(s: seq<P>)
    requires NoDup(s)
    ensures |Range(s)| == |s|
  {
    if |s| > 0 {
      RangePop(s);
      RangeSize(s[..|s| - 1]);
    }
  }

  // A new connection with its timer.
  lemma {:induction false} OwnedOpen(h: seq<Ptr>, h': seq<Ptr>, data: map<Ptr, Timer>, conns: seq<Connection>,
                                     fds: seq<nat>, fds': seq<nat>, c: nat, z: Ptr, i: nat, t: Timer)
    requires Owned(h, data, conns, fds, {}) && c < |conns| && c !in fds && fds' == fds + [c]
    requires Inserted(h, h', z, i) && z !in h && t.handler == c
    ensures Owned(h', data[z := t], conns[c := conns[c].(timer := z, fd := c, timerSet := true)], fds', {})
  {
    assert forall n :: n in h' <==> n in h || n == z;
    assert forall f :: f in fds' <==> f in fds || f == c;
  }

  // Only the readable and writable flags differ.
  lemma {:induction false} OwnedFlags(h: seq<Ptr>, data: map<Ptr, Timer>, conns: seq<Connection>,
                                      conns': seq<Connection>, fds: seq<nat>, orphans: set<Ptr>)
    requires Owned(h, data, conns, fds, orphans) && |conns'| == |conns|
    requires forall c :: 0 <= c < |conns| ==>
             conns'[c] == conns[c].(readable := conns'[c].readable, writable := conns'[c].writable)
    ensures Owned(h, data, conns', fds, orphans)
  {
  }

  // c, the connection of p.fd, now knows this descriptor as its own.
  lemma {:induction false} WatchMore(polls: seq<PollFd>, conns: seq<Connection>, listeners: set<nat>, p: PollFd,
                                     c: Connection)
    requires Watched(polls, conns, listeners) && p.fd !in Fds(polls) && p.fd < |conns| && c.fd == p.fd
    ensures Fds(polls + [p]) == Fds(polls) + [p.fd] && Watched(polls + [p], conns[p.fd := c], listeners)
  {
    FdsAppend(polls, p);
  }

  lemma {:induction false} WatchListener(polls: seq<PollFd>, conns: seq<Connection>, listeners: set<nat>, p: PollFd)
    requires Watched(polls, conns, listeners) && p.fd !in Fds(polls) && p.fd < |conns| && p.fd in listeners
    ensures Fds(polls + [p]) == Fds(polls) + [p.fd] && Watched(polls + [p], conns, listeners)
  {
    FdsAppend(polls, p);
  }

  lemma {:induction false} WatchLess(polls: seq<PollFd>, fd: nat)
    requires NoDup(Fds(polls))
    ensures NoDup(Fds(RemovePoll(polls, fd))) && (forall p :: p in RemovePoll(polls, fd) ==> p in polls)
    ensures forall f :: f in Fds(RemovePoll(polls, fd)) <==> f in Fds(polls) && f != fd
  {
    var i := Find(polls, fd);
    if i < |polls| {
      SwapRemoveFds(polls, i);
      SwapRemoveMembers(Fds(polls), i);
      assert forall j :: 0 <= j < |polls| - 1 ==> SwapRemove(polls, i)[j] == polls[if j == i then |polls| - 1 else j];
    }
  }

  lemma {:induction false} SwapRemoveMembers(s: seq<nat>, i: nat)
    requires NoDup(s) && i < |s|
    ensures NoDup(SwapRemove(s, i)) && forall f :: f in SwapRemove(s, i) <==> f in s && f != s[i]
  {
    var r := SwapRemove(s, i);
    assert forall j :: 0 <= j < |r| ==> r[j] == s[if j == i then |s| - 1 else j];
    forall f | f in s && f != s[i]
      ensures f in r
    {
      var j :| 0 <= j < |s| && s[j] == f;
      assert r[if j == |s| - 1 then i else j] == f;
    }
  }

  // Other events for the descriptor at i.
  lemma {:induction false} ModifyFds(polls: seq<PollFd>, conns: seq<Connection>, listeners: set<nat>, i: nat, ev: nat)
    requires Watched(polls, conns, listeners) && i < |polls|
    ensures var p := PollFd(polls[i].fd, ev, NOTHING);
            Fds(polls[i := p]) == Fds(polls) && Watched(polls[i := p], conns, listeners)
  {
    var p := PollFd(polls[i].fd, ev, NOTHING);
    assert forall q :: q in polls[i := p] ==> q == p || q in polls;
  }

  // Other results of poll for the same entries.
  lemma {:induction false} PolledSame(polls: seq<PollFd>, polls': seq<PollFd>, conns: seq<Connection>,
                                    listeners: set<nat>)
    requires Watched(polls, conns, listeners) && |polls'| == |polls|
    requires forall i :: 0 <= i < |polls| ==> polls'[i].fd == polls[i].fd
    ensures Fds(polls') == Fds(polls) && Watched(polls', conns, listeners)
  {
    forall p | p in polls'
      ensures p.fd < |conns| && (p.fd in listeners || conns[p.fd].fd == p.fd)
    {
      var i :| 0 <= i < |polls'| && polls'[i] == p;
      assert polls[i] in polls;
    }
  }

  lemma {:induction false} FirstOnly(h: seq<Ptr>, z: Ptr, i: nat)
    requires Inserted([], h, z, i)
    ensures h == [z]
  {
  }

  ghost predicate OneTimer(h: seq<Ptr>, data: map<Ptr, Timer>, t: Timer) {
    |h| == 1 && h[0] in data && data[h[0]] == t
  }

  // The only timer goes off, and with it the only connection goes.
  lemma {:induction false} OnlyFired(now: Msec, h: seq<Ptr>, data: map<Ptr, Timer>, fds: seq<nat>, fired: seq<Ptr>,
                                     h': seq<Ptr>, data': map<Ptr, Timer>, fds': seq<nat>, t: Timer)
    requires Expired(now, h, data, fds, fired, h', data', fds') && Stopped(now, h', data')
    requires OneTimer(h, data, t) && !StillRunning(now, t) && fds == [t.handler]
    ensures h' == [] && t.handler !in fds'
  {
    assert |h| == |fired| + |h'| && h[0] == (fired + h')[0];
    assert fired[0] in fired;
    assert forall f :: f !in fds';
    assert Behind(fired, data, t.handler);
  }

  lemma {:induction false} OnlyKept(now: Msec, h: seq<Ptr>, data: map<Ptr, Timer>, fds: seq<nat>, fired: seq<Ptr>,
                                    h': seq<Ptr>, data': map<Ptr, Timer>, fds': seq<nat>, t: Timer)
    requires Expired(now, h, data, fds, fired, h', data', fds') && Stopped(now, h', data')
    requires OneTimer(h, data, t) && StillRunning(now, t)
    ensures fired == [] && OneTimer(h', data', t)
  {
    assert |h| == |fired| + |h'| && h[0] == (fired + h')[0];
    assert h == fired + h';
  }

  // ---------------------------------------------------------------- who is called

  predicate RanFor(call: Call, fd: nat, writing: bool) {
    call.Running? && call.fd == fd && call.writing == writing && if writing then call.writable else call.readable
  }

  // A ready entry gets these calls: a listener accepts, a connection is told that it can read and then that it can
  // write, unless the first call gave up or has changed the entry.
  ghost predicate CallsFor(p: PollFd, listeners: set<nat>, calls: seq<Call>) {
    if p.fd in listeners then
      if p.revents.pollin then |calls| == 1 && calls[0].Accepting? && calls[0].fd == p.fd else calls == []
    else if p.revents.pollin then
      |calls| > 0 && RanFor(calls[0], p.fd, false) &&
      if calls[0].ok && !calls[0].modified && p.revents.pollout then |calls| == 2 && RanFor(calls[1], p.fd, true)
      else |calls| == 1
    else if p.revents.pollout then |calls| == 1 && RanFor(calls[0], p.fd, true)
    else calls == []
  }

  ghost predicate WritesFor(p: PollFd, calls: seq<Call>) {
    if p.revents.pollout then |calls| == 1 && RanFor(calls[0], p.fd, true) else calls == []
  }

  // on_readable was called, and then, q being what it left of the entry, on_writable or nothing.
  lemma {:induction false} CallsAfter(p: PollFd, q: PollFd, listeners: set<nat>, log: seq<Call>, first: Call,
                                      later: seq<Call>)
    requires p.fd !in listeners && p.revents.pollin && RanFor(first, p.fd, false)
    requires q.fd == p.fd && q.revents == if first.modified then NOTHING else p.revents
    requires if first.ok then WritesFor(q, later) else later == []
    ensures CallsFor(p, listeners, [first] + later) && log + [first] + later == log + ([first] + later)
    ensures GaveUp([first] + later) <==> !first.ok || GaveUp(later)
  {
  }

  // The last call returned false.
  predicate GaveUp(calls: seq<Call>) {
    calls != [] && calls[|calls| - 1].Running? && !calls[|calls| - 1].ok
  }

  // A new connection was accepted with that descriptor.
  predicate Admitted(calls: seq<Call>, fd: int) {
    exists k :: 0 <= k < |calls| && calls[k].Accepting? && calls[k].allowed && calls[k].client == fd
  }

  function Flat(served: seq<seq<Call>>): seq<Call> {
    if served == [] then [] else Flat(served[..|served| - 1]) + served[|served| - 1]
  }

  // Each visited entry got its calls.
  ghost predicate AllCalled(visited: seq<PollFd>, listeners: set<nat>, served: seq<seq<Call>>) {
    |served| == |visited| && forall k :: 0 <= k < |visited| ==> CallsFor(visited[k], listeners, served[k])
  }

  lemma {:induction false} CalledMore(log: seq<Call>, visited: seq<PollFd>, listeners: set<nat>,
                                      served: seq<seq<Call>>, p: PollFd, calls: seq<Call>)
    requires AllCalled(visited, listeners, served) && CallsFor(p, listeners, calls)
    ensures AllCalled(visited + [p], listeners, served + [calls])
    ensures log + Flat(served) + calls == log + Flat(served + [calls])
  {
    assert (served + [calls])[..|served|] == served;
  }

  // The accepted descriptor is watched at the end, and its connection has a timer.
  ghost predicate Opened(polls: seq<PollFd>, polls': seq<PollFd>, conns: seq<Connection>, client: int, events: nat) {
    && 0 <= client < |conns| && client !in Fds(polls) && polls' == polls + [PollFd(client, events, NOTHING)]
    && conns[client].fd == client && conns[client].timerSet
  }

  lemma {:induction false} OpenedFds(polls: seq<PollFd>, polls': seq<PollFd>, conns: seq<Connection>, call: Call,
                                     events: nat)
    requires call.Accepting?
    requires if call.allowed then Opened(polls, polls', conns, call.client, events) else polls' == polls
    ensures forall f :: f in Fds(polls') ==> f in Fds(polls) || Admitted([call], f)
  {
    if call.allowed {
      FdsAppend(polls, PollFd(call.client, events, NOTHING));
      assert [call][0] == call && Admitted([call], call.client);
    }
  }

  // One round: what poll has reported for the watched descriptors, unless it failed, and who was called.
  datatype Report = Report(polls: seq<PollFd>, failed: bool, visited: seq<PollFd>, served: seq<seq<Call>>)

  // Each ready entry has been visited once and got its calls.
  ghost predicate Reported(report: Report, listeners: set<nat>) {
    && AllCalled(report.visited, listeners, report.served)
    && if report.failed then report.visited == [] else OnceEach(report.polls, report.visited)
  }

  lemma {:induction false} TouchedTwice(a: seq<PollFd>, b: seq<PollFd>, c: seq<PollFd>, i: nat)
    requires i < |a| && Touched(a, b, i) && Touched(b, c, i)
    ensures Touched(a, c, i)
  {
    assert forall k :: |a| <= k < |c| && k < |b| ==> c[k] == b[k];
  }

  // The calls of all rounds.
  function AllCalls(reports: seq<Report>): seq<Call> {
    if reports == [] then [] else AllCalls(reports[..|reports| - 1]) + Flat(reports[|reports| - 1].served)
  }

  ghost predicate AllReported(reports: seq<Report>, listeners: set<nat>) {
    forall k :: 0 <= k < |reports| ==> Reported(reports[k], listeners)
  }

  lemma {:induction false} ReportedMore(log: seq<Call>, reports: seq<Report>, listeners: set<nat>, report: Report)
    requires AllReported(reports, listeners) && Reported(report, listeners)
    ensures AllReported(reports + [report], listeners)
    ensures log + AllCalls(reports) + Flat(report.served) == log + AllCalls(reports + [report])
  {
    assert (reports + [report])[..|reports|] == reports;
  }

  lemma {:induction false} GoneMore(fds: seq<nat>, fds': seq<nat>, visited: seq<PollFd>, served: seq<seq<Call>>,
                                    p: PollFd, calls: seq<Call>)
    requires GoneUnlessAccepted(fds, visited, served) && |served| == |visited|
    requires forall f :: f in fds' ==> f in fds || Admitted(calls, f)
    requires GaveUp(calls) ==> p.fd !in fds'
    ensures GoneUnlessAccepted(fds', visited + [p], served + [calls])
  {
    var visited', served' := visited + [p], served + [calls];
    forall k | 0 <= k < |visited'| && GaveUp(served'[k]) && visited'[k].fd in fds'
      ensures exists j :: k < j < |served'| && Admitted(served'[j], visited'[k].fd)
    {
      assert k < |visited| && visited'[k] == visited[k] && served'[k] == served[k];
      if visited[k].fd in fds {
        var j :| k < j < |served| && Admitted(served[j], visited[k].fd);
        assert served'[j] == served[j];
      } else {
        assert served'[|served|] == calls;
      }
    }
  }

  // A descriptor whose connection gave up is watched again only if it was accepted again.
  ghost predicate GoneUnlessAccepted(fds: seq<nat>, visited: seq<PollFd>, served: seq<seq<Call>>) {
    forall k :: 0 <= k < |visited| && k < |served| && GaveUp(served[k]) && visited[k].fd in fds ==>
      exists j :: k < j < |served| && Admitted(served[j], visited[k].fd)
  }

  const READ := 1
  const WRITE := 4

  // ---------------------------------------------------------------- the server

  // The selector is seen here through its watched entries; how its arrays hold them is PollSelector's business.
  class TcpServer {
    const timers: RedBlackTree<Timer>
    const maxIdle: nat                 // tcp_connection::_M_max_idle_time, in seconds
    const listeners: set<nat>          // the descriptors whose handler is a listener
    const clientWritesFirst: bool
    var polls: seq<PollFd>             // what the selector watches
    var conns: seq<Connection>         // one for every possible descriptor
    var now: Msec                      // _M_current_msec
    ghost var since: int               // the time of the last handle_expired
    ghost var births: Births
    ghost var calls: seq<Call>         // the calls of handlers for events, in their order

    ghost predicate Consistent()
      reads this, timers
    {
      timers.Valid() && timers.cmp == Minus && Watched(polls, conns, listeners)
    }

    // Between two events: timers and connections own each other, and connections with timers are watched.
    ghost predicate Valid()
      reads this, timers
    {
      Consistent() && Owned(timers.Handles(), timers.data, conns, Fds(polls), {})
    }

    constructor (size: nat, maxIdle: nat, now: Msec, listeners: set<nat>, clientWritesFirst: bool)
      ensures Valid() && polls == [] && timers.Handles() == [] && fresh(timers) && |conns| == size
      ensures this.maxIdle == maxIdle && this.listeners == listeners && this.now == since == now
      ensures this.clientWritesFirst == clientWritesFirst && calls == []
      ensures maxIdle * 1000 < HALF && now + maxIdle * 1000 < WORD ==> Punctual()
    {
      timers := new RedBlackTree<Timer>(Minus, Timer(0, 0, 0));
      this.maxIdle := maxIdle;
      this.listeners := listeners;
      this.clientWritesFirst := clientWritesFirst;
      this.now := now;
      since := now;
      births := Births(map[], 0);
      calls := [];
      polls := [];
      conns := seq(size, i => Connection(0, 0, false, false, false));
    }

    // The tree is sorted, equal deadlines in the order of insertion, and the deadlines lie between the last
    // handle_expired and the latest one possible, less than half the range apart and without wrapping around.
    ghost predicate Punctual()
      reads this`now, this`since, this`births, timers
    {
      OnTime(timers.Handles(), timers.data, births, since, now + maxIdle * 1000)
    }

    // What malloc returns: any address that is not in use.
    method Malloc() returns (a: Ptr)
      ensures a !in timers.links
    {
      ghost var b := AboveAll(timers.links.Keys);
      assert b !in timers.links;
      a :| a !in timers.links;
    }

    static lemma {:induction false} AboveAll(s: set<Ptr>) returns (a: Ptr)
      ensures forall x :: x in s ==> x < a
      decreases s
    {
      if s == {} {
        a := 0;
      } else {
        var x :| x in s;
        var b := AboveAll(s - {x});
        a := if x < b then b else x + 1;
        assert forall y :: y in s ==> y == x || y in s - {x};
      }
    }

    // add_timer's deadline.
    function Deadline(): Msec
      reads this`now
    {
      (now + maxIdle * 1000) % WORD
    }

    // What a new connection is watched for.
    function FirstEvents(): nat {
      if clientWritesFirst then READ else WRITE
    }

    // The node of the connection's timer, if it is armed.
    ghost function Own(c: nat): set<Ptr>
      requires c < |conns|
      reads this
    {
      if conns[c].timerSet then {conns[c].timer} else {}
    }

    method DeleteTimer(c: nat, ghost orphans: set<Ptr>)
      requires Consistent() && Owned(timers.Handles(), timers.data, conns, Fds(polls), orphans)
      requires c < |conns| && (conns[c].timerSet ==> orphans == {})
      modifies this`conns, timers
      ensures Consistent() && Owned(timers.Handles(), timers.data, conns, Fds(polls), orphans)
      ensures conns == old(conns)[c := old(conns)[c].(timerSet := false)]
      ensures Dropped(old(timers.Handles()), old(timers.data), timers.Handles(), timers.data, old(Own(c)))
      ensures !old(conns)[c].timerSet ==> timers.Handles() == old(timers.Handles()) && timers.data == old(timers.data)
      ensures !old(Punctual()) || Punctual()
    {
      if conns[c].timerSet {
        DisarmTimer(c);
      }
    }

    // timers::del
    method DisarmTimer(c: nat)
      requires Valid() && c < |conns| && conns[c].timerSet
      modifies this`conns, timers
      ensures Valid() && conns == old(conns)[c := old(conns)[c].(timerSet := false)]
      ensures Dropped(old(timers.Handles()), old(timers.data), timers.Handles(), timers.data, {old(conns)[c].timer})
      ensures !old(Punctual()) || Punctual()
    {
      ghost var h, d := timers.Handles(), timers.data;
      ghost var i := EraseNode(conns[c].timer);
      RemovedMembers(h, timers.Handles(), conns[c].timer, i);
      ClearTimer(c, h, d, i);
    }

    // The timer of the connection, the i-th node of h, has been erased.
    method ClearTimer(c: nat, ghost h: seq<Ptr>, ghost d: map<Ptr, Timer>, ghost i: nat)
      requires Consistent() && NoDup(h) && Owned(h, d, conns, Fds(polls), {}) && c < |conns| && conns[c].timerSet
      requires Removed(h, timers.Handles(), conns[c].timer, i) &&
               (timers.data == d || timers.data == d - {conns[c].timer})
      modifies this`conns
      ensures Valid() && conns == old(conns)[c := old(conns)[c].(timerSet := false)]
    {
      OwnedDrop(h, timers.Handles(), d, timers.data, conns, Fds(polls), c, i);
      conns := conns[c := conns[c].(timerSet := false)];
    }

    method AddTimer(c: nat)
      requires Valid() && c < |conns| && conns[c].fd == c && c in Fds(polls)
      modifies this`conns, this`births, timers
      ensures Valid() && |conns| == |old(conns)|
      ensures conns == old(conns)[c := old(conns)[c].(timerSet := true, timer := conns[c].timer)]
      ensures Renewed(old(timers.Handles()), old(timers.data), timers.Handles(), timers.data, old(Own(c)),
                      conns[c].timer, Timer(Deadline(), c, 0))
      ensures !old(Punctual()) || Punctual()
    {
      ghost var conns0, h0, d0, own := conns, timers.Handles(), timers.data, Own(c);
      DeleteTimer(c, {});
      ghost var conns1, h1, d1 := conns, timers.Handles(), timers.data;
      assert conns1[c].fd == c && !conns1[c].timerSet;
      ghost var i := ArmTimer(c);
      RenewedTimer(h0, d0, h1, d1, timers.Handles(), own, conns[c].timer, i, Timer(Deadline(), c, 0));
      TimerSetAgain(conns0, conns1, conns, c);
    }

    // timers::add, with the connection as the handler and its iterator as the result.
    method ArmTimer(c: nat) returns (ghost i: nat)
      requires Valid() && c < |conns| && conns[c].fd == c && c in Fds(polls) && !conns[c].timerSet
      modifies this`conns, this`births, timers
      ensures Valid() && |conns| == |old(conns)|
      ensures conns == old(conns)[c := old(conns)[c].(timerSet := true, timer := conns[c].timer)]
      ensures conns[c].timer !in old(timers.Handles())
      ensures Inserted(old(timers.Handles()), timers.Handles(), conns[c].timer, i)
      ensures timers.data == old(timers.data)[conns[c].timer := Timer(Deadline(), c, 0)]
      ensures !old(Punctual()) || Punctual()
    {
      ghost var h, d := timers.Handles(), timers.data;
      var t := Timer(Deadline(), c, 0);
      var z;
      z, i := AddNode(t);
      SetTimer(c, z, h, d, i, t);
    }

    // The node z with the timer t has been added for the connection.
    method SetTimer(c: nat, z: Ptr, ghost h: seq<Ptr>, ghost d: map<Ptr, Timer>, ghost i: nat, ghost t: Timer)
      requires Consistent() && Owned(h, d, conns, Fds(polls), {}) && c < |conns| && !conns[c].timerSet
      requires conns[c].fd == c && c in Fds(polls) && t.handler == c
      requires Inserted(h, timers.Handles(), z, i) && z !in h && timers.data == d[z := t]
      modifies this`conns
      ensures Valid() && conns == old(conns)[c := old(conns)[c].(timerSet := true, timer := z)]
    {
      OwnedArm(h, timers.Handles(), d, conns, Fds(polls), c, z, i, t);
      conns := conns[c := conns[c].(timer := z, timerSet := true)];
    }

    // The new key can be compared with those of the tree.
    lemma {:induction false} PunctualComparable(t: Timer)
      requires Consistent() && Punctual() && t.msec == Deadline()
      ensures timers.Comparable(t) && t.msec == now + maxIdle * 1000
    {
      InOrderNodes(timers.tree);
      OnTimeComparable(timers.Handles(), Nodes(timers.tree), timers.data, births, since, now + maxIdle * 1000, t);
    }

    // timers::del, whoever the node belongs to.
    method EraseNode(z: Ptr) returns (ghost i: nat)
      requires Consistent() && z in timers.Handles()
      modifies timers
      ensures Consistent() && NoDup(old(timers.Handles())) && Removed(old(timers.Handles()), timers.Handles(), z, i)
      ensures timers.data == old(timers.data) || timers.data == old(timers.data) - {z}
      ensures !old(Punctual()) || Punctual()
    {
      timers.HandlesDistinct();
      ghost var h, d, punctual := timers.Handles(), timers.data, Punctual();
      i := timers.Erase(z);
      if punctual {
        OnTimeRemove(h, timers.Handles(), d, timers.data, births, since, now + maxIdle * 1000, z, i);
      }
    }

    method AddNode(t: Timer) returns (z: Ptr, ghost i: nat)
      requires Consistent() && t.msec == Deadline()
      modifies this`births, timers
      ensures Consistent() && timers.data == old(timers.data)[z := t]
      ensures z !in old(timers.Handles()) && Inserted(old(timers.Handles()), timers.Handles(), z, i)
      ensures !old(Punctual()) || Punctual()
    {
      z, i := PlaceNode(t, Punctual());
      births := Later(births, z);
    }

    // The same, before the birth is recorded.
    method PlaceNode(t: Timer, ghost punctual: bool) returns (z: Ptr, ghost i: nat)
      requires Consistent() && t.msec == Deadline() && (punctual ==> Punctual())
      modifies timers
      ensures Consistent() && timers.data == old(timers.data)[z := t]
      ensures z !in old(timers.Handles()) && Inserted(old(timers.Handles()), timers.Handles(), z, i)
      ensures punctual ==> OnTime(timers.Handles(), timers.data, Later(births, z), since, now + maxIdle * 1000)
    {
      ghost var h, d := timers.Handles(), timers.data;
      if punctual {
        PunctualComparable(t);
      }
      z, i := InsertNode(t, punctual);
      if punctual {
        OnTimeInsert(h, timers.Handles(), d, births, since, now + maxIdle * 1000, z, i, t);
      }
    }

    // The new node goes behind the keys that are not greater, if it can be compared with them.
    method InsertNode(t: Timer, ghost comparable: bool) returns (z: Ptr, ghost i: nat)
      requires Consistent() && (comparable ==> timers.Comparable(t))
      modifies timers
      ensures Consistent() && timers.data == old(timers.data)[z := t]
      ensures z !in old(timers.Handles()) && Inserted(old(timers.Handles()), timers.Handles(), z, i)
      ensures comparable ==> timers.Sorted() && Between(Minus, t, old(timers.Handles()), i, old(timers.data))
    {
      var a := Malloc();
      z, i := timers.Insert(t, a);
    }

    // What add_listener does with the selector.
    method Listen(fd: nat)
      requires Valid() && fd in listeners && fd < |conns|
      modifies this`polls
      ensures Valid() && polls == AddPoll(old(polls), fd, READ)
    {
      if fd !in Fds(polls) {
        WatchListener(polls, conns, listeners, PollFd(fd, READ, NOTHING));
        OwnedWatch(timers.Handles(), timers.data, conns, Fds(polls), Fds(polls) + [fd], {});
      }
      polls := AddPoll(polls, fd, READ);
    }

    // accept has returned fd, a descriptor that was not open.
    method OnNewConnection(fd: nat) returns (ghost i: nat)
      requires Valid() && fd < |conns| && fd !in Fds(polls)
      modifies this`conns, this`polls, this`births, timers
      ensures Valid() && |conns| == |old(conns)| && polls == old(polls) + [PollFd(fd, FirstEvents(), NOTHING)]
      ensures conns == old(conns)[fd := old(conns)[fd].(fd := fd, timerSet := true, timer := conns[fd].timer)]
      ensures conns[fd].timer !in old(timers.Handles())
      ensures Inserted(old(timers.Handles()), timers.Handles(), conns[fd].timer, i)
      ensures timers.data == old(timers.data)[conns[fd].timer := Timer(Deadline(), fd, 0)]
      ensures !old(Punctual()) || Punctual()
    {
      ghost var h, d := timers.Handles(), timers.data;
      var t := Timer(Deadline(), fd, 0);
      var z;
      z, i := AddNode(t);
      Enlist(fd, z, h, d, i, t);
    }

    // The rest of on_new_connection, the timer of the connection having been added.
    method Enlist(fd: nat, z: Ptr, ghost h: seq<Ptr>, ghost d: map<Ptr, Timer>, ghost i: nat, ghost t: Timer)
      requires Consistent() && fd < |conns| && fd !in Fds(polls) && Owned(h, d, conns, Fds(polls), {}) &&
               t.handler == fd
      requires Inserted(h, timers.Handles(), z, i) && z !in h && timers.data == d[z := t]
      modifies this`conns, this`polls
      ensures Valid() && polls == old(polls) + [PollFd(fd, FirstEvents(), NOTHING)]
      ensures conns == old(conns)[fd := old(conns)[fd].(fd := fd, timerSet := true, timer := z)]
    {
      ghost var conn := conns[fd].(timer := z, fd := fd, timerSet := true);
      WatchMore(polls, conns, listeners, PollFd(fd, FirstEvents(), NOTHING), conn);
      OwnedOpen(h, timers.Handles(), d, conns, Fds(polls), Fds(polls) + [fd], fd, z, i, t);
      polls := AddPoll(polls, fd, FirstEvents());
      conns := conns[fd := conns[fd].(timer := z, fd := fd, timerSet := true)];
    }

    // tcp_connection::free, as far as timers and events go.
    method Free(c: nat, ghost orphans: set<Ptr>)
      requires Consistent() && Owned(timers.Handles(), timers.data, conns, Fds(polls), orphans)
      requires c < |conns| && (conns[c].timerSet ==> orphans == {})
      modifies this`conns, timers
      ensures Consistent() && Owned(timers.Handles(), timers.data, conns, Fds(polls), orphans)
      ensures |conns| == |old(conns)| && conns == old(conns)[c := conns[c]] && conns[c].fd == old(conns)[c].fd &&
              !conns[c].timerSet && !conns[c].readable && !conns[c].writable
      ensures Dropped(old(timers.Handles()), old(timers.data), timers.Handles(), timers.data, old(Own(c)))
      ensures !old(conns)[c].timerSet ==> timers.Handles() == old(timers.Handles()) && timers.data == old(timers.data)
      ensures !old(Punctual()) || Punctual()
    {
      DeleteTimer(c, orphans);
      ghost var conns1 := conns;
      conns := conns[c := conns[c].(readable := false, writable := false)];
      OwnedFlags(timers.Handles(), timers.data, conns1, conns, Fds(polls), orphans);
    }

    // selector::remove of a descriptor whose connection has no timer.
    method Unwatch(fd: nat, ghost orphans: set<Ptr>)
      requires Consistent() && Owned(timers.Handles(), timers.data, conns, Fds(polls), orphans)
      requires fd < |conns| && !conns[fd].timerSet
      modifies this`polls
      ensures Consistent() && Owned(timers.Handles(), timers.data, conns, Fds(polls), orphans)
      ensures polls == RemovePoll(old(polls), fd) && fd !in Fds(polls)
      ensures forall f :: f in Fds(polls) <==> f in Fds(old(polls)) && f != fd
    {
      WatchLess(polls, fd);
      OwnedWatch(timers.Handles(), timers.data, conns, Fds(polls), Fds(RemovePoll(polls, fd)), orphans);
      polls := RemovePoll(polls, fd);
    }

    method DeleteConnection(c: nat, ghost orphans: set<Ptr>)
      requires Consistent() && Owned(timers.Handles(), timers.data, conns, Fds(polls), orphans)
      requires c < |conns| && conns[c].fd == c && (conns[c].timerSet ==> orphans == {})
      modifies this`conns, this`polls, timers
      ensures Consistent() && Owned(timers.Handles(), timers.data, conns, Fds(polls), orphans)
      ensures |conns| == |old(conns)| && conns == old(conns)[c := conns[c]] && !conns[c].timerSet &&
              polls == RemovePoll(old(polls), c)
      ensures Dropped(old(timers.Handles()), old(timers.data), timers.Handles(), timers.data, old(Own(c)))
      ensures !old(conns)[c].timerSet ==> timers.Handles() == old(timers.Handles()) && timers.data == old(timers.data)
      ensures forall f :: f in Fds(polls) <==> f in Fds(old(polls)) && f != c
      ensures !old(Punctual()) || Punctual()
    {
      Free(c, orphans);
      Unwatch(conns[c].fd, orphans);
    }

    // connection::on_timer, while the expired node n is still in the tree.
    method OnTimer(c: nat, ghost n: Ptr)
      requires Valid() && n in timers.Handles() && n in timers.data && timers.data[n].handler == c && c < |conns|
      modifies this`conns, this`polls, timers
      ensures Consistent() && Owned(timers.Handles(), timers.data, conns, Fds(polls), {n}) && |conns| == |old(conns)|
      ensures timers.Handles() == old(timers.Handles()) && timers.data == old(timers.data)
      ensures c in Fds(old(polls)) && forall f :: f in Fds(polls) <==> f in Fds(old(polls)) && f != c
    {
      OwnedExpire(timers.Handles(), timers.data, conns, Fds(polls), n);
      conns := conns[c := conns[c].(timerSet := false)];
      DeleteConnection(c, {n});
    }

    // ---------------------------------------------------------------- expiry

    // The first node expires: its connection is told, then the node goes.
    method FireFirst(it: Ptr)
      requires Valid() && timers.Handles() != [] && it == timers.Handles()[0]
      modifies this`conns, this`polls, timers
      ensures Valid() && |conns| == |old(conns)| && timers.Handles() == old(timers.Handles())[1..]
      ensures timers.data == old(timers.data) || timers.data == old(timers.data) - {it}
      ensures it in old(timers.data) && old(timers.data)[it].handler in Fds(old(polls))
      ensures forall f :: f in Fds(polls) <==> f in Fds(old(polls)) && f != old(timers.data)[it].handler
      ensures !old(Punctual()) || Punctual()
    {
      ghost var h, d := timers.Handles(), timers.data;
      OwnedExpire(h, d, conns, Fds(polls), it);
      OnTimer(timers.data[it].handler, it);
      ghost var i := EraseNode(it);
      OwnedErase(h, timers.Handles(), d, timers.data, conns, Fds(polls), it, i);
      assert i == 0;
    }

    // The same, after `fired` have gone off.
    method FireNext(it: Ptr, ghost h: seq<Ptr>, ghost d: map<Ptr, Timer>, ghost fds: seq<nat>, ghost fired: seq<Ptr>)
      requires Valid() && NoDup(h) && Expired(now, h, d, fds, fired, timers.Handles(), timers.data, Fds(polls))
      requires |timers.Handles()| > 0 && it == timers.Handles()[0] && it in timers.data &&
               !StillRunning(now, timers.data[it])
      modifies this`conns, this`polls, timers
      ensures Valid() && |conns| == |old(conns)| && timers.Handles() == old(timers.Handles())[1..]
      ensures Expired(now, h, d, fds, fired + [it], timers.Handles(), timers.data, Fds(polls))
      ensures !old(Punctual()) || Punctual()
    {
      ghost var h1, d1, fds1 := timers.Handles(), timers.data, Fds(polls);
      FireFirst(it);
      ExpireOne(now, h, d, fds, fired, h1, d1, fds1, timers.data, Fds(polls));
    }

    /**
     timers::handle_expired.  What it fires is the longest prefix of the tree's order whose deadlines pass the
     test, and the connections behind those timers are the ones it closes.
     */
    method HandleExpired() returns (ghost fired: seq<Ptr>)
      requires Valid()
      modifies this`conns, this`polls, timers
      ensures Valid() && |conns| == |old(conns)|
      ensures Expired(now, old(timers.Handles()), old(timers.data), Fds(old(polls)), fired, timers.Handles(),
              timers.data, Fds(polls))
      ensures timers.Handles() != [] ==> StillRunning(now, timers.data[timers.Handles()[0]])
      ensures old(Punctual()) ==> Punctual()
    {
      ghost var h, d, fds := timers.Handles(), timers.data, Fds(polls);
      timers.HandlesDistinct();
      fired := [];
      var it := timers.Begin();
      while it != timers.nil
        invariant Valid() && |conns| == |old(conns)|
        invariant if it == timers.nil then timers.Handles() == []
                  else |timers.Handles()| > 0 && it == timers.Handles()[0]
        invariant Expired(now, h, d, fds, fired, timers.Handles(), timers.data, Fds(polls))
        invariant old(Punctual()) ==> Punctual()
        decreases |timers.Handles()|
      {
        if StillRunning(now, timers.data[it]) {
          break;
        }
        FireNext(it, h, d, fds, fired);
        fired := fired + [it];
        it := timers.Begin();
      }
    }

    // The same with only one timer, which goes off if the plain comparison says so.
    method ExpireOnly(ghost t: Timer) returns (ghost fired: seq<Ptr>)
      requires Valid() && OneTimer(timers.Handles(), timers.data, t) && Fds(polls) == [t.handler]
      modifies this`conns, this`polls, timers
      ensures if StillRunning(now, t) then fired == [] && OneTimer(timers.Handles(), timers.data, t)
              else timers.Handles() == [] && t.handler !in Fds(polls)
    {
      ghost var h, d, fds := timers.Handles(), timers.data, Fds(polls);
      fired := HandleExpired();
      ghost var h', d', fds' := timers.Handles(), timers.data, Fds(polls);
      if StillRunning(now, t) {
        OnlyKept(now, h, d, fds, fired, h', d', fds', t);
      } else {
        OnlyFired(now, h, d, fds, fired, h', d', fds', t);
      }
    }

    // The first connection of a server.
    method AcceptFirst(fd: nat)
      requires Valid() && timers.Handles() == [] && polls == [] && fd < |conns|
      modifies this`conns, this`polls, this`births, timers
      ensures Valid() && Fds(polls) == [fd]
      ensures OneTimer(timers.Handles(), timers.data, Timer(Deadline(), fd, 0))
    {
      assert Fds(polls) == [];
      ghost var i := OnNewConnection(fd);
      FirstOnly(timers.Handles(), conns[fd].timer, i);
      assert polls == [PollFd(fd, FirstEvents(), NOTHING)];
    }

    // The first connection of a server, and the next handle_expired.
    method AcceptAndExpire(fd: nat, clock: Msec) returns (ghost fired: seq<Ptr>)
      requires Valid() && timers.Handles() == [] && polls == [] && fd < |conns|
      modifies this`conns, this`polls, this`now, this`births, timers
      ensures now == clock
      ensures var t := Timer(old(Deadline()), fd, 0);
              if StillRunning(clock, t) then fired == [] && OneTimer(timers.Handles(), timers.data, t)
              else timers.Handles() == [] && fd !in Fds(polls)
    {
      AcceptFirst(fd);
      ghost var t := Timer(Deadline(), fd, 0);
      Tick(clock);
      fired := ExpireOnly(t);
    }

    // ---------------------------------------------------------------- events

    // tcp_connection::modify
    method Rewatch(c: nat, events: nat, ghost i: nat)
      requires Valid() && i < |polls| && polls[i].fd == c
      modifies this`polls
      ensures Valid() && Touched(old(polls), polls, i) && Fds(polls) == Fds(old(polls)) && polls[i].revents == NOTHING
    {
      FindUnique(polls, i);
      ModifyFds(polls, conns, listeners, i, events);
      polls := ModifyPoll(polls, c, events);
    }

    // connection::run as far as timers and events go: any sequence of steps, and any result.  The flag that it is
    // called for is set.
    method Run(c: nat, ghost writing: bool, ghost i: nat) returns (ok: bool, ghost call: Call)
      requires Valid() && i < |polls| && polls[i].fd == c && c < |conns| && conns[c].fd == c
      requires if writing then conns[c].writable else conns[c].readable
      modifies this`conns, this`polls, this`births, this`calls, timers
      ensures Valid() && |conns| == |old(conns)| && conns[c].fd == c && Touched(old(polls), polls, i)
      ensures Fds(polls) == Fds(old(polls)) && calls == old(calls) + [call]
      ensures call.Running? &&
              call == Running(c, writing, old(conns)[c].readable, old(conns)[c].writable, call.modified, ok)
      ensures polls[i].revents == if call.modified then NOTHING else old(polls)[i].revents
      ensures !old(Punctual()) || Punctual()
    {
      ghost var found := conns[c];
      ghost var modified := Steps(c, i);
      ok := *;
      call := Running(c, writing, found.readable, found.writable, modified, ok);
      calls := calls + [call];
    }

    method Steps(c: nat, ghost i: nat) returns (ghost modified: bool)
      requires Valid() && i < |polls| && polls[i].fd == c && c < |conns| && conns[c].fd == c
      modifies this`conns, this`polls, this`births, timers
      ensures Valid() && |conns| == |old(conns)| && conns[c].fd == c && Touched(old(polls), polls, i)
      ensures Fds(polls) == Fds(old(polls))
      ensures polls[i].revents == if modified then NOTHING else old(polls)[i].revents
      ensures !old(Punctual()) || Punctual()
    {
      var script: seq<RunStep> := *;
      var k := 0;
      modified := false;
      while k < |script|
        invariant Valid() && |conns| == |old(conns)| && conns[c].fd == c && Touched(old(polls), polls, i)
        invariant Fds(polls) == Fds(old(polls))
        invariant polls[i].revents == if modified then NOTHING else old(polls)[i].revents
        invariant !old(Punctual()) || Punctual()
      {
        Perform(script[k], c, i);
        modified := modified || script[k].WaitFor?;
        k := k + 1;
      }
    }

    method Perform(step: RunStep, c: nat, ghost i: nat)
      requires Valid() && i < |polls| && polls[i].fd == c && c < |conns| && conns[c].fd == c
      modifies this`conns, this`polls, this`births, timers
      ensures Valid() && |conns| == |old(conns)| && conns[c].fd == c && Touched(old(polls), polls, i)
      ensures Fds(polls) == Fds(old(polls))
      ensures polls[i].revents == if step.WaitFor? then NOTHING else old(polls)[i].revents
      ensures !old(Punctual()) || Punctual()
    {
      match step {
        case ArmTimer =>
          assert Fds(polls)[i] == c;
          AddTimer(c);
        case DropTimer =>
          DeleteTimer(c, {});
        case WaitFor(events) =>
          Rewatch(c, events, i);
        case Blocked(writing) =>
          SetFlags(c, conns[c].readable && writing, conns[c].writable && !writing);
      }
    }

    // The flags say that the socket may be read or written.
    method SetFlags(c: nat, readable: bool, writable: bool)
      requires Valid() && c < |conns|
      modifies this`conns
      ensures Valid() && conns == old(conns)[c := old(conns)[c].(readable := readable, writable := writable)]
    {
      ghost var conns0 := conns;
      conns := conns[c := conns[c].(readable := readable, writable := writable)];
      OwnedFlags(timers.Handles(), timers.data, conns0, conns, Fds(polls), {});
    }

    // tcp_connection::on_readable and tcp_connection::on_writable.
    method OnReady(c: nat, writing: bool, ghost i: nat) returns (ok: bool, ghost call: Call)
      requires Valid() && i < |polls| && polls[i].fd == c && c < |conns| && conns[c].fd == c
      modifies this`conns, this`polls, this`births, this`calls, timers
      ensures Valid() && |conns| == |old(conns)| && conns[c].fd == c && Touched(old(polls), polls, i)
      ensures Fds(polls) == Fds(old(polls)) && calls == old(calls) + [call] && RanFor(call, c, writing) && call.ok == ok
      ensures polls[i].revents == if call.modified then NOTHING else old(polls)[i].revents
      ensures call.readable == (old(conns)[c].readable || !writing)
      ensures call.writable == (old(conns)[c].writable || writing)
      ensures !ok ==> !conns[c].timerSet && !conns[c].readable && !conns[c].writable
      ensures !old(Punctual()) || Punctual()
    {
      SetFlags(c, conns[c].readable || !writing, conns[c].writable || writing);
      ok, call := Run(c, writing, i);
      if !ok {
        Free(c, {});
      }
    }

    // accept fails, or returns a descriptor that was not open.
    method Accept() returns (fd: int)
      ensures fd == -1 || (0 <= fd < |conns| && fd !in Fds(polls) && fd !in listeners)
    {
      fd := *;
      if !(0 <= fd < |conns|) || fd in Fds(polls) || fd in listeners {
        fd := -1;
      }
    }

    // listener::on_readable
    method OnAcceptable(listener: nat, ghost i: nat) returns (ghost call: Call)
      requires Valid() && i < |polls| && polls[i].fd == listener
      modifies this`conns, this`polls, this`births, this`calls, timers
      ensures Valid() && |conns| == |old(conns)| && Touched(old(polls), polls, i)
      ensures calls == old(calls) + [call] && call.Accepting? && call.fd == listener
      ensures if call.allowed then Opened(old(polls), polls, conns, call.client, FirstEvents()) else polls == old(polls)
      ensures !old(Punctual()) || Punctual()
    {
      var fd := Accept();
      var allowed: bool := *;
      allowed := allowed && fd != -1;
      call := Accepting(listener, fd, allowed);
      calls := calls + [call];
      if allowed {
        Welcome(fd, i);
      }
    }

    method Welcome(fd: nat, ghost i: nat)
      requires Valid() && i < |polls| && fd < |conns| && fd !in Fds(polls)
      modifies this`conns, this`polls, this`births, timers
      ensures Valid() && |conns| == |old(conns)| && Touched(old(polls), polls, i)
      ensures Opened(old(polls), polls, conns, fd, FirstEvents())
      ensures !old(Punctual()) || Punctual()
    {
      ghost var k := OnNewConnection(fd);
    }

    // The handler of the ready entry at i is called for what it is ready for, until it gives up.
    method CallHandler(i: nat) returns (kept: bool, ghost called: seq<Call>)
      requires Valid() && i < |polls|
      modifies this`conns, this`polls, this`births, this`calls, timers
      ensures Valid() && |conns| == |old(conns)| && Touched(old(polls), polls, i)
      ensures calls == old(calls) + called && CallsFor(old(polls)[i], listeners, called) && kept == !GaveUp(called)
      ensures forall f :: f in Fds(polls) ==> f in Fds(old(polls)) || Admitted(called, f)
      ensures !kept ==> !conns[polls[i].fd].timerSet
      ensures !old(Punctual()) || Punctual()
    {
      if polls[i].fd in listeners {
        called := CallListener(i);
        return true, called;
      }
      kept, called := CallConnection(i);
    }

    method CallListener(i: nat) returns (ghost called: seq<Call>)
      requires Valid() && i < |polls| && polls[i].fd in listeners
      modifies this`conns, this`polls, this`births, this`calls, timers
      ensures Valid() && |conns| == |old(conns)| && Touched(old(polls), polls, i)
      ensures calls == old(calls) + called && CallsFor(old(polls)[i], listeners, called) && !GaveUp(called)
      ensures forall f :: f in Fds(polls) ==> f in Fds(old(polls)) || Admitted(called, f)
      ensures !old(Punctual()) || Punctual()
    {
      called := [];
      if polls[i].revents.pollin {
        ghost var polls0 := polls;
        ghost var call := OnAcceptable(polls[i].fd, i);
        called := [call];
        OpenedFds(polls0, polls, conns, call, FirstEvents());
      }
    }

    method CallConnection(i: nat) returns (kept: bool, ghost called: seq<Call>)
      requires Valid() && i < |polls| && polls[i].fd !in listeners
      modifies this`conns, this`polls, this`births, this`calls, timers
      ensures Valid() && |conns| == |old(conns)| && Touched(old(polls), polls, i) && Fds(polls) == Fds(old(polls))
      ensures calls == old(calls) + called && CallsFor(old(polls)[i], listeners, called) && kept == !GaveUp(called)
      ensures !kept ==> !conns[polls[i].fd].timerSet
      ensures !old(Punctual()) || Punctual()
    {
      if polls[i].revents.pollin {
        kept, called := CallReading(i);
      } else {
        kept, called := CallWriting(i);
      }
    }

    // on_readable, and then on_writable.
    method CallReading(i: nat) returns (kept: bool, ghost called: seq<Call>)
      requires Valid() && i < |polls| && polls[i].fd !in listeners && polls[i].revents.pollin
      modifies this`conns, this`polls, this`births, this`calls, timers
      ensures Valid() && |conns| == |old(conns)| && Touched(old(polls), polls, i) && Fds(polls) == Fds(old(polls))
      ensures calls == old(calls) + called && CallsFor(old(polls)[i], listeners, called) && kept == !GaveUp(called)
      ensures !kept ==> !conns[polls[i].fd].timerSet
      ensures !old(Punctual()) || Punctual()
    {
      ghost var polls0, log := polls, calls;
      ghost var call;
      kept, call := OnReady(polls[i].fd, false, i);
      ghost var polls1, later := polls, [];
      if kept {
        kept, later := CallWriting(i);
        TouchedTwice(polls0, polls1, polls, i);
      }
      called := [call] + later;
      CallsAfter(polls0[i], polls1[i], listeners, log, call, later);
    }

    // on_writable, if poll has reported that and the report is still there.
    method CallWriting(i: nat) returns (kept: bool, ghost called: seq<Call>)
      requires Valid() && i < |polls| && polls[i].fd !in listeners
      modifies this`conns, this`polls, this`births, this`calls, timers
      ensures Valid() && |conns| == |old(conns)| && Touched(old(polls), polls, i) && Fds(polls) == Fds(old(polls))
      ensures calls == old(calls) + called && WritesFor(old(polls)[i], called) && kept == !GaveUp(called)
      ensures !kept ==> !conns[polls[i].fd].timerSet
      ensures !old(Punctual()) || Punctual()
    {
      kept, called := true, [];
      if polls[i].revents.pollout {
        ghost var call;
        kept, call := OnReady(polls[i].fd, true, i);
        called := [call];
      }
    }

    // The same, and the descriptor of a handler that gave up is removed; then another entry stands at i.
    method Dispatch(i: nat) returns (kept: bool, ghost called: seq<Call>)
      requires Valid() && i < |polls|
      modifies this`conns, this`polls, this`births, this`calls, timers
      ensures Valid() && |conns| == |old(conns)| && if kept then i < |polls| else i <= |polls|
      ensures ReadyBag(polls[if kept then i + 1 else i..]) == ReadyBag(old(polls)[i+1..])
      ensures calls == old(calls) + called && CallsFor(old(polls)[i], listeners, called) && kept == !GaveUp(called)
      ensures !kept ==> old(polls)[i].fd !in Fds(polls)
      ensures forall f :: f in Fds(polls) ==> f in Fds(old(polls)) || Admitted(called, f)
      ensures !old(Punctual()) || Punctual()
    {
      ghost var polls0 := polls;
      kept, called := CallHandler(i);
      RoundBag(polls0, polls, i);
      if !kept {
        DropEntry(i);
      }
    }

    method DropEntry(i: nat)
      requires Valid() && i < |polls| && !conns[polls[i].fd].timerSet
      modifies this`polls
      ensures Valid() && polls == SwapRemove(old(polls), i) && old(polls)[i].fd !in Fds(polls)
      ensures forall f :: f in Fds(polls) ==> f in Fds(old(polls))
    {
      ghost var polls0 := polls;
      Unwatch(polls[i].fd, {});
      RemoveAt(polls0, i);
    }

    /**
     selector::process, when poll reported `nevents` ready entries: every one of them is visited exactly once,
     whatever the handlers add, change or have removed on the way.  Each gets its calls, and nobody else is called;
     a connection that gives up is no longer watched, unless its descriptor has been accepted again.
     */
    method Process(nevents: nat) returns (ghost visited: seq<PollFd>, ghost served: seq<seq<Call>>)
      requires Valid() && nevents == |ReadyBag(polls)|
      modifies this`conns, this`polls, this`births, this`calls, timers
      ensures Valid() && |conns| == |old(conns)| && OnceEach(old(polls), visited)
      ensures AllCalled(visited, listeners, served) && calls == old(calls) + Flat(served)
      ensures GoneUnlessAccepted(Fds(polls), visited, served)
      ensures !old(Punctual()) || Punctual()
    {
      ghost var all := ReadyBag(polls);
      ReadyOnce(polls);
      visited, served := [], [];
      var i, n := 0, nevents;
      assert polls[0..] == polls;
      while i < |polls| && n > 0
        invariant Valid() && |conns| == |old(conns)| && Pending(all, visited, n, polls, i)
        invariant AllCalled(visited, listeners, served) && calls == old(calls) + Flat(served)
        invariant GoneUnlessAccepted(Fds(polls), visited, served)
        invariant !old(Punctual()) || Punctual()
        decreases n, |polls| - i
      {
        ghost var polls0 := polls;
        VisitFirst(all, visited, n, polls0, i);
        if polls[i].revents.Any() {
          n := n - 1;
          var kept;
          ghost var called;
          kept, called := Dispatch(i);
          CalledMore(old(calls), visited, listeners, served, polls0[i], called);
          GoneMore(Fds(polls0), Fds(polls), visited, served, polls0[i], called);
          visited, served := visited + [polls0[i]], served + [called];
          if !kept {
            continue;
          }
        }
        i := i + 1;
      }
      VisitedAll(all, visited, n, polls, i);
    }

    // poll: it reports on every watched descriptor, and returns how many are ready, or that it failed.
    method Poll() returns (r: int)
      requires Valid()
      modifies this`polls
      ensures Valid() && Fds(polls) == Fds(old(polls))
      ensures r < 0 || r == |ReadyBag(polls)|
      ensures !old(Punctual()) || Punctual()
    {
      ghost var polls0 := polls;
      var asked := polls;
      var report: nat -> Revents := *;
      polls := seq(|asked|, i requires 0 <= i < |asked| => asked[i].(revents := report(i)));
      PolledSame(polls0, polls, conns, listeners);
      var failed: bool := *;
      r := if failed then -1 else |ReadyBag(polls)|;
    }

    // One round of tcp_server::start; `clock` is the time after poll has returned.
    method Round(clock: Msec) returns (ghost report: Report)
      requires Valid()
      modifies this, timers
      ensures Valid() && now == clock && since == clock
      ensures Reported(report, listeners) && calls == old(calls) + Flat(report.served)
      ensures Fds(report.polls) == Fds(old(polls))
      ensures old(Punctual()) && Ticks(old(since), old(now), clock, maxIdle) ==> Punctual()
    {
      report := ProcessEvents(clock);
      ghost var fired := CloseIdle();
    }

    // selector::process_events
    method ProcessEvents(clock: Msec) returns (ghost report: Report)
      requires Valid()
      modifies this`conns, this`polls, this`now, this`births, this`calls, timers
      ensures Valid() && now == clock
      ensures Reported(report, listeners) && calls == old(calls) + Flat(report.served)
      ensures Fds(report.polls) == Fds(old(polls))
      ensures !(old(Punctual()) && Ticks(since, old(now), clock, maxIdle)) || Punctual()
    {
      var r := Await(clock);
      report := Report(polls, r < 0, [], []);
      ReadyOnce(polls);
      if r > 0 {
        ghost var visited, served := Process(r);
        report := report.(visited := visited, served := served);
      }
    }

    // poll, and then the time.
    method Await(clock: Msec) returns (r: int)
      requires Valid()
      modifies this`polls, this`now
      ensures Valid() && now == clock && (r < 0 || r == |ReadyBag(polls)|) && Fds(polls) == Fds(old(polls))
      ensures !(old(Punctual()) && Ticks(since, old(now), clock, maxIdle)) || Punctual()
    {
      r := Poll();
      Tick(clock);
    }

    // After handle_expired, nothing in the tree is due; the timers that were due have gone off in their order.
    method CloseIdle() returns (ghost fired: seq<Ptr>)
      requires Valid()
      modifies this`conns, this`polls, this`since, timers
      ensures Valid() && since == now
      ensures old(Punctual()) && old(since) <= now ==>
                Punctual() && DueInOrder(now, old(timers.Handles()), old(timers.data), births, fired)
    {
      fired := FireDue(Punctual() && since <= now);
      since := now;
    }

    method FireDue(ghost punctual: bool) returns (ghost fired: seq<Ptr>)
      requires Valid() && (punctual ==> Punctual() && since <= now)
      modifies this`conns, this`polls, timers
      ensures Valid()
      ensures punctual ==> OnTime(timers.Handles(), timers.data, births, now, now + maxIdle * 1000)
      ensures punctual ==> DueInOrder(now, old(timers.Handles()), old(timers.data), births, fired)
    {
      ghost var h, d, fds := timers.Handles(), timers.data, Fds(polls);
      fired := HandleExpired();
      if punctual {
        ExpiredExactly(now, since, now + maxIdle * 1000, h, d, births, fds, fired, timers.Handles(), timers.data,
                       Fds(polls));
        OnTimeAfter(timers.Handles(), timers.data, births, since, now, now + maxIdle * 1000);
      }
    }

    // tcp_server::update_time
    method Tick(clock: Msec)
      requires Valid()
      modifies this`now
      ensures Valid() && now == clock
      ensures !(old(Punctual()) && Ticks(since, old(now), clock, maxIdle)) || Punctual()
    {
      now := clock;
    }

    /**
     Any number of rounds, with any behaviour of clients and handlers, and any clock.  Live nodes and armed timers
     match at every turn.  As long as the clock neither goes back nor jumps by half its range nor wraps around,
     the tree is sorted after every round and holds no overdue timer.  In each round, every ready entry gets its calls.
     */
    method Serve(clock: seq<Msec>) returns (ghost reports: seq<Report>)
      requires Valid() && since == now
      modifies this, timers
      ensures Valid() && |Armed(conns)| == |timers.Handles()| == timers.used
      ensures |reports| == |clock| && AllReported(reports, listeners) && calls == old(calls) + AllCalls(reports)
      ensures old(Punctual()) && Steady([old(now)] + clock, maxIdle) ==>
                timers.Sorted() &&
                forall n :: n in timers.Handles() ==> now <= timers.data[n].msec <= now + maxIdle * 1000
    {
      ghost var times := [now] + clock;
      ghost var steady := Punctual() && Steady(times, maxIdle);
      reports := [];
      for k := 0 to |clock|
        invariant Valid() && since == now == times[k] && (steady ==> Punctual())
        invariant |reports| == k && AllReported(reports, listeners) && calls == old(calls) + AllCalls(reports)
      {
        ghost var report := Round(clock[k]);
        ReportedMore(old(calls), reports, listeners, report);
        reports := reports + [report];
      }
      timers.HandlesDistinct();
      OneTimerEach(timers.Handles(), timers.data, conns, Fds(polls));
    }
  }

  /**
   8 milliseconds before the clock wraps around, a connection is accepted that may be idle for a second; in the same
   millisecond it is closed.
   */
  method ClosedAtOnce() returns (server: TcpServer)
    ensures server.now == WORD - 8 && server.maxIdle == 1
    ensures 0 !in Fds(server.polls) && server.timers.Handles() == []
  {
    server := new TcpServer(1, 1, WORD - 8, {}, true);
    ghost var fired := server.AcceptAndExpire(0, WORD - 8);
  }

  /** A timer that has been due for 16 milliseconds when the clock has wrapped around does not go off. */
  method KeptOverdue() returns (server: TcpServer, ghost fired: seq<Ptr>)
    ensures server.now == 8 && fired == []
    ensures OneTimer(server.timers.Handles(), server.timers.data, Timer(WORD - 8, 0, 0))
  {
    server := new TcpServer(1, 1, WORD - 1008, {}, true);
    fired := server.AcceptAndExpire(0, 8);
  }

  /**
   A server from its creation on: it listens on some sockets, and then serves for as many rounds as there are readings
   of the clock.
   */
  method RunServer(size: nat, maxIdle: nat, start: Msec, clientWritesFirst: bool, sockets: seq<nat>, clock: seq<Msec>)
    returns (server: TcpServer, ghost reports: seq<Report>)
    requires forall i :: 0 <= i < |sockets| ==> sockets[i] < size
    ensures fresh(server) && fresh(server.timers) && server.Valid()
    ensures |reports| == |clock| && server.calls == AllCalls(reports)
    ensures AllReported(reports, set fd | fd in sockets)
    ensures |Armed(server.conns)| == |server.timers.Handles()| == server.timers.used
    ensures maxIdle * 1000 < HALF && start + maxIdle * 1000 < WORD && Steady([start] + clock, maxIdle) ==>
              server.timers.Sorted() &&
              forall n :: n in server.timers.Handles() ==>
                server.now <= server.timers.data[n].msec <= server.now + maxIdle * 1000
  {
    var listeners := set fd | fd in sockets;
    server := new TcpServer(size, maxIdle, start, listeners, clientWritesFirst);
    ghost var punctual := server.Punctual();
    for i := 0 to |sockets|
      invariant fresh(server) && fresh(server.timers) && server.Valid() && |server.conns| == size
      invariant server.maxIdle == maxIdle && server.listeners == listeners && server.now == server.since == start
      invariant server.calls == [] && (punctual ==> server.Punctual())
    {
      server.Listen(sockets[i]);
    }
    reports := server.Serve(clock);
  }
}
