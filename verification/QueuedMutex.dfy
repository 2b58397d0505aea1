/** The fair ticket lock of device.c, as a transition system over any number of threads.

    A step is one stretch of code between two points where the inner pthread mutex is
    released.  Counters are `unsigned long`: they live modulo `m`, and the proofs only
    need `m` to exceed the number of threads.

    A `History` adds what no thread can see: who drew a ticket, in which order, and how
    many releases there were.  Ticket number k is drawn by `draws[k]`; the lock itself
    only stores k modulo `m`.  `number` has the number each thread drew last. */
module QueuedMutex {

  type Thread = nat

  datatype Status =
    | Outside                 // holds no ticket
    | Asleep(ticket: nat)     // in pthread_cond_wait on the lock's condition
    | Awake(ticket: nat)      // woken, about to compare its ticket with next_in again
    | Inside(ticket: nat)     // left the waiting loop: owns the lock
    | Signalling              // in queued_mutex_unlock, between its unlock and its broadcast
    | Dozing                  // in cond_nanosleep, having given the lock up
  {
    predicate HasTicket() { Asleep? || Awake? || Inside? }
  }

  datatype State = State(nextIn: nat, nextWaiting: nat, threads: map<Thread, Status>)

  datatype Action =
    | Lock(t: Thread)
    | TryLock(t: Thread)
    | Recheck(t: Thread)       // one more turn of a waiting loop
    | Spurious(t: Thread)      // pthread_cond_wait may return without a signal
    | Release(t: Thread)       // first part of queued_mutex_unlock
    | Broadcast(t: Thread)     // second part
    | Doze(t: Thread)          // queued_cond_nanosleep up to its sleep
    | Return(t: Thread)        // queued_cond_nanosleep after its sleep: time out or signal

  /** What the callers' discipline and the thread's own program counter allow. */
  predicate Enabled(s: State, a: Action) {
    && a.t in s.threads
    && match a
       case Lock(t) => s.threads[t].Outside?
       case TryLock(t) => s.threads[t].Outside?
       case Recheck(t) => s.threads[t].Awake?
       case Spurious(t) => s.threads[t].Asleep?
       case Release(t) => s.threads[t].Inside?
       case Broadcast(t) => s.threads[t].Signalling?
       case Doze(t) => s.threads[t].Inside?
       case Return(t) => s.threads[t].Dozing?
  }

  function Wake(st: Status): Status {
    if st.Asleep? then Awake(st.ticket) else st
  }

  function WakeAll(threads: map<Thread, Status>): map<Thread, Status> {
    map t | t in threads :: Wake(threads[t])
  }

  /** `counter++` on an unsigned counter with `m` values. */
  function Next(m: nat, c: nat): nat {
    if c + 1 == m then 0 else c + 1
  }

  /** The counter value after `k` increments from zero. */
  function Wrap(m: nat, k: nat): nat {
    if k == 0 then 0 else Next(m, Wrap(m, k - 1))
  }

  /** `my_turn = next_waiting++`, then the first test of the waiting loop. */
  function Draw(m: nat, s: State, t: Thread): State
    requires m > 0
  {
    s.(nextWaiting := Next(m, s.nextWaiting),
       threads := s.threads[t := if s.nextWaiting == s.nextIn then Inside(s.nextWaiting)
                                 else Asleep(s.nextWaiting)])
  }

  function Step(m: nat, s: State, a: Action): State
    requires m > 0 && Enabled(s, a)
  {
    match a
    case Lock(t) => Draw(m, s, t)
    case TryLock(t) => if s.nextWaiting == s.nextIn then Draw(m, s, t) else s
    case Recheck(t) =>
      var k := s.threads[t].ticket;
      s.(threads := s.threads[t := if k == s.nextIn then Inside(k) else Asleep(k)])
    case Spurious(t) => s.(threads := s.threads[t := Wake(s.threads[t])])
    case Release(t) => s.(nextIn := Next(m, s.nextIn), threads := s.threads[t := Signalling])
    case Broadcast(t) => s.(threads := WakeAll(s.threads)[t := Outside])
    case Doze(t) => s.(nextIn := Next(m, s.nextIn), threads := WakeAll(s.threads)[t := Dozing])
    case Return(t) => Draw(m, s, t)
  }

  predicate DrawsTicket(s: State, a: Action) {
    a.Lock? || a.Return? || (a.TryLock? && s.nextWaiting == s.nextIn)
  }

  predicate Enters(m: nat, s: State, a: Action)
    requires m > 0 && Enabled(s, a)
  {
    Step(m, s, a).threads[a.t].Inside? && !s.threads[a.t].Inside?
  }

  predicate Releases(a: Action) { a.Release? || a.Doze? }

  datatype History = History(s: State, draws: seq<Thread>, entered: seq<Thread>, released: nat,
                             number: map<Thread, nat>)

  function Advance(m: nat, h: History, a: Action): History
    requires m > 0 && Enabled(h.s, a)
  {
    History(Step(m, h.s, a),
            if DrawsTicket(h.s, a) then h.draws + [a.t] else h.draws,
            if Enters(m, h.s, a) then h.entered + [a.t] else h.entered,
            if Releases(a) then h.released + 1 else h.released,
            if DrawsTicket(h.s, a) then h.number[a.t := |h.draws|] else h.number)
  }

  /** QUEUED_MUTEX_INITIALIZER, with every thread outside. */
  function Initial(threads: set<Thread>): History {
    History(State(0, 0, map t | t in threads :: Outside), [], [], 0, map[])
  }

  predicate Runnable(m: nat, h: History, acts: seq<Action>)
    requires m > 0
    decreases |acts|
  {
    acts == [] || (Enabled(h.s, acts[0]) && Runnable(m, Advance(m, h, acts[0]), acts[1..]))
  }

  function Run(m: nat, h: History, acts: seq<Action>): History
    requires m > 0 && Runnable(m, h, acts)
    decreases |acts|
  {
    if acts == [] then h else Run(m, Advance(m, h, acts[0]), acts[1..])
  }

  // ----- the invariant

  /** Thread `t` has ticket number `k`, and is let in only if that is the oldest one. */
  ghost predicate Holds(m: nat, h: History, t: Thread, k: nat) {
    && t in h.s.threads
    && h.s.threads[t].HasTicket()
    && h.s.threads[t].ticket == Wrap(m, k)
    && (h.s.threads[t].Inside? ==> k == h.released)
    && t in h.number && h.number[t] == k
  }

  /** Tickets released..|draws| are outstanding, each with one thread, each thread once. */
  ghost predicate Queue(m: nat, h: History) {
    && h.released <= |h.draws|
    && h.s.nextIn == Wrap(m, h.released)
    && h.s.nextWaiting == Wrap(m, |h.draws|)
    && (forall k :: h.released <= k < |h.draws| ==> Holds(m, h, h.draws[k], k))
    && (forall t {:trigger h.s.threads[t]} :: t in h.s.threads && h.s.threads[t].HasTicket() ==>
          t in h.number && h.released <= h.number[t] < |h.draws| && h.draws[h.number[t]] == t)
  }

  ghost predicate SomeoneInside(s: State) {
    exists t :: t in s.threads && s.threads[t].Inside?
  }

  /** Entries so far are a prefix of the draws: as many as releases, and the current owner. */
  ghost predicate Fair(h: History) {
    && |h.entered| == h.released + (if SomeoneInside(h.s) then 1 else 0)
    && h.entered <= h.draws
  }

  ghost predicate BroadcastPending(s: State) {
    exists t :: t in s.threads && s.threads[t].Signalling?
  }

  /** A thread asleep whose turn has come has a broadcast on its way. */
  ghost predicate NoLostWakeup(s: State) {
    forall t :: t in s.threads && s.threads[t] == Asleep(s.nextIn) ==> BroadcastPending(s)
  }

  ghost predicate Inv(m: nat, h: History) {
    && 0 < m
    && |h.s.threads| < m
    && Queue(m, h)
    && Fair(h)
    && NoLostWakeup(h.s)
  }

  // ----- counting modulo m

  lemma {:induction false} DistinctFits(q: seq<Thread>, ts: set<Thread>)
    requires forall k :: 0 <= k < |q| ==> q[k] in ts
    requires forall j, k :: 0 <= j < k < |q| ==> q[j] != q[k]
    ensures |q| <= |ts|
  {
    if q != [] {
      forall k | 0 <= k < |q[1..]| ensures q[1..][k] in ts - {q[0]} {
        assert q[1..][k] == q[k + 1];
      }
      DistinctFits(q[1..], ts - {q[0]});
    }
  }

  lemma {:induction false} WrapAhead(m: nat, a: nat, d: nat)
    requires d < m
    ensures Wrap(m, a) < m
    ensures Wrap(m, a + d) == if Wrap(m, a) + d < m then Wrap(m, a) + d else Wrap(m, a) + d - m
    decreases a + d
  {
    if d > 0 {
      WrapAhead(m, a, d - 1);
    } else if a > 0 {
      WrapAhead(m, a - 1, 0);
    }
  }

  /** Fewer tickets are outstanding than the modulus, so equal counters mean none. */
  lemma QueueShort(m: nat, h: History)
    requires Queue(m, h) && |h.s.threads| < m
    ensures |h.draws| - h.released < m
    ensures h.s.nextIn == h.s.nextWaiting <==> |h.draws| == h.released
    ensures forall k :: h.released < k < |h.draws| ==> Wrap(m, k) != h.s.nextIn
  {
    var q := h.draws[h.released..];
    forall k | 0 <= k < |q| ensures q[k] in h.s.threads.Keys && h.number[q[k]] == h.released + k {
      assert Holds(m, h, h.draws[h.released + k], h.released + k);
    }
    DistinctFits(q, h.s.threads.Keys);
    assert |h.s.threads.Keys| == |h.s.threads|;
    forall k | h.released <= k <= |h.draws| ensures k == h.released || Wrap(m, k) != h.s.nextIn {
      WrapAhead(m, h.released, k - h.released);
    }
  }

  // ----- every step keeps the invariant

  lemma SameSize(s: State, s': State)
    requires s'.threads.Keys == s.threads.Keys
    ensures |s'.threads| == |s.threads|
  {
    assert |s'.threads| == |s'.threads.Keys|;
  }

  /** If ticket holders change only by drawing, and `t` may only come in when its turn has
      come, the queue stands. */
  lemma DrawKeepsQueue(m: nat, h: History, h': History, t: Thread)
    requires Queue(m, h) && |h.s.threads| < m
    requires t in h.s.threads && !h.s.threads[t].HasTicket()
    requires h'.s == Draw(m, h.s, t) && h'.draws == h.draws + [t] && h'.released == h.released
    requires h'.number == h.number[t := |h.draws|]
    ensures Queue(m, h')
  {
    QueueShort(m, h);
    forall k | h'.released <= k < |h'.draws| ensures Holds(m, h', h'.draws[k], k) {
      if k < |h.draws| { assert Holds(m, h, h.draws[k], k); }
    }
  }

  lemma DrawKeepsFair(m: nat, h: History, a: Action)
    requires Inv(m, h) && Enabled(h.s, a) && DrawsTicket(h.s, a)
    ensures Fair(Advance(m, h, a))
  {
    QueueShort(m, h);
    var s' := Step(m, h.s, a);
    if |h.draws| == h.released {
      assert forall u :: u in h.s.threads ==> !h.s.threads[u].HasTicket();
      assert s'.threads[a.t].Inside?;
    } else if SomeoneInside(h.s) {
      var u :| u in h.s.threads && h.s.threads[u].Inside?;
      assert s'.threads[u].Inside?;
    }
  }

  lemma SignalStays(m: nat, s: State, a: Action)
    requires m > 0 && Enabled(s, a) && !a.Broadcast? && BroadcastPending(s)
    ensures BroadcastPending(Step(m, s, a))
  {
    var u :| u in s.threads && s.threads[u].Signalling?;
    assert Step(m, s, a).threads[u].Signalling?;
  }

  lemma KeptByDraw(m: nat, h: History, a: Action)
    requires Inv(m, h) && Enabled(h.s, a) && DrawsTicket(h.s, a)
    ensures Inv(m, Advance(m, h, a))
  {
    var h' := Advance(m, h, a);
    SameSize(h.s, h'.s);
    DrawKeepsQueue(m, h, h', a.t);
    DrawKeepsFair(m, h, a);
    if BroadcastPending(h.s) { SignalStays(m, h.s, a); } else { QueueShort(m, h); }
  }

  /** A step inside a waiting loop, or a broadcast: nobody's ticket changes. */
  ghost predicate SameTicket(nextIn: nat, st: Status, st': Status) {
    && st'.HasTicket() == st.HasTicket()
    && (st.HasTicket() ==> st'.ticket == st.ticket)
    && (st'.Inside? ==> st.Inside? || st.ticket == nextIn)
  }

  lemma WaitKeepsQueue(m: nat, h: History, h': History)
    requires Queue(m, h) && |h.s.threads| < m
    requires h'.s.threads.Keys == h.s.threads.Keys
    requires forall u :: u in h.s.threads ==> SameTicket(h.s.nextIn, h.s.threads[u], h'.s.threads[u])
    requires h' == h.(s := h.s.(threads := h'.s.threads), entered := h'.entered)
    ensures Queue(m, h')
  {
    QueueShort(m, h);
    forall k | h'.released <= k < |h'.draws| ensures Holds(m, h', h'.draws[k], k) {
      assert Holds(m, h, h.draws[k], k);
    }
  }

  /** An owner holds the oldest outstanding ticket, so there is at most one. */
  lemma OwnerIsHead(m: nat, h: History, t: Thread)
    requires Queue(m, h) && |h.s.threads| < m
    requires t in h.s.threads && h.s.threads[t].HasTicket()
    requires h.s.threads[t].Inside? || h.s.threads[t].ticket == h.s.nextIn
    ensures h.released < |h.draws| && h.draws[h.released] == t && h.s.threads[t].ticket == h.s.nextIn
  {
    QueueShort(m, h);
    assert Holds(m, h, h.draws[h.number[t]], h.number[t]);
  }

  lemma WaitKeepsFair(m: nat, h: History, a: Action)
    requires Fair(h) && m > 0 && Enabled(h.s, a) && (a.Spurious? || a.Broadcast?)
    ensures Fair(Advance(m, h, a))
  {
    var h' := Advance(m, h, a);
    assert forall u :: u in h.s.threads ==> (h'.s.threads[u].Inside? <==> h.s.threads[u].Inside?);
  }

  lemma KeptByWaitStep(m: nat, h: History, a: Action)
    requires Inv(m, h) && Enabled(h.s, a) && (a.Spurious? || a.Broadcast?)
    ensures Inv(m, Advance(m, h, a))
  {
    var h' := Advance(m, h, a);
    SameSize(h.s, h'.s);
    WaitKeepsQueue(m, h, h');
    WaitKeepsFair(m, h, a);
    if a.Spurious? && BroadcastPending(h.s) { SignalStays(m, h.s, a); }
  }

  lemma KeptByRecheck(m: nat, h: History, a: Action)
    requires Inv(m, h) && Enabled(h.s, a) && a.Recheck?
    ensures Inv(m, Advance(m, h, a))
  {
    var h' := Advance(m, h, a);
    SameSize(h.s, h'.s);
    WaitKeepsQueue(m, h, h');
    RecheckKeepsFair(m, h, a);
    if BroadcastPending(h.s) { SignalStays(m, h.s, a); }
  }

  lemma RecheckKeepsFair(m: nat, h: History, a: Action)
    requires Inv(m, h) && Enabled(h.s, a) && a.Recheck?
    ensures Fair(Advance(m, h, a))
  {
    var h' := Advance(m, h, a);
    if h.s.threads[a.t].ticket == h.s.nextIn {
      OwnerIsHead(m, h, a.t);
      assert h'.s.threads[a.t].Inside?;
      forall u | u in h.s.threads ensures !h.s.threads[u].Inside? {
        if h.s.threads[u].Inside? { OwnerIsHead(m, h, u); }
      }
    } else if SomeoneInside(h.s) {
      var u :| u in h.s.threads && h.s.threads[u].Inside?;
      assert h'.s.threads[u].Inside?;
    }
  }

  lemma ReleaseKeepsQueue(m: nat, h: History, h': History, t: Thread)
    requires Queue(m, h) && |h.s.threads| < m
    requires t in h.s.threads && h.s.threads[t].Inside?
    requires h'.s.threads.Keys == h.s.threads.Keys
    requires forall u :: u in h.s.threads && u != t ==>
               h'.s.threads[u] == h.s.threads[u] || h'.s.threads[u] == Wake(h.s.threads[u])
    requires !h'.s.threads[t].HasTicket()
    requires h' == h.(s := h.s.(nextIn := Next(m, h.s.nextIn), threads := h'.s.threads), released := h.released + 1)
    ensures Queue(m, h')
  {
    OwnerIsHead(m, h, t);
    forall k | h'.released <= k < |h'.draws| ensures Holds(m, h', h'.draws[k], k) {
      assert Holds(m, h, h.draws[k], k);
      assert Holds(m, h, h.draws[h.released], h.released);
    }
  }

  lemma KeptByRelease(m: nat, h: History, a: Action)
    requires Inv(m, h) && Enabled(h.s, a) && Releases(a)
    ensures Inv(m, Advance(m, h, a))
  {
    var h' := Advance(m, h, a);
    SameSize(h.s, h'.s);
    ReleaseKeepsQueue(m, h, h', a.t);
    assert SomeoneInside(h.s);
    forall u | u in h'.s.threads ensures !h'.s.threads[u].Inside? {
      OwnerIsHead(m, h, a.t);
      if u != a.t && h.s.threads[u].Inside? { OwnerIsHead(m, h, u); }
    }
    if a.Release? { assert h'.s.threads[a.t].Signalling?; }
  }

  lemma Kept(m: nat, h: History, a: Action)
    requires Inv(m, h) && Enabled(h.s, a)
    ensures Inv(m, Advance(m, h, a))
  {
    if DrawsTicket(h.s, a) { KeptByDraw(m, h, a); }
    else if a.Recheck? { KeptByRecheck(m, h, a); }
    else if Releases(a) { KeptByRelease(m, h, a); }
    else if a.TryLock? { assert Advance(m, h, a) == h; }
    else { KeptByWaitStep(m, h, a); }
  }

  lemma {:induction false} KeptByRun(m: nat, h: History, acts: seq<Action>)
    requires Inv(m, h) && Runnable(m, h, acts)
    ensures Inv(m, Run(m, h, acts))
    decreases |acts|
  {
    if acts != [] {
      Kept(m, h, acts[0]);
      KeptByRun(m, Advance(m, h, acts[0]), acts[1..]);
    }
  }

  lemma InitialHolds(m: nat, threads: set<Thread>)
    requires |threads| < m
    ensures Inv(m, Initial(threads))
  {
    var s := Initial(threads).s;
    assert s.threads.Keys == threads;
    assert |s.threads| == |s.threads.Keys|;
  }

  // ----- main results

  /** The tickets some thread holds right now. */
  ghost function Outstanding(s: State): set<nat> {
    set t | t in s.threads && s.threads[t].HasTicket() :: s.threads[t].ticket
  }

  /** The counter values reached by increments number lo .. hi - 1. */
  ghost function Window(m: nat, lo: nat, hi: nat): set<nat> {
    set k | lo <= k < hi :: Wrap(m, k)
  }

  ghost predicate AtMostOneOwner(s: State) {
    forall t, u :: t in s.threads && u in s.threads && s.threads[t].Inside? && s.threads[u].Inside? ==> t == u
  }

  ghost predicate DistinctTickets(s: State) {
    forall t, u :: t in s.threads && u in s.threads && t != u ==>
      s.threads[t].HasTicket() && s.threads[u].HasTicket() ==> s.threads[t].ticket != s.threads[u].ticket
  }

  /** Over every run of any number of threads: at most one owner; the tickets held are
      distinct and are exactly the counter values from next_in up to next_waiting; threads
      have entered in the order in which they drew. */
  lemma MutualExclusionAndOrder(m: nat, threads: set<Thread>, acts: seq<Action>)
    requires |threads| < m && Runnable(m, Initial(threads), acts)
    ensures var h := Run(m, Initial(threads), acts);
      && AtMostOneOwner(h.s)
      && DistinctTickets(h.s)
      && h.s.nextIn == Wrap(m, h.released) && h.s.nextWaiting == Wrap(m, |h.draws|)
      && Outstanding(h.s) == Window(m, h.released, |h.draws|)
      && h.entered <= h.draws
      && h.released <= |h.entered| <= h.released + 1
  {
    InitialHolds(m, threads);
    KeptByRun(m, Initial(threads), acts);
    var h := Run(m, Initial(threads), acts);
    forall t, u | t in h.s.threads && u in h.s.threads && h.s.threads[t].Inside? && h.s.threads[u].Inside?
      ensures t == u
    {
      OwnerIsHead(m, h, t);
      OwnerIsHead(m, h, u);
    }
    TicketsDistinct(m, h);
    TicketsExact(m, h);
  }

  lemma TicketsDistinct(m: nat, h: History)
    requires Inv(m, h)
    ensures DistinctTickets(h.s)
  {
    QueueShort(m, h);
    forall t, u | t in h.s.threads && u in h.s.threads && t != u && h.s.threads[t].HasTicket()
                  && h.s.threads[u].HasTicket()
      ensures h.s.threads[t].ticket != h.s.threads[u].ticket
    {
      var j, k := h.number[t], h.number[u];
      assert Holds(m, h, h.draws[j], j) && Holds(m, h, h.draws[k], k);
      if j < k { WrapAhead(m, j, k - j); } else { WrapAhead(m, k, j - k); }
    }
  }

  lemma TicketsExact(m: nat, h: History)
    requires Inv(m, h)
    ensures Outstanding(h.s) == Window(m, h.released, |h.draws|)
  {
    var r := Window(m, h.released, |h.draws|);
    forall w | w in Outstanding(h.s) ensures w in r {
      var t :| t in h.s.threads && h.s.threads[t].HasTicket() && h.s.threads[t].ticket == w;
      assert Holds(m, h, h.draws[h.number[t]], h.number[t]);
      assert h.released <= h.number[t] < |h.draws| && Wrap(m, h.number[t]) == w;
    }
    forall w | w in r ensures w in Outstanding(h.s) {
      var k :| h.released <= k < |h.draws| && Wrap(m, k) == w;
      assert Holds(m, h, h.draws[k], k);
      assert h.s.threads[h.draws[k]].HasTicket() && h.s.threads[h.draws[k]].ticket == w;
    }
    assert Outstanding(h.s) == r;
  }

  /** trylock succeeds exactly when no thread holds a ticket, and then it owns the lock. */
  lemma TryLockExact(m: nat, h: History, t: Thread)
    requires Inv(m, h) && Enabled(h.s, TryLock(t))
    ensures Step(m, h.s, TryLock(t)).threads[t].Inside?
            <==> forall u :: u in h.s.threads ==> !h.s.threads[u].HasTicket()
    ensures !Step(m, h.s, TryLock(t)).threads[t].Inside? ==> Step(m, h.s, TryLock(t)) == h.s
  {
    QueueShort(m, h);
    if h.released < |h.draws| { assert Holds(m, h, h.draws[h.released], h.released); }
  }

  function CountReleases(acts: seq<Action>): nat {
    if acts == [] then 0 else (if Releases(acts[0]) then 1 else 0) + CountReleases(acts[1..])
  }

  /** `ticket - next_in` on the wrapping counters. */
  function Distance(m: nat, nextIn: nat, ticket: nat): int {
    if nextIn <= ticket then ticket - nextIn else ticket + m - nextIn
  }

  lemma DistanceIsNumber(m: nat, h: History, t: Thread)
    requires Inv(m, h) && t in h.s.threads && h.s.threads[t].HasTicket()
    ensures t in h.number && Distance(m, h.s.nextIn, h.s.threads[t].ticket) == h.number[t] - h.released
  {
    QueueShort(m, h);
    var k := h.number[t];
    assert Holds(m, h, h.draws[k], k);
    WrapAhead(m, h.released, k - h.released);
  }

  lemma {:induction false} RunFacts(m: nat, h: History, acts: seq<Action>, t: Thread)
    requires Inv(m, h) && Runnable(m, h, acts)
    requires t in h.s.threads && h.s.threads[t].HasTicket()
    requires forall a :: a in acts && a.t == t ==> !Releases(a)
    ensures var h' := Run(m, h, acts);
      && h'.released == h.released + CountReleases(acts)
      && t in h'.s.threads && h'.s.threads[t].HasTicket()
      && t in h.number && t in h'.number && h'.number[t] == h.number[t]
    decreases |acts|
  {
    if acts != [] {
      var a := acts[0];
      var h1 := Advance(m, h, a);
      Kept(m, h, a);
      assert a in acts;
      assert h1.s.threads[t].HasTicket() && h1.number[t] == h.number[t];
      RunFacts(m, h1, acts[1..], t);
    }
  }

  /** A thread that holds a ticket and does not give it back enters after exactly
      `ticket - next_in` releases: as long as it waits there were at most so many, and once
      it is inside exactly so many. */
  lemma EntersAfterExactlyItsDistance(m: nat, h: History, acts: seq<Action>, t: Thread)
    requires Inv(m, h) && Runnable(m, h, acts)
    requires t in h.s.threads && h.s.threads[t].HasTicket()
    requires forall a :: a in acts && a.t == t ==> !Releases(a)
    ensures var s' := Run(m, h, acts).s;
      var d := Distance(m, h.s.nextIn, h.s.threads[t].ticket);
      && t in s'.threads && s'.threads[t].HasTicket()
      && CountReleases(acts) <= d
      && (s'.threads[t].Inside? ==> CountReleases(acts) == d)
      && (CountReleases(acts) == d <==> s'.threads[t].ticket == s'.nextIn)
  {
    RunFacts(m, h, acts, t);
    KeptByRun(m, h, acts);
    DistanceIsNumber(m, h, t);
    var h' := Run(m, h, acts);
    DistanceIsNumber(m, h', t);
    if h'.s.threads[t].Inside? { OwnerIsHead(m, h', t); }
  }

  /** No wakeup is lost, timed sleeps included: whenever tickets are outstanding and nobody
      is inside, the thread that is next can be let in by at most a broadcast that is
      already on its way and one turn of its waiting loop. */
  lemma NextCanEnter(m: nat, h: History) returns (acts: seq<Action>)
    requires Inv(m, h) && h.released < |h.draws| && !SomeoneInside(h.s)
    ensures |acts| <= 2 && Runnable(m, h, acts)
    ensures forall a :: a in acts ==> a.Broadcast? || a.Recheck?
    ensures h.draws[h.released] in Run(m, h, acts).s.threads
    ensures Run(m, h, acts).s.threads[h.draws[h.released]].Inside?
  {
    var t := h.draws[h.released];
    assert Holds(m, h, t, h.released);
    if h.s.threads[t].Awake? {
      acts := [Recheck(t)];
      assert Run(m, h, acts) == Run(m, Advance(m, h, Recheck(t)), []);
    } else {
      var u :| u in h.s.threads && h.s.threads[u].Signalling?;
      acts := [Broadcast(u), Recheck(t)];
      var h1 := Advance(m, h, Broadcast(u));
      assert acts[1..] == [Recheck(t)];
      assert h1.s.threads[t] == Awake(h.s.nextIn);
      assert Run(m, h, acts) == Run(m, h1, [Recheck(t)]) == Run(m, Advance(m, h1, Recheck(t)), []);
    }
  }

  // ----- an unlock and a sleep come to their end

  /** Steps of other threads leave a thread alone that holds no ticket. */
  lemma {:induction false} OthersLeave(m: nat, h: History, acts: seq<Action>, t: Thread)
    requires Inv(m, h) && Runnable(m, h, acts) && t in h.s.threads && !h.s.threads[t].HasTicket()
    requires forall k :: 0 <= k < |acts| ==> acts[k].t != t
    ensures Inv(m, Run(m, h, acts))
    ensures t in Run(m, h, acts).s.threads && Run(m, h, acts).s.threads[t] == h.s.threads[t]
    decreases |acts|
  {
    if acts != [] {
      Kept(m, h, acts[0]);
      OthersLeave(m, Advance(m, h, acts[0]), acts[1..], t);
    }
  }

  lemma BroadcastEnds(m: nat, h: History, t: Thread)
    requires Inv(m, h) && Enabled(h.s, Broadcast(t))
    ensures var s, s' := h.s, Step(m, h.s, Broadcast(t));
      && t in s'.threads && !s'.threads[t].HasTicket() && Enabled(s', Lock(t)) && Enabled(s', TryLock(t))
      && ((forall u :: u in s.threads ==> !s.threads[u].HasTicket()) ==> Step(m, s', TryLock(t)).threads[t].Inside?)
      && (forall u :: u in s.threads && s.threads[u].HasTicket() ==>
            && u in s'.threads && s'.threads[u].HasTicket()
            && s'.threads[u].ticket == s.threads[u].ticket && !s'.threads[u].Asleep?)
  {
    QueueShort(m, h);
    if h.released < |h.draws| { assert Holds(m, h, h.draws[h.released], h.released); }
  }

  /** An owner that releases, whatever the others do before its broadcast, is out again: it holds
      no ticket, may lock or try to, and succeeds in trying if nobody holds one.  The broadcast
      wakes every sleeper and takes nobody's ticket. */
  lemma UnlockEnds(m: nat, h: History, t: Thread, others: seq<Action>)
    requires Inv(m, h) && t in h.s.threads && h.s.threads[t].Inside?
    requires Runnable(m, Advance(m, h, Release(t)), others) && forall k :: 0 <= k < |others| ==> others[k].t != t
    ensures var h1 := Run(m, Advance(m, h, Release(t)), others);
      Inv(m, h1) && Enabled(h1.s, Broadcast(t)) &&
      var s, s' := h1.s, Step(m, h1.s, Broadcast(t));
      && t in s'.threads && !s'.threads[t].HasTicket() && Enabled(s', Lock(t)) && Enabled(s', TryLock(t))
      && ((forall u :: u in s.threads ==> !s.threads[u].HasTicket()) ==> Step(m, s', TryLock(t)).threads[t].Inside?)
      && (forall u :: u in s.threads && s.threads[u].HasTicket() ==>
            && u in s'.threads && s'.threads[u].HasTicket()
            && s'.threads[u].ticket == s.threads[u].ticket && !s'.threads[u].Asleep?)
  {
    var h0 := Advance(m, h, Release(t));
    Kept(m, h, Release(t));
    OthersLeave(m, h0, others, t);
    BroadcastEnds(m, Run(m, h0, others), t);
  }

  lemma ReturnQueues(m: nat, h: History, t: Thread)
    requires Inv(m, h) && Enabled(h.s, Return(t))
    ensures var h' := Advance(m, h, Return(t));
      && t in h'.s.threads && h'.s.threads[t].HasTicket() && h'.draws == h.draws + [t]
      && t in h'.number && h'.number[t] == |h.draws|
      && (h'.s.threads[t].Inside? <==> forall u :: u in h.s.threads ==> !h.s.threads[u].HasTicket())
  {
    QueueShort(m, h);
    if h.released < |h.draws| { assert Holds(m, h, h.draws[h.released], h.released); }
  }

  /** An owner that goes to sleep gives the lock to nobody or to the next in the queue; when its
      sleep ends it has the newest ticket, and is inside at once if it is the only one. */
  lemma SleepEnds(m: nat, h: History, t: Thread, others: seq<Action>)
    requires Inv(m, h) && t in h.s.threads && h.s.threads[t].Inside?
    requires Runnable(m, Advance(m, h, Doze(t)), others) && forall k :: 0 <= k < |others| ==> others[k].t != t
    ensures var h1 := Run(m, Advance(m, h, Doze(t)), others);
      Inv(m, h1) && t in h1.s.threads && !h1.s.threads[t].HasTicket() && Enabled(h1.s, Return(t)) &&
      var h2 := Advance(m, h1, Return(t));
      && Inv(m, h2) && t in h2.s.threads && h2.s.threads[t].HasTicket() && h2.draws == h1.draws + [t]
      && t in h2.number && h2.number[t] == |h1.draws|
      && (h2.s.threads[t].Inside? <==> forall u :: u in h1.s.threads ==> !h1.s.threads[u].HasTicket())
  {
    var h0 := Advance(m, h, Doze(t));
    Kept(m, h, Doze(t));
    OthersLeave(m, h0, others, t);
    var h1 := Run(m, h0, others);
    Kept(m, h1, Return(t));
    ReturnQueues(m, h1, t);
  }

  /** Whoever draws a ticket or looks at it again and is not next goes to sleep with it. */
  lemma NotNextSleeps(m: nat, h: History, a: Action)
    requires Inv(m, h) && Enabled(h.s, a) && (DrawsTicket(h.s, a) || a.Recheck?)
    ensures var st := Step(m, h.s, a).threads[a.t];
      && st.HasTicket() && st.ticket == (if a.Recheck? then h.s.threads[a.t].ticket else h.s.nextWaiting)
      && (st.Inside? <==> st.ticket == h.s.nextIn) && (st.Asleep? <==> st.ticket != h.s.nextIn)
  {}

  /** A sleeper that wakes up for no reason keeps its ticket and looks at it again. */
  lemma SpuriousLooks(m: nat, s: State, t: Thread)
    requires m > 0 && Enabled(s, Spurious(t))
    ensures var s' := Step(m, s, Spurious(t));
      && Enabled(s', Recheck(t)) && s'.threads[t].ticket == s.threads[t].ticket
      && s'.nextIn == s.nextIn && s'.nextWaiting == s.nextWaiting
      && forall u :: u in s.threads && u != t ==> u in s'.threads && s'.threads[u] == s.threads[u]
  {}

  lemma {:induction false} RunConcat(m: nat, h: History, a: seq<Action>, b: seq<Action>)
    requires m > 0 && Runnable(m, h, a) && Runnable(m, Run(m, h, a), b)
    ensures Runnable(m, h, a + b) && Run(m, h, a + b) == Run(m, Run(m, h, a), b)
    decreases |a|
  {
    if a == [] {
      assert a + b == b;
    } else {
      assert (a + b)[1..] == a[1..] + b;
      RunConcat(m, Advance(m, h, a[0]), a[1..], b);
    }
  }

  /** The holder of the oldest ticket gets in, with nobody's ticket changed. */
  lemma NextIn(m: nat, h: History) returns (acts: seq<Action>)
    requires Inv(m, h) && h.released < |h.draws|
    ensures Runnable(m, h, acts) && Inv(m, Run(m, h, acts)) && forall a :: a in acts ==> a.Broadcast? || a.Recheck?
    ensures var h', o := Run(m, h, acts), h.draws[h.released];
      h'.released == h.released && h'.draws == h.draws && o in h'.s.threads && h'.s.threads[o].Inside?
  {
    if SomeoneInside(h.s) {
      var u :| u in h.s.threads && h.s.threads[u].Inside?;
      OwnerIsHead(m, h, u);
      acts := [];
    } else {
      acts := NextCanEnter(m, h);
      KeptByRun(m, h, acts);
    }
    SameDraws(m, h, acts);
  }

  lemma {:induction false} SameDraws(m: nat, h: History, acts: seq<Action>)
    requires m > 0 && Runnable(m, h, acts) && forall a :: a in acts ==> a.Broadcast? || a.Recheck?
    ensures Run(m, h, acts).draws == h.draws && Run(m, h, acts).released == h.released
    ensures Run(m, h, acts).number == h.number
    decreases |acts|
  {
    if acts != [] {
      assert acts[0] in acts;
      SameDraws(m, Advance(m, h, acts[0]), acts[1..]);
    }
  }

  /** Everybody with a ticket can still get in: those before it one after the other, each
      releasing, and nobody is waited for who does not hold a ticket. */
  lemma {:induction false} CanGetIn(m: nat, h: History, k: nat) returns (acts: seq<Action>)
    requires Inv(m, h) && h.released <= k < |h.draws|
    ensures Runnable(m, h, acts) && forall a :: a in acts ==> a.Broadcast? || a.Recheck? || a.Release?
    ensures var s' := Run(m, h, acts).s; h.draws[k] in s'.threads && s'.threads[h.draws[k]].Inside?
    decreases k - h.released
  {
    acts := NextIn(m, h);
    if h.released < k {
      var h1 := Run(m, h, acts);
      var go := [Release(h.draws[h.released])];
      var h2 := Advance(m, h1, go[0]);
      Kept(m, h1, go[0]);
      assert Run(m, h1, go) == Run(m, h2, []) == h2;
      var rest := CanGetIn(m, h2, k);
      RunConcat(m, h1, go, rest);
      RunConcat(m, h, acts, go + rest);
      acts := acts + (go + rest);
    }
  }

  // ----- the object

  /** queued_mutex_t.  The thread table stands for the program counters of its callers;
      the methods are the stretches of code between releases of the inner mutex. */
  class Mutex {
    const m: nat
    var nextIn: nat
    var nextWaiting: nat
    var threads: map<Thread, Status>

    constructor (m: nat, ts: set<Thread>)
      requires m > 0
      ensures this.m == m && View() == Initial(ts).s
    {
      this.m := m;
      nextIn, nextWaiting := 0, 0;
      threads := map t | t in ts :: Outside;
    }

    function View(): State
      reads this
    {
      State(nextIn, nextWaiting, threads)
    }

    method TakeTicket(t: Thread)
      requires m > 0 && t in threads
      modifies this
      ensures View() == Draw(m, old(View()), t)
    {
      var myTurn := nextWaiting;
      nextWaiting := Next(m, nextWaiting);
      threads := threads[t := if myTurn != nextIn then Asleep(myTurn) else Inside(myTurn)];
    }

    method Lock(t: Thread)
      requires m > 0 && Enabled(View(), Action.Lock(t))
      modifies this
      ensures View() == Step(m, old(View()), Action.Lock(t))
    {
      TakeTicket(t);
    }

    method TryLock(t: Thread) returns (res: int)
      requires m > 0 && Enabled(View(), Action.TryLock(t))
      modifies this
      ensures View() == Step(m, old(View()), Action.TryLock(t))
      ensures res == if threads[t].Inside? then 0 else -1
    {
      res := 0;
      if nextWaiting == nextIn {
        threads := threads[t := Inside(nextWaiting)];
        nextWaiting := Next(m, nextWaiting);
      } else {
        res := -1;
      }
    }

    method Recheck(t: Thread)
      requires m > 0 && Enabled(View(), Action.Recheck(t))
      modifies this
      ensures View() == Step(m, old(View()), Action.Recheck(t))
    {
      var myTurn := threads[t].ticket;
      threads := threads[t := if myTurn != nextIn then Asleep(myTurn) else Inside(myTurn)];
    }

    method Release(t: Thread)
      requires m > 0 && Enabled(View(), Action.Release(t))
      modifies this
      ensures View() == Step(m, old(View()), Action.Release(t))
    {
      nextIn := Next(m, nextIn);
      threads := threads[t := Signalling];
    }

    method Broadcast(t: Thread)
      requires m > 0 && Enabled(View(), Action.Broadcast(t))
      modifies this
      ensures View() == Step(m, old(View()), Action.Broadcast(t))
    {
      threads := WakeAll(threads)[t := Outside];
    }

    method Doze(t: Thread)
      requires m > 0 && Enabled(View(), Action.Doze(t))
      modifies this
      ensures View() == Step(m, old(View()), Action.Doze(t))
    {
      nextIn := Next(m, nextIn);
      threads := WakeAll(threads)[t := Dozing];
    }

    method Return(t: Thread)
      requires m > 0 && Enabled(View(), Action.Return(t))
      modifies this
      ensures View() == Step(m, old(View()), Action.Return(t))
    {
      TakeTicket(t);
    }
  }
}
