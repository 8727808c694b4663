/** In-process mutual exclusion by promise chaining: `AsyncMutex` and `KeyedAsyncMutex`. */
module AsyncMutexProtocol {

  // JavaScript runs one stretch of code between two awaits at a time, so a run of any number of callers is an
  // interleaving of four kinds of step: a call (everything up to `await prev`), the start of a body, the end of
  // a body (returning or throwing: both go through `finally`), and the pool's own `finally`. `State` and `Step`
  // describe those steps on values; the classes at the end take the same steps on objects.

  type Key = string

  /** A call's ticket is its position in the order the calls were made. */
  type Ticket = nat

  /** `After(p, t)` is `p.then(() => wait)` with `wait` the promise that ticket t's release resolves. */
  datatype Promise = Resolved | After(prev: Promise, wait: Ticket)

  function Waits(p: Promise): set<Ticket> {
    if p.Resolved? then {} else Waits(p.prev) + {p.wait}
  }

  predicate Settled(p: Promise, released: set<Ticket>) {
    p.Resolved? || (Settled(p.prev, released) && p.wait in released)
  }

  lemma {:induction false} SettledMeansAllReleased(p: Promise, released: set<Ticket>)
    ensures Settled(p, released) <==> Waits(p) <= released
  {
    if p.After? {
      SettledMeansAllReleased(p.prev, released);
    }
  }

  /** Where a call of `KeyedAsyncMutex.run` is suspended. */
  datatype Phase =
    | Queued(prev: Promise)  // at `await prev`
    | Running                // at `await fn()`
    | Ended                  // the mutex's `finally` is done, the pool's is not
    | Gone                   // settled

  datatype Call = Call(key: Key, mutex: nat, phase: Phase)
  {
    predicate Active() { phase.Queued? || phase.Running? }
  }

  datatype Mutex = Mutex(queue: Promise, depth: int)

  /** `heap` holds every mutex ever created; `mutexes` is the pool's map; `starts` logs the bodies. */
  datatype State = State(
    mutexes: map<Key, nat>,
    heap: seq<Mutex>,
    calls: seq<Call>,
    released: set<Ticket>,
    starts: seq<Ticket>)

  datatype Action = Begin(key: Key) | Start(ticket: Ticket) | End(ticket: Ticket) | Leave(ticket: Ticket)

  const EMPTY := State(map[], [], [], {}, [])

  ghost predicate Indexed(s: State) {
    && (forall i :: 0 <= i < |s.calls| ==> s.calls[i].mutex < |s.heap|)
    && (forall k :: k in s.mutexes ==> s.mutexes[k] < |s.heap|)
  }

  predicate Enabled(s: State, a: Action) {
    match a
    case Begin(_) => true
    case Start(i) => i < |s.calls| && s.calls[i].phase.Queued? && Settled(s.calls[i].phase.prev, s.released)
    case End(i) => i < |s.calls| && s.calls[i].phase.Running?
    case Leave(i) => i < |s.calls| && s.calls[i].phase.Ended?
  }

  ghost function WithPhase(s: State, i: Ticket, p: Phase): seq<Call>
    requires i < |s.calls|
  {
    s.calls[i := s.calls[i].(phase := p)]
  }

  /** The pool once it has a mutex for k, made on demand. */
  ghost function WithMutex(s: State, k: Key): State {
    if k in s.mutexes then s
    else s.(mutexes := s.mutexes[k := |s.heap|], heap := s.heap + [Mutex(Resolved, 0)])
  }

  /** A call on k queues on the mutex the pool holds for k. */
  ghost function Enqueued(s: State, k: Key): State
    requires Indexed(s) && k in s.mutexes
  {
    var m := s.mutexes[k];
    var prev := s.heap[m].queue;
    s.(heap := s.heap[m := Mutex(After(prev, |s.calls|), s.heap[m].depth + 1)],
       calls := s.calls + [Call(k, m, Queued(prev))])
  }

  /** One step. */
  ghost function Step(s: State, a: Action): State
    requires Indexed(s) && Enabled(s, a)
  {
    match a
    case Begin(k) =>
      Enqueued(WithMutex(s, k), k)
    case Start(i) =>
      s.(calls := WithPhase(s, i, Running), starts := s.starts + [i])
    case End(i) =>
      var m := s.calls[i].mutex;
      s.(calls := WithPhase(s, i, Ended), released := s.released + {i},
         heap := s.heap[m := s.heap[m].(depth := s.heap[m].depth - 1)])
    case Leave(i) =>
      var c := s.calls[i];
      s.(calls := WithPhase(s, i, Gone),
         mutexes := if s.heap[c.mutex].depth == 0 && c.key in s.mutexes && s.mutexes[c.key] == c.mutex
                    then s.mutexes - {c.key} else s.mutexes)
  }

  ghost function CallsOn(calls: seq<Call>, m: nat, below: nat): set<Ticket>
    requires below <= |calls|
  {
    set i | 0 <= i < below && calls[i].mutex == m
  }

  ghost function ActiveOn(calls: seq<Call>, m: nat): set<Ticket> {
    set i | 0 <= i < |calls| && calls[i].mutex == m && calls[i].Active()
  }

  // ----- the invariant

  ghost predicate ChainsMatch(s: State)
    requires Indexed(s)
  {
    && (forall m :: 0 <= m < |s.heap| ==> Waits(s.heap[m].queue) == CallsOn(s.calls, m, |s.calls|))
    && (forall i :: 0 <= i < |s.calls| && s.calls[i].phase.Queued? ==>
          Waits(s.calls[i].phase.prev) == CallsOn(s.calls, s.calls[i].mutex, i))
    && (forall i :: i in s.released <==> 0 <= i < |s.calls| && !s.calls[i].Active())
  }

  ghost predicate DepthsMatch(s: State)
    requires Indexed(s)
  {
    forall m :: 0 <= m < |s.heap| ==> s.heap[m].depth == |ActiveOn(s.calls, m)|
  }

  /** The pool's map never lets go of a mutex with unfinished work on it. */
  ghost predicate ActiveMapped(s: State) {
    forall i :: 0 <= i < |s.calls| && s.calls[i].Active() ==>
      s.calls[i].key in s.mutexes && s.mutexes[s.calls[i].key] == s.calls[i].mutex
  }

  ghost predicate Owner(calls: seq<Call>, m: nat, k: Key) {
    forall i :: 0 <= i < |calls| && calls[i].mutex == m ==> calls[i].key == k
  }

  ghost predicate Occupied(calls: seq<Call>, m: nat) {
    exists i :: 0 <= i < |calls| && calls[i].mutex == m && !calls[i].phase.Gone?
  }

  /** A mapped mutex serves its key only, and some call on it has not settled. */
  ghost predicate MapLive(s: State) {
    forall k :: k in s.mutexes ==> Owner(s.calls, s.mutexes[k], k) && Occupied(s.calls, s.mutexes[k])
  }

  ghost predicate PoolMatches(s: State) {
    ActiveMapped(s) && MapLive(s)
  }

  /** A body that has started saw every earlier call of its key released. */
  ghost predicate Fifo(s: State) {
    forall i, j :: 0 <= i < j < |s.calls| && s.calls[i].key == s.calls[j].key && !s.calls[j].phase.Queued? ==>
      !s.calls[i].Active()
  }

  ghost predicate StartsMatch(s: State) {
    && (forall i :: i in s.starts <==> 0 <= i < |s.calls| && !s.calls[i].phase.Queued?)
    && (forall p :: 0 <= p < |s.starts| ==> s.starts[p] < |s.calls|)
    && (forall p, q :: 0 <= p < q < |s.starts| ==> s.starts[p] != s.starts[q])
    && (forall p, q :: 0 <= p < q < |s.starts| && s.calls[s.starts[p]].key == s.calls[s.starts[q]].key ==>
          s.starts[p] < s.starts[q])
  }

  ghost predicate Inv(s: State) {
    Indexed(s) && ChainsMatch(s) && DepthsMatch(s) && PoolMatches(s) && Fifo(s) && StartsMatch(s)
  }

  // ----- every step keeps it: one lemma for each part of the invariant a kind of step touches

  lemma BeginKeepsChains(s: State, k: Key)
    requires Indexed(s) && ChainsMatch(s)
    requires forall i :: 0 <= i < |s.calls| && k in s.mutexes && s.calls[i].mutex == s.mutexes[k] ==>
      s.calls[i].key == k
    ensures Indexed(Step(s, Begin(k))) && ChainsMatch(Step(s, Begin(k)))
  {
    var t, n := Step(s, Begin(k)), |s.calls|;
    var m := t.calls[n].mutex;
    forall x | 0 <= x < |t.heap|
      ensures Waits(t.heap[x].queue) == CallsOn(t.calls, x, n + 1)
    {
      assert CallsOn(t.calls, x, n + 1) == CallsOn(s.calls, x, n) + if x == m then {n} else {};
    }
    forall i | 0 <= i < |t.calls| && t.calls[i].phase.Queued?
      ensures Waits(t.calls[i].phase.prev) == CallsOn(t.calls, t.calls[i].mutex, i)
    {
      assert CallsOn(t.calls, t.calls[i].mutex, i) == CallsOn(s.calls, t.calls[i].mutex, i);
    }
  }

  lemma ActiveSnoc(calls: seq<Call>, call: Call, x: nat)
    requires call.Active()
    ensures |ActiveOn(calls + [call], x)| == |ActiveOn(calls, x)| + if call.mutex == x then 1 else 0
  {
    var n := |calls|;
    if call.mutex == x {
      assert ActiveOn(calls + [call], x) == ActiveOn(calls, x) + {n};
      assert n !in ActiveOn(calls, x);
    } else {
      assert ActiveOn(calls + [call], x) == ActiveOn(calls, x);
    }
  }

  lemma BeginKeepsDepths(s: State, k: Key)
    requires Indexed(s) && DepthsMatch(s)
    ensures Indexed(Step(s, Begin(k))) && DepthsMatch(Step(s, Begin(k)))
  {
    var t, n := Step(s, Begin(k)), |s.calls|;
    var m := t.calls[n].mutex;
    assert t.calls == s.calls + [t.calls[n]];
    forall x | 0 <= x < |t.heap|
      ensures t.heap[x].depth == |ActiveOn(t.calls, x)|
    {
      ActiveSnoc(s.calls, t.calls[n], x);
      if x == |s.heap| {
        assert ActiveOn(s.calls, x) == {};
      }
    }
  }

  /** Two keys never share a mutex. */
  lemma MapInjective(s: State, k: Key, x: Key)
    requires MapLive(s) && k in s.mutexes && x in s.mutexes && k != x
    ensures s.mutexes[k] != s.mutexes[x]
  {
    var i :| 0 <= i < |s.calls| && s.calls[i].mutex == s.mutexes[x] && !s.calls[i].phase.Gone?;
    assert s.calls[i].key == x;
  }

  lemma BeginKeepsMapped(s: State, k: Key)
    requires Indexed(s) && ActiveMapped(s)
    ensures ActiveMapped(Step(s, Begin(k)))
  {
    var t := Step(s, Begin(k));
    assert forall i :: 0 <= i < |s.calls| ==> t.calls[i] == s.calls[i];
  }

  lemma BeginKeepsLive(s: State, k: Key)
    requires Indexed(s) && MapLive(s)
    ensures MapLive(Step(s, Begin(k)))
  {
    var t, n := Step(s, Begin(k)), |s.calls|;
    assert t.calls[n].mutex == t.mutexes[k];
    forall x | x in t.mutexes
      ensures Owner(t.calls, t.mutexes[x], x) && Occupied(t.calls, t.mutexes[x])
    {
      if x != k {
        assert x in s.mutexes;
        if k in s.mutexes {
          MapInjective(s, k, x);
        }
        var i :| 0 <= i < |s.calls| && s.calls[i].mutex == s.mutexes[x] && !s.calls[i].phase.Gone?;
        assert t.calls[i] == s.calls[i];
      }
    }
  }

  lemma BeginKeepsOrder(s: State, k: Key)
    requires Indexed(s) && Fifo(s) && StartsMatch(s)
    ensures Fifo(Step(s, Begin(k))) && StartsMatch(Step(s, Begin(k)))
  {
    var t := Step(s, Begin(k));
    assert forall i :: 0 <= i < |s.calls| ==> t.calls[i] == s.calls[i];
    assert forall p :: 0 <= p < |s.starts| ==> s.starts[p] in s.starts;
  }

  /** A queued call can start only once every earlier call of its key has been released. */
  lemma StartNeedsEarlierReleased(s: State, i: Ticket)
    requires Indexed(s) && ChainsMatch(s) && PoolMatches(s) && Enabled(s, Start(i))
    ensures forall j :: 0 <= j < i && s.calls[j].key == s.calls[i].key ==> !s.calls[j].Active()
  {
    SettledMeansAllReleased(s.calls[i].phase.prev, s.released);
    forall j | 0 <= j < i && s.calls[j].key == s.calls[i].key
      ensures !s.calls[j].Active()
    {
      if s.calls[j].mutex == s.calls[i].mutex {
        assert j in CallsOn(s.calls, s.calls[i].mutex, i);
      }
    }
  }

  lemma StartKeepsFifo(s: State, i: Ticket)
    requires Indexed(s) && ChainsMatch(s) && PoolMatches(s) && Fifo(s) && Enabled(s, Start(i))
    ensures Fifo(Step(s, Start(i)))
  {
    StartNeedsEarlierReleased(s, i);
    var t := Step(s, Start(i));
    assert forall j :: 0 <= j < |s.calls| ==>
      t.calls[j].key == s.calls[j].key && t.calls[j].Active() == s.calls[j].Active();
  }

  lemma StartKeepsStarts(s: State, i: Ticket)
    requires Indexed(s) && Fifo(s) && StartsMatch(s) && Enabled(s, Start(i))
    ensures StartsMatch(Step(s, Start(i)))
  {
    var t := Step(s, Start(i));
    forall p | 0 <= p < |s.starts|
      ensures s.starts[p] < |s.calls| && s.starts[p] != i
      ensures s.calls[s.starts[p]].key == s.calls[i].key ==> s.starts[p] < i
    {
      assert s.starts[p] in s.starts;
    }
    assert forall x :: x in t.starts <==> x in s.starts || x == i;
    assert forall x :: 0 <= x < |s.calls| ==> t.calls[x].key == s.calls[x].key;
  }

  /** t is s but for the phase of call i, the map and i's mutex's depth. */
  ghost predicate OnlyCallMoved(s: State, t: State, i: Ticket) {
    && i < |s.calls| == |t.calls| && |t.heap| == |s.heap|
    && (forall j :: 0 <= j < |s.calls| ==> t.calls[j].mutex == s.calls[j].mutex && t.calls[j].key == s.calls[j].key)
    && (forall j :: 0 <= j < |s.calls| && j != i ==> t.calls[j].phase == s.calls[j].phase)
    && (forall m :: 0 <= m < |s.heap| ==> t.heap[m].queue == s.heap[m].queue)
    && (forall m :: 0 <= m < |s.heap| && m != s.calls[i].mutex ==> t.heap[m].depth == s.heap[m].depth)
  }

  lemma MoveKeepsChains(s: State, t: State, i: Ticket)
    requires Indexed(s) && Indexed(t) && ChainsMatch(s) && OnlyCallMoved(s, t, i) && !t.calls[i].phase.Queued?
    requires t.released == s.released + if t.calls[i].Active() then {} else {i}
    requires t.calls[i].Active() ==> s.calls[i].Active()
    ensures ChainsMatch(t)
  {
    assert forall m, below :: 0 <= below <= |s.calls| ==> CallsOn(t.calls, m, below) == CallsOn(s.calls, m, below);
  }

  lemma MoveKeepsDepths(s: State, t: State, i: Ticket)
    requires Indexed(s) && Indexed(t) && DepthsMatch(s) && OnlyCallMoved(s, t, i)
    requires t.calls[i].Active() ==> s.calls[i].Active()
    requires t.heap[s.calls[i].mutex].depth == s.heap[s.calls[i].mutex].depth
      - if s.calls[i].Active() && !t.calls[i].Active() then 1 else 0
    ensures DepthsMatch(t)
  {
    forall x | 0 <= x < |t.heap|
      ensures t.heap[x].depth == |ActiveOn(t.calls, x)|
    {
      if x == s.calls[i].mutex && s.calls[i].Active() && !t.calls[i].Active() {
        assert i in ActiveOn(s.calls, x);
        assert ActiveOn(t.calls, x) == ActiveOn(s.calls, x) - {i};
      } else {
        assert ActiveOn(t.calls, x) == ActiveOn(s.calls, x);
      }
    }
  }

  lemma MoveKeepsPool(s: State, t: State, i: Ticket)
    requires PoolMatches(s) && OnlyCallMoved(s, t, i) && t.mutexes == s.mutexes
    requires t.calls[i].Active() ==> s.calls[i].Active()
    requires !t.calls[i].phase.Gone?
    ensures PoolMatches(t)
  {
    forall k | k in t.mutexes
      ensures Owner(t.calls, t.mutexes[k], k) && Occupied(t.calls, t.mutexes[k])
    {
      var j :| 0 <= j < |s.calls| && s.calls[j].mutex == s.mutexes[k] && !s.calls[j].phase.Gone?;
      assert t.calls[j].mutex == t.mutexes[k];
    }
  }

  lemma MoveKeepsOrder(s: State, t: State, i: Ticket)
    requires Fifo(s) && StartsMatch(s) && OnlyCallMoved(s, t, i) && t.starts == s.starts
    requires !s.calls[i].phase.Queued? && !t.calls[i].phase.Queued?
    requires t.calls[i].Active() ==> s.calls[i].Active()
    ensures Fifo(t) && StartsMatch(t)
  {
  }

  lemma LeaveKeepsMapped(s: State, i: Ticket)
    requires Indexed(s) && DepthsMatch(s) && ActiveMapped(s) && Enabled(s, Leave(i))
    ensures ActiveMapped(Step(s, Leave(i)))
  {
    var t := Step(s, Leave(i));
    forall j | 0 <= j < |t.calls| && t.calls[j].Active()
      ensures t.calls[j].key in t.mutexes && t.mutexes[t.calls[j].key] == t.calls[j].mutex
    {
      if s.calls[j].mutex == s.calls[i].mutex {
        assert j in ActiveOn(s.calls, s.calls[i].mutex);
      }
    }
  }

  lemma LeaveKeepsLive(s: State, i: Ticket)
    requires Indexed(s) && DepthsMatch(s) && MapLive(s) && Enabled(s, Leave(i))
    ensures MapLive(Step(s, Leave(i)))
  {
    var t := Step(s, Leave(i));
    var m := s.calls[i].mutex;
    forall x | x in t.mutexes
      ensures Owner(t.calls, t.mutexes[x], x) && Occupied(t.calls, t.mutexes[x])
    {
      var j :| 0 <= j < |s.calls| && s.calls[j].mutex == s.mutexes[x] && !s.calls[j].phase.Gone?;
      if j == i {
        assert |ActiveOn(s.calls, m)| > 0;
        j :| j in ActiveOn(s.calls, m);
      }
      assert t.calls[j].mutex == t.mutexes[x] && !t.calls[j].phase.Gone?;
    }
  }

  lemma StartKeepsInv(s: State, i: Ticket)
    requires Inv(s) && Enabled(s, Start(i))
    ensures Inv(Step(s, Start(i)))
  {
    hide ChainsMatch, DepthsMatch, StartsMatch, Fifo;
    var t := Step(s, Start(i));
    MoveKeepsChains(s, t, i);
    MoveKeepsDepths(s, t, i);
    MoveKeepsPool(s, t, i);
    StartKeepsFifo(s, i);
    StartKeepsStarts(s, i);
  }

  lemma EndKeepsInv(s: State, i: Ticket)
    requires Inv(s) && Enabled(s, End(i))
    ensures Inv(Step(s, End(i)))
  {
    var t := Step(s, End(i));
    assert i in ActiveOn(s.calls, s.calls[i].mutex);
    MoveKeepsChains(s, t, i);
    MoveKeepsDepths(s, t, i);
    MoveKeepsPool(s, t, i);
    MoveKeepsOrder(s, t, i);
  }

  lemma LeaveKeepsInv(s: State, i: Ticket)
    requires Inv(s) && Enabled(s, Leave(i))
    ensures Inv(Step(s, Leave(i)))
  {
    var t := Step(s, Leave(i));
    LeaveKeepsMapped(s, i);
    LeaveKeepsLive(s, i);
    MoveKeepsChains(s, t, i);
    MoveKeepsDepths(s, t, i);
    MoveKeepsOrder(s, t, i);
  }

  lemma StepKeepsInv(s: State, a: Action)
    requires Inv(s) && Enabled(s, a)
    ensures Inv(Step(s, a))
  {
    match a
    case Begin(k) =>
      BeginKeepsChains(s, k);
      BeginKeepsDepths(s, k);
      BeginKeepsMapped(s, k);
      BeginKeepsLive(s, k);
      BeginKeepsOrder(s, k);
    case Start(i) => StartKeepsInv(s, i);
    case End(i) => EndKeepsInv(s, i);
    case Leave(i) => LeaveKeepsInv(s, i);
  }

  // ----- runs

  /**
   A run is a sequence of steps, each enabled where it is taken; `RunKeepsInv` shows that `Indexed` never ends
   one.
   */
  ghost predicate IsRun(s: State, run: seq<Action>)
    decreases |run|
  {
    run == [] || (Indexed(s) && Enabled(s, run[0]) && IsRun(Step(s, run[0]), run[1..]))
  }

  ghost function AfterRun(s: State, run: seq<Action>): State
    requires IsRun(s, run)
    decreases |run|
  {
    if run == [] then s else AfterRun(Step(s, run[0]), run[1..])
  }

  lemma {:induction false} RunKeepsInv(s: State, run: seq<Action>)
    requires Inv(s) && IsRun(s, run)
    ensures Inv(AfterRun(s, run)) && Indexed(AfterRun(s, run))
    decreases |run|
  {
    if run != [] {
      StepKeepsInv(s, run[0]);
      RunKeepsInv(Step(s, run[0]), run[1..]);
    }
  }

  lemma NothingYet()
    ensures Inv(EMPTY)
  {
  }

  /** The state a run of calls, from a new pool, ends in. */
  ghost predicate Reachable(s: State) {
    exists run :: IsRun(EMPTY, run) && s == AfterRun(EMPTY, run)
  }

  lemma ReachableInv(s: State)
    requires Reachable(s)
    ensures Inv(s) && Indexed(s)
  {
    NothingYet();
    var run :| IsRun(EMPTY, run) && s == AfterRun(EMPTY, run);
    RunKeepsInv(EMPTY, run);
  }

  /** At most one body of a key runs at a time, whatever keys the others use and whoever throws. */
  lemma MutualExclusion(s: State, i: Ticket, j: Ticket)
    requires Reachable(s)
    requires i < |s.calls| && j < |s.calls| && s.calls[i].key == s.calls[j].key
    requires s.calls[i].phase.Running? && s.calls[j].phase.Running?
    ensures i == j
  {
    ReachableInv(s);
  }

  /** Bodies of a key start in call order, none overtaken, each after the one before has ended. */
  lemma CallOrder(s: State, i: Ticket, j: Ticket)
    requires Reachable(s)
    requires i < j < |s.calls| && s.calls[i].key == s.calls[j].key && j in s.starts
    ensures i in s.released
    ensures exists p, q :: 0 <= p < q < |s.starts| && s.starts[p] == i && s.starts[q] == j
  {
    ReachableInv(s);
    assert s.calls[i].phase.Ended? || s.calls[i].phase.Gone?;
    assert i in s.starts;
    var p :| 0 <= p < |s.starts| && s.starts[p] == i;
    var q :| 0 <= q < |s.starts| && s.starts[q] == j;
    assert !(q < p);
  }

  /** Eviction never splits a key: all its unfinished work is on the one mutex the map holds. */
  lemma EvictionKeepsLiveMutexes(s: State, i: Ticket)
    requires Reachable(s) && i < |s.calls| && s.calls[i].Active()
    ensures s.calls[i].key in s.mutexes
    ensures forall j :: 0 <= j < |s.calls| && s.calls[j].key == s.calls[i].key && s.calls[j].Active() ==>
              s.calls[j].mutex == s.mutexes[s.calls[i].key]
  {
    ReachableInv(s);
  }

  /** The map's keys are keys of unsettled calls, so it is empty once every caller has settled. */
  lemma PoolTracksLiveContention(s: State)
    requires Reachable(s)
    ensures forall k :: k in s.mutexes ==> exists i ::
      0 <= i < |s.calls| && s.calls[i].key == k && !s.calls[i].phase.Gone?
    ensures (forall i :: 0 <= i < |s.calls| ==> s.calls[i].phase.Gone?) ==> s.mutexes == map[]
  {
    ReachableInv(s);
  }

  // ----- what a step does to the callers

  lemma StartableIfFirst(s: State, i: Ticket)
    requires Inv(s) && i < |s.calls| && s.calls[i].phase.Queued?
    requires forall j :: 0 <= j < i && s.calls[j].key == s.calls[i].key ==> !s.calls[j].Active()
    ensures Enabled(s, Start(i))
  {
    SettledMeansAllReleased(s.calls[i].phase.prev, s.released);
    forall j | j in CallsOn(s.calls, s.calls[i].mutex, i)
      ensures j in s.released
    {
      assert Owner(s.calls, s.calls[i].mutex, s.calls[i].key);
    }
  }

  /**
   A queued body can start exactly when no earlier call of its key is queued or running; one that runs can end, and
   a call whose body has ended can leave.
   */
  lemma WhatCanHappen(s: State, i: Ticket)
    requires Reachable(s) && i < |s.calls|
    ensures Enabled(s, Start(i)) <==>
      && s.calls[i].phase.Queued?
      && forall j :: 0 <= j < i && s.calls[j].key == s.calls[i].key ==>
        !s.calls[j].phase.Queued? && !s.calls[j].phase.Running?
    ensures Enabled(s, End(i)) <==> s.calls[i].phase.Running?
    ensures Enabled(s, Leave(i)) <==> s.calls[i].phase.Ended?
  {
    ReachableInv(s);
    if Enabled(s, Start(i)) {
      StartNeedsEarlierReleased(s, i);
    } else if s.calls[i].phase.Queued? &&
      forall j :: 0 <= j < i && s.calls[j].key == s.calls[i].key ==> !s.calls[j].Active()
    {
      StartableIfFirst(s, i);
    }
  }

  ghost predicate Busy(s: State, k: Key) {
    exists j :: 0 <= j < |s.calls| && s.calls[j].key == k && s.calls[j].Active()
  }

  /**
   A new call is the last, has the key it was made with and waits; it can start at once exactly when no call of
   that key, whatever the other keys do, is queued or running.
   */
  lemma NewCallWaitsForItsKeyOnly(s: State, k: Key)
    requires Reachable(s)
    ensures Indexed(s) && Enabled(s, Begin(k))
    ensures var t, n := Step(s, Begin(k)), |s.calls|;
      && |t.calls| == n + 1 && t.calls[..n] == s.calls && t.calls[n].key == k && t.calls[n].phase.Queued?
      && t.starts == s.starts && t.released == s.released
      && (Enabled(t, Start(n)) <==> !Busy(s, k))
  {
    hide ChainsMatch, DepthsMatch, Fifo, StartsMatch;
    ReachableInv(s);
    var t, n := Step(s, Begin(k)), |s.calls|;
    StepKeepsInv(s, Begin(k));
    assert forall i :: 0 <= i < n ==> t.calls[i] == s.calls[i];
    if Enabled(t, Start(n)) {
      StartNeedsEarlierReleased(t, n);
    } else if !Busy(s, k) {
      StartableIfFirst(t, n);
    }
  }

  function Moved(a: Action): Phase {
    match a
    case Start(_) => Running
    case End(_) => Ended
    case _ => Gone
  }

  /** Every other step moves its own call one phase on, and leaves all others where they are. */
  lemma OneCallMoves(s: State, a: Action)
    requires Indexed(s) && Enabled(s, a) && !a.Begin?
    ensures var t, i := Step(s, a), a.ticket;
      && t.calls == s.calls[i := Call(s.calls[i].key, s.calls[i].mutex, Moved(a))]
      && t.starts == (if a.Start? then s.starts + [i] else s.starts)
      && t.released == (if a.End? then s.released + {i} else s.released)
      && (!a.Leave? ==> t.mutexes == s.mutexes)
  {
  }

  /**
   A call that leaves takes its key out of the map exactly when none of the key is queued or running; no other key
   goes.
   */
  lemma EvictsExactlyIdle(s: State, i: Ticket)
    requires Reachable(s) && Enabled(s, Leave(i))
    ensures Indexed(s)
    ensures var t, c := Step(s, Leave(i)), s.calls[i];
      && t.mutexes.Keys == s.mutexes.Keys -
           (if c.key in s.mutexes && s.mutexes[c.key] == c.mutex && !Busy(s, c.key) then {c.key} else {})
      && forall k :: k in t.mutexes ==> t.mutexes[k] == s.mutexes[k]
  {
    ReachableInv(s);
    var c := s.calls[i];
    if c.key in s.mutexes && s.mutexes[c.key] == c.mutex {
      assert Owner(s.calls, c.mutex, c.key);
      if !Busy(s, c.key) {
        assert ActiveOn(s.calls, c.mutex) == {};
      } else {
        var j :| 0 <= j < |s.calls| && s.calls[j].key == c.key && s.calls[j].Active();
        assert j in ActiveOn(s.calls, c.mutex);
      }
    }
  }

  // ----- progress

  function Weight(p: Phase): nat {
    if p.Queued? then 2 else if p.Running? then 1 else 0
  }

  /** What is still to happen to the first n calls on key k. */
  function Work(calls: seq<Call>, k: Key, n: nat): nat
    requires n <= |calls|
  {
    if n == 0 then 0
    else Work(calls, k, n - 1) + if calls[n - 1].key == k then Weight(calls[n - 1].phase) else 0
  }

  /** The ranking measure of a queued body: the work up to and including its own call. */
  function Rank(s: State, i: Ticket): nat
    requires i < |s.calls|
  {
    Work(s.calls, s.calls[i].key, i + 1)
  }

  predicate Helps(s: State, a: Action, i: Ticket)
    requires i < |s.calls|
  {
    (a.Start? || a.End?) && a.ticket <= i && s.calls[a.ticket].key == s.calls[i].key
  }

  lemma {:induction false} WorkMoves(calls: seq<Call>, calls': seq<Call>, k: Key, n: nat, at: nat)
    requires n <= |calls| <= |calls'|
    requires forall j :: 0 <= j < |calls| ==> calls'[j].key == calls[j].key
    requires forall j :: 0 <= j < |calls| && j != at ==> calls'[j].phase == calls[j].phase
    requires at < |calls| ==> Weight(calls'[at].phase) <= Weight(calls[at].phase)
    ensures Work(calls', k, n) +
      (if at < n && calls[at].key == k then Weight(calls[at].phase) - Weight(calls'[at].phase) else 0)
         == Work(calls, k, n)
  {
    if n > 0 {
      WorkMoves(calls, calls', k, n - 1, at);
    }
  }

  /** No step raises a rank, and every start or end of an earlier call of the key lowers it. */
  lemma StepLowersRank(s: State, a: Action, i: Ticket)
    requires Indexed(s) && Enabled(s, a) && i < |s.calls|
    ensures i < |Step(s, a).calls|
    ensures Rank(Step(s, a), i) + (if Helps(s, a, i) then 1 else 0) <= Rank(s, i)
  {
    var t := Step(s, a);
    var at := if a.Begin? then |s.calls| else a.ticket;
    WorkMoves(s.calls, t.calls, s.calls[i].key, i + 1, at);
  }

  /** While a body is queued, a body of its key before it is running or one can start now: a helpful step. */
  lemma NoDeadlock(s: State, i: Ticket)
    requires Inv(s) && i < |s.calls| && s.calls[i].phase.Queued?
    ensures exists j :: 0 <= j <= i && s.calls[j].key == s.calls[i].key &&
              (s.calls[j].phase.Running? || Enabled(s, Start(j)))
    ensures exists a :: Enabled(s, a) && Helps(s, a, i)
    decreases i
  {
    if j :| 0 <= j < i && s.calls[j].key == s.calls[i].key && s.calls[j].Active() {
      if s.calls[j].phase.Queued? {
        NoDeadlock(s, j);
      } else {
        assert Enabled(s, End(j)) && Helps(s, End(j), i);
      }
    } else {
      SettledMeansAllReleased(s.calls[i].phase.prev, s.released);
      forall j | j in CallsOn(s.calls, s.calls[i].mutex, i)
        ensures j in s.released
      {
        assert s.calls[j].key == s.calls[i].key;
      }
      assert Enabled(s, Start(i)) && Helps(s, Start(i), i);
    }
  }

  lemma RunGoesOn(s: State, run: seq<Action>)
    requires Inv(s) && IsRun(s, run) && run != []
    ensures Indexed(s) && Enabled(s, run[0]) && Inv(Step(s, run[0])) && IsRun(Step(s, run[0]), run[1..])
    ensures |s.calls| <= |Step(s, run[0]).calls|
  {
    StepKeepsInv(s, run[0]);
  }

  ghost function HelpfulSteps(s: State, run: seq<Action>, i: Ticket): nat
    requires Inv(s) && IsRun(s, run) && i < |s.calls|
    decreases |run|
  {
    if run == [] then 0
    else
      RunGoesOn(s, run);
      (if Helps(s, run[0], i) then 1 else 0) + HelpfulSteps(Step(s, run[0]), run[1..], i)
  }

  lemma QueuedRank(s: State, i: Ticket)
    requires i < |s.calls|
    ensures Rank(s, i) >= if s.calls[i].phase.Queued? then 2 else 0
  {
  }

  /**
   Every queued body starts: once a run has taken as many helpful steps as its rank is worth, it is
   no longer queued, and by `NoDeadlock` a helpful step is available (or a body is running, whose
   end is one) for as long as it is.
   */
  lemma {:induction false} QueuedBodyStarts(s: State, run: seq<Action>, i: Ticket)
    requires Inv(s) && IsRun(s, run) && i < |s.calls|
    ensures i < |AfterRun(s, run).calls|
    ensures HelpfulSteps(s, run, i) + Rank(AfterRun(s, run), i) <= Rank(s, i)
    ensures HelpfulSteps(s, run, i) + 1 >= Rank(s, i) ==> !AfterRun(s, run).calls[i].phase.Queued?
    decreases |run|
  {
    hide Inv, Rank, Helps, Enabled, Indexed;
    if run != [] {
      StepKeepsInv(s, run[0]);
      StepLowersRank(s, run[0], i);
      QueuedBodyStarts(Step(s, run[0]), run[1..], i);
    } else {
      QueuedRank(s, i);
    }
  }

  // ----- the same steps on objects

  class AsyncMutex {
    var queue: Promise
    var depth: int

    constructor ()
      ensures queue == Resolved && depth == 0
    {
      queue, depth := Resolved, 0;
    }

    predicate Idle()
      reads this
    {
      depth == 0
    }

    /** `run` up to its first await: chain onto the queue, do not replace it. */
    method Enqueue(ticket: Ticket) returns (prev: Promise)
      modifies this
      ensures prev == old(queue) && queue == After(prev, ticket) && depth == old(depth) + 1
    {
      prev := queue;
      queue := After(prev, ticket);
      depth := depth + 1;
    }

    /** The `finally` of `run`; resolving the ticket's promise is the pool's `released`. */
    method Exit()
      modifies this
      ensures queue == old(queue) && depth == old(depth) - 1
    {
      depth := depth - 1;
    }
  }

  /** The local variables of a suspended `KeyedAsyncMutex.run`. */
  datatype Frame = Frame(key: Key, mutex: AsyncMutex, phase: Phase)

  /**
   The pool, with the suspended frames of its callers. `model` is its state on values: every method
   moves it by one `Step`, so whatever is proved of runs of steps holds of runs of these methods.
   */
  class KeyedAsyncMutex {
    var mutexes: map<Key, AsyncMutex>
    var frames: seq<Frame>
    var released: set<Ticket>
    ghost var objects: seq<AsyncMutex>
    ghost var model: State

    ghost predicate HeapMirrored()
      reads this, objects
    {
      && |objects| == |model.heap|
      && (forall m, n :: 0 <= m < n < |objects| ==> objects[m] != objects[n])
      && forall m :: 0 <= m < |objects| ==> Mutex(objects[m].queue, objects[m].depth) == model.heap[m]
    }

    ghost predicate MapMirrored()
      requires Indexed(model) && |objects| == |model.heap|
      reads this
    {
      mutexes.Keys == model.mutexes.Keys && forall k :: k in mutexes ==> mutexes[k] == objects[model.mutexes[k]]
    }

    ghost predicate FramesMirrored()
      requires Indexed(model) && |objects| == |model.heap|
      reads this
    {
      && |frames| == |model.calls|
      && forall i :: 0 <= i < |frames| ==>
           && frames[i].mutex == objects[model.calls[i].mutex]
           && frames[i].key == model.calls[i].key && frames[i].phase == model.calls[i].phase
    }

    ghost predicate Valid()
      reads this, objects
    {
      Indexed(model) && HeapMirrored() && MapMirrored() && FramesMirrored() && released == model.released
    }

    constructor ()
      ensures Valid() && model == EMPTY && fresh(objects)
    {
      mutexes, frames, released := map[], [], {};
      objects, model := [], EMPTY;
    }

    method MutexFor(key: Key) returns (mutex: AsyncMutex)
      requires Valid()
      modifies this
      ensures Valid() && model == WithMutex(old(model), key) && frames == old(frames) && released == old(released)
      ensures key in mutexes && mutex == mutexes[key] && (mutex in old(objects) || fresh(mutex))
      ensures old(objects) <= objects && forall o :: o in objects[|old(objects)|..] ==> fresh(o)
    {
      if key in mutexes {
        mutex := mutexes[key];
      } else {
        mutex := new AsyncMutex();
        mutexes := mutexes[key := mutex];
        objects := objects + [mutex];
        model := WithMutex(model, key);
      }
    }

    method Join(key: Key, mutex: AsyncMutex) returns (ticket: Ticket)
      requires Valid() && key in mutexes && mutex == mutexes[key]
      modifies this, mutex
      ensures Valid() && model == Enqueued(old(model), key) && objects == old(objects) && ticket == |old(frames)|
      ensures |frames| == ticket + 1 && frames[..ticket] == old(frames) && mutexes == old(mutexes)
      ensures frames[ticket].key == key && frames[ticket].mutex == mutex && frames[ticket].phase.Queued?
    {
      ticket := |frames|;
      var prev := mutex.Enqueue(ticket);
      frames := frames + [Frame(key, mutex, Queued(prev))];
      model := Enqueued(model, key);
      assert HeapMirrored();
      assert MapMirrored();
    }

    /** A call, up to `await prev`: find or create the key's mutex and queue on it. */
    method Begin(key: Key) returns (ticket: Ticket)
      requires Valid()
      modifies this, objects
      ensures Valid() && model == Step(old(model), Action.Begin(key)) && ticket == |old(frames)|
      ensures |frames| == ticket + 1 && frames[..ticket] == old(frames)
      ensures frames[ticket].key == key && frames[ticket].phase.Queued?
      ensures key in mutexes && frames[ticket].mutex == mutexes[key]
      ensures old(objects) <= objects && forall o :: o in objects[|old(objects)|..] ==> fresh(o)
    {
      var mutex := MutexFor(key);
      ticket := Join(key, mutex);
    }

    /** `prev` has resolved: the body starts. */
    method Start(ticket: Ticket)
      requires Valid() && Enabled(model, Action.Start(ticket))
      modifies `frames, `model
      ensures Valid() && model == Step(old(model), Action.Start(ticket)) && objects == old(objects)
      ensures frames == old(frames)[ticket := old(frames)[ticket].(phase := Running)]
    {
      frames := frames[ticket := frames[ticket].(phase := Running)];
      model := Step(model, Action.Start(ticket));
    }

    /** The body has returned or thrown: leave the mutex and release the ticket. */
    method End(ticket: Ticket)
      requires Valid() && Enabled(model, Action.End(ticket))
      modifies this, objects
      ensures Valid() && model == Step(old(model), Action.End(ticket)) && objects == old(objects)
      ensures frames == old(frames)[ticket := old(frames)[ticket].(phase := Ended)]
      ensures released == old(released) + {ticket}
      ensures frames[ticket].mutex.depth == old(frames[ticket].mutex.depth) - 1
    {
      frames[ticket].mutex.Exit();
      released := released + {ticket};
      frames := frames[ticket := frames[ticket].(phase := Ended)];
      model := Step(model, Action.End(ticket));
    }

    /** The pool's `finally`: drop the mutex if it is idle and still the key's. */
    method Leave(ticket: Ticket)
      requires Valid() && Enabled(model, Action.Leave(ticket))
      modifies `mutexes, `frames, `model
      ensures Valid() && model == Step(old(model), Action.Leave(ticket)) && objects == old(objects)
      ensures frames == old(frames)[ticket := old(frames)[ticket].(phase := Gone)]
      ensures var f := old(frames)[ticket];
        mutexes == if f.mutex.depth == 0 && f.key in old(mutexes) && old(mutexes)[f.key] == f.mutex
        then old(mutexes) - {f.key} else old(mutexes)
    {
      var f := frames[ticket];
      if f.mutex.Idle() && f.key in mutexes && mutexes[f.key] == f.mutex {
        mutexes := mutexes - {f.key};
      }
      frames := frames[ticket := f.(phase := Gone)];
      model := Step(model, Action.Leave(ticket));
    }
  }
}
