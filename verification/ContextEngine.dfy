/**
 Background learning in the context engine. A step is the code between two awaits: a learn up to its
 write, the end of that write, the callback that stops tracking it, and the turns of `settle`.
 */
module ContextEngine {
  import opened Wrappers
  import R = RecentSessions

  type Key = R.Key

  type Id = nat

  /** Which set of claimed statements. */
  type SetId = int

  /** What has become of the promise of a background learn. */
  datatype Phase = Skipped | Writing | Written | Failed

  /** A call of `_learnIfNew`, holding the set of statements it claimed in. */
  datatype Learn = Learn(session: Key, statement: string, seen: SetId, phase: Phase)
  {
    predicate Live() {
      phase.Writing? || phase.Written?
    }

    predicate Of(session: Key, statement: string) {
      this.session == session && this.statement == statement
    }
  }

  /** A set of claimed statements, with the session it was made for. */
  datatype Seen = Seen(owner: Key, statements: set<string>)

  /** A call of `settle`: waiting on the promises of its last look, or back, with how many learns had begun. */
  datatype Waiter = Waiting(on: set<Id>) | Returned(learns: nat)

  /** `dropped` holds the sessions whose set was evicted or deleted. */
  datatype State = State(
    sessions: R.Entries<SetId>, sets: seq<Seen>, learns: seq<Learn>, inflight: set<Id>, waiters: seq<Waiter>,
        dropped: set<Key>)

  const EMPTY := State([], [], [], {}, [], {})

  datatype Action =
    | Begin(session: Key, statement: string)
    | Succeed(id: Id)
    | Fail(id: Id)
    | Untrack(id: Id)
    | EndSession(session: Key)
    | Settle
    | Resume(waiter: nat)

  /** `settle` looks at what is in flight: it waits for all of it, or returns. */
  function Look(s: State): Waiter {
    if s.inflight == {} then Returned(|s.learns|) else Waiting(s.inflight)
  }

  ghost predicate Enabled(s: State, a: Action) {
    match a
    case Begin(_, _) => true
    case Succeed(id) => id < |s.learns| && s.learns[id].phase.Writing?
    case Fail(id) => id < |s.learns| && s.learns[id].phase.Writing?
    case Untrack(id) => id in s.inflight && id < |s.learns| && !s.learns[id].phase.Writing?
    case EndSession(_) => true
    case Settle => true
    // what it waited on has settled, and the callbacks registered before it have run
    case Resume(w) => w < |s.waiters| && s.waiters[w].Waiting? && s.waiters[w].on !! s.inflight
  }

  /** The session's set, made and stored if it has none, moved to the front if it has. */
  function Entered(s: State, session: Key): State {
    var found := R.Find(s.sessions, session);
    var id := if found.Some? then found.value else |s.sets|;
    var sessions := R.Stored(R.Touched(s.sessions, session), session, id);
    s.(sessions := sessions, sets := if found.Some? then s.sets else s.sets + [Seen(session, {})],
       dropped := s.dropped + (R.Keys(s.sessions) - R.Keys(sessions)))
  }

  ghost predicate Indexed(s: State) {
    && (forall i :: 0 <= i < |s.sessions| ==> 0 <= s.sessions[i].1 < |s.sets|)
    && (forall c :: 0 <= c < |s.learns| ==> 0 <= s.learns[c].seen < |s.sets|)
  }

  /** Claim the statement in set id, unless it is claimed there already, and track the call. */
  function Claimed(s: State, session: Key, key: string, id: SetId): State
    requires 0 <= id < |s.sets|
  {
    var seen := s.sets[id];
    if key in seen.statements then
      s.(learns := s.learns + [Learn(session, key, id, Skipped)], inflight := s.inflight + {|s.learns|})
    else
      s.(sets := s.sets[id := seen.(statements := seen.statements + {key})],
         learns := s.learns + [Learn(session, key, id, Writing)], inflight := s.inflight + {|s.learns|})
  }

  function SetOf(s: State, session: Key): SetId {
    var found := R.Find(s.sessions, session);
    if found.Some? then found.value else |s.sets|
  }

  lemma FindIn(es: R.Entries<SetId>, k: Key)
    requires R.Find(es, k).Some?
    ensures exists i :: 0 <= i < |es| && es[i] == (k, R.Find(es, k).value)
  {
    if es[0].0 != k {
      FindIn(es[1..], k);
      var i :| 0 <= i < |es[1..]| && es[1..][i] == (k, R.Find(es[1..], k).value);
      assert es[i + 1] == es[1..][i];
    }
  }

  ghost function Step(lower: string -> string, s: State, a: Action): State
    requires Indexed(s) && Enabled(s, a)
  {
    match a
    case Begin(session, statement) =>
      var id := SetOf(s, session);
      assert 0 <= id <= |s.sets| && (id == |s.sets| ==> R.Find(s.sessions, session).None?) by {
        if R.Find(s.sessions, session).Some? {
          FindIn(s.sessions, session);
        }
      }
      Claimed(Entered(s, session), session, lower(statement), id)
    case Succeed(id) => s.(learns := s.learns[id := s.learns[id].(phase := Written)])
    case Fail(id) =>
      var learn := s.learns[id];
      var seen := s.sets[learn.seen];
      s.(sets := s.sets[learn.seen := seen.(statements := seen.statements - {learn.statement})],
         learns := s.learns[id := learn.(phase := Failed)])
    case Untrack(id) => s.(inflight := s.inflight - {id})
    case EndSession(session) =>
      s.(sessions := R.Without(s.sessions, session),
         dropped := s.dropped + if session in R.Keys(s.sessions) then {session} else {})
    case Settle => s.(waiters := s.waiters + [Look(s)])
    case Resume(w) => s.(waiters := s.waiters[w := Look(s)])
  }

  // ----- what every step keeps

  /** Learn c holds the claim on key in set i: it is being written, or is written. */
  ghost predicate Holds(s: State, c: int, i: SetId, key: string) {
    0 <= c < |s.learns| && s.learns[c].seen == i && s.learns[c].statement == key && s.learns[c].Live()
  }

  ghost predicate SessionsOk(s: State) {
    R.OncePerKey(s.sessions) &&
    forall e :: e in s.sessions ==> 0 <= e.1 < |s.sets| && s.sets[e.1].owner == e.0
  }

  ghost predicate LearnOk(s: State, c: Id)
    requires c < |s.learns|
  {
    var learn := s.learns[c];
    && 0 <= learn.seen < |s.sets| && s.sets[learn.seen].owner == learn.session
    && (learn.Live() ==> learn.statement in s.sets[learn.seen].statements)
    && (learn.phase.Writing? ==> c in s.inflight)
    && (learn.session !in s.dropped ==> R.Find(s.sessions, learn.session) == Some(learn.seen))
  }

  ghost predicate LearnsOk(s: State) {
    forall c {:trigger LearnOk(s, c)} :: 0 <= c < |s.learns| ==> LearnOk(s, c)
  }

  /** Nothing is claimed that is neither being written nor written. */
  ghost predicate ClaimsOk(s: State) {
    forall i, key :: 0 <= i < |s.sets| && key in s.sets[i].statements ==> exists c :: Holds(s, c, i, key)
  }

  /** Of the learns of one statement in one set, one at most is being written or written. */
  ghost predicate OnceOk(s: State) {
    forall i, key, c, d :: Holds(s, c, i, key) && Holds(s, d, i, key) ==> c == d
  }

  ghost predicate WaiterOk(s: State, w: Waiter) {
    w.Returned? ==> w.learns <= |s.learns| && forall c :: 0 <= c < w.learns ==> !s.learns[c].phase.Writing?
  }

  ghost predicate WaitersOk(s: State) {
    (forall w :: w in s.waiters ==> WaiterOk(s, w)) && forall c :: c in s.inflight ==> c < |s.learns|
  }

  ghost predicate Inv(s: State) {
    SessionsOk(s) && LearnsOk(s) && ClaimsOk(s) && OnceOk(s) && WaitersOk(s)
  }

  lemma InvIndexed(s: State)
    requires SessionsOk(s) && LearnsOk(s)
    ensures Indexed(s)
  {
    forall i | 0 <= i < |s.sessions|
      ensures 0 <= s.sessions[i].1 < |s.sets|
    {
      assert s.sessions[i] in s.sessions;
    }
    forall c | 0 <= c < |s.learns|
      ensures 0 <= s.learns[c].seen < |s.sets|
    {
      assert LearnOk(s, c);
    }
  }

  /** Entering a session gives it one set, and leaves the others theirs or drops them. */
  lemma EnteredOk(s: State, session: Key)
    requires SessionsOk(s) && LearnsOk(s)
    ensures var id := SetOf(s, session); var t := Entered(s, session);
      && 0 <= id < |t.sets| && SessionsOk(t) && LearnsOk(t) && R.Find(t.sessions, session) == Some(id)
      && t.sets[id].owner == session
  {
    var id, t := SetOf(s, session), Entered(s, session);
    if R.Find(s.sessions, session).Some? {
      FindIn(s.sessions, session);
    }
    R.TouchedThenStored(s.sessions, session, id);
    R.StoredHolds(s.sessions, session, id);
    forall c | 0 <= c < |t.learns|
      ensures LearnOk(t, c)
    {
      assert LearnOk(s, c);
      var k := t.learns[c].session;
      if k !in t.dropped && k != session {
        R.StoredOther(s.sessions, session, id, k);
      }
    }
  }

  lemma EnteredClaims(s: State, session: Key)
    requires ClaimsOk(s) && OnceOk(s) && WaitersOk(s)
    ensures var t := Entered(s, session); ClaimsOk(t) && OnceOk(t) && WaitersOk(t)
  {
    var t := Entered(s, session);
    forall i, key | 0 <= i < |t.sets| && key in t.sets[i].statements
      ensures exists c :: Holds(t, c, i, key)
    {
      var c :| Holds(s, c, i, key);
      assert Holds(t, c, i, key);
    }
    forall i, key, c, d | Holds(t, c, i, key) && Holds(t, d, i, key)
      ensures c == d
    {
      assert Holds(s, c, i, key) && Holds(s, d, i, key);
    }
    forall w | w in t.waiters
      ensures WaiterOk(t, w)
    {
      assert WaiterOk(s, w);
    }
  }

  lemma ClaimedLearns(s: State, session: Key, key: string, id: SetId)
    requires SessionsOk(s) && LearnsOk(s) && 0 <= id < |s.sets|
    requires s.sets[id].owner == session && R.Find(s.sessions, session) == Some(id)
    ensures var t := Claimed(s, session, key, id); SessionsOk(t) && LearnsOk(t)
  {
    var t := Claimed(s, session, key, id);
    forall c | 0 <= c < |t.learns|
      ensures LearnOk(t, c)
    {
      if c < |s.learns| {
        assert LearnOk(s, c);
      }
    }
  }

  lemma LiveIsClaimed(s: State)
    requires LearnsOk(s)
    ensures forall i, key, c :: Holds(s, c, i, key) ==> 0 <= i < |s.sets| && key in s.sets[i].statements
  {
    forall i, key, c | Holds(s, c, i, key)
      ensures 0 <= i < |s.sets| && key in s.sets[i].statements
    {
      assert LearnOk(s, c);
    }
  }

  lemma ClaimedClaims(s: State, session: Key, key: string, id: SetId)
    requires LearnsOk(s) && ClaimsOk(s) && OnceOk(s) && WaitersOk(s) && 0 <= id < |s.sets|
    ensures var t := Claimed(s, session, key, id); ClaimsOk(t) && OnceOk(t) && WaitersOk(t)
  {
    var t, n := Claimed(s, session, key, id), |s.learns|;
    forall i, other | 0 <= i < |t.sets| && other in t.sets[i].statements
      ensures exists c :: Holds(t, c, i, other)
    {
      if other in s.sets[i].statements {
        var c :| Holds(s, c, i, other);
        assert Holds(t, c, i, other);
      } else {
        assert Holds(t, n, i, other);
      }
    }
    LiveIsClaimed(s);
    forall i, other, c, d | Holds(t, c, i, other) && Holds(t, d, i, other)
      ensures c == d
    {
      assert (c < n ==> Holds(s, c, i, other)) && (d < n ==> Holds(s, d, i, other));
    }
    forall w | w in t.waiters
      ensures WaiterOk(t, w)
    {
      assert WaiterOk(s, w);
    }
  }

  /** A write that ends: its claim stays if it succeeded and is released if it failed. */
  lemma EndedLearns(lower: string -> string, s: State, a: Action)
    requires Inv(s) && Indexed(s) && (a.Succeed? || a.Fail?) && Enabled(s, a)
    ensures var t := Step(lower, s, a); SessionsOk(t) && LearnsOk(t)
  {
    var t := Step(lower, s, a);
    forall c | 0 <= c < |t.learns|
      ensures LearnOk(t, c)
    {
      assert LearnOk(s, c);
      if c != a.id && s.learns[c].Live() && s.learns[c].seen == s.learns[a.id].seen &&
        s.learns[c].statement == s.learns[a.id].statement {
        assert Holds(s, c, s.learns[c].seen, s.learns[c].statement) &&
          Holds(s, a.id, s.learns[c].seen, s.learns[c].statement);
      }
    }
  }

  lemma EndedClaims(lower: string -> string, s: State, a: Action)
    requires Inv(s) && Indexed(s) && (a.Succeed? || a.Fail?) && Enabled(s, a)
    ensures var t := Step(lower, s, a); ClaimsOk(t) && OnceOk(t) && WaitersOk(t)
  {
    var t := Step(lower, s, a);
    forall i, key | 0 <= i < |t.sets| && key in t.sets[i].statements
      ensures exists c :: Holds(t, c, i, key)
    {
      var c :| Holds(s, c, i, key);
      assert Holds(t, c, i, key);
    }
    forall i, key, c, d | Holds(t, c, i, key) && Holds(t, d, i, key)
      ensures c == d
    {
      assert Holds(s, c, i, key) && Holds(s, d, i, key);
    }
    forall w | w in t.waiters
      ensures WaiterOk(t, w)
    {
      assert WaiterOk(s, w);
    }
  }

  lemma SameClaims(s: State, t: State)
    requires ClaimsOk(s) && OnceOk(s) && t.learns == s.learns && t.sets == s.sets
    ensures ClaimsOk(t) && OnceOk(t)
  {
    forall i, key | 0 <= i < |t.sets| && key in t.sets[i].statements
      ensures exists c :: Holds(t, c, i, key)
    {
      var c :| Holds(s, c, i, key);
      assert Holds(t, c, i, key);
    }
    forall i, key, c, d | Holds(t, c, i, key) && Holds(t, d, i, key)
      ensures c == d
    {
      assert Holds(s, c, i, key) && Holds(s, d, i, key);
    }
  }

  /** When `settle` finds nothing in flight, nothing begun so far is still being written. */
  lemma LookOk(s: State)
    requires LearnsOk(s)
    ensures WaiterOk(s, Look(s))
  {
    forall c | 0 <= c < |s.learns|
      ensures s.learns[c].phase.Writing? ==> c in s.inflight
    {
      assert LearnOk(s, c);
    }
  }

  lemma OtherStepsKeep(lower: string -> string, s: State, a: Action)
    requires Inv(s) && Indexed(s) && (a.Untrack? || a.EndSession? || a.Settle? || a.Resume?) && Enabled(s, a)
    ensures Inv(Step(lower, s, a))
  {
    var t := Step(lower, s, a);
    SameClaims(s, t);
    LookOk(s);
    if a.EndSession? {
      R.WithoutIs(s.sessions, a.session);
      R.WithoutEntries(s.sessions, a.session);
    }
    forall c | 0 <= c < |t.learns|
      ensures LearnOk(t, c)
    {
      assert LearnOk(s, c);
      if a.EndSession? && t.learns[c].session != a.session {
        R.FindWithout(s.sessions, a.session, t.learns[c].session);
      }
    }
    forall w | w in t.waiters
      ensures WaiterOk(t, w)
    {
      if w in s.waiters {
        assert WaiterOk(s, w);
      }
    }
  }

  lemma BeginKeeps(lower: string -> string, s: State, session: Key, statement: string)
    requires Inv(s) && Indexed(s)
    ensures Inv(Step(lower, s, Begin(session, statement)))
  {
    hide SessionsOk, LearnsOk, ClaimsOk, OnceOk, WaitersOk, Claimed;
    var id, t := SetOf(s, session), Entered(s, session);
    EnteredOk(s, session);
    EnteredClaims(s, session);
    ClaimedLearns(t, session, lower(statement), id);
    ClaimedClaims(t, session, lower(statement), id);
  }

  lemma StepKeepsInv(lower: string -> string, s: State, a: Action)
    requires Inv(s) && Indexed(s) && Enabled(s, a)
    ensures Inv(Step(lower, s, a)) && Indexed(Step(lower, s, a))
  {
    hide SessionsOk, LearnsOk, ClaimsOk, OnceOk, WaitersOk, Step, Enabled, Indexed;
    if a.Begin? {
      BeginKeeps(lower, s, a.session, a.statement);
    } else if a.Succeed? || a.Fail? {
      EndedLearns(lower, s, a);
      EndedClaims(lower, s, a);
    } else {
      OtherStepsKeep(lower, s, a);
    }
    InvIndexed(Step(lower, s, a));
  }

  // ----- every interleaving

  ghost predicate IsRun(lower: string -> string, s: State, run: seq<Action>)
    requires Inv(s) && Indexed(s)
    decreases |run|
  {
    run == [] ||
    (Enabled(s, run[0]) &&
     (StepKeepsInv(lower, s, run[0]);
      IsRun(lower, Step(lower, s, run[0]), run[1..])))
  }

  ghost function AfterRun(lower: string -> string, s: State, run: seq<Action>): (t: State)
    requires Inv(s) && Indexed(s) && IsRun(lower, s, run)
    ensures Inv(t) && Indexed(t)
    decreases |run|
  {
    if run == [] then s
    else
      StepKeepsInv(lower, s, run[0]);
      AfterRun(lower, Step(lower, s, run[0]), run[1..])
  }

  lemma EmptyInv()
    ensures Inv(EMPTY) && Indexed(EMPTY)
  {
  }

  ghost predicate Reachable(lower: string -> string, s: State) {
    EmptyInv();
    exists run :: IsRun(lower, EMPTY, run) && AfterRun(lower, EMPTY, run) == s
  }

  /** The session has a set and the statement is claimed in it. */
  predicate IsClaimed(s: State, session: Key, key: string) {
    var found := R.Find(s.sessions, session);
    found.Some? && 0 <= found.value < |s.sets| && key in s.sets[found.value].statements
  }

  /** Learn c of the session's statement is being written or is written. */
  ghost predicate LiveLearn(s: State, c: int, session: Key, key: string) {
    0 <= c < |s.learns| && s.learns[c].Of(session, key) && s.learns[c].Live()
  }

  /** It claims in the set the session has now, not in one that was evicted or deleted. */
  ghost predicate Current(s: State, c: int, session: Key, key: string) {
    LiveLearn(s, c, session, key) && R.Find(s.sessions, session) == Some(s.learns[c].seen)
  }

  /** Whatever is interleaved, a statement has one live learn at most in the set its session has. */
  lemma OneCurrentLearn(lower: string -> string, s: State, session: Key, key: string, c: int, d: int)
    requires Reachable(lower, s)
    requires Current(s, c, session, key) && Current(s, d, session, key)
    ensures c == d
  {
    assert Holds(s, c, s.learns[c].seen, key) && Holds(s, d, s.learns[c].seen, key);
  }

  /** It is claimed there exactly while that one is being written or is written. */
  lemma ClaimedWhileCurrent(lower: string -> string, s: State, session: Key, key: string)
    requires Reachable(lower, s)
    ensures IsClaimed(s, session, key) <==> exists c :: Current(s, c, session, key)
  {
    if IsClaimed(s, session, key) {
      var i := R.Find(s.sessions, session).value;
      var c :| Holds(s, c, i, key);
      FindIn(s.sessions, session);
      assert (session, i) in s.sessions;
      assert LearnOk(s, c);
      assert Current(s, c, session, key);
    }
    if c :| Current(s, c, session, key) {
      assert LearnOk(s, c);
    }
  }

  /** A learn writes exactly when its statement has no live learn in the session's set. */
  lemma LearnWritesIffNotCurrent(lower: string -> string, s: State, session: Key, statement: string)
    requires Reachable(lower, s)
    ensures Indexed(s) && Enabled(s, Begin(session, statement))
    ensures var t := Step(lower, s, Begin(session, statement));
      && |t.learns| == |s.learns| + 1 && t.learns[|s.learns|].Of(session, lower(statement))
      && t.learns[|s.learns|].phase ==
         (if exists c :: Current(s, c, session, lower(statement)) then Skipped else Writing)
  {
    InvIndexed(s);
    ClaimedWhileCurrent(lower, s, session, lower(statement));
    if R.Find(s.sessions, session).Some? {
      FindIn(s.sessions, session);
    }
  }

  /** A session learns a statement, ends, and comes back. */
  function ComesBack(session: Key, statement: string): seq<Action> {
    [Begin(session, statement), EndSession(session), Begin(session, statement)]
  }

  lemma RunOnce(lower: string -> string, s: State, a: Action, run: seq<Action>)
    requires Inv(s) && Indexed(s) && Enabled(s, a)
    requires Inv(Step(lower, s, a)) && Indexed(Step(lower, s, a)) && IsRun(lower, Step(lower, s, a), run)
    ensures IsRun(lower, s, [a] + run) && AfterRun(lower, s, [a] + run) == AfterRun(lower, Step(lower, s, a), run)
  {
    hide Inv, Indexed, Enabled, Step;
    assert ([a] + run)[0] == a && ([a] + run)[1..] == run;
  }

  /** It learns the statement a second time: its claims went with the end of the session. */
  lemma ReturningSessionLearnsAgain(lower: string -> string, session: Key, statement: string)
    ensures Inv(EMPTY) && Indexed(EMPTY) && IsRun(lower, EMPTY, ComesBack(session, statement))
    ensures var s := AfterRun(lower, EMPTY, ComesBack(session, statement));
      LiveLearn(s, 0, session, lower(statement)) && LiveLearn(s, 1, session, lower(statement))
  {
    hide Inv;
    var a, b := Begin(session, statement), EndSession(session);
    EmptyInv();
    var s1 := Step(lower, EMPTY, a);
    StepKeepsInv(lower, EMPTY, a);
    var s2 := Step(lower, s1, b);
    StepKeepsInv(lower, s1, b);
    assert s1.sessions == [(session, 0)];
    assert s2.sessions == [];
    var s3 := Step(lower, s2, a);
    StepKeepsInv(lower, s2, a);
    RunOnce(lower, s2, a, []);
    RunOnce(lower, s1, b, [a] + []);
    RunOnce(lower, EMPTY, a, [b] + ([a] + []));
    assert ComesBack(session, statement) == [a] + ([b] + ([a] + []));
  }

  /** A failed write releases its own claim, and none made since in a newer set of the session. */
  lemma FailureFreesItsClaim(lower: string -> string, s: State, id: Id, key: string)
    requires Reachable(lower, s) && id < |s.learns| && s.learns[id].phase.Writing?
    ensures Indexed(s) && Enabled(s, Fail(id)) && Enabled(s, Succeed(id))
    ensures var t, learn := Step(lower, s, Fail(id)), s.learns[id];
      IsClaimed(t, learn.session, key) <==> IsClaimed(s, learn.session, key) && !Current(s, id, learn.session, key)
  {
    InvIndexed(s);
    assert LearnOk(s, id);
  }

  /** A session that kept its set has no live learn outside it. */
  lemma KeptMeansCurrent(lower: string -> string, s: State, session: Key, key: string)
    requires Reachable(lower, s) && session !in s.dropped
    ensures forall c :: LiveLearn(s, c, session, key) <==> Current(s, c, session, key)
  {
    forall c | LiveLearn(s, c, session, key)
      ensures Current(s, c, session, key)
    {
      assert LearnOk(s, c);
    }
  }

  /** A statement of a session that kept its set has one live learn at most. */
  lemma OneLiveLearn(lower: string -> string, s: State, session: Key, key: string, c: int, d: int)
    requires Reachable(lower, s) && session !in s.dropped
    requires LiveLearn(s, c, session, key) && LiveLearn(s, d, session, key)
    ensures c == d
  {
    KeptMeansCurrent(lower, s, session, key);
    OneCurrentLearn(lower, s, session, key, c, d);
  }

  /** It stays claimed exactly while one is being written or is written. */
  lemma ClaimedWhileLive(lower: string -> string, s: State, session: Key, key: string)
    requires Reachable(lower, s) && session !in s.dropped
    ensures IsClaimed(s, session, key) <==> exists c :: LiveLearn(s, c, session, key)
  {
    KeptMeansCurrent(lower, s, session, key);
    ClaimedWhileCurrent(lower, s, session, key);
  }

  /** A learn writes exactly when its statement has no live learn, so a failed write can be tried again. */
  lemma LearnWritesIffNew(lower: string -> string, s: State, session: Key, statement: string)
    requires Reachable(lower, s) && session !in s.dropped
    ensures Indexed(s)
    ensures var t := Step(lower, s, Begin(session, statement));
      && |t.learns| == |s.learns| + 1 && t.learns[|s.learns|].Of(session, lower(statement))
      && t.learns[|s.learns|].phase ==
         (if exists c :: LiveLearn(s, c, session, lower(statement)) then Skipped else Writing)
  {
    KeptMeansCurrent(lower, s, session, lower(statement));
    LearnWritesIffNotCurrent(lower, s, session, statement);
  }

  /** Once a write has failed the statement has no live learn left, whatever else is in flight. */
  lemma FailureFreesTheStatement(lower: string -> string, s: State, id: Id)
    requires Reachable(lower, s) && id < |s.learns| && s.learns[id].phase.Writing? && s.learns[id].session !in s.dropped
    ensures Indexed(s)
    ensures var t, learn := Step(lower, s, Fail(id)), s.learns[id];
      !IsClaimed(t, learn.session, learn.statement) && !exists c :: LiveLearn(t, c, learn.session, learn.statement)
  {
    InvIndexed(s);
    var t, learn := Step(lower, s, Fail(id)), s.learns[id];
    forall c | LiveLearn(t, c, learn.session, learn.statement)
      ensures false
    {
      OneLiveLearn(lower, s, learn.session, learn.statement, c, id);
    }
    assert LearnOk(s, id);
  }

  /** When a `settle` is back, every learn begun before it returned has ended. */
  lemma SettledMeansEnded(lower: string -> string, s: State, w: nat, c: Id)
    requires Reachable(lower, s) && w < |s.waiters| && s.waiters[w].Returned? && c < s.waiters[w].learns
    ensures c < |s.learns| && !s.learns[c].phase.Writing?
  {
    assert s.waiters[w] in s.waiters;
  }

  /** A waiting `settle` can look again, or something it waits on can end or be untracked. */
  lemma SettleIsNotStuck(lower: string -> string, s: State, w: nat)
    requires Reachable(lower, s) && w < |s.waiters| && s.waiters[w].Waiting?
    ensures Enabled(s, Resume(w)) ||
      exists c :: c in s.waiters[w].on && (Enabled(s, Succeed(c)) || Enabled(s, Untrack(c)))
  {
    if c :| c in s.waiters[w].on && c in s.inflight {
      assert Enabled(s, Succeed(c)) || Enabled(s, Untrack(c));
    }
  }

  /**
   A step begins one learn, ends the one it names or leaves all as they are; it tracks the one begun, or untracks
   one.
   */
  lemma OneLearnMoves(lower: string -> string, s: State, a: Action)
    requires Indexed(s) && Enabled(s, a)
    ensures var t, n := Step(lower, s, a), |s.learns|;
      && |t.learns| == (if a.Begin? then n + 1 else n)
      && (forall c :: 0 <= c < n ==>
            t.learns[c] == if a.Succeed? && c == a.id then s.learns[c].(phase := Written)
                           else if a.Fail? && c == a.id then s.learns[c].(phase := Failed)
                           else s.learns[c])
      && t.inflight == (if a.Begin? then s.inflight + {n} else if a.Untrack? then s.inflight - {a.id} else s.inflight)
  {
    hide R.Without, R.Find, R.Stored, R.Touched;
  }

  // ----- `settle` comes back

  /** A turn of `settle` is back if nothing is in flight, having seen every learn, and else waits for all that is. */
  lemma TurnLooks(lower: string -> string, s: State, a: Action)
    requires Indexed(s) && (a.Settle? || a.Resume?)
    requires a.Resume? ==>
      a.waiter < |s.waiters| && s.waiters[a.waiter].Waiting? && s.waiters[a.waiter].on !! s.inflight
    ensures Enabled(s, a)
    ensures var t, w := Step(lower, s, a), if a.Settle? then |s.waiters| else a.waiter;
      && t.waiters == (if a.Settle? then s.waiters + [t.waiters[w]] else s.waiters[w := t.waiters[w]])
      && (s.inflight == {} ==> t.waiters[w] == Returned(|s.learns|))
      && (s.inflight != {} ==> t.waiters[w] == Waiting(s.inflight))
      && t.learns == s.learns && t.sets == s.sets && t.inflight == s.inflight
  {
  }

  function StillWriting(s: State): set<Id> {
    set c | 0 <= c < |s.learns| && s.learns[c].phase.Writing?
  }

  /** What has to happen before a waiter is back, if no learn begins: writes end, learns are untracked, and it looks. */
  function Rank(s: State, w: nat): nat
    requires w < |s.waiters|
  {
    |StillWriting(s)| + |s.inflight| +
      match s.waiters[w]
      case Returned(_) => 0
      case Waiting(on) => if s.inflight <= on then 1 else 2
  }

  /** The end of a write, of its tracking, or the waiter's own look. */
  predicate Helps(a: Action, w: nat) {
    a.Succeed? || a.Fail? || a.Untrack? || a == Resume(w)
  }

  /** While it waits, a step that helps can be taken. */
  lemma HelpIsThere(lower: string -> string, s: State, w: nat)
    requires Reachable(lower, s) && w < |s.waiters| && s.waiters[w].Waiting?
    ensures exists a :: Enabled(s, a) && Helps(a, w)
  {
    hide Reachable, Enabled;
    SettleIsNotStuck(lower, s, w);
    if Enabled(s, Resume(w)) {
      assert Helps(Resume(w), w);
    } else {
      var c :| c in s.waiters[w].on && (Enabled(s, Succeed(c)) || Enabled(s, Untrack(c)));
      assert Helps(Succeed(c), w) && Helps(Untrack(c), w);
    }
  }

  lemma EndedIsOneLess(s: State, t: State, id: Id)
    requires id < |s.learns| == |t.learns| && s.learns[id].phase.Writing? && !t.learns[id].phase.Writing?
    requires forall c :: 0 <= c < |s.learns| && c != id ==> t.learns[c] == s.learns[c]
    ensures |StillWriting(t)| == |StillWriting(s)| - 1
  {
    assert StillWriting(t) == StillWriting(s) - {id};
  }

  /** While no learn begins no step raises the rank, and each that helps lowers it. */
  lemma StepLowersRank(lower: string -> string, s: State, a: Action, w: nat)
    requires Indexed(s) && Enabled(s, a) && !a.Begin? && w < |s.waiters| && s.waiters[w].Waiting?
    ensures var t := Step(lower, s, a);
      w < |t.waiters| && Rank(t, w) + (if Helps(a, w) then 1 else 0) <= Rank(s, w)
  {
    hide R.Without, R.Find;
    var t := Step(lower, s, a);
    if a.Succeed? || a.Fail? {
      EndedIsOneLess(s, t, a.id);
    } else {
      assert StillWriting(t) == StillWriting(s);
    }
  }

  /** Once back, a waiter stays so. */
  lemma BackForGood(lower: string -> string, s: State, a: Action, w: nat)
    requires Indexed(s) && Enabled(s, a) && w < |s.waiters| && s.waiters[w].Returned?
    ensures var t := Step(lower, s, a); w < |t.waiters| && t.waiters[w] == s.waiters[w]
  {
  }

  ghost function HelpfulSteps(lower: string -> string, s: State, run: seq<Action>, w: nat): nat
    requires Inv(s) && Indexed(s) && IsRun(lower, s, run)
    decreases |run|
  {
    if run == [] then 0
    else
      StepKeepsInv(lower, s, run[0]);
      (if Helps(run[0], w) then 1 else 0) + HelpfulSteps(lower, Step(lower, s, run[0]), run[1..], w)
  }

  lemma {:induction false} StaysBack(lower: string -> string, s: State, run: seq<Action>, w: nat)
    requires Inv(s) && Indexed(s) && IsRun(lower, s, run) && w < |s.waiters| && s.waiters[w].Returned?
    ensures w < |AfterRun(lower, s, run).waiters| && AfterRun(lower, s, run).waiters[w] == s.waiters[w]
    decreases |run|
  {
    hide Inv, Indexed, Enabled, Step;
    if run != [] {
      StepKeepsInv(lower, s, run[0]);
      BackForGood(lower, s, run[0], w);
      StaysBack(lower, Step(lower, s, run[0]), run[1..], w);
    }
  }

  /**
   Over any run in which no learn begins, a waiter is back once as many steps that help have been taken as its rank
   is worth; by `HelpIsThere` one of them can be taken for as long as it waits.
   */
  lemma {:induction false} SettleComesBack(lower: string -> string, s: State, run: seq<Action>, w: nat)
    requires Inv(s) && Indexed(s) && IsRun(lower, s, run) && w < |s.waiters|
    requires forall a :: a in run ==> !a.Begin?
    ensures var t := AfterRun(lower, s, run);
      && w < |t.waiters|
      && (t.waiters[w].Waiting? ==> HelpfulSteps(lower, s, run, w) + Rank(t, w) <= Rank(s, w))
      && (HelpfulSteps(lower, s, run, w) >= Rank(s, w) ==> t.waiters[w].Returned?)
    decreases |run|
  {
    hide Inv, Indexed, Enabled, Step, Helps;
    if run != [] {
      var next := Step(lower, s, run[0]);
      StepKeepsInv(lower, s, run[0]);
      assert forall a :: a in run[1..] ==> a in run;
      if s.waiters[w].Waiting? {
        StepLowersRank(lower, s, run[0], w);
      } else {
        BackForGood(lower, s, run[0], w);
      }
      SettleComesBack(lower, next, run[1..], w);
      if s.waiters[w].Returned? {
        StaysBack(lower, next, run[1..], w);
      }
    }
  }

  // ----- the same steps on objects

  class StatementSet {
    var items: set<string>

    constructor ()
      ensures items == {}
    {
      items := {};
    }
  }

  /** es is ids with every set's number replaced by the set. */
  ghost predicate Mirrors(es: R.Entries<StatementSet>, ids: R.Entries<SetId>, objects: seq<StatementSet>) {
    && |es| == |ids|
    && forall i :: 0 <= i < |ids| ==> es[i].0 == ids[i].0 && 0 <= ids[i].1 < |objects| && es[i].1 == objects[ids[i].1]
  }

  lemma {:induction false} MirrorsFind(es: R.Entries<StatementSet>, ids: R.Entries<SetId>,
                                       objects: seq<StatementSet>, k: Key)
    requires Mirrors(es, ids, objects)
    ensures R.Find(es, k).Some? <==> R.Find(ids, k).Some?
    ensures R.Find(ids, k).Some? ==>
      0 <= R.Find(ids, k).value < |objects| && R.Find(es, k).value == objects[R.Find(ids, k).value]
  {
    if ids != [] && ids[0].0 != k {
      MirrorsFind(es[1..], ids[1..], objects, k);
    }
  }

  lemma {:induction false} MirrorsWithout(es: R.Entries<StatementSet>, ids: R.Entries<SetId>,
                                          objects: seq<StatementSet>, k: Key)
    requires Mirrors(es, ids, objects)
    ensures Mirrors(R.Without(es, k), R.Without(ids, k), objects)
  {
    if ids != [] {
      MirrorsWithout(es[..|es| - 1], ids[..|ids| - 1], objects, k);
    }
  }

  lemma MirrorsTouched(es: R.Entries<StatementSet>, ids: R.Entries<SetId>, objects: seq<StatementSet>, k: Key)
    requires Mirrors(es, ids, objects)
    ensures Mirrors(R.Touched(es, k), R.Touched(ids, k), objects)
  {
    MirrorsFind(es, ids, objects, k);
    MirrorsWithout(es, ids, objects, k);
  }

  lemma MirrorsStored(es: R.Entries<StatementSet>, ids: R.Entries<SetId>, objects: seq<StatementSet>, k: Key, id: SetId)
    requires Mirrors(es, ids, objects) && 0 <= id < |objects|
    ensures Mirrors(R.Stored(es, k, objects[id]), R.Stored(ids, k, id), objects)
  {
    MirrorsWithout(es, ids, objects, k);
  }

  lemma TouchedOnce<V>(es: R.Entries<V>, k: Key)
    requires R.OncePerKey(es)
    ensures R.OncePerKey(R.Touched(es, k))
  {
    R.StepKeepsOnce(es, R.Touch(k));
  }

  /** Entering a session on objects: `objects'` has one more set if the session had none. */
  lemma EnteredMirrors(es: R.Entries<StatementSet>, s: State, objects: seq<StatementSet>, objects': seq<StatementSet>,
                       session: Key, id: SetId)
    requires Mirrors(es, s.sessions, objects) && R.OncePerKey(es) && Indexed(s) && |objects| == |s.sets|
    requires id == SetOf(s, session) && objects <= objects' && |objects'| == |Entered(s, session).sets|
    ensures 0 <= id < |objects'| && R.OncePerKey(R.Touched(es, session)) && Indexed(Entered(s, session))
    ensures Mirrors(R.Stored(R.Touched(es, session), session, objects'[id]), Entered(s, session).sessions, objects')
  {
    MirrorsFind(es, s.sessions, objects, session);
    MirrorsTouched(es, s.sessions, objects', session);
    TouchedOnce(es, session);
    if R.Find(s.sessions, session).Some? {
      FindIn(s.sessions, session);
    }
    MirrorsStored(R.Touched(es, session), R.Touched(s.sessions, session), objects', session, id);
  }

  lemma EnteredRest(s: State, session: Key)
    ensures var t := Entered(s, session);
      && t.sets == (if R.Find(s.sessions, session).Some? then s.sets else s.sets + [Seen(session, {})])
      && t.learns == s.learns && t.inflight == s.inflight && t.waiters == s.waiters
      && SetOf(s, session) == if R.Find(s.sessions, session).Some? then R.Find(s.sessions, session).value else |s.sets|
  {
  }

  /** The local variables of a suspended `_learnIfNew`. */
  datatype Frame = Frame(session: Key, statement: string, seen: StatementSet, phase: Phase)

  lemma WithoutKnown(ids: R.Entries<SetId>, k: Key)
    ensures forall i :: 0 <= i < |R.Without(ids, k)| ==> R.Without(ids, k)[i] in ids
  {
    R.WithoutEntries(ids, k);
  }

  /**
   The engine with the suspended frames of its learns. `model` is its state on values: every method moves
   it by one `Step`, so what is proved of runs of steps holds of runs of these methods.
   */
  class PlurContextEngine {
    const lower: string -> string
    const sessionLearned: R.LruMap<StatementSet>
    var frames: seq<Frame>
    var inflight: set<Id>
    var waiters: seq<Waiter>
    ghost var objects: seq<StatementSet>
    ghost var model: State

    ghost predicate SetsMirrored()
      reads this, objects
    {
      && |objects| == |model.sets|
      && (forall i, j :: 0 <= i < j < |objects| ==> objects[i] != objects[j])
      && (forall i :: 0 <= i < |objects| ==> objects[i].items == model.sets[i].statements)
    }

    ghost predicate FramesMirrored()
      reads this
    {
      && |frames| == |model.learns|
      && forall c :: 0 <= c < |frames| ==>
           && frames[c].session == model.learns[c].session && frames[c].statement == model.learns[c].statement
           && frames[c].phase == model.learns[c].phase
           && 0 <= model.learns[c].seen < |objects| && frames[c].seen == objects[model.learns[c].seen]
    }

    ghost predicate Valid()
      reads this, sessionLearned, objects
    {
      && Indexed(model) && SetsMirrored() && FramesMirrored() && sessionLearned.Valid()
      && Mirrors(sessionLearned.entries, model.sessions, objects)
      && inflight == model.inflight && waiters == model.waiters
    }

    constructor (lower: string -> string)
      ensures Valid() && model == EMPTY && this.lower == lower && fresh(sessionLearned)
    {
      this.lower := lower;
      sessionLearned := new R.LruMap();
      frames, inflight, waiters := [], {}, [];
      objects, model := [], EMPTY;
    }

    /** The session's set, made if it has none, and marked most recently used. */
    method SeenFor(session: Key) returns (seen: StatementSet)
      requires Valid()
      modifies this, sessionLearned
      ensures Valid() && model == Entered(old(model), session)
      ensures 0 <= SetOf(old(model), session) < |objects| && seen == objects[SetOf(old(model), session)]
      ensures old(objects) <= objects && forall o :: o in objects[|old(objects)|..] ==> fresh(o)
      ensures seen in old(objects) || fresh(seen)
    {
      hide Mirrors, Indexed, Entered, R.Stored, R.Touched, R.OncePerKey, R.Find;
      ghost var es := sessionLearned.entries;
      MirrorsFind(es, model.sessions, objects, session);
      var found := sessionLearned.Touch(session);
      if found.Some? {
        seen := found.value;
      } else {
        seen := new StatementSet();
        objects := objects + [seen];
      }
      EnteredRest(model, session);
      EnteredMirrors(es, model, old(objects), objects, session, SetOf(model, session));
      sessionLearned.Put(session, seen);
      model := Entered(model, session);
      assert SetsMirrored();
      assert FramesMirrored();
    }

    method Claim(session: Key, key: string, seen: StatementSet, ghost at: SetId) returns (id: Id)
      requires Valid() && 0 <= at < |objects| && seen == objects[at]
      modifies this, seen
      ensures Valid() && model == Claimed(old(model), session, key, at) && id == |old(frames)| &&
        objects == old(objects)
      ensures frames == old(frames) +
        [Frame(session, key, seen, if key in old(seen.items) then Skipped else Writing)]
      ensures seen.items == old(seen.items) + {key} && inflight == old(inflight) + {id}
    {
      id := |frames|;
      if key in seen.items {
        frames := frames + [Frame(session, key, seen, Skipped)];
      } else {
        seen.items := seen.items + {key};
        frames := frames + [Frame(session, key, seen, Writing)];
      }
      inflight := inflight + {id};
      model := Claimed(model, session, key, at);
    }

    /** `_learnIfNew` up to its write, and `_track` on its promise. */
    method LearnIfNew(session: Key, statement: string) returns (id: Id)
      requires Valid()
      modifies this, sessionLearned, objects
      ensures Valid() && model == Step(lower, old(model), Begin(session, statement)) && id == |old(frames)|
      ensures old(objects) <= objects && forall o :: o in objects[|old(objects)|..] ==> fresh(o)
      ensures |frames| == id + 1 && frames[..id] == old(frames) && inflight == old(inflight) + {id}
      ensures frames[id].session == session && frames[id].statement == lower(statement)
      ensures lower(statement) in frames[id].seen.items
    {
      ghost var set' := SetOf(model, session);
      var seen := SeenFor(session);
      id := Claim(session, lower(statement), seen, set');
    }

    /** The write is done, or has failed and its claim is released. */
    method Ended(id: Id, ok: bool)
      requires Valid() && Enabled(model, if ok then Succeed(id) else Fail(id))
      modifies this, objects
      ensures Valid() && model == Step(lower, old(model), if ok then Succeed(id) else Fail(id)) &&
        objects == old(objects)
      ensures frames == old(frames)[id := old(frames)[id].(phase := if ok then Written else Failed)]
      ensures var f := old(frames)[id];
        f.seen.items == if ok then old(f.seen.items) else old(f.seen.items) - {f.statement}
    {
      var f := frames[id];
      if ok {
        frames := frames[id := f.(phase := Written)];
      } else {
        f.seen.items := f.seen.items - {f.statement};
        frames := frames[id := f.(phase := Failed)];
      }
      model := Step(lower, model, if ok then Succeed(id) else Fail(id));
    }

    /** The `finally` of `_track`. */
    method Untrack(id: Id)
      requires Valid() && Enabled(model, Action.Untrack(id))
      modifies this
      ensures Valid() && model == Step(lower, old(model), Action.Untrack(id)) && objects == old(objects)
      ensures inflight == old(inflight) - {id}
    {
      inflight := inflight - {id};
      model := Step(lower, model, Action.Untrack(id));
    }

    /** A subagent's session ends. */
    method EndSession(session: Key)
      requires Valid()
      modifies this, sessionLearned
      ensures Valid() && model == Step(lower, old(model), Action.EndSession(session)) && objects == old(objects)
    {
      MirrorsWithout(sessionLearned.entries, model.sessions, objects, session);
      WithoutKnown(model.sessions, session);
      sessionLearned.Delete(session);
      model := Step(lower, model, Action.EndSession(session));
    }

    /** One turn of `settle`: the first one, or the one after everything it waited on has settled. */
    method Turn(w: nat)
      requires Valid() && (w == |waiters| || Enabled(model, Resume(w)))
      modifies this
      ensures Valid() && model == Step(lower, old(model), if w == |old(waiters)| then Settle else Resume(w))
      ensures objects == old(objects) && frames == old(frames) && inflight == old(inflight)
      ensures w < |waiters| && waiters[..w] == old(waiters)[..w]
      ensures waiters[w] == if old(inflight) == {} then Returned(|old(frames)|) else Waiting(old(inflight))
    {
      var look := if |inflight| > 0 then Waiting(inflight) else Returned(|frames|);
      model := Step(lower, model, if w == |waiters| then Settle else Resume(w));
      waiters := if w == |waiters| then waiters + [look] else waiters[w := look];
    }
  }
}
