/**
 The embedding cache on disk: a main snapshot stamped with its embedder, and the delta file of
 records appended since. Processes take a lock around appends and folds, and may be killed anywhere.
 */
module EmbeddingCache {
  import opened Wrappers
  import opened DeltaLog
  import Ranking

  datatype Entry = Entry(hash: string, embedding: seq<Float>)

  type Entries = map<string, Entry>

  /** `Unreadable` is a file that is not JSON, or the legacy format without a header. */
  datatype Main = Absent | Unreadable | Snapshot(model: Model, entries: Entries)

  datatype Disk = Disk(main: Main, delta: Bytes)

  function EntryOf(r: Record): Entry {
    Entry(r.hash, r.embedding)
  }

  /** `m` with who's records laid over it in order. */
  function Override(m: Entries, rs: seq<Record>, who: Model): Entries {
    if rs == [] then m
    else
      var r, before := rs[|rs| - 1], Override(m, rs[..|rs| - 1], who);
      if r.model == who then before[r.id := EntryOf(r)] else before
  }

  lemma OverrideNext(m: Entries, rs: seq<Record>, r: Record, who: Model)
    ensures Override(m, rs + [r], who)
      == var before := Override(m, rs, who); if r.model == who then before[r.id := EntryOf(r)] else before
  {
    assert (rs + [r])[..|rs + [r]| - 1] == rs;
  }

  function MainEntries(main: Main, who: Model): Entries {
    if main.Snapshot? && main.model == who then main.entries else map[]
  }

  /** What `loadCache` answers for who: the snapshot if it is who's, overridden by the delta. */
  function View(c: Codec, d: Disk, who: Model): Entries {
    Override(MainEntries(d.main, who), Records(c, d.delta), who)
  }

  // ----- laws of overriding

  /** The last record of who for an id, if there is one. */
  function Last(rs: seq<Record>, who: Model, id: string): Option<Entry> {
    if rs == [] then None
    else
      var r := rs[|rs| - 1];
      if r.model == who && r.id == id then Some(EntryOf(r)) else Last(rs[..|rs| - 1], who, id)
  }

  lemma {:induction false} OverrideAt(m: Entries, rs: seq<Record>, who: Model, id: string)
    ensures id in Override(m, rs, who) <==> id in m || Last(rs, who, id).Some?
    ensures Last(rs, who, id).Some? ==> Override(m, rs, who)[id] == Last(rs, who, id).value
    ensures Last(rs, who, id).None? && id in m ==> Override(m, rs, who)[id] == m[id]
  {
    if rs != [] {
      OverrideAt(m, rs[..|rs| - 1], who, id);
    }
  }

  predicate SameAt(before: Entries, after: Entries, id: string) {
    (id in after <==> id in before) && (id in before ==> after[id] == before[id])
  }

  /** Record n is who's last for its id. */
  ghost predicate IsLastAt(rs: seq<Record>, who: Model, n: int) {
    && 0 <= n < |rs| && rs[n].model == who
    && forall k :: n < k < |rs| && rs[k].model == who ==> rs[k].id != rs[n].id
  }

  lemma {:induction false} LastIs(rs: seq<Record>, who: Model, n: int)
    requires IsLastAt(rs, who, n)
    ensures Last(rs, who, rs[n].id) == Some(EntryOf(rs[n]))
  {
    var init := rs[..|rs| - 1];
    if n < |init| {
      assert IsLastAt(init, who, n);
      LastIs(init, who, n);
    }
  }

  lemma {:induction false} LastIsNone(rs: seq<Record>, who: Model, id: string)
    requires forall r :: r in rs && r.model == who ==> r.id != id
    ensures Last(rs, who, id).None?
  {
    if rs != [] {
      assert rs[|rs| - 1] in rs;
      LastIsNone(rs[..|rs| - 1], who, id);
    }
  }

  /** Of an id's records by who the last one counts. */
  lemma LastRecordWins(m: Entries, rs: seq<Record>, who: Model, n: nat)
    requires n < |rs| && rs[n].model == who
    requires forall k :: n < k < |rs| && rs[k].model == who ==> rs[k].id != rs[n].id
    ensures rs[n].id in Override(m, rs, who)
    ensures Override(m, rs, who)[rs[n].id] == Entry(rs[n].hash, rs[n].embedding)
  {
    hide Override, Last;
    OverrideAt(m, rs, who, rs[n].id);
    LastIs(rs, who, n);
  }

  /** An id without a record by who is as it was. */
  lemma OthersStay(m: Entries, rs: seq<Record>, who: Model, id: string)
    requires forall r :: r in rs && r.model == who ==> r.id != id
    ensures SameAt(m, Override(m, rs, who), id)
  {
    hide Override, Last;
    OverrideAt(m, rs, who, id);
    LastIsNone(rs, who, id);
  }

  lemma {:induction false} OverrideAppend(m: Entries, a: seq<Record>, b: seq<Record>, who: Model)
    ensures Override(m, a + b, who) == Override(Override(m, a, who), b, who)
  {
    if b == [] {
      assert a + b == a;
    } else {
      OverrideAppend(m, a, b[..|b| - 1], who);
      assert (a + b)[..|a + b| - 1] == a + b[..|b| - 1];
    }
  }

  /** Overriding twice with the same records is overriding once: why a half-done fold does no harm. */
  lemma OverrideTwice(m: Entries, rs: seq<Record>, who: Model)
    ensures Override(Override(m, rs, who), rs, who) == Override(m, rs, who)
  {
    var once := Override(m, rs, who);
    var twice := Override(once, rs, who);
    forall id
      ensures id in twice <==> id in once
      ensures id in once ==> twice[id] == once[id]
    {
      OverrideAt(m, rs, who, id);
      OverrideAt(once, rs, who, id);
    }
  }

  lemma {:induction false} LastAppend(a: seq<Record>, b: seq<Record>, who: Model, id: string)
    ensures Last(a + b, who, id) == if Last(b, who, id).Some? then Last(b, who, id) else Last(a, who, id)
  {
    if b == [] {
      assert a + b == a;
    } else {
      assert (a + b)[..|a + b| - 1] == a + b[..|b| - 1];
      LastAppend(a, b[..|b| - 1], who, id);
    }
  }

  lemma {:induction false} LastOfForeign(rs: seq<Record>, who: Model, of: Model, id: string)
    ensures Last(Foreign(rs, who), of, id) == if of == who then None else Last(rs, of, id)
  {
    if rs != [] {
      LastOfForeign(rs[1..], who, of, id);
      assert rs == [rs[0]] + rs[1..];
      LastAppend([rs[0]], rs[1..], of, id);
      LastAppend([rs[0]], Foreign(rs[1..], who), of, id);
    }
  }

  lemma ForeignOverrides(m: Entries, rs: seq<Record>, who: Model, of: Model)
    ensures Override(m, Foreign(rs, who), of) == if of == who then m else Override(m, rs, of)
  {
    var a, b := Override(m, Foreign(rs, who), of), if of == who then m else Override(m, rs, of);
    forall id
      ensures id in a <==> id in b
      ensures id in a ==> a[id] == b[id]
    {
      LastOfForeign(rs, who, of, id);
      OverrideAt(m, Foreign(rs, who), of, id);
      OverrideAt(m, rs, of, id);
    }
  }

  // ----- the operations on the disk

  /** An append of `batch`, killed after `cut` characters. */
  function AppendCut(c: Codec, d: Disk, batch: seq<Record>, cut: nat): Disk
    requires cut <= |Appendix(c, d.delta, batch)|
  {
    d.(delta := d.delta + Appendix(c, d.delta, batch)[..cut])
  }

  function AppendAll(c: Codec, d: Disk, batch: seq<Record>): Disk {
    d.(delta := d.delta + Appendix(c, d.delta, batch))
  }

  /** The fold's first write: the snapshot is who's view with the extra entries over it. */
  function Saved(c: Codec, d: Disk, who: Model, extra: seq<Record>): Disk {
    d.(main := Snapshot(who, Override(View(c, d, who), extra, who)))
  }

  /** Its second: the delta keeps the other models' records only. */
  function Cleared(c: Codec, d: Disk, who: Model): Disk {
    d.(delta := Trimmed(c, d.delta, who))
  }

  lemma AppendShows(c: Codec, d: Disk, batch: seq<Record>, cut: nat, who: Model)
    requires GoodCodec(c) && cut <= |Appendix(c, d.delta, batch)|
    ensures View(c, AppendCut(c, d, batch, cut), who)
         == Override(View(c, d, who), batch[..Whole(c, batch, BatchCut(d.delta, cut))], who)
    ensures View(c, AppendAll(c, d, batch), who) == Override(View(c, d, who), batch, who)
  {
    CutAppend(c, d.delta, batch, cut);
    WholeAppend(c, d.delta, batch);
    OverrideAppend(MainEntries(d.main, who), Records(c, d.delta),
                   batch[..Whole(c, batch, BatchCut(d.delta, cut))], who);
    OverrideAppend(MainEntries(d.main, who), Records(c, d.delta), batch, who);
  }

  /** Imported entries agree with what the delta last says of the same ids. */
  ghost predicate Agrees(c: Codec, delta: Bytes, extra: seq<Record>, who: Model) {
    forall id :: Last(extra, who, id).Some? && Last(Records(c, delta), who, id).Some? ==>
      Last(extra, who, id) == Last(Records(c, delta), who, id)
  }

  /**
   A fold killed between its writes shows what the whole fold would have, if and only if no entry it
   imports differs from the delta's last record for that id. With nothing to import that is always so.
   */
  lemma KilledFoldShows(c: Codec, d: Disk, who: Model, extra: seq<Record>)
    ensures View(c, Saved(c, d, who, extra), who) == Override(View(c, d, who), extra, who)
      <==> Agrees(c, d.delta, extra, who)
    ensures extra == [] ==> Agrees(c, d.delta, extra, who)
  {
    var rs, before := Records(c, d.delta), View(c, d, who);
    var want := Override(before, extra, who);
    var got := View(c, Saved(c, d, who, extra), who);
    forall id
      ensures id in got <==> id in want
      ensures id in got ==> (got[id] == want[id] <==>
        (Last(extra, who, id).Some? && Last(rs, who, id).Some? ==> Last(extra, who, id) == Last(rs, who, id)))
    {
      OverrideAt(MainEntries(d.main, who), rs, who, id);
      OverrideAt(before, extra, who, id);
      OverrideAt(want, rs, who, id);
    }
    if got == want {
      forall id | Last(extra, who, id).Some? && Last(rs, who, id).Some?
        ensures Last(extra, who, id) == Last(rs, who, id)
      {
        OverrideAt(before, extra, who, id);
        assert id in got && got[id] == want[id];
      }
    }
  }

  /** A whole fold shows its own model the same view plus the imports. */
  lemma FoldShows(c: Codec, d: Disk, who: Model, extra: seq<Record>)
    requires GoodCodec(c)
    ensures View(c, Cleared(c, Saved(c, d, who, extra), who), who) == Override(View(c, d, who), extra, who)
  {
    TrimKeepsForeign(c, d.delta, who);
    ForeignOverrides(Override(View(c, d, who), extra, who), Records(c, d.delta), who, who);
  }

  /**
   What a fold costs another model: the delta records stay, all of them in order, the snapshot goes.
   The other model's view survives if and only if its delta records alone give it.
   */
  lemma FoldUnderAnotherModel(c: Codec, d: Disk, who: Model, extra: seq<Record>, other: Model)
    requires GoodCodec(c) && other != who
    ensures var after := Cleared(c, Saved(c, d, who, extra), who);
      && Records(c, after.delta) == Foreign(Records(c, d.delta), who)
      && View(c, after, other) == Override(map[], Records(c, d.delta), other)
      && (View(c, after, other) == View(c, d, other) <==>
            MainEntries(d.main, other).Keys <= (set id | id in Override(map[], Records(c, d.delta), other)))
  {
    var rs, old' := Records(c, d.delta), MainEntries(d.main, other);
    TrimKeepsForeign(c, d.delta, who);
    ForeignOverrides(map[], rs, who, other);
    var bare, full := Override(map[], rs, other), Override(old', rs, other);
    forall id
      ensures id in full <==> id in bare || id in old'
      ensures id in bare ==> full[id] == bare[id]
    {
      OverrideAt(map[], rs, other, id);
      OverrideAt(old', rs, other, id);
    }
    if old'.Keys <= (set id | id in bare) {
      assert bare == full;
    } else {
      assert exists id :: id in full && id !in bare;
    }
  }

  // ----- processes

  type Process = nat

  /** What the process holding the cache lock has done so far. */
  datatype Doing =
    | Entered
    | Loaded(who: Model, entries: Entries, extra: seq<Record>)  // a fold has read the files
    | HalfFolded(who: Model, extra: seq<Record>)                // and rewritten the snapshot

  datatype Holder = Free | Held(owner: Process, doing: Doing)

  /** `log` is the history: every record completely written or imported, in lock order. */
  datatype State = State(disk: Disk, holder: Holder, log: seq<Record>)

  datatype Action =
    | Acquire(p: Process)
    | Append(p: Process, batch: seq<Record>)
    | AppendKilled(p: Process, batch: seq<Record>, cut: nat)
    | FoldLoad(p: Process, who: Model, extra: seq<Record>)
    | FoldSave(p: Process)
    | FoldClear(p: Process)
    | Die(p: Process)  // killed holding the lock (it goes stale), or the second write fails and is ignored

  const NEW := State(Disk(Absent, []), Free, [])

  ghost predicate Enabled(c: Codec, s: State, a: Action) {
    match a
    case Acquire(p) => s.holder.Free?
    case Append(p, batch) => s.holder == Held(p, Entered) && batch != []
    case AppendKilled(p, batch, cut) => s.holder == Held(p, Entered) && batch != [] &&
      cut <= |Appendix(c, s.disk.delta, batch)|
    case FoldLoad(p, who, extra) => s.holder == Held(p, Entered) && forall r :: r in extra ==> r.model == who
    case FoldSave(p) => s.holder.Held? && s.holder.owner == p && s.holder.doing.Loaded?
    case FoldClear(p) => s.holder.Held? && s.holder.owner == p && s.holder.doing.HalfFolded?
    case Die(p) => s.holder.Held? && s.holder.owner == p
  }

  ghost function Step(c: Codec, s: State, a: Action): State
    requires Enabled(c, s, a)
  {
    match a
    case Acquire(p) => s.(holder := Held(p, Entered))
    case Append(_, batch) => State(AppendAll(c, s.disk, batch), Free, s.log + batch)
    case AppendKilled(_, batch, cut) =>
      State(AppendCut(c, s.disk, batch, cut), Free, s.log + batch[..Whole(c, batch, BatchCut(s.disk.delta, cut))])
    case FoldLoad(p, who, extra) => s.(holder := Held(p, Loaded(who, View(c, s.disk, who), extra)))
    case FoldSave(p) =>
      var f := s.holder.doing;
      State(s.disk.(main := Snapshot(f.who, Override(f.entries, f.extra, f.who))),
            Held(p, HalfFolded(f.who, f.extra)), s.log + f.extra)
    case FoldClear(p) => s.(disk := Cleared(c, s.disk, s.holder.doing.who), holder := Free)
    case Die(_) => s.(holder := Free)
  }

  /** The steps under which who's view is never lost: who alone folds, and a fold dies half done only harmlessly. */
  ghost predicate Benign(c: Codec, s: State, a: Action, who: Model) {
    && (a.FoldLoad? ==> a.who == who)
    && (a.Die? && s.holder.Held? && s.holder.doing.HalfFolded? ==> Agrees(c, s.disk.delta, s.holder.doing.extra, who))
  }

  /** The view is the history; during a fold, the snapshot it read or wrote is. */
  ghost predicate Faithful(c: Codec, s: State, who: Model) {
    var history := Override(map[], s.log, who);
    if s.holder.Held? && s.holder.doing.HalfFolded? then
      && s.holder.doing.who == who
      && s.disk.main == Snapshot(who, history)
      && (Agrees(c, s.disk.delta, s.holder.doing.extra, who) ==> View(c, s.disk, who) == history)
    else
      && View(c, s.disk, who) == history
      && (s.holder.Held? && s.holder.doing.Loaded? ==>
            s.holder.doing.who == who && s.holder.doing.entries == history)
  }

  lemma BenignStepKeepsFaithful(c: Codec, s: State, a: Action, who: Model)
    requires GoodCodec(c) && Faithful(c, s, who) && Enabled(c, s, a) && Benign(c, s, a, who)
    ensures Faithful(c, Step(c, s, a), who)
  {
    match a
    case Append(_, batch) =>
      AppendShows(c, s.disk, batch, 0, who);
      OverrideAppend(map[], s.log, batch, who);
    case AppendKilled(_, batch, cut) =>
      AppendShows(c, s.disk, batch, cut, who);
      OverrideAppend(map[], s.log, batch[..Whole(c, batch, BatchCut(s.disk.delta, cut))], who);
    case FoldSave(_) =>
      OverrideAppend(map[], s.log, s.holder.doing.extra, who);
      KilledFoldShows(c, s.disk, who, s.holder.doing.extra);
    case FoldClear(_) =>
      TrimKeepsForeign(c, s.disk.delta, who);
      ForeignOverrides(s.disk.main.entries, Records(c, s.disk.delta), who, who);
    case _ =>
  }

  ghost predicate IsRun(c: Codec, s: State, run: seq<Action>, who: Model)
    decreases |run|
  {
    run == [] || (Enabled(c, s, run[0]) && Benign(c, s, run[0], who) && IsRun(c, Step(c, s, run[0]), run[1..], who))
  }

  ghost function AfterRun(c: Codec, s: State, run: seq<Action>, who: Model): State
    requires IsRun(c, s, run, who)
    decreases |run|
  {
    if run == [] then s else AfterRun(c, Step(c, s, run[0]), run[1..], who)
  }

  lemma {:induction false} RunKeepsFaithful(c: Codec, s: State, run: seq<Action>, who: Model)
    requires GoodCodec(c) && Faithful(c, s, who) && IsRun(c, s, run, who)
    ensures Faithful(c, AfterRun(c, s, run, who), who)
    decreases |run|
  {
    if run != [] {
      BenignStepKeepsFaithful(c, s, run[0], who);
      RunKeepsFaithful(c, Step(c, s, run[0]), run[1..], who);
    }
  }

  /**
   In every interleaving of appends by any models and folds by one, each killed anywhere, that
   model's view between critical sections is the complete records overridden in lock order.
   */
  lemma ViewIsTheHistory(c: Codec, run: seq<Action>, who: Model)
    requires GoodCodec(c) && IsRun(c, NEW, run, who)
    ensures var s := AfterRun(c, NEW, run, who);
      s.holder.Free? ==> View(c, s.disk, who) == Override(map[], s.log, who)
  {
    NoRecordsInNothing(c);
    RunKeepsFaithful(c, NEW, run, who);
  }

  // ----- readers take no lock

  ghost predicate From(log: seq<Record>, who: Model, id: string, e: Entry) {
    exists r :: r in log && r.model == who && r.id == id && EntryOf(r) == e
  }

  ghost predicate AllFrom(log: seq<Record>, who: Model, m: Entries) {
    forall id :: id in m ==> From(log, who, id, m[id])
  }

  /** Everything on the disk, or held by a fold, is some record of the history. */
  ghost predicate Sourced(c: Codec, s: State) {
    && (s.disk.main.Snapshot? ==> AllFrom(s.log, s.disk.main.model, s.disk.main.entries))
    && (forall r :: r in Records(c, s.disk.delta) ==> r in s.log)
    && (s.holder.Held? && s.holder.doing.Loaded? ==>
          && AllFrom(s.log, s.holder.doing.who, s.holder.doing.entries)
          && forall r :: r in s.holder.doing.extra ==> r.model == s.holder.doing.who)
  }

  lemma {:induction false} OverrideFrom(log: seq<Record>, m: Entries, rs: seq<Record>, who: Model)
    requires AllFrom(log, who, m) && forall r :: r in rs ==> r in log
    ensures AllFrom(log, who, Override(m, rs, who))
  {
    if rs != [] {
      OverrideFrom(log, m, rs[..|rs| - 1], who);
      assert rs[|rs| - 1] in rs;
    }
  }

  lemma {:induction false} ForeignFrom(rs: seq<Record>, who: Model)
    ensures forall r :: r in Foreign(rs, who) ==> r in rs
  {
    if rs != [] {
      ForeignFrom(rs[1..], who);
    }
  }

  lemma LongerLog(log: seq<Record>, more: seq<Record>, who: Model, m: Entries)
    requires AllFrom(log, who, m)
    ensures AllFrom(log + more, who, m)
  {
    forall id | id in m
      ensures From(log + more, who, id, m[id])
    {
      var r :| r in log && r.model == who && r.id == id && EntryOf(r) == m[id];
      assert r in log + more;
    }
  }

  function Added(c: Codec, s: State, a: Action): seq<Record>
    requires a.FoldSave? ==> s.holder.Held? && s.holder.doing.Loaded?
  {
    match a
    case Append(_, batch) => batch
    case AppendKilled(_, batch, cut) => batch[..Whole(c, batch, BatchCut(s.disk.delta, cut))]
    case FoldSave(_) => s.holder.doing.extra
    case _ => []
  }

  /** Every step, whichever models append and fold and wherever processes die. */
  lemma StepKeepsSourced(c: Codec, s: State, a: Action)
    requires GoodCodec(c) && Sourced(c, s) && Enabled(c, s, a)
    ensures Sourced(c, Step(c, s, a))
  {
    var t := Step(c, s, a);
    assert t.log == s.log + Added(c, s, a);
    if s.disk.main.Snapshot? {
      LongerLog(s.log, Added(c, s, a), s.disk.main.model, s.disk.main.entries);
    }
    match a
    case Append(_, batch) => WholeAppend(c, s.disk.delta, batch);
    case AppendKilled(_, batch, cut) => CutAppend(c, s.disk.delta, batch, cut);
    case FoldLoad(_, who, _) =>
      OverrideFrom(s.log, MainEntries(s.disk.main, who), Records(c, s.disk.delta), who);
    case FoldSave(_) =>
      var f := s.holder.doing;
      LongerLog(s.log, f.extra, f.who, f.entries);
      OverrideFrom(t.log, f.entries, f.extra, f.who);
    case FoldClear(_) =>
      TrimKeepsForeign(c, s.disk.delta, s.holder.doing.who);
      ForeignFrom(Records(c, s.disk.delta), s.holder.doing.who);
    case _ =>
  }

  /** A run of any steps: whichever models append and fold, and wherever processes die. */
  ghost predicate IsAnyRun(c: Codec, s: State, run: seq<Action>)
    decreases |run|
  {
    run == [] || (Enabled(c, s, run[0]) && IsAnyRun(c, Step(c, s, run[0]), run[1..]))
  }

  ghost function AfterAny(c: Codec, s: State, run: seq<Action>): State
    requires IsAnyRun(c, s, run)
    decreases |run|
  {
    if run == [] then s else AfterAny(c, Step(c, s, run[0]), run[1..])
  }

  lemma NewIsSourced(c: Codec)
    requires GoodCodec(c)
    ensures Sourced(c, NEW)
  {
    NoRecordsInNothing(c);
  }

  /** Over every run what is on the disk comes from the history, and the history only grows. */
  lemma {:induction false} AnyRunKeepsSourced(c: Codec, s: State, run: seq<Action>)
    requires GoodCodec(c) && Sourced(c, s) && IsAnyRun(c, s, run)
    ensures Sourced(c, AfterAny(c, s, run)) && s.log <= AfterAny(c, s, run).log
    decreases |run|
  {
    if run != [] {
      StepKeepsSourced(c, s, run[0]);
      assert Step(c, s, run[0]).log == s.log + Added(c, s, run[0]);
      AnyRunKeepsSourced(c, Step(c, s, run[0]), run[1..]);
    }
  }

  /** What a reader without the lock gets: the snapshot of one moment, the delta of a later one. */
  function UnlockedView(c: Codec, first: Disk, later: Disk, who: Model): Entries {
    Override(MainEntries(first.main, who), Records(c, later.delta), who)
  }

  /**
   A search reads the snapshot and the delta one after the other, without the lock, so any steps may come
   between. It may then miss records, but serves no vector that was not written for that model and id.
   */
  lemma UnlockedReadInventsNothing(c: Codec, run: seq<Action>, between: seq<Action>, who: Model)
    requires GoodCodec(c) && IsAnyRun(c, NEW, run) && IsAnyRun(c, AfterAny(c, NEW, run), between)
    ensures var s := AfterAny(c, NEW, run);
      var later := AfterAny(c, s, between);
      AllFrom(later.log, who, UnlockedView(c, s.disk, later.disk, who))
  {
    var s := AfterAny(c, NEW, run);
    var later := AfterAny(c, s, between);
    NewIsSourced(c);
    AnyRunKeepsSourced(c, NEW, run);
    AnyRunKeepsSourced(c, s, between);
    assert later.log == s.log + later.log[|s.log|..];
    if s.disk.main.Snapshot? {
      LongerLog(s.log, later.log[|s.log|..], s.disk.main.model, s.disk.main.entries);
    }
    OverrideFrom(later.log, MainEntries(s.disk.main, who), Records(c, later.disk.delta), who);
  }

  // ----- what the search makes of it

  function PowerOfTwo(e: nat): real {
    if e == 0 then 1.0 else 2.0 * PowerOfTwo(e - 1)
  }

  lemma PowersArePositive(e: nat)
    ensures PowerOfTwo(e) > 0.0
  {
  }

  function Number(f: Binary): real {
    if f.exponent >= 0 then f.mantissa as real * PowerOfTwo(f.exponent)
    else
      PowersArePositive(-f.exponent);
      f.mantissa as real / PowerOfTwo(-f.exponent)
  }

  lemma Halves(m: real, p: real, q: real, x: real, y: real)
    requires p > 0.0 && q == 2.0 * p && x == m / q && y == m / p
    ensures y == 2.0 * x
  {
    assert x * q == m && y * p == m;
    assert (y - 2.0 * x) * p == 0.0;
  }

  /** The mantissa, doubled or halved once for each step of the exponent. */
  lemma NumberIs(m: int, e: int)
    ensures Number(Binary(m, 0)) == m as real
    ensures Number(Binary(m, e + 1)) == 2.0 * Number(Binary(m, e))
  {
    if e < 0 {
      PowersArePositive(-e);
      PowersArePositive(-e - 1);
      Halves(m as real, PowerOfTwo(-e - 1), PowerOfTwo(-e), Number(Binary(m, e)), m as real / PowerOfTwo(-e - 1));
    }
  }

  function Vector(fs: seq<Float>): Ranking.Vector {
    seq(|fs|, i requires 0 <= i < |fs| => Number(fs[i]))
  }

  /** The entries as the search takes them. */
  function Served(m: Entries): map<string, Ranking.Cached> {
    map id | id in m :: Ranking.Cached(m[id].hash, Vector(m[id].embedding))
  }

  /** The record holds the embedding of the text its hash names. */
  ghost predicate MadeBy(e: Ranking.Embedder, r: Record) {
    forall text :: e.hash(text) == r.hash ==> e.passage(text) == Some(Vector(r.embedding))
  }

  /** If all records of a model were made by its embedder, every view a search can read is one it can rely on. */
  lemma ServedViewsAreCoherent(c: Codec, run: seq<Action>, between: seq<Action>, who: Model, e: Ranking.Embedder)
    requires GoodCodec(c) && IsAnyRun(c, NEW, run) && IsAnyRun(c, AfterAny(c, NEW, run), between)
    requires forall r :: r in AfterAny(c, AfterAny(c, NEW, run), between).log && r.model == who ==> MadeBy(e, r)
    ensures var s := AfterAny(c, NEW, run);
      Ranking.Coherent(e, Served(UnlockedView(c, s.disk, AfterAny(c, s, between).disk, who)))
  {
    var s := AfterAny(c, NEW, run);
    var later := AfterAny(c, s, between);
    var m := UnlockedView(c, s.disk, later.disk, who);
    UnlockedReadInventsNothing(c, run, between, who);
    forall id, text | id in Served(m) && e.hash(text) == Served(m)[id].hash
      ensures e.passage(text) == Some(Served(m)[id].embedding)
    {
      var r :| r in later.log && r.model == who && r.id == id && EntryOf(r) == m[id];
      assert MadeBy(e, r);
    }
  }

  // ----- what can be lost

  /** One process appends a batch; one process folds, or dies after the fold's first write. */
  function Appending(batch: seq<Record>): seq<Action> {
    [Acquire(0), Append(0, batch)]
  }

  function Folding(who: Model, extra: seq<Record>): seq<Action> {
    [Acquire(0), FoldLoad(0, who, extra), FoldSave(0), FoldClear(0)]
  }

  function HalfFolding(who: Model, extra: seq<Record>): seq<Action> {
    [Acquire(0), FoldLoad(0, who, extra), FoldSave(0), Die(0)]
  }

  lemma {:induction false} RunsJoin(c: Codec, s: State, a: seq<Action>, b: seq<Action>)
    requires IsAnyRun(c, s, a) && IsAnyRun(c, AfterAny(c, s, a), b)
    ensures IsAnyRun(c, s, a + b) && AfterAny(c, s, a + b) == AfterAny(c, AfterAny(c, s, a), b)
    decreases |a|
  {
    if a == [] {
      assert a + b == b;
    } else {
      assert (a + b)[0] == a[0] && (a + b)[1..] == a[1..] + b;
      RunsJoin(c, Step(c, s, a[0]), a[1..], b);
    }
  }

  lemma OneStep(c: Codec, s: State, a: Action, run: seq<Action>)
    requires Enabled(c, s, a) && IsAnyRun(c, Step(c, s, a), run)
    ensures IsAnyRun(c, s, [a] + run) && AfterAny(c, s, [a] + run) == AfterAny(c, Step(c, s, a), run)
  {
    assert ([a] + run)[0] == a && ([a] + run)[1..] == run;
  }

  lemma AfterAppending(c: Codec, s: State, batch: seq<Record>)
    requires s.holder.Free? && batch != []
    ensures IsAnyRun(c, s, Appending(batch))
    ensures AfterAny(c, s, Appending(batch)) == State(AppendAll(c, s.disk, batch), Free, s.log + batch)
  {
    hide AppendAll;
    var entered := Step(c, s, Acquire(0));
    OneStep(c, entered, Append(0, batch), []);
    OneStep(c, s, Acquire(0), [Append(0, batch)] + []);
    assert [Acquire(0)] + ([Append(0, batch)] + []) == Appending(batch);
  }

  lemma HalfSaved(c: Codec, s: State, who: Model, extra: seq<Record>)
    ensures Saved(c, s.disk, who, extra) == s.disk.(main := Snapshot(who, Override(View(c, s.disk, who), extra, who)))
  {
  }

  lemma FoldHalves(c: Codec, s: State, who: Model, extra: seq<Record>, run: seq<Action>)
    requires s.holder.Free? && (forall r :: r in extra ==> r.model == who)
    requires run == Folding(who, extra) || run == HalfFolding(who, extra)
    ensures IsAnyRun(c, s, run)
    ensures AfterAny(c, s, run) ==
      State(if run[3].Die? then Saved(c, s.disk, who, extra)
          else Cleared(c, Saved(c, s.disk, who, extra), who), Free, s.log + extra)
  {
    hide Saved, Cleared;
    var entered := Step(c, s, run[0]);
    var loaded := Step(c, entered, run[1]);
    var saved := Step(c, loaded, run[2]);
    HalfSaved(c, s, who, extra);
    assert saved == State(Saved(c, s.disk, who, extra), Held(0, HalfFolded(who, extra)), s.log + extra);
    OneStep(c, saved, run[3], []);
    OneStep(c, loaded, run[2], [run[3]] + []);
    OneStep(c, entered, run[1], [run[2]] + ([run[3]] + []));
    OneStep(c, s, run[0], [run[1]] + ([run[2]] + ([run[3]] + [])));
    assert run == [run[0]] + ([run[1]] + ([run[2]] + ([run[3]] + [])));
  }

  lemma AfterFolding(c: Codec, s: State, who: Model, extra: seq<Record>)
    requires s.holder.Free? && forall r :: r in extra ==> r.model == who
    ensures IsAnyRun(c, s, Folding(who, extra))
    ensures AfterAny(c, s, Folding(who, extra)) ==
      State(Cleared(c, Saved(c, s.disk, who, extra), who), Free, s.log + extra)
  {
    FoldHalves(c, s, who, extra, Folding(who, extra));
  }

  lemma AfterHalfFolding(c: Codec, s: State, who: Model, extra: seq<Record>)
    requires s.holder.Free? && forall r :: r in extra ==> r.model == who
    ensures IsAnyRun(c, s, HalfFolding(who, extra))
    ensures AfterAny(c, s, HalfFolding(who, extra)) == State(Saved(c, s.disk, who, extra), Free, s.log + extra)
  {
    FoldHalves(c, s, who, extra, HalfFolding(who, extra));
  }

  /** One model's record is folded into its snapshot, then another model folds. */
  function TwoModels(r: Record, other: Model): seq<Action> {
    Appending([r]) + Folding(r.model, []) + Folding(other, [])
  }

  lemma OneRecordOverrides(r: Record)
    ensures Override(map[], [r] + [] + [], r.model) == map[r.id := EntryOf(r)] &&
      Override(map[], [r], r.model) == map[r.id := EntryOf(r)]
  {
    assert [r] + [] + [] == [r] && [r][..0] == [];
  }

  /** Once a model's only record is folded, the delta is empty. */
  lemma FoldedAway(c: Codec, r: Record)
    requires GoodCodec(c)
    ensures var d := AppendAll(c, NEW.disk, [r]); Records(c, Cleared(c, Saved(c, d, r.model, []), r.model).delta) == []
  {
    NoRecordsInNothing(c);
    WholeAppend(c, NEW.disk.delta, [r]);
    TrimKeepsForeign(c, AppendAll(c, NEW.disk, [r]).delta, r.model);
    assert [] + [r] == [r];
  }

  /** A disk the code reaches where a model's folded records are gone: another model folded after it. */
  lemma FoldLosesAnotherSnapshot(c: Codec, r: Record, other: Model)
    requires GoodCodec(c) && other != r.model
    ensures IsAnyRun(c, NEW, TwoModels(r, other))
    ensures var s := AfterAny(c, NEW, TwoModels(r, other));
      s.holder.Free? && View(c, s.disk, r.model) == map[] && Override(map[], s.log, r.model) == map[r.id := EntryOf(r)]
  {
    hide Saved, Cleared, IsAnyRun, AfterAny, View;
    AfterAppending(c, NEW, [r]);
    var one := AfterAny(c, NEW, Appending([r]));
    AfterFolding(c, one, r.model, []);
    var two := AfterAny(c, one, Folding(r.model, []));
    AfterFolding(c, two, other, []);
    RunsJoin(c, one, Folding(r.model, []), Folding(other, []));
    RunsJoin(c, NEW, Appending([r]), Folding(r.model, []) + Folding(other, []));
    Assoc(Appending([r]), Folding(r.model, []), Folding(other, []));
    FoldedAway(c, r);
    FoldUnderAnotherModel(c, two.disk, other, [], r.model);
    OneRecordOverrides(r);
  }

  /** A record is written, then a fold that imports another for its id dies half done. */
  function DyingImport(r: Record, imported: Record): seq<Action> {
    Appending([r]) + HalfFolding(r.model, [imported])
  }

  /** A disk the code reaches where an import is not in the view: the older record in the delta overrides it. */
  lemma DyingFoldLosesImport(c: Codec, r: Record, imported: Record)
    requires GoodCodec(c) && imported.model == r.model && imported.id == r.id && EntryOf(imported) != EntryOf(r)
    ensures IsAnyRun(c, NEW, DyingImport(r, imported))
    ensures var s := AfterAny(c, NEW, DyingImport(r, imported));
      && s.holder.Free? && r.id in View(c, s.disk, r.model) && View(c, s.disk, r.model)[r.id] == EntryOf(r)
      && Override(map[], s.log, r.model) == map[r.id := EntryOf(imported)]
  {
    hide IsAnyRun, AfterAny, Records, Step;
    AfterAppending(c, NEW, [r]);
    var one := AfterAny(c, NEW, Appending([r]));
    AfterHalfFolding(c, one, r.model, [imported]);
    RunsJoin(c, NEW, Appending([r]), HalfFolding(r.model, [imported]));
    NoRecordsInNothing(c);
    WholeAppend(c, NEW.disk.delta, [r]);
    assert [] + [r] == [r] && [r][..0] == [];
    assert Records(c, one.disk.delta) == [r];
    OneRecordOverrides(r);
    var s := AfterAny(c, NEW, DyingImport(r, imported));
    assert s.log == [] + [r] + [imported] == [r] + [imported];
    OverrideNext(map[], [r], imported, r.model);
  }

  // ----- the code, on files that a method rewrites

  /** An import: an engram's id, the text the vector was made from, and the vector. */
  datatype Import = Import(id: string, text: string, embedding: seq<Float>)

  /** What `mergeEmbeddingsIntoCache` folds in, given the entries it read. */
  function FreshImports(cache: Entries, hash: string -> string, who: Model, imports: seq<Import>): seq<Record> {
    if imports == [] then []
    else
      var i, before := imports[|imports| - 1], FreshImports(cache, hash, who, imports[..|imports| - 1]);
      if |i.embedding| != who.dim || (i.id in cache && cache[i.id].hash == hash(i.text)) then before
      else before + [Record(i.id, hash(i.text), i.embedding, who)]
  }

  /** An import the cache is given: of the right dimension, and not what the cache has already. */
  predicate IsFresh(cache: Entries, hash: string -> string, who: Model, i: Import) {
    |i.embedding| == who.dim && !(i.id in cache && cache[i.id].hash == hash(i.text))
  }

  /** Import n is the last fresh one of its id. */
  ghost predicate IsLastFresh(cache: Entries, hash: string -> string, who: Model, imports: seq<Import>, n: int) {
    && 0 <= n < |imports| && IsFresh(cache, hash, who, imports[n])
    && forall m :: n < m < |imports| && imports[m].id == imports[n].id ==> !IsFresh(cache, hash, who, imports[m])
  }

  ghost predicate NoneFresh(cache: Entries, hash: string -> string, who: Model, imports: seq<Import>, id: string) {
    forall i :: i in imports && i.id == id ==> !IsFresh(cache, hash, who, i)
  }

  /** The import is served under the hash of its text. */
  predicate Serves(after: Entries, hash: string -> string, i: Import) {
    i.id in after && after[i.id] == Entry(hash(i.text), i.embedding)
  }

  /**
   A merge turned what a model is served from `before` into `after`: the last fresh import of an id is served, and
   every other id as it was.
   */
  ghost predicate Merged(before: Entries, after: Entries, hash: string -> string, who: Model, imports: seq<Import>) {
    && (forall n :: IsLastFresh(before, hash, who, imports, n) ==> Serves(after, hash, imports[n]))
    && (forall id :: NoneFresh(before, hash, who, imports, id) ==> SameAt(before, after, id))
  }

  lemma OneMoreImport(cache: Entries, hash: string -> string, who: Model, imports: seq<Import>)
    requires imports != []
    ensures var init, i := imports[..|imports| - 1], imports[|imports| - 1];
      FreshImports(cache, hash, who, imports) == FreshImports(cache, hash, who, init) +
        if IsFresh(cache, hash, who, i) then [Record(i.id, hash(i.text), i.embedding, who)] else []
  {
  }

  /** What is said last of an id in `adds` comes from the last fresh import of it, or nothing is. */
  ghost predicate LastIsFresh(cache: Entries, hash: string -> string, who: Model, imports: seq<Import>, id: string,
                              last: Option<Entry>) {
    if last.None? then NoneFresh(cache, hash, who, imports, id)
    else exists n :: IsLastFresh(cache, hash, who, imports, n) && imports[n].id == id &&
           last.value == Entry(hash(imports[n].text), imports[n].embedding)
  }

  lemma FreshHere(cache: Entries, hash: string -> string, who: Model, init: seq<Import>, i: Import)
    requires IsFresh(cache, hash, who, i)
    ensures LastIsFresh(cache, hash, who, init + [i], i.id, Some(Entry(hash(i.text), i.embedding)))
  {
    hide IsFresh;
    assert IsLastFresh(cache, hash, who, init + [i], |init|);
  }

  lemma NotFreshHere(cache: Entries, hash: string -> string, who: Model, init: seq<Import>, i: Import, id: string,
                     last: Option<Entry>)
    requires LastIsFresh(cache, hash, who, init, id, last) && !(IsFresh(cache, hash, who, i) && i.id == id)
    ensures LastIsFresh(cache, hash, who, init + [i], id, last)
  {
    hide IsFresh;
    assert forall x :: x in init + [i] <==> x in init || x == i;
    if last.Some? {
      var n :| IsLastFresh(cache, hash, who, init, n) && init[n].id == id &&
        last.value == Entry(hash(init[n].text), init[n].embedding);
      assert IsLastFresh(cache, hash, who, init + [i], n);
    }
  }

  lemma {:induction false} LastFreshImport(cache: Entries, hash: string -> string, who: Model, imports: seq<Import>,
                                            id: string)
    ensures LastIsFresh(cache, hash, who, imports, id, Last(FreshImports(cache, hash, who, imports), who, id))
  {
    hide IsFresh;
    if imports != [] {
      var init, i := imports[..|imports| - 1], imports[|imports| - 1];
      var before := FreshImports(cache, hash, who, init);
      assert imports == init + [i];
      OneMoreImport(cache, hash, who, imports);
      LastFreshImport(cache, hash, who, init, id);
      if IsFresh(cache, hash, who, i) {
        var r := Record(i.id, hash(i.text), i.embedding, who);
        assert (before + [r])[..|before|] == before;
        FreshHere(cache, hash, who, init, i);
      }
      if !(IsFresh(cache, hash, who, i) && i.id == id) {
        NotFreshHere(cache, hash, who, init, i, id, Last(before, who, id));
      }
    }
  }

  lemma OneLastFresh(cache: Entries, hash: string -> string, who: Model, imports: seq<Import>, m: int, n: int)
    requires IsLastFresh(cache, hash, who, imports, m) && IsLastFresh(cache, hash, who, imports, n)
    requires imports[m].id == imports[n].id
    ensures m == n
  {
  }

  lemma FreshServed(before: Entries, hash: string -> string, who: Model, imports: seq<Import>, n: int)
    requires IsLastFresh(before, hash, who, imports, n)
    ensures Serves(Override(before, FreshImports(before, hash, who, imports), who), hash, imports[n])
  {
    hide FreshImports, Override, Last, IsFresh;
    var adds, id := FreshImports(before, hash, who, imports), imports[n].id;
    LastFreshImport(before, hash, who, imports, id);
    OverrideAt(before, adds, who, id);
    assert imports[n] in imports;
    var m :| IsLastFresh(before, hash, who, imports, m) && imports[m].id == id &&
      Last(adds, who, id).value == Entry(hash(imports[m].text), imports[m].embedding);
    OneLastFresh(before, hash, who, imports, m, n);
  }

  lemma OthersServed(before: Entries, hash: string -> string, who: Model, imports: seq<Import>, id: string)
    requires NoneFresh(before, hash, who, imports, id)
    ensures SameAt(before, Override(before, FreshImports(before, hash, who, imports), who), id)
  {
    hide FreshImports, Override, Last, IsFresh;
    var adds := FreshImports(before, hash, who, imports);
    LastFreshImport(before, hash, who, imports, id);
    OverrideAt(before, adds, who, id);
    assert forall n :: 0 <= n < |imports| ==> imports[n] in imports;
  }

  /** Laying the fresh imports over what was served is the merge. */
  lemma FreshImportsMerge(before: Entries, hash: string -> string, who: Model, imports: seq<Import>)
    ensures Merged(before, Override(before, FreshImports(before, hash, who, imports), who), hash, who, imports)
  {
    hide FreshImports, Override, IsFresh, NoneFresh, SameAt, Serves;
    var after := Override(before, FreshImports(before, hash, who, imports), who);
    forall n | IsLastFresh(before, hash, who, imports, n)
      ensures Serves(after, hash, imports[n])
    {
      FreshServed(before, hash, who, imports, n);
    }
    forall id | NoneFresh(before, hash, who, imports, id)
      ensures SameAt(before, after, id)
    {
      OthersServed(before, hash, who, imports, id);
    }
  }

  lemma NothingOver(m: Entries, who: Model)
    ensures Override(m, [], who) == m
  {
  }

  /** The ids a merge writes, as the number it reports. */
  lemma {:induction false} FreshIds(cache: Entries, hash: string -> string, who: Model, imports: seq<Import>)
    ensures (set r | r in FreshImports(cache, hash, who, imports) :: r.id)
      == set i | i in imports && IsFresh(cache, hash, who, i) :: i.id
    ensures forall r :: r in FreshImports(cache, hash, who, imports) ==> r.model == who
  {
    if imports != [] {
      var init, i := imports[..|imports| - 1], imports[|imports| - 1];
      FreshIds(cache, hash, who, init);
      var before := FreshImports(cache, hash, who, init);
      var old', now := set i | i in init && IsFresh(cache, hash, who, i) :: i.id,
                       set i | i in imports && IsFresh(cache, hash, who, i) :: i.id;
      assert forall x :: x in imports <==> x in init || x == i;
      if IsFresh(cache, hash, who, i) {
        var r := Record(i.id, hash(i.text), i.embedding, who);
        assert forall x :: x in before + [r] <==> x in before || x == r;
        assert now == old' + {i.id};
        assert (set x | x in before + [r] :: x.id) == (set x | x in before :: x.id) + {r.id};
      } else {
        assert now == old';
      }
    }
  }

  /** What is served after the writes of a fold: its view with the imports over it, unless half of it loses one. */
  lemma FoldServes(c: Codec, d: Disk, who: Model, extra: seq<Record>, cleared: bool)
    requires GoodCodec(c) && (cleared || Agrees(c, d.delta, extra, who))
    ensures var now := if cleared then Cleared(c, Saved(c, d, who, extra), who) else Saved(c, d, who, extra);
      View(c, now, who) == Override(View(c, d, who), extra, who)
  {
    hide Agrees, Override, Records;
    if cleared {
      FoldShows(c, d, who, extra);
    } else {
      KilledFoldShows(c, d, who, extra);
    }
  }

  class CacheFiles {
    var main: Main
    var delta: Bytes
    const codec: Codec

    ghost function Now(): Disk
      reads this
    {
      Disk(main, delta)
    }

    constructor (codec: Codec)
      ensures this.codec == codec && Now() == NEW.disk
    {
      this.codec := codec;
      main, delta := Absent, [];
    }

    /** The snapshot if it carries the active model's header, with the delta applied line by line. */
    method LoadCache(active: Model) returns (entries: Entries)
      ensures entries == View(codec, Now(), active)
    {
      entries := if main.Snapshot? && main.model == active then main.entries else map[];
      var lines := Lines(delta);
      ghost var found: seq<Record> := [];
      for i := 0 to |lines|
        invariant found == Parsed(codec, lines[..i])
        invariant entries == Override(MainEntries(main, active), found, active)
      {
        ParsedNext(codec, lines, i, i + 1);
        match codec.parse(lines[i]) {
          case None =>
          case Some(e) =>
            OverrideNext(MainEntries(main, active), found, e, active);
            found := found + [e];
            if e.model == active {
              entries := entries[e.id := Entry(e.hash, e.embedding)];
            }
        }
      }
      assert lines[..|lines|] == lines;
    }

    /** Whether the delta file is non-empty and its last byte is no newline. */
    method EndsInTornLine() returns (torn: bool)
      ensures torn <==> EndsTorn(delta)
    {
      if |delta| == 0 {
        return false;
      }
      torn := delta[|delta| - 1] != NEWLINE;
    }

    /** Append a batch, unless the lock cannot be taken. */
    method AppendEntries(batch: seq<Record>, locked: bool) returns (ok: bool)
      modifies this
      ensures ok <==> batch == [] || locked
      ensures Now() == if batch == [] || !locked then old(Now()) else AppendAll(codec, old(Now()), batch)
    {
      if |batch| == 0 {
        return true;
      }
      var lines: Bytes := [];
      for i := 0 to |batch|
        invariant Now() == old(Now())
        invariant if i == 0 then lines == [] else lines + [NEWLINE] == Rendered(codec, batch[..i])
      {
        RenderedNext(codec, batch, i, i + 1);
        if i > 0 {
          lines := lines + [NEWLINE];
        }
        lines := lines + codec.encode(batch[i]);
      }
      assert batch[..|batch|] == batch;
      lines := lines + [NEWLINE];
      if !locked {
        return false;
      }
      var torn := EndsInTornLine();
      delta := delta + ((if torn then [NEWLINE] else []) + lines);
      ok := true;
    }

    /**
     Fold the delta and `extra` into the snapshot, then keep only the other models' lines, unless the lock cannot
     be taken. That the second write fails is ignored.
     */
    method CompactCache(who: Model, extra: seq<Record>, locked: bool, cleared: bool) returns (ok: bool)
      requires forall r :: r in extra ==> r.model == who
      modifies this
      ensures ok == locked && (!ok ==> Now() == old(Now()))
      ensures ok && cleared ==> Now() == Cleared(codec, Saved(codec, old(Now()), who, extra), who)
      ensures ok && !cleared ==> Now() == Saved(codec, old(Now()), who, extra)
      ensures ok ==> main == Snapshot(who, Override(View(codec, old(Now()), who), extra, who))
      ensures ok && cleared && GoodCodec(codec) ==> Records(codec, delta) == Foreign(Records(codec, old(delta)), who)
      ensures ok && GoodCodec(codec) && (cleared || Agrees(codec, old(delta), extra, who)) ==>
        View(codec, Now(), who) == Override(View(codec, old(Now()), who), extra, who)
    {
      hide GoodCodec, Agrees, Override, KeptLines, Joined, Lines, Foreign, Parsed;
      if !locked {
        return false;
      }
      var onDisk := LoadCache(who);
      NothingOver(onDisk, who);
      for i := 0 to |extra|
        invariant Now() == old(Now())
        invariant onDisk == Override(View(codec, Now(), who), extra[..i], who)
      {
        assert extra[..i] + [extra[i]] == extra[..i + 1];
        OverrideNext(View(codec, Now(), who), extra[..i], extra[i], who);
        onDisk := onDisk[extra[i].id := EntryOf(extra[i])];
      }
      assert extra[..|extra|] == extra;
      main := Snapshot(who, onDisk);
      if cleared {
        delta := Joined(KeptLines(codec, Lines(delta), who));
      }
      if GoodCodec(codec) {
        TrimKeepsForeign(codec, old(delta), who);
        if cleared || Agrees(codec, old(delta), extra, who) {
          FoldServes(codec, old(Now()), who, extra, cleared);
        }
      }
      ok := true;
    }

    /** Fold in the imports the cache does not hold already; without the lock nothing is written or reported. */
    method MergeEmbeddingsIntoCache(hash: string -> string, active: Model, imports: seq<Import>, locked: bool,
                                    cleared: bool)
      returns (written: nat)
      modifies this
      ensures var before := View(codec, old(Now()), active);
        && written == (if locked then |set i | i in imports && IsFresh(before, hash, active, i) :: i.id| else 0)
        && (written == 0 ==> Now() == old(Now()))
        && (written > 0 ==>
              main == Snapshot(active, Override(before, FreshImports(before, hash, active, imports), active)))
        && (written > 0 && !cleared ==> delta == old(delta))
        && (written > 0 && cleared && GoodCodec(codec) ==>
              Records(codec, delta) == Foreign(Records(codec, old(delta)), active))
        && (locked && cleared && GoodCodec(codec) ==> Merged(before, View(codec, Now(), active), hash, active, imports))
    {
      hide GoodCodec, Agrees, Override, Records, Foreign;
      var cache := LoadCache(active);
      var adds: seq<Record> := [];
      var ids: set<string> := {};
      for i := 0 to |imports|
        invariant Now() == old(Now())
        invariant adds == FreshImports(cache, hash, active, imports[..i])
        invariant ids == set r | r in adds :: r.id
        invariant forall r :: r in adds ==> r.model == active
      {
        assert imports[..i + 1][..i] == imports[..i];
        var imp := imports[i];
        var h := hash(imp.text);
        if |imp.embedding| == active.dim && !(imp.id in cache && cache[imp.id].hash == h) {
          var r := Record(imp.id, h, imp.embedding, active);
          assert (set x | x in adds + [r] :: x.id) == ids + {imp.id} by {
            assert (adds + [r])[|adds|] == r;
            assert forall x :: x in adds + [r] <==> x in adds || x == r;
          }
          adds := adds + [r];
          ids := ids + {imp.id};
        }
      }
      assert imports[..|imports|] == imports;
      FreshIds(cache, hash, active, imports);
      FreshImportsMerge(cache, hash, active, imports);
      written := |ids|;
      assert adds != [] ==> adds[0].id in ids;
      if written == 0 {
        NothingOver(cache, active);
        return;
      }
      var ok := CompactCache(active, adds, locked, cleared);
      if !ok {
        written := 0;
      }
    }
  }

  // ----- what a merge is for

  lemma {:induction false} LastOf(imports: seq<Import>, i: Import) returns (n: nat)
    requires i in imports
    ensures n < |imports| && imports[n] == i && i !in imports[n + 1..]
  {
    n := |imports| - 1;
    if imports[n] != i {
      assert imports == imports[..n] + [imports[n]];
      n := LastOf(imports[..n], i);
      assert imports[n + 1..] == imports[..|imports| - 1][n + 1..] + [imports[|imports| - 1]];
    }
  }

  /**
   After a merge, an imported id with one import is served under the hash of the imported text: by the
   vector already there if that was made from the same text, else by the imported one.
   */
  lemma MergeServesImports(before: Entries, after: Entries, hash: string -> string, who: Model, imports: seq<Import>,
                           i: Import)
    requires Merged(before, after, hash, who, imports) && i in imports && |i.embedding| == who.dim
    requires forall j :: j in imports && j.id == i.id ==> j == i
    ensures i.id in after && after[i.id] ==
      if i.id in before && before[i.id].hash == hash(i.text) then before[i.id] else Entry(hash(i.text), i.embedding)
  {
    if IsFresh(before, hash, who, i) {
      var n := LastOf(imports, i);
      assert IsLastFresh(before, hash, who, imports, n);
      assert Serves(after, hash, imports[n]);
    } else {
      assert NoneFresh(before, hash, who, imports, i.id);
      assert SameAt(before, after, i.id);
    }
  }
}
