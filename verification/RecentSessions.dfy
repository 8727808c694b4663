/**
 The bounded maps of the context engine: a Map in insertion order, where every use of a session moves it
 to the end and storing a session drops the oldest ones over the cap.
 */
module RecentSessions {
  import opened Wrappers

  type Key = string

  /** A Map's entries, oldest insertion first. */
  type Entries<+V> = seq<(Key, V)>

  const MAX_TRACKED_SESSIONS: nat := 1000

  function Keys<V>(es: Entries<V>): set<Key> {
    set i | 0 <= i < |es| :: es[i].0
  }

  ghost predicate OncePerKey<V>(es: Entries<V>) {
    forall i, j :: 0 <= i < j < |es| ==> es[i].0 != es[j].0
  }

  /** `Map.get`. */
  function Find<V>(es: Entries<V>, k: Key): (v: Option<V>)
    ensures v.Some? <==> k in Keys(es)
  {
    if es == [] then None
    else if es[0].0 == k then Some(es[0].1)
    else
      assert k in Keys(es[1..]) <==> k in Keys(es) by {
        if i :| 0 <= i < |es| && es[i].0 == k {
          assert es[1..][i - 1].0 == k;
        }
      }
      Find(es[1..], k)
  }

  /** `Map.delete`. */
  function Without<V>(es: Entries<V>, k: Key): Entries<V> {
    if es == [] then [] else Without(es[..|es| - 1], k) + if es[|es| - 1].0 == k then [] else [es[|es| - 1]]
  }

  /** The n newest entries. */
  function Newest<V>(es: Entries<V>, n: nat): Entries<V> {
    if |es| <= n then es else es[|es| - n..]
  }

  /** `touch`. */
  function Touched<V>(es: Entries<V>, k: Key): Entries<V> {
    match Find(es, k)
    case None => es
    case Some(v) => Without(es, k) + [(k, v)]
  }

  /** `put`. */
  function Stored<V>(es: Entries<V>, k: Key, v: V): Entries<V> {
    Newest(Without(es, k) + [(k, v)], MAX_TRACKED_SESSIONS)
  }

  // ----- removing a key

  lemma KeysSnoc<V>(es: Entries<V>, e: (Key, V))
    ensures Keys(es + [e]) == Keys(es) + {e.0}
  {
    forall k | k in Keys(es) + {e.0}
      ensures k in Keys(es + [e])
    {
      if k in Keys(es) {
        var i :| 0 <= i < |es| && es[i].0 == k;
        assert (es + [e])[i].0 == k;
      } else {
        assert (es + [e])[|es|].0 == k;
      }
    }
  }

  lemma OnceSnoc<V>(es: Entries<V>, e: (Key, V))
    requires OncePerKey(es) && e.0 !in Keys(es)
    ensures OncePerKey(es + [e])
  {
    forall i | 0 <= i < |es|
      ensures es[i].0 != e.0
    {
      assert es[i].0 in Keys(es);
    }
  }

  lemma {:induction false} WithoutIs<V>(es: Entries<V>, k: Key)
    requires OncePerKey(es)
    ensures OncePerKey(Without(es, k)) && Keys(Without(es, k)) == Keys(es) - {k}
    ensures |Without(es, k)| == |es| - if k in Keys(es) then 1 else 0
  {
    if es != [] {
      var init, e := es[..|es| - 1], es[|es| - 1];
      WithoutIs(init, k);
      KeysSnoc(init, e);
      assert es == init + [e];
      assert e.0 !in Keys(init);
      if e.0 == k {
        assert Without(es, k) == Without(init, k);
      } else {
        KeysSnoc(Without(init, k), e);
        OnceSnoc(Without(init, k), e);
      }
    }
  }

  lemma {:induction false} WithoutAppend<V>(a: Entries<V>, b: Entries<V>, k: Key)
    ensures Without(a + b, k) == Without(a, k) + Without(b, k)
  {
    if b == [] {
      assert a + b == a;
    } else {
      WithoutAppend(a, b[..|b| - 1], k);
      assert (a + b)[..|a + b| - 1] == a + b[..|b| - 1];
    }
  }

  lemma {:induction false} WithoutAbsent<V>(es: Entries<V>, k: Key)
    requires k !in Keys(es)
    ensures Without(es, k) == es
  {
    if es != [] {
      var init, e := es[..|es| - 1], es[|es| - 1];
      assert es == init + [e];
      KeysSnoc(init, e);
      WithoutAbsent(init, k);
    }
  }

  lemma WithoutOldest<V>(es: Entries<V>)
    requires OncePerKey(es) && es != []
    ensures Without(es, es[0].0) == es[1..]
  {
    var k := es[0].0;
    assert es == [es[0]] + es[1..];
    WithoutAppend([es[0]], es[1..], k);
    assert [es[0]][..0] == [];
    WithoutAbsent(es[1..], k);
  }

  // ----- the map over a run of calls

  datatype Call<V> = Touch(key: Key) | Put(key: Key, value: V) | Delete(key: Key)

  function Step<V>(es: Entries<V>, c: Call<V>): Entries<V> {
    match c
    case Touch(k) => Touched(es, k)
    case Put(k, v) => Stored(es, k, v)
    case Delete(k) => Without(es, k)
  }

  function After<V>(run: seq<Call<V>>): Entries<V> {
    if run == [] then [] else Step(After(run[..|run| - 1]), run[|run| - 1])
  }

  lemma StepKeepsOnce<V>(es: Entries<V>, c: Call<V>)
    requires OncePerKey(es)
    ensures OncePerKey(Step(es, c))
  {
    WithoutIs(es, c.key);
    match c
    case Touch(k) =>
      if Find(es, k).Some? {
        OnceSnoc(Without(es, k), (k, Find(es, k).value));
      }
    case Put(k, v) => OnceSnoc(Without(es, k), (k, v));
    case Delete(_) =>
  }

  /** Whatever is called, no key is held twice and the map never grows past the cap. */
  lemma {:induction false} NeverOverTheCap<V>(run: seq<Call<V>>)
    ensures OncePerKey(After(run)) && |After(run)| <= MAX_TRACKED_SESSIONS
  {
    if run != [] {
      var init, c := run[..|run| - 1], run[|run| - 1];
      NeverOverTheCap(init);
      StepKeepsOnce(After(init), c);
      WithoutIs(After(init), c.key);
    }
  }

  // ----- the recency list it refines

  /** A use: storing a session, or touching one the map holds; with the value it then has. */
  function UseOf<V>(es: Entries<V>, c: Call<V>): seq<(Key, V)> {
    match c
    case Touch(k) => if Find(es, k).Some? then [(k, Find(es, k).value)] else []
    case Put(k, v) => [(k, v)]
    case Delete(_) => []
  }

  function Uses<V>(run: seq<Call<V>>): seq<(Key, V)> {
    if run == [] then []
    else Uses(run[..|run| - 1]) + UseOf(After(run[..|run| - 1]), run[|run| - 1])
  }

  /** Every key ever used, in the order of its last use: nothing is ever dropped from this list. */
  function Recency<V>(uses: seq<(Key, V)>): Entries<V> {
    if uses == [] then [] else Without(Recency(uses[..|uses| - 1]), uses[|uses| - 1].0) + [uses[|uses| - 1]]
  }

  lemma NoKeys<V>()
    ensures OncePerKey<V>([]) && Keys<V>([]) == {}
  {
  }

  lemma UsedOnce<V>(r: Entries<V>, u: (Key, V))
    requires OncePerKey(r)
    ensures OncePerKey(Without(r, u.0) + [u]) && Keys(Without(r, u.0) + [u]) == Keys(r) + {u.0}
  {
    WithoutIs(r, u.0);
    OnceSnoc(Without(r, u.0), u);
    KeysSnoc(Without(r, u.0), u);
  }

  lemma {:induction false} RecencyOnce<V>(uses: seq<(Key, V)>)
    ensures OncePerKey(Recency(uses)) && Keys(Recency(uses)) == Keys(uses)
  {
    if uses != [] {
      hide OncePerKey, Without, Keys;
      var init, u := uses[..|uses| - 1], uses[|uses| - 1];
      RecencyOnce(init);
      UsedOnce(Recency(init), u);
      KeysSnoc(init, u);
      assert uses == init + [u];
    } else {
      NoKeys<V>();
    }
  }

  lemma NewestOfAppend<V>(a: Entries<V>, b: Entries<V>, n: nat)
    requires a == [] || |b| >= n
    ensures Newest(a + b, n) == Newest(b, n)
  {
    if a == [] {
      assert a + b == b;
    }
  }

  lemma KeysApart<V>(a: Entries<V>, b: Entries<V>, k: Key)
    requires OncePerKey(a + b) && k in Keys(b)
    ensures k !in Keys(a)
  {
    var j :| 0 <= j < |b| && b[j].0 == k;
    assert (a + b)[|a| + j].0 == k;
    forall i | 0 <= i < |a|
      ensures a[i].0 != k
    {
      assert (a + b)[i].0 == a[i].0;
    }
  }

  /** Using k keeps the map the newest part of the recency list. */
  lemma UseKeepsNewest<V>(r: Entries<V>, k: Key, v: V, cap: nat)
    requires OncePerKey(r)
    ensures Newest(Without(Newest(r, cap), k) + [(k, v)], cap) == Newest(Without(r, k) + [(k, v)], cap)
  {
    var m := Newest(r, cap);
    var past := r[..|r| - |m|];
    assert r == past + m;
    WithoutAppend(past, m, k);
    assert OncePerKey(m);
    WithoutIs(m, k);
    if k in Keys(m) {
      KeysApart(past, m, k);
      WithoutAbsent(past, k);
    }
    var kept := Without(m, k) + [(k, v)];
    assert Without(past, k) + Without(m, k) + [(k, v)] == Without(past, k) + kept;
    if past == [] {
      assert Without(past, k) == [];
    }
    NewestOfAppend(Without(past, k), kept, cap);
  }

  /** A run without explicit deletes leaves exactly the newest of all keys ever used, up to the cap. */
  lemma {:induction false} MapIsNewestOfRecency<V>(run: seq<Call<V>>)
    requires forall c :: c in run ==> !c.Delete?
    ensures After(run) == Newest(Recency(Uses(run)), MAX_TRACKED_SESSIONS)
  {
    if run != [] {
      var init, c := run[..|run| - 1], run[|run| - 1];
      var es, uses := After(init), Uses(init);
      MapIsNewestOfRecency(init);
      RecencyOnce(uses);
      var use := UseOf(es, c);
      if use != [] {
        var (k, v) := use[0];
        assert (uses + use)[..|uses|] == uses;
        UseKeepsNewest(Recency(uses), k, v, MAX_TRACKED_SESSIONS);
        NeverOverTheCap(init);
        WithoutIs(es, k);
      } else {
        assert uses + use == uses;
      }
    }
  }

  /** The distinct keys used since the last use of k. */
  function KeysSince<V>(uses: seq<(Key, V)>, k: Key): set<Key>
    requires k in Keys(uses)
  {
    var init, u := uses[..|uses| - 1], uses[|uses| - 1];
    if u.0 == k then {}
    else
      assert k in Keys(init) by {
        assert uses == init + [u];
        KeysSnoc(init, u);
      }
      KeysSince(init, k) + {u.0}
  }

  lemma OtherOne<V>(e: (Key, V), k: Key)
    requires e.0 != k
    ensures Without([e], k) == [e]
  {
    assert [e][..0] == [];
  }

  lemma SplitOnce<V>(a: Entries<V>, b: Entries<V>)
    requires OncePerKey(a + b)
    ensures OncePerKey(b)
  {
    forall i, j | 0 <= i < j < |b|
      ensures b[i].0 != b[j].0
    {
      assert (a + b)[|a| + i] == b[i] && (a + b)[|a| + j] == b[j];
    }
  }

  /** Using another key moves no key past k. */
  lemma UseOther<V>(before: Entries<V>, e: (Key, V), since: Entries<V>, u: (Key, V))
    requires OncePerKey(before + [e] + since) && u.0 != e.0
    ensures Without(before + [e] + since, u.0) + [u] == Without(before, u.0) + [e] + (Without(since, u.0) + [u])
    ensures Keys(Without(since, u.0) + [u]) == Keys(since) + {u.0}
  {
    hide OncePerKey, Without;
    WithoutAppend(before + [e], since, u.0);
    WithoutAppend(before, [e], u.0);
    OtherOne(e, u.0);
    SplitOnce(before + [e], since);
    WithoutIs(since, u.0);
    KeysSnoc(Without(since, u.0), u);
    Assoc(Without(before, u.0) + [e], Without(since, u.0), [u]);
  }

  /** k stands in the recency list before exactly the keys used since. */
  lemma {:induction false} PlaceInRecency<V>(uses: seq<(Key, V)>, k: Key)
    returns (before: Entries<V>, v: V, since: Entries<V>)
    requires k in Keys(uses)
    ensures Recency(uses) == before + [(k, v)] + since && Keys(since) == KeysSince(uses, k)
  {
    hide Without, OncePerKey;
    var init, u := uses[..|uses| - 1], uses[|uses| - 1];
    assert uses == init + [u];
    KeysSnoc(init, u);
    if u.0 == k {
      before, v, since := Without(Recency(init), k), u.1, [];
      assert before + [u] + since == before + [u];
    } else {
      before, v, since := PlaceInRecency(init, k);
      RecencyOnce(init);
      UseOther(before, (k, v), since, u);
      before, since := Without(before, u.0), Without(since, u.0) + [u];
    }
  }

  lemma {:induction false} CountKeys<V>(es: Entries<V>)
    requires OncePerKey(es)
    ensures |Keys(es)| == |es|
  {
    if es != [] {
      var init, e := es[..|es| - 1], es[|es| - 1];
      assert es == init + [e];
      CountKeys(init);
      KeysSnoc(init, e);
    }
  }

  lemma PlaceOfNewest<V>(before: Entries<V>, e: (Key, V), since: Entries<V>, n: nat)
    requires OncePerKey(before + [e] + since)
    ensures e.0 in Keys(Newest(before + [e] + since, n)) <==> |since| < n
  {
    var r := before + [e] + since;
    var m := Newest(r, n);
    assert r[|before|] == e;
    if |since| < n {
      assert m[|before| - (|r| - |m|)].0 == e.0;
    } else {
      forall i | 0 <= i < |m|
        ensures m[i].0 != e.0
      {
        assert m[i] == r[|r| - |m| + i];
      }
    }
  }

  /** A key is among the newest n exactly when fewer than n other keys were used since its last use. */
  lemma AmongNewest<V>(uses: seq<(Key, V)>, k: Key, n: nat)
    requires k in Keys(uses)
    ensures k in Keys(Newest(Recency(uses), n)) <==> |KeysSince(uses, k)| < n
  {
    hide OncePerKey, Keys, Recency, Newest;
    var before, v, since := PlaceInRecency(uses, k);
    RecencyOnce(uses);
    SplitOnce(before + [(k, v)], since);
    CountKeys(since);
    PlaceOfNewest(before, (k, v), since, n);
  }

  lemma NewestKeys<V>(es: Entries<V>, n: nat)
    ensures Keys(Newest(es, n)) <= Keys(es)
  {
    var m := Newest(es, n);
    forall k | k in Keys(m)
      ensures k in Keys(es)
    {
      var i :| 0 <= i < |m| && m[i].0 == k;
      assert m[i] == es[|es| - |m| + i];
    }
  }

  /** A session that was used is held exactly when fewer than the cap's number of others were used since. */
  lemma HeldIffRecent<V>(run: seq<Call<V>>, k: Key)
    requires forall c :: c in run ==> !c.Delete?
    ensures k in Keys(After(run)) <==> k in Keys(Uses(run)) && |KeysSince(Uses(run), k)| < MAX_TRACKED_SESSIONS
  {
    MapIsNewestOfRecency(run);
    if k in Keys(Uses(run)) {
      AmongNewest(Uses(run), k, MAX_TRACKED_SESSIONS);
    } else {
      RecencyOnce(Uses(run));
      NewestKeys(Recency(Uses(run)), MAX_TRACKED_SESSIONS);
    }
  }

  /** What was last stored under k, if anything was. */
  function LastStored<V>(run: seq<Call<V>>, k: Key): Option<V> {
    if run == [] then None
    else
      var c := run[|run| - 1];
      if c.Put? && c.key == k then Some(c.value) else LastStored(run[..|run| - 1], k)
  }

  lemma {:induction false} FindAppend<V>(es: Entries<V>, e: (Key, V), k: Key)
    ensures Find(es + [e], k) == if Find(es, k).Some? then Find(es, k) else if e.0 == k then Some(e.1) else None
  {
    if es == [] {
      assert [e][1..] == [];
    } else {
      assert (es + [e])[1..] == es[1..] + [e];
      FindAppend(es[1..], e, k);
    }
  }

  lemma {:induction false} FindWithout<V>(es: Entries<V>, gone: Key, k: Key)
    requires gone != k
    ensures Find(Without(es, gone), k) == Find(es, k)
  {
    if es != [] {
      var init, e := es[..|es| - 1], es[|es| - 1];
      assert es == init + [e];
      FindWithout(init, gone, k);
      FindAppend(init, e, k);
      FindAppend(Without(init, gone), e, k);
      assert Without(init, gone) + [] == Without(init, gone);
    }
  }

  lemma FindInRest<V>(e: (Key, V), rest: Entries<V>, k: Key)
    requires OncePerKey([e] + rest) && k in Keys(rest)
    ensures Find([e] + rest, k) == Find(rest, k)
  {
    KeysApart([e], rest, k);
    assert e.0 in Keys([e]) by {
      assert [e][0].0 == e.0;
    }
    assert ([e] + rest)[1..] == rest;
  }

  lemma NewestOfRest<V>(es: Entries<V>, n: nat)
    requires n < |es|
    ensures Newest(es, n) == Newest(es[1..], n)
  {
  }

  lemma {:induction false} FindNewest<V>(es: Entries<V>, n: nat, k: Key)
    requires OncePerKey(es) && Find(Newest(es, n), k).Some?
    ensures Find(Newest(es, n), k) == Find(es, k)
  {
    hide OncePerKey, Find, Keys;
    if |es| > n {
      var e, rest := es[0], es[1..];
      assert es == [e] + rest;
      NewestOfRest(es, n);
      SplitOnce([e], rest);
      FindNewest(rest, n, k);
      FindInRest(e, rest, k);
    }
  }

  lemma {:induction false} WithoutEntries<V(!new)>(es: Entries<V>, k: Key)
    ensures forall e :: e in Without(es, k) ==> e in es
  {
    if es != [] {
      WithoutEntries(es[..|es| - 1], k);
    }
  }

  /** Storing a session keeps what it keeps of the others, and brings in nothing else. */
  lemma StoredHolds<V(!new)>(es: Entries<V>, k: Key, v: V)
    requires OncePerKey(es)
    ensures OncePerKey(Stored(es, k, v)) && Find(Stored(es, k, v), k) == Some(v)
    ensures forall e :: e in Stored(es, k, v) ==> e == (k, v) || e in es
  {
    var all := Without(es, k) + [(k, v)];
    UsedOnce(es, (k, v));
    StepKeepsOnce(es, Put(k, v));
    WithoutEntries(es, k);
    assert Stored(es, k, v)[|Stored(es, k, v)| - 1] == (k, v);
    assert k in Keys(Stored(es, k, v));
    FindNewest(all, MAX_TRACKED_SESSIONS, k);
    WithoutIs(es, k);
    FindAppend(Without(es, k), (k, v), k);
  }

  lemma StoredOther<V>(es: Entries<V>, k: Key, v: V, other: Key)
    requires OncePerKey(es) && other != k && other in Keys(Stored(es, k, v))
    ensures Find(Stored(es, k, v), other) == Find(es, other)
  {
    UsedOnce(es, (k, v));
    FindNewest(Without(es, k) + [(k, v)], MAX_TRACKED_SESSIONS, other);
    FindAppend(Without(es, k), (k, v), other);
    FindWithout(es, k, other);
  }

  lemma WithoutSnoc<V>(es: Entries<V>, e: (Key, V))
    ensures Without(es + [e], e.0) == Without(es, e.0)
  {
    assert (es + [e])[..|es|] == es;
  }

  /** `touch` and then `put`, as every learn does, is `put`. */
  lemma TouchedThenStored<V>(es: Entries<V>, k: Key, v: V)
    requires OncePerKey(es)
    ensures Stored(Touched(es, k), k, v) == Stored(es, k, v)
  {
    WithoutIs(es, k);
    WithoutAbsent(Without(es, k), k);
    if Find(es, k).Some? {
      WithoutSnoc(Without(es, k), (k, Find(es, k).value));
    }
  }

  /** A session that is held is held with the value last stored under it. */
  lemma {:induction false} HeldAsLastStored<V>(run: seq<Call<V>>, k: Key)
    requires k in Keys(After(run))
    ensures Find(After(run), k) == LastStored(run, k)
  {
    var init, c := run[..|run| - 1], run[|run| - 1];
    var es := After(init);
    NeverOverTheCap(init);
    WithoutIs(es, c.key);
    if c.key != k {
      FindWithout(es, c.key, k);
    }
    match c
    case Touch(t) =>
      if Find(es, t).Some? {
        FindAppend(Without(es, t), (t, Find(es, t).value), k);
      }
      HeldAsLastStored(init, k);
    case Put(t, v) =>
      UsedOnce(es, (t, v));
      FindNewest(Without(es, t) + [(t, v)], MAX_TRACKED_SESSIONS, k);
      FindAppend(Without(es, t), (t, v), k);
      if t != k {
        HeldAsLastStored(init, k);
      }
    case Delete(_) =>
      HeldAsLastStored(init, k);
  }

  lemma OneFewer<V>(es: Entries<V>, gone: nat)
    requires gone < |es|
    ensures es[gone..][1..] == es[gone + 1..] && (OncePerKey(es[gone..]) ==> OncePerKey(es[gone + 1..]))
  {
    assert es[gone..] == [es[gone]] + es[gone + 1..];
    if OncePerKey(es[gone..]) {
      SplitOnce([es[gone]], es[gone + 1..]);
    }
  }

  // ----- the code

  class LruMap<V> {
    var entries: Entries<V>

    ghost predicate Valid()
      reads this
    {
      OncePerKey(entries)
    }

    constructor ()
      ensures entries == []
    {
      entries := [];
    }

    /** `Map.get` that marks the key most recently used. */
    method Touch(k: Key) returns (v: Option<V>)
      modifies this
      ensures entries == Touched(old(entries), k) && v == Find(old(entries), k)
    {
      v := Find(entries, k);
      if v.Some? {
        entries := Without(entries, k);
        entries := entries + [(k, v.value)];
      }
    }

    /** `Map.set` that marks most recently used and evicts the least recent over the cap. */
    method Put(k: Key, v: V)
      requires Valid()
      modifies this
      ensures Valid() && entries == Stored(old(entries), k, v)
    {
      hide OncePerKey, Without, Keys;
      UsedOnce(entries, (k, v));
      entries := Without(entries, k);
      entries := entries + [(k, v)];
      ghost var all, gone: nat := entries, 0;
      while |entries| > MAX_TRACKED_SESSIONS
        invariant Valid() && gone <= |all| && entries == all[gone..]
        invariant |entries| >= MAX_TRACKED_SESSIONS || gone == 0
      {
        var oldest := entries[0].0;
        WithoutOldest(entries);
        OneFewer(all, gone);
        entries := Without(entries, oldest);
        gone := gone + 1;
      }
      assert all[0..] == all;
    }

    method Delete(k: Key)
      requires Valid()
      modifies this
      ensures Valid() && entries == Without(old(entries), k)
    {
      WithoutIs(entries, k);
      entries := Without(entries, k);
    }
  }
}
