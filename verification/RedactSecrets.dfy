/**
 Redaction of everything printed as JSON: a walk over a graph of objects that may share and may be cyclic,
 which keeps only the chain of objects it is inside of.
 */
module RedactSecrets {
  import opened Wrappers

  type Ref = nat

  /** A number, a boolean, null or the like stands as the text it prints as. */
  datatype Value = Text(text: string) | Atom(text: string) | Obj(ref: Ref)

  /** An array, an object by its entries, or one that defines its own JSON form. */
  datatype Object = Array(items: seq<Value>) | Record(entries: seq<(string, Value)>) | OwnJson(form: string)

  type Heap = map<Ref, Object>

  const SECRET_KEYS: set<string> := {
    "token", "api_key", "apikey", "password", "secret", "authorization", "refresh_token", "access_token",
    "client_secret", "private_key", "bearer", "jwt", "auth", "cookie", "credential", "credentials"
  }

  /** Lower-casing of keys, and the masking of credentials inside a text. */
  datatype Rules = Rules(lower: string -> string, mask: string -> string)
  {
    predicate Secret(key: string) {
      lower(key) in SECRET_KEYS
    }
  }

  predicate Known(h: Heap, v: Value) {
    v.Obj? ==> v.ref in h
  }

  predicate Closed(h: Heap) {
    && (forall r, i :: r in h && h[r].Array? && 0 <= i < |h[r].items| ==> Known(h, h[r].items[i]))
    && (forall r, i :: r in h && h[r].Record? && 0 <= i < |h[r].entries| ==> Known(h, h[r].entries[i].1))
  }

  /** What is printed; the two markers are the texts `[REDACTED]` and `[Circular]`. */
  datatype Json = Str(text: string) | Lit(text: string) | Own(form: string) | Redacted | Circular
    | Arr(items: seq<Json>) | Rec(entries: seq<(string, Json)>)

  // ----- the result

  function RedactItems(rules: Rules, h: Heap, items: seq<Value>, path: set<Ref>): (out: seq<Json>)
    requires Closed(h) && forall i :: 0 <= i < |items| ==> Known(h, items[i])
    ensures |out| == |items|
    ensures forall i :: 0 <= i < |items| ==> out[i] == Redact(rules, h, items[i], path)
    decreases h.Keys - path, 3, |items|
  {
    if items == [] then []
      else RedactItems(rules, h, items[..|items| - 1], path) + [Redact(rules, h, items[|items| - 1], path)]
  }

  function RedactEntry(rules: Rules, h: Heap, e: (string, Value), path: set<Ref>): (string, Json)
    requires Closed(h) && Known(h, e.1)
    decreases h.Keys - path, 2, 1
  {
    (e.0, if rules.Secret(e.0) then Redacted else Redact(rules, h, e.1, path))
  }

  function RedactEntries(rules: Rules, h: Heap, entries: seq<(string, Value)>,
                         path: set<Ref>): (out: seq<(string, Json)>)
    requires Closed(h) && forall i :: 0 <= i < |entries| ==> Known(h, entries[i].1)
    ensures |out| == |entries|
    ensures forall i :: 0 <= i < |entries| ==> out[i] == RedactEntry(rules, h, entries[i], path)
    decreases h.Keys - path, 3, |entries|
  {
    if entries == [] then []
    else RedactEntries(rules, h, entries[..|entries| - 1], path) + [RedactEntry(rules, h, entries[|entries| - 1], path)]
  }

  function Redact(rules: Rules, h: Heap, v: Value, path: set<Ref>): Json
    requires Closed(h) && Known(h, v)
    decreases h.Keys - path, 2, 0
  {
    match v
    case Text(s) => Str(rules.mask(s))
    case Atom(s) => Lit(s)
    case Obj(r) =>
      if r in path then Circular
      else
        assert r in h.Keys - path;
        match h[r]
        case OwnJson(form) => Own(form)
        case Array(items) => Arr(RedactItems(rules, h, items, path + {r}))
        case Record(entries) => Rec(RedactEntries(rules, h, entries, path + {r}))
  }

  // ----- the code

  class Path {
    var objects: set<Ref>

    constructor ()
      ensures objects == {}
    {
      objects := {};
    }
  }

  /** `redactSecrets`: it leaves the path as it found it. */
  method RedactSecrets(rules: Rules, h: Heap, v: Value, path: Path) returns (out: Json)
    requires Closed(h) && Known(h, v)
    modifies path
    ensures path.objects == old(path.objects)
    ensures out == Redact(rules, h, v, old(path.objects))
    decreases h.Keys - path.objects
  {
    match v {
      case Text(s) =>
        return Str(rules.mask(s));
      case Atom(s) =>
        return Lit(s);
      case Obj(r) =>
        if r in path.objects {
          return Circular;
        }
        if h[r].OwnJson? {
          return Own(h[r].form);
        }
        assert r in h.Keys - path.objects;
        ghost var before := path.objects;
        path.objects := path.objects + {r};
        if h[r].Array? {
          var items: seq<Json> := [];
          var values := h[r].items;
          for i := 0 to |values|
            invariant path.objects == before + {r}
            invariant |items| == i && forall j :: 0 <= j < i ==> items[j] == Redact(rules, h, values[j], before + {r})
          {
            var item := RedactSecrets(rules, h, values[i], path);
            items := items + [item];
          }
          assert items == RedactItems(rules, h, values, before + {r});
          out := Arr(items);
        } else {
          var entries: seq<(string, Json)> := [];
          var values := h[r].entries;
          for i := 0 to |values|
            invariant path.objects == before + {r}
            invariant |entries| == i && forall j :: 0 <= j < i ==>
              entries[j] == RedactEntry(rules, h, values[j], before + {r})
          {
            var (k, value) := values[i];
            if rules.lower(k) in SECRET_KEYS {
              entries := entries + [(k, Redacted)];
            } else {
              var item := RedactSecrets(rules, h, value, path);
              entries := entries + [(k, item)];
            }
          }
          assert entries == RedactEntries(rules, h, values, before + {r});
          out := Rec(entries);
        }
        path.objects := path.objects - {r};
    }
  }

  // ----- no secret is printed

  /**
   Nothing but the marker under a secret key, and no text that was not masked, outside objects with their own
   form.
   */
  ghost predicate Clean(rules: Rules, out: Json) {
    match out
    case Str(s) => exists t :: s == rules.mask(t)
    case Arr(items) => forall i :: 0 <= i < |items| ==> Clean(rules, items[i])
    case Rec(entries) =>
      forall i :: 0 <= i < |entries| ==>
        Clean(rules, entries[i].1) && (rules.Secret(entries[i].0) ==> entries[i].1 == Redacted)
    case _ => true
  }

  /** Whatever the graph, cyclic or shared, what is printed is clean. */
  lemma {:induction false} RedactIsClean(rules: Rules, h: Heap, v: Value, path: set<Ref>)
    requires Closed(h) && Known(h, v)
    ensures Clean(rules, Redact(rules, h, v, path))
    decreases h.Keys - path
  {
    if v.Obj? && v.ref !in path {
      assert v.ref in h.Keys - path;
      match h[v.ref]
      case Array(items) =>
        forall i | 0 <= i < |items|
          ensures Clean(rules, Redact(rules, h, items[i], path + {v.ref}))
        {
          RedactIsClean(rules, h, items[i], path + {v.ref});
        }
      case Record(entries) =>
        forall i | 0 <= i < |entries|
          ensures Clean(rules, RedactEntry(rules, h, entries[i], path + {v.ref}).1)
        {
          RedactIsClean(rules, h, entries[i].1, path + {v.ref});
        }
      case OwnJson(_) =>
    }
  }

  // ----- when a walk comes back

  /** What the walk goes into from an object: everything but what stands under secret keys. */
  function Inside(rules: Rules, o: Object): set<Value> {
    match o
    case Array(items) => set i | 0 <= i < |items| :: items[i]
    case Record(entries) => set i | 0 <= i < |entries| && !rules.Secret(entries[i].0) :: entries[i].1
    case OwnJson(_) => {}
  }

  /** A walk from object to object. */
  ghost predicate Walk(rules: Rules, h: Heap, w: seq<Ref>) {
    && w != [] && (forall i :: 0 <= i < |w| ==> w[i] in h)
    && forall i :: 0 <= i < |w| - 1 ==> Obj(w[i + 1]) in Inside(rules, h[w[i]])
  }

  /** A walk from r that ends at an object it has been in, or in one of these. */
  ghost predicate ComesBack(rules: Rules, h: Heap, r: Ref, path: set<Ref>, w: seq<Ref>) {
    && Walk(rules, h, w) && w[0] == r && (w[|w| - 1] in path || w[|w| - 1] in w[..|w| - 1])
  }

  /** The marker stands somewhere in what is printed. */
  predicate HasCircular(out: Json) {
    match out
    case Circular => true
    case Arr(items) => exists i :: 0 <= i < |items| && HasCircular(items[i])
    case Rec(entries) => exists i :: 0 <= i < |entries| && HasCircular(entries[i].1)
    case _ => false
  }

  lemma InsideKnown(rules: Rules, h: Heap, r: Ref)
    requires Closed(h) && r in h
    ensures forall v :: v in Inside(rules, h[r]) ==> Known(h, v)
  {
  }

  lemma CircularInArray(rules: Rules, h: Heap, r: Ref, path: set<Ref>)
    requires Closed(h) && r in h && r !in path && h[r].Array?
    ensures HasCircular(Redact(rules, h, Obj(r), path)) <==>
      exists v :: v in Inside(rules, h[r]) && Known(h, v) && HasCircular(Redact(rules, h, v, path + {r}))
  {
    InsideKnown(rules, h, r);
    var items, inner := h[r].items, path + {r};
    var out := RedactItems(rules, h, items, inner);
    assert Redact(rules, h, Obj(r), path) == Arr(out);
    if i :| 0 <= i < |out| && HasCircular(out[i]) {
      assert items[i] in Inside(rules, h[r]);
    }
    if v :| v in Inside(rules, h[r]) && HasCircular(Redact(rules, h, v, inner)) {
      var i :| 0 <= i < |items| && items[i] == v;
      assert HasCircular(out[i]);
    }
  }

  lemma CircularInRecord(rules: Rules, h: Heap, r: Ref, path: set<Ref>)
    requires Closed(h) && r in h && r !in path && h[r].Record?
    ensures HasCircular(Redact(rules, h, Obj(r), path)) <==>
      exists v :: v in Inside(rules, h[r]) && Known(h, v) && HasCircular(Redact(rules, h, v, path + {r}))
  {
    InsideKnown(rules, h, r);
    var entries, inner := h[r].entries, path + {r};
    var out := RedactEntries(rules, h, entries, inner);
    assert Redact(rules, h, Obj(r), path) == Rec(out);
    if i :| 0 <= i < |out| && HasCircular(out[i].1) {
      assert out[i] == RedactEntry(rules, h, entries[i], inner);
      assert entries[i].1 in Inside(rules, h[r]);
    }
    if v :| v in Inside(rules, h[r]) && HasCircular(Redact(rules, h, v, inner)) {
      var i :| 0 <= i < |entries| && !rules.Secret(entries[i].0) && entries[i].1 == v;
      assert out[i] == RedactEntry(rules, h, entries[i], inner);
      assert HasCircular(out[i].1);
    }
  }

  /** The marker stands in what is printed of an object exactly when it stands in that of something inside it. */
  lemma CircularInside(rules: Rules, h: Heap, r: Ref, path: set<Ref>)
    requires Closed(h) && r in h && r !in path
    ensures HasCircular(Redact(rules, h, Obj(r), path)) <==>
      exists v :: v in Inside(rules, h[r]) && Known(h, v) && HasCircular(Redact(rules, h, v, path + {r}))
  {
    if h[r].Array? {
      CircularInArray(rules, h, r, path);
    } else if h[r].Record? {
      CircularInRecord(rules, h, r, path);
    }
  }

  lemma OnlyInObjects(rules: Rules, h: Heap, v: Value, path: set<Ref>)
    requires Closed(h) && Known(h, v) && HasCircular(Redact(rules, h, v, path))
    ensures v.Obj?
  {
  }

  lemma ComesBackFirst(rules: Rules, h: Heap, r: Ref, path: set<Ref>, w: seq<Ref>)
    requires w != [] && r in h && Obj(w[0]) in Inside(rules, h[r]) && ComesBack(rules, h, w[0], path + {r}, w)
    ensures ComesBack(rules, h, r, path, [r] + w)
  {
    var all := [r] + w;
    forall i | 0 <= i < |all| - 1
      ensures Obj(all[i + 1]) in Inside(rules, h[all[i]])
    {
      assert i > 0 ==> all[i] == w[i - 1] && all[i + 1] == w[i];
    }
    var last := all[|all| - 1];
    assert all[..|all| - 1] == [r] + w[..|w| - 1];
  }

  lemma ComesBackRest(rules: Rules, h: Heap, r: Ref, path: set<Ref>, w: seq<Ref>)
    requires ComesBack(rules, h, r, path, w) && r !in path
    ensures |w| > 1 && w[1] in h && Obj(w[1]) in Inside(rules, h[r]) && ComesBack(rules, h, w[1], path + {r}, w[1..])
  {
    var rest := w[1..];
    var init := w[..|w| - 1];
    assert |init| == |w| - 1;
    forall i | 0 <= i < |rest| - 1
      ensures Obj(rest[i + 1]) in Inside(rules, h[rest[i]])
    {
      assert rest[i] == w[i + 1] && rest[i + 1] == w[i + 2];
    }
    assert w[..|w| - 1] == [r] + rest[..|rest| - 1];
  }

  /** The marker is printed exactly when some walk comes back to an object it is inside of. */
  lemma {:induction false} CircularIffComesBack(rules: Rules, h: Heap, r: Ref, path: set<Ref>)
    requires Closed(h) && r in h
    ensures HasCircular(Redact(rules, h, Obj(r), path)) <==> exists w :: ComesBack(rules, h, r, path, w)
    decreases h.Keys - path
  {
    hide Inside, Closed;
    if r in path {
      assert ComesBack(rules, h, r, path, [r]);
    } else {
      assert r in h.Keys - path;
      CircularInside(rules, h, r, path);
      InsideKnown(rules, h, r);
      forall b | Obj(b) in Inside(rules, h[r])
        ensures HasCircular(Redact(rules, h, Obj(b), path + {r})) <==> exists w :: ComesBack(rules, h, b, path + {r}, w)
      {
        CircularIffComesBack(rules, h, b, path + {r});
      }
      if v :| v in Inside(rules, h[r]) && Known(h, v) && HasCircular(Redact(rules, h, v, path + {r})) {
        OnlyInObjects(rules, h, v, path + {r});
        var w :| ComesBack(rules, h, v.ref, path + {r}, w);
        ComesBackFirst(rules, h, r, path, w);
      }
      if w :| ComesBack(rules, h, r, path, w) {
        ComesBackRest(rules, h, r, path, w);
        assert HasCircular(Redact(rules, h, Obj(w[1]), path + {r}));
      }
    }
  }

  // ----- what is printed, place by place

  /** next is the n-th thing inside the object v, and not under a secret key. */
  predicate Enters(rules: Rules, h: Heap, v: Value, n: nat, next: Value) {
    && v.Obj? && v.ref in h
    && match h[v.ref]
      case Array(items) => n < |items| && next == items[n]
      case Record(entries) => n < |entries| && rules.lower(entries[n].0) !in SECRET_KEYS && next == entries[n].1
      case OwnJson(_) => false
  }

  /** A way into the graph, entering at[i] of vs[i], through objects that are new to it and not on the path. */
  ghost predicate Way(rules: Rules, h: Heap, path: set<Ref>, vs: seq<Value>, at: seq<nat>) {
    && |vs| == |at| + 1
    && (forall i :: 0 <= i < |at| ==> Enters(rules, h, vs[i], at[i], vs[i + 1]))
    && forall i :: 0 <= i < |at| ==> vs[i].Obj? && vs[i].ref !in path && vs[i] !in vs[..i]
  }

  /** What stands at that place of a printed text. */
  function PrintedAt(out: Json, at: seq<nat>): Option<Json> {
    if at == [] then Some(out)
    else if out.Arr? && at[0] < |out.items| then PrintedAt(out.items[at[0]], at[1..])
    else if out.Rec? && at[0] < |out.entries| then PrintedAt(out.entries[at[0]].1, at[1..])
    else None
  }

  lemma WayRest(rules: Rules, h: Heap, path: set<Ref>, vs: seq<Value>, at: seq<nat>)
    requires at != [] && Way(rules, h, path, vs, at)
    ensures Enters(rules, h, vs[0], at[0], vs[1]) && vs[0].ref !in path
    ensures Way(rules, h, path + {vs[0].ref}, vs[1..], at[1..])
  {
    var vs', at' := vs[1..], at[1..];
    assert vs[0].ref !in path && Enters(rules, h, vs[0], at[0], vs[1]);
    forall i | 0 <= i < |at'|
      ensures Enters(rules, h, vs'[i], at'[i], vs'[i + 1])
      ensures vs'[i].Obj? && vs'[i].ref !in path + {vs[0].ref} && vs'[i] !in vs'[..i]
    {
      assert vs'[i] == vs[i + 1] && at'[i] == at[i + 1] && vs'[i + 1] == vs[i + 2];
      assert vs[..i + 1] == [vs[0]] + vs'[..i];
    }
  }

  lemma EntersPrinted(rules: Rules, h: Heap, path: set<Ref>, v: Value, at: seq<nat>, next: Value)
    requires Closed(h) && at != [] && Enters(rules, h, v, at[0], next) && v.ref !in path
    ensures Known(h, next)
    ensures PrintedAt(Redact(rules, h, v, path), at) == PrintedAt(Redact(rules, h, next, path + {v.ref}), at[1..])
  {
    assert v.ref in h.Keys - path;
    if h[v.ref].Record? {
      var out := Redact(rules, h, v, path).entries[at[0]];
      assert out == RedactEntry(rules, h, h[v.ref].entries[at[0]], path + {v.ref});
    }
  }

  /**
   At every place a way leads to, cyclic graph or not: a text is printed masked, an atom as it is, an object the
   way has been in as the marker for a circle, and any other as an array of as many items or a record of the same
   keys, with the other marker under the secret ones.
   */
  lemma {:induction false} PrintedPlaceByPlace(rules: Rules, h: Heap, path: set<Ref>, vs: seq<Value>, at: seq<nat>)
    requires Closed(h) && Way(rules, h, path, vs, at) && Known(h, vs[0])
    ensures var place, v := PrintedAt(Redact(rules, h, vs[0], path), at), vs[|at|];
      place.Some? && Known(h, v) && match v
      case Text(s) => place.value == Str(rules.mask(s))
      case Atom(s) => place.value == Lit(s)
      case Obj(r) =>
        if r in path || v in vs[..|at|] then place.value == Circular
        else
          match h[r]
          case OwnJson(form) => place.value == Own(form)
          case Array(items) => place.value.Arr? && |place.value.items| == |items|
          case Record(entries) =>
            && place.value.Rec? && |place.value.entries| == |entries|
            && (forall i :: 0 <= i < |entries| ==> place.value.entries[i].0 == entries[i].0)
            && forall i :: 0 <= i < |entries| && rules.lower(entries[i].0) in SECRET_KEYS ==>
              place.value.entries[i].1 == Redacted
    decreases |at|
  {
    if at != [] {
      WayRest(rules, h, path, vs, at);
      EntersPrinted(rules, h, path, vs[0], at, vs[1]);
      PrintedPlaceByPlace(rules, h, path + {vs[0].ref}, vs[1..], at[1..]);
      assert vs[..|at|] == [vs[0]] + vs[1..][..|at| - 1];
    }
  }

  lemma WayFirst(rules: Rules, h: Heap, path: set<Ref>, v: Value, n: nat, vs: seq<Value>, at: seq<nat>)
    requires vs != [] && Enters(rules, h, v, n, vs[0]) && v.ref !in path && Way(rules, h, path + {v.ref}, vs, at)
    ensures Way(rules, h, path, [v] + vs, [n] + at)
  {
    var vs', at' := [v] + vs, [n] + at;
    forall i | 0 <= i < |at'|
      ensures Enters(rules, h, vs'[i], at'[i], vs'[i + 1])
      ensures vs'[i].Obj? && vs'[i].ref !in path && vs'[i] !in vs'[..i]
    {
      if i > 0 {
        assert vs'[i] == vs[i - 1] && at'[i] == at[i - 1] && vs'[i + 1] == vs[i];
        assert vs'[..i] == [v] + vs[..i - 1];
      }
    }
  }

  /** n is the place of a secret key in the object v. */
  predicate UnderSecret(rules: Rules, h: Heap, v: Value, n: nat) {
    && v.Obj? && v.ref in h && h[v.ref].Record? && n < |h[v.ref].entries|
    && rules.lower(h[v.ref].entries[n].0) in SECRET_KEYS
  }

  /** Nothing else is printed: to every place leads a way, or to the object whose secret key it stands under. */
  lemma {:induction false} EveryPlaceIsReached(rules: Rules, h: Heap, path: set<Ref>, v: Value, at: seq<nat>)
      returns (vs: seq<Value>)
    requires Closed(h) && Known(h, v) && PrintedAt(Redact(rules, h, v, path), at).Some?
    ensures vs != [] && vs[0] == v
    ensures Way(rules, h, path, vs, at) ||
      (at != [] && Way(rules, h, path, vs, at[..|at| - 1]) && UnderSecret(rules, h, vs[|at| - 1], at[|at| - 1]))
    decreases |at|
  {
    vs := [v];
    if at != [] {
      var o := h[v.ref];
      var inner, rest := path + {v.ref}, at[1..];
      assert at == [at[0]] + rest;
      if UnderSecret(rules, h, v, at[0]) {
        assert Redact(rules, h, v, path).entries[at[0]] == RedactEntry(rules, h, o.entries[at[0]], inner);
        assert rest == [] && at[..|at| - 1] == [];
      } else {
        var next := if o.Array? then o.items[at[0]] else o.entries[at[0]].1;
        EntersPrinted(rules, h, path, v, at, next);
        var more := EveryPlaceIsReached(rules, h, inner, next, rest);
        vs := [v] + more;
        if Way(rules, h, inner, more, rest) {
          WayFirst(rules, h, path, v, at[0], more, rest);
        } else {
          WayFirst(rules, h, path, v, at[0], more, rest[..|rest| - 1]);
          assert at[..|at| - 1] == [at[0]] + rest[..|rest| - 1];
        }
      }
    }
  }

  // ----- graphs that only share

  /** Every object lies inside objects of higher rank only. */
  ghost predicate Acyclic(h: Heap, rank: Ref -> nat) {
    && (forall r, i :: r in h && h[r].Array? && 0 <= i < |h[r].items| && h[r].items[i].Obj? ==>
       rank(h[r].items[i].ref) < rank(r))
    && (forall r, i :: r in h && h[r].Record? && 0 <= i < |h[r].entries| && h[r].entries[i].1.Obj? ==>
          rank(h[r].entries[i].1.ref) < rank(r))
  }

  datatype Tree = TextLeaf(text: string) | AtomLeaf(text: string) | OwnLeaf(form: string) | ArrayNode(items: seq<Tree>)
    | RecordNode(entries: seq<(string, Tree)>)

  function RankOf(rank: Ref -> nat, v: Value): nat {
    if v.Obj? then rank(v.ref) + 1 else 0
  }

  /** The tree a value unfolds to, shared objects once for every place they stand in. */
  ghost function Unfold(h: Heap, rank: Ref -> nat, v: Value): Tree
    requires Closed(h) && Acyclic(h, rank) && Known(h, v)
    decreases RankOf(rank, v)
  {
    match v
    case Text(s) => TextLeaf(s)
    case Atom(s) => AtomLeaf(s)
    case Obj(r) =>
      match h[r]
      case OwnJson(form) => OwnLeaf(form)
      case Array(items) => ArrayNode(seq(|items|, i requires 0 <= i < |items| => Unfold(h, rank, items[i])))
      case Record(entries) =>
        RecordNode(seq(|entries|, i requires 0 <= i < |entries| => (entries[i].0, Unfold(h, rank, entries[i].1))))
  }

  /** Redacting a tree: no path, and no marker for a circle. */
  function RedactTree(rules: Rules, t: Tree): Json {
    match t
    case TextLeaf(s) => Str(rules.mask(s))
    case AtomLeaf(s) => Lit(s)
    case OwnLeaf(form) => Own(form)
    case ArrayNode(items) => Arr(seq(|items|, i requires 0 <= i < |items| => RedactTree(rules, items[i])))
    case RecordNode(entries) =>
      Rec(seq(|entries|, i requires 0 <= i < |entries| =>
        (entries[i].0, if rules.Secret(entries[i].0) then Redacted else RedactTree(rules, entries[i].1))))
  }

  lemma SameItems(rules: Rules, h: Heap, rank: Ref -> nat, r: Ref, path: set<Ref>)
    requires Closed(h) && Acyclic(h, rank) && r in h && h[r].Array? && r !in path
    requires forall i :: 0 <= i < |h[r].items| ==>
      Redact(rules, h, h[r].items[i], path + {r}) == RedactTree(rules, Unfold(h, rank, h[r].items[i]))
    ensures Redact(rules, h, Obj(r), path) == RedactTree(rules, Unfold(h, rank, Obj(r)))
  {
    assert Redact(rules, h, Obj(r), path).items == RedactTree(rules, Unfold(h, rank, Obj(r))).items;
  }

  lemma SameEntries(rules: Rules, h: Heap, rank: Ref -> nat, r: Ref, path: set<Ref>)
    requires Closed(h) && Acyclic(h, rank) && r in h && h[r].Record? && r !in path
    requires forall i :: 0 <= i < |h[r].entries| ==>
      Redact(rules, h, h[r].entries[i].1, path + {r}) == RedactTree(rules, Unfold(h, rank, h[r].entries[i].1))
    ensures Redact(rules, h, Obj(r), path) == RedactTree(rules, Unfold(h, rank, Obj(r)))
  {
    assert Redact(rules, h, Obj(r), path).entries == RedactTree(rules, Unfold(h, rank, Obj(r))).entries;
  }

  /** On a graph without cycles, sharing does not show: what is printed is the redacted tree. */
  lemma {:induction false} SharingDoesNotShow(rules: Rules, h: Heap, rank: Ref -> nat, v: Value, path: set<Ref>)
    requires Closed(h) && Acyclic(h, rank) && Known(h, v)
    requires forall p :: p in path ==> rank(p) + 1 > RankOf(rank, v)
    ensures Redact(rules, h, v, path) == RedactTree(rules, Unfold(h, rank, v))
    decreases RankOf(rank, v)
  {
    if v.Obj? {
      var inner := path + {v.ref};
      match h[v.ref]
      case OwnJson(_) =>
      case Array(items) =>
        forall i | 0 <= i < |items|
          ensures Redact(rules, h, items[i], inner) == RedactTree(rules, Unfold(h, rank, items[i]))
        {
          SharingDoesNotShow(rules, h, rank, items[i], inner);
        }
        SameItems(rules, h, rank, v.ref, path);
      case Record(entries) =>
        forall i | 0 <= i < |entries|
          ensures Redact(rules, h, entries[i].1, inner) == RedactTree(rules, Unfold(h, rank, entries[i].1))
        {
          SharingDoesNotShow(rules, h, rank, entries[i].1, inner);
        }
        SameEntries(rules, h, rank, v.ref, path);
    }
  }
}
