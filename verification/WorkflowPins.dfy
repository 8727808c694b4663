/**
 The check that every action a workflow runs is pinned: a worklist over workflow files, action files and the
 local files they refer to, each parsed once.
 */
module WorkflowPins {
  import opened Wrappers

  // ----- documents

  datatype Yaml = Text(text: string) | Plain | List(items: seq<Yaml>) | Mapping(pairs: seq<(string, Yaml)>)

  function Lookup(pairs: seq<(string, Yaml)>, key: string): Option<Yaml> {
    if pairs == [] then None else if pairs[0].0 == key then Some(pairs[0].1) else Lookup(pairs[1..], key)
  }

  /** `get` on a mapping; nothing on the rest, which the code passes over. */
  function Get(y: Yaml, key: string): Option<Yaml> {
    if y.Mapping? then Lookup(y.pairs, key) else None
  }

  function AsList(o: Option<Yaml>): seq<Yaml> {
    match o
    case Some(List(items)) => items
    case _ => []
  }

  function Uses(y: Yaml): seq<Yaml> {
    match Get(y, "uses")
    case Some(value) => [value]
    case None => []
  }

  /** `_steps`: what the steps use, in order. */
  function StepUses(steps: seq<Yaml>): seq<Yaml> {
    if steps == [] then [] else Uses(steps[0]) + StepUses(steps[1..])
  }

  function JobUses(jobs: seq<(string, Yaml)>): seq<Yaml> {
    if jobs == [] then []
    else
      Uses(jobs[0].1) + StepUses(AsList(Get(jobs[0].1, "steps"))) + JobUses(jobs[1..])
  }

  datatype Kind = Workflow | Action

  /** `_positions`: every executable `uses` of a document of that kind. */
  function Positions(y: Yaml, kind: Kind): seq<Yaml> {
    match kind
    case Workflow =>
      (match Get(y, "jobs")
       case Some(Mapping(jobs)) => JobUses(jobs)
       case _ => [])
    case Action =>
      match Get(y, "runs")
      case Some(runs) => StepUses(AsList(Get(runs, "steps")))
      case None => []
  }

  // ----- what a document executes, said without an order

  /** v is what this job or step uses. */
  predicate IsUse(y: Yaml, v: Yaml) {
    Get(y, "uses") == Some(v)
  }

  predicate StepExecutes(steps: seq<Yaml>, v: Yaml) {
    exists i :: 0 <= i < |steps| && IsUse(steps[i], v)
  }

  predicate JobExecutes(job: Yaml, v: Yaml) {
    IsUse(job, v) || StepExecutes(AsList(Get(job, "steps")), v)
  }

  /** A workflow executes what its jobs and their steps use, an action what its steps do; nothing else is one. */
  ghost predicate Executes(y: Yaml, kind: Kind, v: Yaml) {
    match kind
    case Workflow =>
      var jobs := Get(y, "jobs");
      jobs.Some? && jobs.value.Mapping? &&
      exists i :: 0 <= i < |jobs.value.pairs| && JobExecutes(jobs.value.pairs[i].1, v)
    case Action =>
      var runs := Get(y, "runs");
      runs.Some? && StepExecutes(AsList(Get(runs.value, "steps")), v)
  }

  lemma UsesAre(y: Yaml, v: Yaml)
    ensures v in Uses(y) <==> IsUse(y, v)
  {
  }

  lemma {:induction false} StepUsesAre(steps: seq<Yaml>, v: Yaml)
    ensures v in StepUses(steps) <==> StepExecutes(steps, v)
  {
    if steps != [] {
      StepUsesAre(steps[1..], v);
      UsesAre(steps[0], v);
      assert forall i :: 0 < i < |steps| ==> steps[i] == steps[1..][i - 1];
      if i :| 0 <= i < |steps| && IsUse(steps[i], v) {
        assert i > 0 ==> IsUse(steps[1..][i - 1], v);
      }
      if i :| 0 <= i < |steps[1..]| && IsUse(steps[1..][i], v) {
        assert IsUse(steps[i + 1], v);
      }
    }
  }

  lemma {:induction false} JobUsesAre(jobs: seq<(string, Yaml)>, v: Yaml)
    ensures v in JobUses(jobs) <==> exists i :: 0 <= i < |jobs| && JobExecutes(jobs[i].1, v)
  {
    if jobs != [] {
      JobUsesAre(jobs[1..], v);
      UsesAre(jobs[0].1, v);
      StepUsesAre(AsList(Get(jobs[0].1, "steps")), v);
      if i :| 0 <= i < |jobs| && JobExecutes(jobs[i].1, v) {
        assert i > 0 ==> JobExecutes(jobs[1..][i - 1].1, v);
      }
      if i :| 0 <= i < |jobs[1..]| && JobExecutes(jobs[1..][i].1, v) {
        assert JobExecutes(jobs[i + 1].1, v);
      }
    }
  }

  /** The enumeration misses nothing a document executes and adds nothing to it. */
  lemma PositionsAreExecuted(y: Yaml, kind: Kind, v: Yaml)
    ensures v in Positions(y, kind) <==> Executes(y, kind, v)
  {
    match kind
    case Workflow =>
      var jobs := Get(y, "jobs");
      if jobs.Some? && jobs.value.Mapping? {
        JobUsesAre(jobs.value.pairs, v);
      }
    case Action =>
      var runs := Get(y, "runs");
      if runs.Some? {
        StepUsesAre(AsList(Get(runs.value, "steps")), v);
      }
  }

  // ----- the repository

  type Path = string

  datatype Item = Item(path: Path, kind: Kind)

  /**
   The files, what they parse to, where paths and local references lead (resolved against the root, or the
   reason they lead nowhere), and which references are pinned to a full commit hash.
   */
  datatype Repo = Repo(
    files: set<Path>, roots: seq<Item>, canonical: Path -> Path, load: Path -> Result<Yaml, string>,
    target: string -> Result<Item, string>, pinned: string -> bool)
  {
    /** Every path leads to one of the finitely many files. */
    ghost predicate Finite() {
      && (forall i :: 0 <= i < |roots| ==> canonical(roots[i].path) in files)
      && (forall r :: target(r).Success? ==> canonical(target(r).value.path) in files)
    }
  }

  datatype Problem =
    | Unparsable(reason: string)
    | NotAString
    | NoTarget(reference: string, reason: string)
    | Unpinned(reference: string)

  datatype Violation = Violation(path: Path, problem: Problem)

  predicate Local(reference: string) {
    "./" <= reference
  }

  /** What is wrong with one `uses`, if anything. */
  function Complaint(r: Repo, path: Path, value: Yaml): seq<Violation> {
    match value
    case Text(reference) =>
      if Local(reference) then
        match r.target(reference)
        case Failure(reason) => [Violation(path, NoTarget(reference, reason))]
        case Success(_) => []
      else if r.pinned(reference) then [] else [Violation(path, Unpinned(reference))]
    case _ => [Violation(path, NotAString)]
  }

  /** The file a `uses` leads on to, if it is a local one that leads somewhere. */
  function Onward(r: Repo, value: Yaml): seq<Item> {
    if value.Text? && Local(value.text) && r.target(value.text).Success? then [r.target(value.text).value] else []
  }

  function Complaints(r: Repo, path: Path, values: seq<Yaml>): seq<Violation> {
    if values == [] then [] else Complaints(r, path, values[..|values| - 1]) + Complaint(r, path, values[|values| - 1])
  }

  function Targets(r: Repo, values: seq<Yaml>): (ts: seq<Item>)
    ensures r.Finite() ==> forall t :: t in ts ==> r.canonical(t.path) in r.files
  {
    if values == [] then [] else Targets(r, values[..|values| - 1]) + Onward(r, values[|values| - 1])
  }

  function ValuesOf(r: Repo, item: Item): seq<Yaml> {
    match r.load(item.path)
    case Success(y) => Positions(y, item.kind)
    case Failure(_) => []
  }

  function FileComplaints(r: Repo, item: Item): seq<Violation> {
    match r.load(item.path)
    case Success(_) => Complaints(r, item.path, ValuesOf(r, item))
    case Failure(reason) => [Violation(item.path, Unparsable(reason))]
  }

  // ----- the worklist

  datatype Run = Run(violations: seq<Violation>, scanned: seq<Item>)

  ghost predicate Queued(r: Repo, queue: seq<Item>) {
    forall i :: 0 <= i < |queue| ==> r.canonical(queue[i].path) in r.files
  }

  function Canonical(r: Repo, item: Item): Item {
    Item(r.canonical(item.path), item.kind)
  }

  /** Take the first path off the queue; if it is new, scan it and queue what it leads on to. */
  ghost function Scan(r: Repo, queue: seq<Item>, seen: set<Path>): Run
    requires r.Finite() && Queued(r, queue)
    decreases r.files - seen, |queue|
  {
    if queue == [] then Run([], [])
    else
      var item := Canonical(r, queue[0]);
      if item.path in seen then Scan(r, queue[1..], seen)
      else
        assert item.path in r.files - seen;
        var rest := Scan(r, queue[1..] + Targets(r, ValuesOf(r, item)), seen + {item.path});
        Run(FileComplaints(r, item) + rest.violations, [item] + rest.scanned)
  }

  /** One file: what is wrong with it, and where it leads on to. */
  method ScanFile(r: Repo, item: Item) returns (wrong: seq<Violation>, onward: seq<Item>)
    ensures wrong == FileComplaints(r, item) && onward == Targets(r, ValuesOf(r, item))
  {
    wrong, onward := [], [];
    match r.load(item.path) {
      case Failure(reason) =>
        wrong := [Violation(item.path, Unparsable(reason))];
      case Success(y) =>
        var found := Positions(y, item.kind);
        for i := 0 to |found|
          invariant wrong == Complaints(r, item.path, found[..i]) && onward == Targets(r, found[..i])
        {
          assert found[..i + 1][..i] == found[..i];
          wrong := wrong + Complaint(r, item.path, found[i]);
          onward := onward + Onward(r, found[i]);
        }
        assert found[..|found|] == found;
    }
  }

  /** The run so far and the run to come make up the whole run. */
  ghost predicate Remains(r: Repo, out: seq<Violation>, scanned: seq<Item>, queue: seq<Item>, seen: set<Path>)
    requires r.Finite()
  {
    && Queued(r, queue) && Queued(r, r.roots)
    && var rest, whole := Scan(r, queue, seen), Scan(r, r.roots, {});
      whole.violations == out + rest.violations && whole.scanned == scanned + rest.scanned
  }

  lemma RemainsAtStart(r: Repo)
    requires r.Finite()
    ensures Remains(r, [], [], r.roots, {})
  {
  }

  lemma RemainsAtEnd(r: Repo, out: seq<Violation>, scanned: seq<Item>, seen: set<Path>)
    requires r.Finite() && Remains(r, out, scanned, [], seen)
    ensures Run(out, scanned) == Scan(r, r.roots, {})
  {
    assert out + [] == out && scanned + [] == scanned;
  }

  lemma RemainsAfterSeen(r: Repo, out: seq<Violation>, scanned: seq<Item>, queue: seq<Item>, seen: set<Path>)
    requires r.Finite() && queue != [] && Remains(r, out, scanned, queue, seen) && r.canonical(queue[0].path) in seen
    ensures Remains(r, out, scanned, queue[1..], seen)
  {
  }

  lemma RemainsAfterScan(r: Repo, out: seq<Violation>, scanned: seq<Item>, queue: seq<Item>, seen: set<Path>,
                         item: Item)
    requires r.Finite() && queue != [] && Remains(r, out, scanned, queue, seen)
    requires item == Canonical(r, queue[0]) && item.path !in seen
    ensures Remains(r, out + FileComplaints(r, item), scanned + [item], queue[1..] + Targets(r, ValuesOf(r, item)),
                    seen + {item.path})
  {
    hide FileComplaints, ValuesOf, Targets;
    var rest := Scan(r, queue[1..] + Targets(r, ValuesOf(r, item)), seen + {item.path});
    Assoc(out, FileComplaints(r, item), rest.violations);
    Assoc(scanned, [item], rest.scanned);
  }

  /** The whole check. */
  method Violations(r: Repo) returns (out: seq<Violation>, ghost scanned: seq<Item>)
    requires r.Finite()
    ensures Queued(r, r.roots) && out == Scan(r, r.roots, {}).violations && scanned == Scan(r, r.roots, {}).scanned
  {
    hide Scan, Remains, ValuesOf, FileComplaints;
    out, scanned := [], [];
    var queue, seen := r.roots, {};
    RemainsAtStart(r);
    while |queue| > 0
      invariant Queued(r, queue) && Remains(r, out, scanned, queue, seen)
      decreases r.files - seen, |queue|
    {
      var item := Canonical(r, queue[0]);
      if item.path in seen {
        RemainsAfterSeen(r, out, scanned, queue, seen);
        queue := queue[1..];
      } else {
        assert item.path in r.files - seen;
        RemainsAfterScan(r, out, scanned, queue, seen, item);
        var wrong, onward := ScanFile(r, item);
        seen := seen + {item.path};
        out, scanned, queue := out + wrong, scanned + [item], queue[1..] + onward;
      }
    }
    RemainsAtEnd(r, out, scanned, seen);
  }

  // ----- what it scans

  ghost predicate LeadsTo(r: Repo, a: Item, b: Item) {
    exists t :: t in Targets(r, ValuesOf(r, a)) && b == Canonical(r, t)
  }

  ghost predicate Walk(r: Repo, w: seq<Item>) {
    && w != [] && (exists i :: 0 <= i < |r.roots| && w[0] == Canonical(r, r.roots[i]))
    && forall i :: 0 <= i < |w| - 1 ==> LeadsTo(r, w[i], w[i + 1])
  }

  /** A file the check has to read, as a workflow or as an action: a root, or one such a file refers to. */
  ghost predicate Reachable(r: Repo, item: Item) {
    exists w :: Walk(r, w) && w[|w| - 1] == item
  }

  lemma RootReachable(r: Repo, i: nat)
    requires i < |r.roots|
    ensures Reachable(r, Canonical(r, r.roots[i]))
  {
    var w := [Canonical(r, r.roots[i])];
    assert Walk(r, w);
  }

  lemma OnwardReachable(r: Repo, a: Item, b: Item)
    requires Reachable(r, a) && LeadsTo(r, a, b)
    ensures Reachable(r, b)
  {
    var w :| Walk(r, w) && w[|w| - 1] == a;
    var w' := w + [b];
    forall i | 0 <= i < |w'| - 1
      ensures LeadsTo(r, w'[i], w'[i + 1])
    {
      assert i < |w| - 1 ==> LeadsTo(r, w[i], w[i + 1]);
    }
    assert w'[0] == w[0];
    assert Walk(r, w');
  }

  predicate HasPath(items: seq<Item>, p: Path) {
    exists i :: 0 <= i < |items| && items[i].path == p
  }

  /** The items' files are different from each other and from those seen. */
  predicate Fresh(items: seq<Item>, seen: set<Path>) {
    && (forall i :: 0 <= i < |items| ==> items[i].path !in seen)
    && (forall i, j :: 0 <= i < j < |items| ==> items[i].path != items[j].path)
  }

  lemma FreshCons(item: Item, rest: seq<Item>, seen: set<Path>)
    requires item.path !in seen && Fresh(rest, seen + {item.path})
    ensures Fresh([item] + rest, seen)
  {
    var all := [item] + rest;
    forall i | 0 <= i < |all|
      ensures all[i].path !in seen && (i > 0 ==> all[i] == rest[i - 1] && all[i].path != item.path)
    {
    }
  }

  lemma NoneFresh(seen: set<Path>)
    ensures Fresh([], seen)
  {
  }

  /** No file is scanned twice, nor one that was seen before. */
  lemma {:induction false} ScansOnce(r: Repo, queue: seq<Item>, seen: set<Path>)
    requires r.Finite() && Queued(r, queue)
    ensures Fresh(Scan(r, queue, seen).scanned, seen)
    decreases r.files - seen, |queue|
  {
    hide ValuesOf, Fresh;
    if queue != [] {
      var item := Canonical(r, queue[0]);
      if item.path in seen {
        ScansOnce(r, queue[1..], seen);
      } else {
        assert item.path in r.files - seen;
        var todo := queue[1..] + Targets(r, ValuesOf(r, item));
        ScansOnce(r, todo, seen + {item.path});
        FreshCons(item, Scan(r, todo, seen + {item.path}).scanned, seen);
      }
    } else {
      NoneFresh(seen);
    }
  }

  ghost predicate AllReachable(r: Repo, items: seq<Item>) {
    forall i {:trigger items[i]} :: 0 <= i < |items| ==> Reachable(r, Canonical(r, items[i]))
  }

  /** Only reachable files are scanned, as what they are reachable as. */
  lemma {:induction false} ScansReachable(r: Repo, queue: seq<Item>, seen: set<Path>)
    requires r.Finite() && Queued(r, queue) && AllReachable(r, queue)
    ensures forall i :: 0 <= i < |Scan(r, queue, seen).scanned| ==> Reachable(r, Scan(r, queue, seen).scanned[i])
    decreases r.files - seen, |queue|
  {
    hide ValuesOf, Reachable, Targets;
    if queue != [] {
      var item := Canonical(r, queue[0]);
      if item.path in seen {
        ScansReachable(r, queue[1..], seen);
      } else {
        assert item.path in r.files - seen;
        var onward := Targets(r, ValuesOf(r, item));
        forall i | 0 <= i < |onward|
          ensures Reachable(r, Canonical(r, onward[i]))
        {
          assert onward[i] in onward;
          OnwardReachable(r, item, Canonical(r, onward[i]));
        }
        ScansReachable(r, queue[1..] + onward, seen + {item.path});
      }
    }
  }

  /** Every queued file is seen or scanned. */
  ghost predicate Covered(r: Repo, queue: seq<Item>, seen: set<Path>, scanned: seq<Item>) {
    forall i :: 0 <= i < |queue| ==> r.canonical(queue[i].path) in seen || HasPath(scanned, r.canonical(queue[i].path))
  }

  /** Every file a scanned one leads on to is seen or scanned. */
  ghost predicate Closed(r: Repo, items: seq<Item>, seen: set<Path>, scanned: seq<Item>) {
    forall i, b :: 0 <= i < |items| && LeadsTo(r, items[i], b) ==> b.path in seen || HasPath(scanned, b.path)
  }

  lemma NothingToCover(r: Repo, seen: set<Path>)
    ensures Covered(r, [], seen, []) && Closed(r, [], seen, [])
  {
  }

  lemma CoveredSeen(r: Repo, queue: seq<Item>, seen: set<Path>, s: seq<Item>)
    requires queue != [] && r.canonical(queue[0].path) in seen && Covered(r, queue[1..], seen, s)
    ensures Covered(r, queue, seen, s)
  {
    forall i | 0 <= i < |queue|
      ensures r.canonical(queue[i].path) in seen || HasPath(s, r.canonical(queue[i].path))
    {
      assert i > 0 ==> queue[1..][i - 1] == queue[i];
    }
  }

  lemma HasPathCons(item: Item, rest: seq<Item>, p: Path)
    requires p == item.path || HasPath(rest, p)
    ensures HasPath([item] + rest, p)
  {
    var s := [item] + rest;
    if p == item.path {
      assert s[0].path == p;
    } else {
      var i :| 0 <= i < |rest| && rest[i].path == p;
      assert s[i + 1].path == p;
    }
  }

  lemma CoveredCons(r: Repo, queue: seq<Item>, seen: set<Path>, item: Item, rest: seq<Item>)
    requires queue != [] && item == Canonical(r, queue[0])
    requires Covered(r, queue[1..] + Targets(r, ValuesOf(r, item)), seen + {item.path}, rest)
    ensures Covered(r, queue, seen, [item] + rest)
  {
    hide ValuesOf, Targets, HasPath;
    var todo := queue[1..] + Targets(r, ValuesOf(r, item));
    forall i | 0 <= i < |queue|
      ensures r.canonical(queue[i].path) in seen || HasPath([item] + rest, r.canonical(queue[i].path))
    {
      var p := r.canonical(queue[i].path);
      assert i > 0 ==> todo[i - 1] == queue[i];
      if p !in seen {
        HasPathCons(item, rest, p);
      }
    }
  }

  lemma ClosedCons(r: Repo, queue: seq<Item>, seen: set<Path>, item: Item, rest: seq<Item>)
    requires queue != [] && Closed(r, rest, seen + {item.path}, rest)
    requires Covered(r, queue[1..] + Targets(r, ValuesOf(r, item)), seen + {item.path}, rest)
    ensures Closed(r, [item] + rest, seen, [item] + rest)
  {
    hide ValuesOf, Targets, HasPath;
    var s, onward := [item] + rest, Targets(r, ValuesOf(r, item));
    var todo := queue[1..] + onward;
    forall i, b | 0 <= i < |s| && LeadsTo(r, s[i], b)
      ensures b.path in seen || HasPath(s, b.path)
    {
      if i == 0 {
        var t :| t in onward && b == Canonical(r, t);
        var k :| 0 <= k < |onward| && onward[k] == t;
        assert todo[|queue| - 1 + k] == t;
      } else {
        assert s[i] == rest[i - 1];
      }
      if b.path !in seen {
        HasPathCons(item, rest, b.path);
      }
    }
  }

  lemma {:induction false} ScansAll(r: Repo, queue: seq<Item>, seen: set<Path>)
    requires r.Finite() && Queued(r, queue)
    ensures var s := Scan(r, queue, seen).scanned; Covered(r, queue, seen, s) && Closed(r, s, seen, s)
    decreases r.files - seen, |queue|
  {
    hide ValuesOf, Targets, Covered, Closed;
    if queue == [] {
      NothingToCover(r, seen);
    } else {
      var item := Canonical(r, queue[0]);
      if item.path in seen {
        ScansAll(r, queue[1..], seen);
        CoveredSeen(r, queue, seen, Scan(r, queue[1..], seen).scanned);
      } else {
        assert item.path in r.files - seen;
        var todo := queue[1..] + Targets(r, ValuesOf(r, item));
        ScansAll(r, todo, seen + {item.path});
        var rest := Scan(r, todo, seen + {item.path}).scanned;
        CoveredCons(r, queue, seen, item, rest);
        ClosedCons(r, queue, seen, item, rest);
      }
    }
  }

  // ----- which violations it lists

  /** The file parses, and value is something it executes. */
  ghost predicate UsedBy(r: Repo, item: Item, value: Yaml) {
    r.load(item.path).Success? && Executes(r.load(item.path).value, item.kind, value)
  }

  lemma ValuesAreUsed(r: Repo, item: Item, value: Yaml)
    ensures value in ValuesOf(r, item) <==> UsedBy(r, item, value)
  {
    hide Positions, Executes;
    if r.load(item.path).Success? {
      PositionsAreExecuted(r.load(item.path).value, item.kind, value);
    }
  }

  lemma {:induction false} TargetsAre(r: Repo, values: seq<Yaml>, t: Item)
    ensures t in Targets(r, values) <==>
      exists v :: v in values && v.Text? && "./" <= v.text && r.target(v.text) == Success(t)
  {
    if values != [] {
      var init, last := values[..|values| - 1], values[|values| - 1];
      TargetsAre(r, init, t);
      assert values == init + [last];
    }
  }

  /** A file leads on to the targets of the local references it executes, each under its canonical path. */
  lemma LeadsToTargets(r: Repo, a: Item, b: Item)
    ensures LeadsTo(r, a, b) <==> exists text, t ::
      UsedBy(r, a, Text(text)) && "./" <= text && r.target(text) == Success(t) && b == Item(r.canonical(t.path), t.kind)
  {
    hide Targets, ValuesOf, UsedBy;
    if LeadsTo(r, a, b) {
      var t :| t in Targets(r, ValuesOf(r, a)) && b == Canonical(r, t);
      TargetsAre(r, ValuesOf(r, a), t);
      var v :| v in ValuesOf(r, a) && v.Text? && "./" <= v.text && r.target(v.text) == Success(t);
      ValuesAreUsed(r, a, v);
    }
    forall text, t | UsedBy(r, a, Text(text)) && "./" <= text && r.target(text) == Success(t)
      ensures LeadsTo(r, a, Item(r.canonical(t.path), t.kind))
    {
      ValuesAreUsed(r, a, Text(text));
      TargetsAre(r, ValuesOf(r, a), t);
    }
  }

  lemma {:induction false} ComplaintsAre(r: Repo, path: Path, values: seq<Yaml>, v: Violation)
    ensures v in Complaints(r, path, values) <==> exists value :: value in values && v in Complaint(r, path, value)
  {
    hide Complaint;
    if values != [] {
      var init, last := values[..|values| - 1], values[|values| - 1];
      ComplaintsAre(r, path, init, v);
      assert values == init + [last];
    }
  }

  /** A scanned file deserves this complaint. */
  ghost predicate Wrong(r: Repo, item: Item, path: Path, problem: Problem) {
    && item.path == path
    && match problem
      case Unparsable(reason) => r.load(path) == Failure(reason)
      case NotAString => exists value :: UsedBy(r, item, value) && !value.Text?
      case NoTarget(text, reason) => UsedBy(r, item, Text(text)) && "./" <= text && r.target(text) == Failure(reason)
      case Unpinned(text) => UsedBy(r, item, Text(text)) && !("./" <= text) && !r.pinned(text)
  }

  lemma FileReports(r: Repo, item: Item, path: Path, problem: Problem)
    ensures Violation(path, problem) in FileComplaints(r, item) <==> Wrong(r, item, path, problem)
  {
    hide Executes, Complaints, ValuesOf;
    var v := Violation(path, problem);
    if r.load(item.path).Success? {
      var values := ValuesOf(r, item);
      ComplaintsAre(r, item.path, values, v);
      forall value
        ensures value in values <==> UsedBy(r, item, value)
      {
        ValuesAreUsed(r, item, value);
      }
    }
  }

  lemma {:induction false} ScanReports(r: Repo, queue: seq<Item>, seen: set<Path>, path: Path, problem: Problem)
    requires r.Finite() && Queued(r, queue)
    ensures var run := Scan(r, queue, seen);
      Violation(path, problem) in run.violations <==> exists i :: i in run.scanned && Wrong(r, i, path, problem)
    decreases r.files - seen, |queue|
  {
    hide ValuesOf, Targets, FileComplaints, Wrong;
    if queue != [] {
      var item := Canonical(r, queue[0]);
      if item.path in seen {
        ScanReports(r, queue[1..], seen, path, problem);
      } else {
        assert item.path in r.files - seen;
        ScanReports(r, queue[1..] + Targets(r, ValuesOf(r, item)), seen + {item.path}, path, problem);
        FileReports(r, item, path, problem);
      }
    }
  }

  /**
   A scan lists exactly these violations, each naming the scanned file it is in: the files that do not parse, and
   of the others the executed uses that are no text, that are local and lead nowhere, or that are neither local nor
   pinned.
   */
  lemma WhatIsReported(r: Repo, queue: seq<Item>, seen: set<Path>, path: Path, text: string, reason: string)
    requires r.Finite() && Queued(r, queue)
    ensures var Run(out, scanned) := Scan(r, queue, seen); Violation(path, Unparsable(reason)) in out <==>
      exists i :: i in scanned && i.path == path && r.load(path) == Failure(reason)
    ensures var Run(out, scanned) := Scan(r, queue, seen); Violation(path, NotAString) in out <==>
      exists i, v :: i in scanned && i.path == path && UsedBy(r, i, v) && !v.Text?
    ensures var Run(out, scanned) := Scan(r, queue, seen); Violation(path, NoTarget(text, reason)) in out <==>
      "./" <= text && r.target(text) == Failure(reason) &&
      exists i :: i in scanned && i.path == path && UsedBy(r, i, Text(text))
    ensures var Run(out, scanned) := Scan(r, queue, seen); Violation(path, Unpinned(text)) in out <==>
      !("./" <= text) && !r.pinned(text) && exists i :: i in scanned && i.path == path && UsedBy(r, i, Text(text))
  {
    hide Scan, UsedBy;
    ScanReports(r, queue, seen, path, Unparsable(reason));
    ScanReports(r, queue, seen, path, NotAString);
    ScanReports(r, queue, seen, path, NoTarget(text, reason));
    ScanReports(r, queue, seen, path, Unpinned(text));
  }

  // ----- what the check means

  predicate Fine(r: Repo, value: Yaml) {
    && value.Text?
    && if Local(value.text) then r.target(value.text).Success? else r.pinned(value.text)
  }

  /** The file parses, and everything it uses is pinned or leads to a local file. */
  ghost predicate FileFine(r: Repo, item: Item) {
    r.load(item.path).Success? && forall v :: v in ValuesOf(r, item) ==> Fine(r, v)
  }

  lemma {:induction false} NoComplaints(r: Repo, path: Path, values: seq<Yaml>)
    ensures Complaints(r, path, values) == [] <==> forall v :: v in values ==> Fine(r, v)
  {
    if values != [] {
      var init, last := values[..|values| - 1], values[|values| - 1];
      NoComplaints(r, path, init);
      assert values == init + [last];
      assert Complaint(r, path, last) == [] <==> Fine(r, last);
    }
  }

  lemma FirstAndRest(r: Repo, item: Item, rest: seq<Item>)
    ensures (forall i :: 0 <= i < |[item] + rest| ==> FileFine(r, ([item] + rest)[i])) <==>
      FileFine(r, item) && forall i :: 0 <= i < |rest| ==> FileFine(r, rest[i])
  {
    hide FileFine;
    var all := [item] + rest;
    assert all[0] == item && forall i :: 0 <= i < |rest| ==> rest[i] == all[i + 1];
  }

  lemma {:induction false} CleanScan(r: Repo, queue: seq<Item>, seen: set<Path>)
    requires r.Finite() && Queued(r, queue)
    ensures Scan(r, queue, seen).violations == [] <==>
      forall i :: 0 <= i < |Scan(r, queue, seen).scanned| ==> FileFine(r, Scan(r, queue, seen).scanned[i])
    decreases r.files - seen, |queue|
  {
    hide ValuesOf, Fine;
    if queue != [] {
      var item := Canonical(r, queue[0]);
      if item.path in seen {
        CleanScan(r, queue[1..], seen);
      } else {
        assert item.path in r.files - seen;
        var todo := queue[1..] + Targets(r, ValuesOf(r, item));
        CleanScan(r, todo, seen + {item.path});
        NoComplaints(r, item.path, ValuesOf(r, item));
        FirstAndRest(r, item, Scan(r, todo, seen + {item.path}).scanned);
      }
    }
  }

  /** No file is reachable both as a workflow and as an action. */
  ghost predicate OneKindPerFile(r: Repo) {
    forall a, b :: Reachable(r, a) && Reachable(r, b) && a.path == b.path ==> a.kind == b.kind
  }

  lemma RootsReachable(r: Repo)
    ensures AllReachable(r, r.roots)
  {
    forall i | 0 <= i < |r.roots|
      ensures Reachable(r, Canonical(r, r.roots[i]))
    {
      RootReachable(r, i);
    }
  }

  /** A reachable item whose file is scanned is itself scanned. */
  lemma ScannedAsItself(r: Repo, item: Item)
    requires r.Finite() && Queued(r, r.roots) && OneKindPerFile(r) && Reachable(r, item)
    requires HasPath(Scan(r, r.roots, {}).scanned, item.path)
    ensures item in Scan(r, r.roots, {}).scanned
  {
    hide Scan, Reachable, Queued;
    var s := Scan(r, r.roots, {}).scanned;
    RootsReachable(r);
    ScansReachable(r, r.roots, {});
    var k :| 0 <= k < |s| && s[k].path == item.path;
    assert s[k].kind == item.kind;
  }

  lemma OnwardIsScanned(r: Repo, a: Item, b: Item)
    requires r.Finite() && Queued(r, r.roots) && OneKindPerFile(r) && LeadsTo(r, a, b)
    requires Reachable(r, a) && a in Scan(r, r.roots, {}).scanned
    ensures Reachable(r, b) && b in Scan(r, r.roots, {}).scanned
  {
    hide Scan, Reachable, Queued, LeadsTo, OneKindPerFile;
    var s := Scan(r, r.roots, {}).scanned;
    ScansAll(r, r.roots, {});
    OnwardReachable(r, a, b);
    var i :| 0 <= i < |s| && s[i] == a;
    ScannedAsItself(r, b);
  }

  lemma RootIsScanned(r: Repo, i: nat)
    requires r.Finite() && Queued(r, r.roots) && OneKindPerFile(r) && i < |r.roots|
    ensures Reachable(r, Canonical(r, r.roots[i])) && Canonical(r, r.roots[i]) in Scan(r, r.roots, {}).scanned
  {
    hide Scan, Reachable, Queued, OneKindPerFile;
    ScansAll(r, r.roots, {});
    RootReachable(r, i);
    ScannedAsItself(r, Canonical(r, r.roots[i]));
  }

  lemma {:induction false} WalkIsScanned(r: Repo, w: seq<Item>, n: nat)
    requires r.Finite() && Queued(r, r.roots) && OneKindPerFile(r) && Walk(r, w) && n < |w|
    ensures Reachable(r, w[n]) && w[n] in Scan(r, r.roots, {}).scanned
  {
    hide Scan, Reachable, Queued, LeadsTo, OneKindPerFile;
    if n == 0 {
      var i :| 0 <= i < |r.roots| && w[0] == Canonical(r, r.roots[i]);
      RootIsScanned(r, i);
    } else {
      WalkIsScanned(r, w, n - 1);
      OnwardIsScanned(r, w[n - 1], w[n]);
    }
  }

  /** With one kind per file, each reachable file is scanned exactly once, as what it is, and nothing else is. */
  lemma ScansExactlyTheReachable(r: Repo, item: Item)
    requires r.Finite() && Queued(r, r.roots) && OneKindPerFile(r)
    ensures item in Scan(r, r.roots, {}).scanned <==> Reachable(r, item)
    ensures Fresh(Scan(r, r.roots, {}).scanned, {})
  {
    hide Scan, Queued, LeadsTo, OneKindPerFile;
    ScansOnce(r, r.roots, {});
    RootsReachable(r);
    ScansReachable(r, r.roots, {});
    if Reachable(r, item) {
      var w :| Walk(r, w) && w[|w| - 1] == item;
      WalkIsScanned(r, w, |w| - 1);
    }
  }

  /** The check reads everything it has to, as what it is, exactly when no file is reachable as two kinds. */
  lemma ReadsAllIffOneKind(r: Repo)
    requires r.Finite() && Queued(r, r.roots)
    ensures (forall item :: Reachable(r, item) ==> item in Scan(r, r.roots, {}).scanned) <==> OneKindPerFile(r)
  {
    hide Scan, Reachable, Queued;
    var s := Scan(r, r.roots, {}).scanned;
    ScansOnce(r, r.roots, {});
    if OneKindPerFile(r) {
      forall item | Reachable(r, item)
        ensures item in s
      {
        ScansExactlyTheReachable(r, item);
      }
    }
    if forall item :: Reachable(r, item) ==> item in s {
      forall a, b | Reachable(r, a) && Reachable(r, b) && a.path == b.path
        ensures a.kind == b.kind
      {
        var i :| 0 <= i < |s| && s[i] == a;
        var j :| 0 <= j < |s| && s[j] == b;
        assert i == j;
      }
    }
  }

  /** With one kind per file, the check passes exactly when every reachable file parses and uses nothing unpinned. */
  lemma PassesIffAllPinned(r: Repo)
    requires r.Finite() && Queued(r, r.roots) && OneKindPerFile(r)
    ensures Scan(r, r.roots, {}).violations == [] <==> forall item :: Reachable(r, item) ==> FileFine(r, item)
  {
    hide Scan, FileFine, Reachable;
    var s := Scan(r, r.roots, {}).scanned;
    CleanScan(r, r.roots, {});
    forall item
      ensures item in s <==> Reachable(r, item)
    {
      ScansExactlyTheReachable(r, item);
    }
    assert forall i :: 0 <= i < |s| ==> s[i] in s;
  }

  // ----- a file of two kinds

  /** A workflow whose steps use `./a/action.yml`, read as a workflow, and then `./a`, the same file as an action. */
  const TWO_WAYS: Yaml := Mapping([("jobs", Mapping([("build", Mapping([("steps",
    List([Mapping([("uses", Text("./a/action.yml"))]), Mapping([("uses", Text("./a"))])]))]))]))])

  /** An action that uses an unpinned one. */
  const UNPINNED: Yaml := Mapping([("runs", Mapping([("steps", List([Mapping([("uses", Text("x/y@main"))])]))]))])

  const TWO_KINDS: Repo := Repo(
    {"w", "a"}, [Item("w", Workflow)], p => if p == "w" then "w" else "a",
    p => Success(if p == "w" then TWO_WAYS else UNPINNED),
    reference => Success(Item("a", if reference == "./a" then Action else Workflow)), _ => false)

  lemma WaysOfTwo()
    ensures Positions(TWO_WAYS, Workflow) == [Text("./a/action.yml"), Text("./a")]
    ensures Positions(UNPINNED, Workflow) == [] && Positions(UNPINNED, Action) == [Text("x/y@main")]
  {
  }

  lemma FilesOfTwo()
    ensures var w, a, b := Item("w", Workflow), Item("a", Workflow), Item("a", Action);
      && ValuesOf(TWO_KINDS, w) == [Text("./a/action.yml"), Text("./a")] &&
         Targets(TWO_KINDS, ValuesOf(TWO_KINDS, w)) == [a, b]
      && FileComplaints(TWO_KINDS, w) == []
      && Targets(TWO_KINDS, ValuesOf(TWO_KINDS, a)) == [] && FileComplaints(TWO_KINDS, a) == []
      && ValuesOf(TWO_KINDS, b) == [Text("x/y@main")]
  {
    hide Positions;
    WaysOfTwo();
    var uses := [Text("./a/action.yml"), Text("./a")];
    assert uses[..1] == [uses[0]] && uses[..1][..0] == [];
    NoComplaints(TWO_KINDS, "w", uses);
  }

  lemma ScanNext(r: Repo, queue: seq<Item>, seen: set<Path>, item: Item, todo: seq<Item>)
    requires r.Finite() && queue != [] && Queued(r, queue) && item == Canonical(r, queue[0]) && item.path !in seen
    requires todo == queue[1..] + Targets(r, ValuesOf(r, item))
    ensures Queued(r, todo)
    ensures Scan(r, queue, seen).violations == FileComplaints(r, item) + Scan(r, todo, seen + {item.path}).violations
  {
    hide ValuesOf, FileComplaints;
  }

  lemma ScanOfTwo()
    ensures TWO_KINDS.Finite() && Queued(TWO_KINDS, TWO_KINDS.roots)
    ensures Scan(TWO_KINDS, TWO_KINDS.roots, {}).violations == []
  {
    hide ValuesOf, FileComplaints, Targets;
    FilesOfTwo();
    var w, a, b := Item("w", Workflow), Item("a", Workflow), Item("a", Action);
    ScanNext(TWO_KINDS, [w], {}, w, [a, b]);
    ScanNext(TWO_KINDS, [a, b], {} + {"w"}, a, [b]);
    assert Scan(TWO_KINDS, [b], {} + {"w"} + {"a"}) == Scan(TWO_KINDS, [b][1..], {} + {"w"} + {"a"});
  }

  /** Without one kind per file the check can pass over an unpinned use: whichever kind comes first decides. */
  lemma SecondKindIsMissed()
    ensures TWO_KINDS.Finite() && Queued(TWO_KINDS, TWO_KINDS.roots)
    ensures Scan(TWO_KINDS, TWO_KINDS.roots, {}).violations == []
    ensures Reachable(TWO_KINDS, Item("a", Action)) && !FileFine(TWO_KINDS, Item("a", Action))
  {
    hide ValuesOf, FileComplaints, Targets, Scan, Reachable;
    ScanOfTwo();
    FilesOfTwo();
    RootReachable(TWO_KINDS, 0);
    var b := Item("a", Action);
    assert b in Targets(TWO_KINDS, ValuesOf(TWO_KINDS, Item("w", Workflow))) && Canonical(TWO_KINDS, b) == b;
    OnwardReachable(TWO_KINDS, Item("w", Workflow), b);
    assert Text("x/y@main") in ValuesOf(TWO_KINDS, b) && "x/y@main"[0] != "./"[0];
  }
}
