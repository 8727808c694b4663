/**
 The edit distance the command line uses to suggest a flag: a table filled row by row, kept in two copies.
 Its last cell is the least number of single-character edits. A character is one code unit.
 */
module EditDistance {
  import opened Wrappers

  // ----- what a distance has to mean: the shortest sequence of edits

  datatype Change = Insert(at: nat, c: char) | Delete(at: nat) | Replace(at: nat, c: char)

  predicate Applicable(s: string, e: Change) {
    if e.Insert? then e.at <= |s| else e.at < |s|
  }

  function Apply(s: string, e: Change): string
    requires Applicable(s, e)
  {
    match e
    case Insert(at, c) => s[..at] + [c] + s[at..]
    case Delete(at) => s[..at] + s[at + 1..]
    case Replace(at, c) => s[..at] + [c] + s[at + 1..]
  }

  /** The edits, carried out in order, turn a into b. */
  predicate Turns(a: string, es: seq<Change>, b: string)
    decreases |es|
  {
    if es == [] then a == b else Applicable(a, es[0]) && Turns(Apply(a, es[0]), es[1..], b)
  }

  // ----- what the table holds

  function Init(s: string): string
    requires s != ""
  {
    s[..|s| - 1]
  }

  function Last(s: string): char
    requires s != ""
  {
    s[|s| - 1]
  }

  function Min(x: nat, y: nat): nat {
    if x < y then x else y
  }

  /** What the code writes into a cell, from the cells above it, to its left and on the diagonal. */
  function Next(same: bool, up: nat, left: nat, diagonal: nat): nat {
    if same then diagonal else 1 + Min(Min(up, left), diagonal)
  }

  /** The cell of the table in row |a| and column |b|, from the cells above and to the left. */
  function Cell(a: string, b: string): nat
    decreases |a| + |b|
  {
    if a == "" then |b|
    else if b == "" then |a|
    else Next(Last(a) == Last(b), Cell(Init(a), b), Cell(a, Init(b)), Cell(Init(a), Init(b)))
  }

  lemma CellNext(a: string, b: string)
    requires a != "" && b != ""
    ensures Cell(a, b) == Next(Last(a) == Last(b), Cell(Init(a), b), Cell(a, Init(b)), Cell(Init(a), Init(b)))
  {
    hide Init, Last, Next;
  }

  lemma CellEdge(s: string)
    ensures Cell("", s) == |s| && Cell(s, "") == |s|
  {
  }

  /** Neighbouring cells differ by one at most. */
  lemma {:induction false} Neighbours(a: string, b: string)
    ensures a != "" ==> Cell(Init(a), b) <= Cell(a, b) + 1 && Cell(a, b) <= Cell(Init(a), b) + 1
    ensures b != "" ==> Cell(a, Init(b)) <= Cell(a, b) + 1 && Cell(a, b) <= Cell(a, Init(b)) + 1
    decreases |a| + |b|
  {
    hide Cell;
    CellEdge(a);
    CellEdge(b);
    if a != "" {
      CellEdge(Init(a));
    }
    if b != "" {
      CellEdge(Init(b));
    }
    if a != "" && b != "" {
      CellNext(a, b);
      Neighbours(Init(a), b);
      Neighbours(a, Init(b));
    }
  }

  function Cost(a: string, b: string): nat
    requires a != "" && b != ""
  {
    if Last(a) == Last(b) then 0 else 1
  }

  /** A cell is the least of its three ways, also where the code looks at one of them only. */
  lemma CellIsLeast(a: string, b: string)
    requires a != "" && b != ""
    ensures Cell(a, b) == Min(Min(Cell(Init(a), b) + 1, Cell(a, Init(b)) + 1), Cell(Init(a), Init(b)) + Cost(a, b))
  {
    hide Cell;
    CellNext(a, b);
    Neighbours(Init(a), b);
    Neighbours(a, Init(b));
  }

  // ----- a sequence of edits as short as the cell says

  lemma {:induction false} TurnsBeforeSuffix(a: string, es: seq<Change>, b: string, c: char)
    requires Turns(a, es, b)
    ensures Turns(a + [c], es, b + [c])
    decreases |es|
  {
    if es != [] {
      assert Apply(a + [c], es[0]) == Apply(a, es[0]) + [c];
      TurnsBeforeSuffix(Apply(a, es[0]), es[1..], b, c);
    }
  }

  function Then(e: Change, es: seq<Change>): seq<Change> {
    [e] + es
  }

  lemma TurnsThen(a: string, e: Change, es: seq<Change>, b: string)
    requires Applicable(a, e) && Turns(Apply(a, e), es, b)
    ensures Turns(a, Then(e, es), b)
  {
    assert Then(e, es)[1..] == es;
  }

  /** Edits that turn a into b, read off the table from its last cell back. */
  function Script(a: string, b: string): (es: seq<Change>)
    ensures |es| == Cell(a, b)
    decreases |a| + |b|
  {
    if a == "" then
      if b == "" then [] else Then(Insert(0, Last(b)), Script(a, Init(b)))
    else if b == "" then Then(Delete(|a| - 1), Script(Init(a), b))
    else if Last(a) == Last(b) then Script(Init(a), Init(b))
    else if Cell(a, b) == 1 + Cell(Init(a), b) then Then(Delete(|a| - 1), Script(Init(a), b))
    else if Cell(a, b) == 1 + Cell(a, Init(b)) then Then(Insert(|a|, Last(b)), Script(a, Init(b)))
    else Then(Replace(|a| - 1, Last(b)), Script(Init(a), Init(b)))
  }

  lemma EndsWith(s: string)
    requires s != ""
    ensures s == Init(s) + [Last(s)]
  {
  }

  lemma DeleteLast(a: string, b: string, es: seq<Change>)
    requires a != "" && Turns(Init(a), es, b)
    ensures Turns(a, Then(Delete(|a| - 1), es), b)
  {
    assert Apply(a, Delete(|a| - 1)) == Init(a);
    TurnsThen(a, Delete(|a| - 1), es, b);
  }

  lemma InsertLast(a: string, b: string, es: seq<Change>)
    requires b != "" && Turns(a, es, Init(b))
    ensures Turns(a, Then(Insert(|a|, Last(b)), es), b)
  {
    TurnsBeforeSuffix(a, es, Init(b), Last(b));
    EndsWith(b);
    assert Apply(a, Insert(|a|, Last(b))) == a + [Last(b)];
    TurnsThen(a, Insert(|a|, Last(b)), es, b);
  }

  lemma ReplaceLast(a: string, b: string, es: seq<Change>)
    requires a != "" && b != "" && Turns(Init(a), es, Init(b))
    ensures Turns(a, Then(Replace(|a| - 1, Last(b)), es), b)
  {
    TurnsBeforeSuffix(Init(a), es, Init(b), Last(b));
    EndsWith(b);
    assert Apply(a, Replace(|a| - 1, Last(b))) == Init(a) + [Last(b)];
    TurnsThen(a, Replace(|a| - 1, Last(b)), es, b);
  }

  lemma KeepLast(a: string, b: string, es: seq<Change>)
    requires a != "" && b != "" && Last(a) == Last(b) && Turns(Init(a), es, Init(b))
    ensures Turns(a, es, b)
  {
    TurnsBeforeSuffix(Init(a), es, Init(b), Last(b));
    EndsWith(a);
    EndsWith(b);
  }

  lemma TurnsNothing(a: string)
    ensures Turns(a, [], a)
  {
  }

  lemma {:induction false} ScriptTurns(a: string, b: string)
    ensures Turns(a, Script(a, b), b)
    decreases |a| + |b|
  {
    hide Turns, Then;
    if a == "" {
      if b == "" {
        TurnsNothing(a);
      } else {
        ScriptTurns(a, Init(b));
        InsertLast(a, b, Script(a, Init(b)));
      }
    } else if b == "" {
      ScriptTurns(Init(a), b);
      DeleteLast(a, b, Script(Init(a), b));
    } else if Last(a) == Last(b) {
      ScriptTurns(Init(a), Init(b));
      KeepLast(a, b, Script(Init(a), Init(b)));
    } else {
      ScriptTurns(Init(a), b);
      DeleteLast(a, b, Script(Init(a), b));
      ScriptTurns(a, Init(b));
      InsertLast(a, b, Script(a, Init(b)));
      ScriptTurns(Init(a), Init(b));
      ReplaceLast(a, b, Script(Init(a), Init(b)));
    }
  }

  // ----- and no shorter one

  /** The edit leaves the last character of a in place, as the last one. */
  predicate Inside(a: string, e: Change) {
    a != "" && (if e.Insert? then e.at < |a| else e.at < |a| - 1)
  }

  lemma InsideInit(a: string, e: Change)
    requires Inside(a, e)
    ensures Applicable(a, e) && Applicable(Init(a), e)
    ensures var a' := Apply(a, e); a' != "" && Last(a') == Last(a) && Init(a') == Apply(Init(a), e)
  {
    var a' := Apply(a, e);
    assert Init(a') == Apply(Init(a), e);
  }

  /** One edit of a brings it nearer to b by one at most. */
  lemma {:induction false} OneEdit(a: string, e: Change, b: string)
    requires Applicable(a, e)
    ensures Cell(a, b) <= 1 + Cell(Apply(a, e), b)
    decreases |a| + |b|
  {
    hide Cell, Last;
    CellEdge(a);
    CellEdge(Apply(a, e));
    if b == "" {
      return;
    }
    if Inside(a, e) {
      InsideInit(a, e);
      OneEdit(Init(a), e, b);
      OneEdit(a, e, Init(b));
      OneEdit(Init(a), e, Init(b));
      CellIsLeast(a, b);
      CellIsLeast(Apply(a, e), b);
    } else {
      match e
      case Insert(_, c) =>
        assert Init(Apply(a, e)) == a;
        Neighbours(Apply(a, e), b);
      case Delete(_) =>
        assert Apply(a, e) == Init(a);
        Neighbours(a, b);
      case Replace(_, c) =>
        assert Init(Apply(a, e)) == Init(a);
        OneEdit(a, e, Init(b));
        CellIsLeast(a, b);
        CellIsLeast(Apply(a, e), b);
    }
  }

  lemma {:induction false} EditsBring(a: string, es: seq<Change>, b: string, c: string)
    requires Turns(a, es, b)
    ensures Cell(a, c) <= |es| + Cell(b, c)
    decreases |es|
  {
    hide Cell;
    if es != [] {
      OneEdit(a, es[0], c);
      EditsBring(Apply(a, es[0]), es[1..], b, c);
    }
  }

  lemma {:induction false} SameIsZero(a: string)
    ensures Cell(a, a) == 0
  {
    if a != "" {
      SameIsZero(Init(a));
    }
  }

  /** n is the length of the shortest sequence of edits that turns a into b. */
  ghost predicate IsEditDistance(a: string, b: string, n: nat) {
    && (exists es :: Turns(a, es, b) && |es| == n)
    && (forall es :: Turns(a, es, b) ==> n <= |es|)
  }

  /** The table's cell is the edit distance. */
  lemma CellIsEditDistance(a: string, b: string)
    ensures IsEditDistance(a, b, Cell(a, b))
  {
    ScriptTurns(a, b);
    forall es | Turns(a, es, b)
      ensures Cell(a, b) <= |es|
    {
      EditsBring(a, es, b, b);
      SameIsZero(b);
    }
  }

  // ----- it is a metric

  lemma {:induction false} Symmetric(a: string, b: string)
    ensures Cell(a, b) == Cell(b, a)
    decreases |a| + |b|
  {
    if a != "" && b != "" {
      Symmetric(Init(a), b);
      Symmetric(a, Init(b));
      Symmetric(Init(a), Init(b));
    }
  }

  lemma ZeroIffSame(a: string, b: string)
    ensures Cell(a, b) == 0 <==> a == b
  {
    SameIsZero(a);
    ScriptTurns(a, b);
  }

  lemma Triangle(a: string, b: string, c: string)
    ensures Cell(a, c) <= Cell(a, b) + Cell(b, c)
  {
    ScriptTurns(a, b);
    EditsBring(a, Script(a, b), b, c);
  }

  // ----- the code

  /** The cell in row x and column y. */
  ghost function At(a: string, b: string, x: nat, y: nat): nat
    requires x <= |a| && y <= |b|
  {
    Cell(a[..x], b[..y])
  }

  lemma AtNext(a: string, b: string, x: nat, y: nat)
    requires 0 < x <= |a| && 0 < y <= |b|
    ensures At(a, b, x, y) == Next(a[x - 1] == b[y - 1], At(a, b, x - 1, y), At(a, b, x, y - 1), At(a, b, x - 1, y - 1))
  {
    hide Cell, Next;
    CellNext(a[..x], b[..y]);
    assert Init(a[..x]) == a[..x - 1] && Init(b[..y]) == b[..y - 1];
  }

  lemma AtEdge(a: string, b: string, x: nat, y: nat)
    requires x <= |a| && y <= |b| && (x == 0 || y == 0)
    ensures At(a, b, x, y) == x + y
  {
    CellEdge(a[..x]);
    CellEdge(b[..y]);
  }

  lemma LastAt(a: string, b: string)
    ensures At(a, b, |a|, |b|) == Cell(a, b)
  {
    assert a[..|a|] == a && b[..|b|] == b;
  }

  /** `distance` of known-flags.ts. */
  method Distance(a: string, b: string) returns (d: nat)
    ensures d == Cell(a, b)
    ensures IsEditDistance(a, b, d)
  {
    hide At, Cell, IsEditDistance;
    var rows := new nat[|a| + 1, |b| + 1]((i, j) => if i == 0 then j else if j == 0 then i else 0);
    forall y | 0 <= y <= |b|
      ensures rows[0, y] == At(a, b, 0, y)
    {
      AtEdge(a, b, 0, y);
    }
    for i := 1 to |a| + 1
      invariant forall x, y :: 0 <= x < i && 0 <= y <= |b| ==> rows[x, y] == At(a, b, x, y)
      invariant forall x :: i <= x <= |a| ==> rows[x, 0] == x
    {
      AtEdge(a, b, i, 0);
      for j := 1 to |b| + 1
        invariant forall x, y :: 0 <= x < i && 0 <= y <= |b| ==> rows[x, y] == At(a, b, x, y)
        invariant forall y :: 0 <= y < j ==> rows[i, y] == At(a, b, i, y)
        invariant forall x :: i < x <= |a| ==> rows[x, 0] == x
      {
        AtNext(a, b, i, j);
        rows[i, j] := if a[i - 1] == b[j - 1] then rows[i - 1, j - 1]
                      else 1 + Min(Min(rows[i - 1, j], rows[i, j - 1]), rows[i - 1, j - 1]);
      }
    }
    d := rows[|a|, |b|];
    LastAt(a, b);
    CellIsEditDistance(a, b);
  }

  /** `editDistance` of plur.ts, its own copy of the table. */
  method OtherDistance(a: string, b: string) returns (d: nat)
    ensures d == Cell(a, b)
    ensures IsEditDistance(a, b, d)
  {
    hide At, Cell, IsEditDistance;
    var rows := new nat[|a| + 1, |b| + 1]((i, j) => if i == 0 then j else if j == 0 then i else 0);
    forall y | 0 <= y <= |b|
      ensures rows[0, y] == At(a, b, 0, y)
    {
      AtEdge(a, b, 0, y);
    }
    for i := 1 to |a| + 1
      invariant forall x, y :: 0 <= x < i && 0 <= y <= |b| ==> rows[x, y] == At(a, b, x, y)
      invariant forall x :: i <= x <= |a| ==> rows[x, 0] == x
    {
      AtEdge(a, b, i, 0);
      for j := 1 to |b| + 1
        invariant forall x, y :: 0 <= x < i && 0 <= y <= |b| ==> rows[x, y] == At(a, b, x, y)
        invariant forall y :: 0 <= y < j ==> rows[i, y] == At(a, b, i, y)
        invariant forall x :: i < x <= |a| ==> rows[x, 0] == x
      {
        AtNext(a, b, i, j);
        rows[i, j] := if a[i - 1] == b[j - 1] then rows[i - 1, j - 1]
                      else 1 + Min(Min(rows[i - 1, j], rows[i, j - 1]), rows[i - 1, j - 1]);
      }
    }
    d := rows[|a|, |b|];
    LastAt(a, b);
    CellIsEditDistance(a, b);
  }

  /** An edit distance is one number, so the two copies agree. */
  lemma OneDistance(a: string, b: string, m: nat, n: nat)
    requires IsEditDistance(a, b, m) && IsEditDistance(a, b, n)
    ensures m == n
  {
    var es :| Turns(a, es, b) && |es| == m;
    var es' :| Turns(a, es', b) && |es'| == n;
  }

  /** The first of the nearest flags, or nothing exactly when every known flag is more than two edits away. */
  method Nearest(flag: string, known: seq<string>) returns (best: Option<string>)
    ensures best.None? <==> forall k :: 0 <= k < |known| ==> Cell(flag, known[k]) > 2
    ensures best.Some? ==> exists i ::
      && 0 <= i < |known| && known[i] == best.value && Cell(flag, known[i]) <= 2
      && (forall k :: 0 <= k < |known| ==> Cell(flag, known[i]) <= Cell(flag, known[k]))
      && (forall k :: 0 <= k < i ==> Cell(flag, known[i]) < Cell(flag, known[k]))
  {
    hide Cell;
    best := None;
    var bestScore: Option<nat> := None;
    ghost var at := 0;
    for n := 0 to |known|
      invariant best.None? <==> bestScore.None?
      invariant bestScore.None? ==> n == 0
      invariant bestScore.Some? ==>
        at < n && best.value == known[at] && bestScore.value == Cell(flag, known[at])
      invariant bestScore.Some? ==> forall k :: 0 <= k < n ==> Cell(flag, known[at]) <= Cell(flag, known[k])
      invariant bestScore.Some? ==> forall k :: 0 <= k < at ==> Cell(flag, known[at]) < Cell(flag, known[k])
    {
      var d := Distance(flag, known[n]);
      if bestScore.None? || d < bestScore.value {
        bestScore, best, at := Some(d), Some(known[n]), n;
      }
    }
    if bestScore.Some? && bestScore.value > 2 {
      best := None;
    }
  }
}
