/** The in-place edit of `folders.yaml`: what the wanted entries make of the file's items, comments and gaps. */
module FolderMapText {
  import opened Wrappers
  import opened TextEdits

  // The YAML reader only hands over where things sit in the text; `Doc` says what that means for its layout.

  /** A value by its JSON form; lists and mappings are Nested. */
  datatype Value = Scalar(json: string) | Nested(json: string)

  /** An entry as the list of its keys and values, in order. */
  type Pairs = seq<(string, Value)>

  function Lookup(ps: Pairs, name: string): Option<Value> {
    if ps == [] then None else if ps[0].0 == name then Some(ps[0].1) else Lookup(ps[1..], name)
  }

  ghost predicate DistinctNames(ps: Pairs) {
    forall i, j :: 0 <= i < j < |ps| ==> ps[i].0 != ps[j].0
  }

  /** Two entries that hold the same value under every key, as `sameEntries` compares them. */
  ghost predicate SameEntry(a: Pairs, b: Pairs) {
    forall n :: Lookup(a, n) == Lookup(b, n)
  }

  // ----- the text's layout

  /**
   `Field` is a key's lines: comments and blank lines above it, its line up to the value with the key at column
   `keyAt`, the value, and what follows it on its last line. `Other` is text that holds no key.
   */
  datatype Line =
    | Other(text: string)
    | Field(above: string, lead: string, keyAt: nat, val: string, trail: string, name: string, value: Value)

  function LineText(l: Line): string {
    match l
    case Other(text) => text
    case Field(above, lead, _, val, trail, _, _) => above + lead + val + trail
  }

  function LinesText(ls: seq<Line>): string {
    if ls == [] then "" else LinesText(ls[..|ls| - 1]) + LineText(ls[|ls| - 1])
  }

  function PairOf(l: Line): Pairs {
    if l.Field? then [(l.name, l.value)] else []
  }

  function PairsOf(ls: seq<Line>): Pairs {
    if ls == [] then [] else PairsOf(ls[..|ls| - 1]) + PairOf(ls[|ls| - 1])
  }

  /** An item, with the column of its first key. */
  datatype Node = Node(lines: seq<Line>, keyCol: nat)

  /** `gaps[k]` stands before item k: the head of the file, or comments between items. */
  datatype Doc = Doc(gaps: seq<string>, items: seq<Node>, tail: string)

  ghost predicate Shaped(d: Doc) {
    |d.gaps| == |d.items| && |d.items| > 0
  }

  /** The text before item k. */
  ghost function Upto(d: Doc, k: nat): string
    requires Shaped(d) && k < |d.items|
  {
    if k == 0 then d.gaps[0] else Upto(d, k - 1) + LinesText(d.items[k - 1].lines) + d.gaps[k]
  }

  ghost function Start(d: Doc, k: nat): nat
    requires Shaped(d) && k < |d.items|
  {
    |Upto(d, k)|
  }

  ghost function End(d: Doc, k: nat): nat
    requires Shaped(d) && k < |d.items|
  {
    Start(d, k) + |LinesText(d.items[k].lines)|
  }

  ghost function DocText(d: Doc): string
    requires Shaped(d)
  {
    var last := |d.items| - 1;
    Upto(d, last) + LinesText(d.items[last].lines) + d.tail
  }

  lemma NextPrefix(d: Doc, k: nat, n: nat)
    requires Shaped(d) && n == k + 1 < |d.items|
    ensures Upto(d, n) == Upto(d, k) + LinesText(d.items[k].lines) + d.gaps[n]
  {
    assert n - 1 == k;
  }

  lemma WithinPrefix(src: string, a: string, b: string, c: string)
    requires |a + b + c| <= |src| && src[..|a + b + c|] == a + b + c
    ensures src[..|a|] == a && src[|a|..|a| + |b|] == b && src[|a| + |b|..|a + b + c|] == c
  {
    var abc := a + b + c;
    assert src[|a| + |b|..|abc|] == src[..|abc|][|a| + |b|..] == abc[|a| + |b|..] == c;
    assert src[..|a|] == src[..|abc|][..|a|] == abc[..|a|] == a;
    assert src[|a|..|a| + |b|] == src[..|abc|][|a|..|a| + |b|] == abc[|a|..|a| + |b|] == b;
  }

  lemma {:induction false} ItemAt(d: Doc, k: nat)
    requires Shaped(d) && k < |d.items|
    ensures End(d, k) <= |DocText(d)|
    ensures DocText(d)[..Start(d, k)] == Upto(d, k)
    ensures DocText(d)[Start(d, k)..End(d, k)] == LinesText(d.items[k].lines)
    decreases |d.items| - k
  {
    hide LinesText;
    var src, body := DocText(d), LinesText(d.items[k].lines);
    if k == |d.items| - 1 {
      assert src == Upto(d, k) + body + d.tail;
    } else {
      ItemAt(d, k + 1);
      NextPrefix(d, k, k + 1);
      WithinPrefix(src, Upto(d, k), body, d.gaps[k + 1]);
    }
  }

  /** The gap between an item and the next. */
  lemma GapAt(d: Doc, k: nat)
    requires Shaped(d) && k + 1 < |d.items|
    ensures End(d, k) <= Start(d, k + 1) <= |DocText(d)|
    ensures DocText(d)[End(d, k)..Start(d, k + 1)] == d.gaps[k + 1]
  {
    hide LinesText, DocText, Upto;
    ItemAt(d, k + 1);
    NextPrefix(d, k, k + 1);
    WithinPrefix(DocText(d), Upto(d, k), LinesText(d.items[k].lines), d.gaps[k + 1]);
  }

  lemma TailAt(d: Doc)
    requires Shaped(d)
    ensures End(d, |d.items| - 1) <= |DocText(d)| && DocText(d)[End(d, |d.items| - 1)..] == d.tail
  {
    hide Upto, LinesText;
    var last := |d.items| - 1;
    var before := Upto(d, last) + LinesText(d.items[last].lines);
    assert DocText(d) == before + d.tail && |before| == End(d, last);
  }

  lemma {:induction false} LinesAt(ls: seq<Line>, i: nat)
    requires i < |ls|
    ensures |LinesText(ls[..i])| + |LineText(ls[i])| == |LinesText(ls[..i + 1])| <= |LinesText(ls)|
    ensures LinesText(ls[..i + 1]) <= LinesText(ls)
    decreases |ls| - i
  {
    assert ls[..i + 1][..i] == ls[..i];
    if i + 1 < |ls| {
      LinesAt(ls, i + 1);
      assert ls[..i + 2][..i + 1] == ls[..i + 1];
    } else {
      assert ls[..i + 1] == ls;
    }
  }

  // ----- line starts and ends

  /** `src.lastIndexOf('\n', pos - 1) + 1` */
  function LineStart(src: string, pos: nat): (r: nat)
    ensures r <= pos
  {
    if pos == 0 || (pos <= |src| && src[pos - 1] == '\n') then pos else LineStart(src, pos - 1)
  }

  ghost predicate NoNewline(src: string, a: nat, b: nat)
    requires b <= |src|
  {
    forall x :: a <= x < b ==> src[x] != '\n'
  }

  lemma {:induction false} LineStartIs(src: string, a: nat, pos: nat)
    requires a <= pos <= |src| && (a == 0 || src[a - 1] == '\n') && NoNewline(src, a, pos)
    ensures LineStart(src, pos) == a
  {
    if a < pos {
      LineStartIs(src, a, pos - 1);
    }
  }

  /** Just past the newline that ends the line holding pos, or the end of the text. */
  function LineEndIncl(src: string, pos: nat): (r: nat)
    decreases |src| - pos
  {
    if pos >= |src| then |src| else if src[pos] == '\n' then pos + 1 else LineEndIncl(src, pos + 1)
  }

  /** The line holding pos ends at b: just past its newline, or at the end of the text. */
  ghost predicate EndsLine(src: string, pos: nat, b: nat) {
    pos <= b <= |src| &&
    if pos < b && src[b - 1] == '\n' then NoNewline(src, pos, b - 1) else b == |src| && NoNewline(src, pos, b)
  }

  lemma {:induction false} LineEndIs(src: string, pos: nat, b: nat)
    requires EndsLine(src, pos, b)
    ensures LineEndIncl(src, pos) == b
    decreases b - pos
  {
    if pos < b && src[pos] != '\n' {
      LineEndIs(src, pos + 1, b);
    }
  }

  /** `src.lastIndexOf('-', pos - 1)`, -1 when there is none. */
  function LastDash(src: string, pos: nat): (r: int)
    requires pos <= |src|
    ensures r < pos
  {
    if pos == 0 then -1 else if src[pos - 1] == '-' then pos - 1 else LastDash(src, pos - 1)
  }

  lemma {:induction false} NoDashAfter(src: string, pos: nat)
    requires pos <= |src|
    ensures var r := LastDash(src, pos);
      -1 <= r < pos && (r >= 0 ==> src[r] == '-') && forall i :: r < i < pos ==> src[i] != '-'
  {
    if pos > 0 && src[pos - 1] != '-' {
      NoDashAfter(src, pos - 1);
    }
  }

  lemma {:induction false} LastDashIs(src: string, a: nat, lead: string, col: nat, pos: nat)
    requires a + |lead| <= |src| && src[a..a + |lead|] == lead && col <= |lead| && pos == a + col
    ensures if LastDash(lead, col) >= 0 then LastDash(src, pos) == a + LastDash(lead, col) else LastDash(src, pos) < a
  {
    if col > 0 {
      assert lead[col - 1] == src[pos - 1];
      LastDashIs(src, a, lead, col - 1, pos - 1);
    }
  }

  // ----- what the edit is to do

  /** The writer: a value, a key and a whole item as text. */
  datatype Renderer = Renderer(scalar: Value -> string, key: string -> string, item: (Pairs, nat) -> string)

  /** A piece of the new file; `Fresh` is an item rendered from the entry it holds, after a newline if need be. */
  datatype Block = Gap(text: string) | Item(lines: seq<Line>) | Fresh(newline: bool, entry: Pairs)

  function BlockText(render: Renderer, indent: nat, b: Block): string {
    match b
    case Gap(text) => text
    case Item(lines) => LinesText(lines)
    case Fresh(newline, entry) => (if newline then "\n" else "") + render.item(entry, indent)
  }

  function BlocksText(render: Renderer, indent: nat, bs: seq<Block>): string {
    if bs == [] then "" else BlocksText(render, indent, bs[..|bs| - 1]) + BlockText(render, indent, bs[|bs| - 1])
  }

  /** A key the entry no longer has goes, but not the comments above it; a changed value is rewritten in place. */
  function UpdatedLine(render: Renderer, l: Line, want: Pairs): Line {
    if l.Other? then l
    else
      match Lookup(want, l.name)
      case None => Other(l.above)
      case Some(v) => if v == l.value then l else l.(val := render.scalar(v), value := v)
  }

  function UpdatedLines(render: Renderer, ls: seq<Line>, want: Pairs): seq<Line> {
    if ls == [] then []
    else UpdatedLines(render, ls[..|ls| - 1], want) + [UpdatedLine(render, ls[|ls| - 1], want)]
  }

  function Spaces(n: nat): string {
    seq(n, _ => ' ')
  }

  function AddedLine(render: Renderer, name: string, v: Value, keyCol: nat): Line {
    Field("", Spaces(keyCol) + render.key(name) + ": ", keyCol, render.scalar(v), "\n", name, v)
  }

  /** The keys the entry has and the item lacks, one line each. */
  function AddedLines(render: Renderer, have: Pairs, want: Pairs, keyCol: nat): seq<Line> {
    if want == [] then []
    else
      var (name, v) := want[|want| - 1];
      var before := AddedLines(render, have, want[..|want| - 1], keyCol);
      if Lookup(have, name).Some? then before else before + [AddedLine(render, name, v, keyCol)]
  }

  /** A newline more: it ends the last key's line, or follows the comments of a key that is gone. */
  function Finished(ls: seq<Line>): seq<Line> {
    if ls != [] && ls[|ls| - 1].Field? then
      var l := ls[|ls| - 1];
      ls[..|ls| - 1] + [l.(trail := l.trail + "\n")]
    else ls + [Other("\n")]
  }

  function UpdatedItem(render: Renderer, node: Node, want: Pairs, unfinished: bool): seq<Line> {
    var kept := UpdatedLines(render, node.lines, want);
    var added := AddedLines(render, PairsOf(node.lines), want, node.keyCol);
    (if unfinished && added != [] then Finished(kept) else kept) + added
  }

  lemma FinishedIs(ls: seq<Line>)
    ensures PairsOf(Finished(ls)) == PairsOf(ls)
    ensures LinesText(Finished(ls)) == LinesText(ls) + "\n"
  {
    if ls != [] && ls[|ls| - 1].Field? {
      var init, l := ls[..|ls| - 1], ls[|ls| - 1];
      var l' := l.(trail := l.trail + "\n");
      assert LineText(l') == LineText(l) + "\n";
      assert (init + [l'])[..|init|] == init;
      Assoc(LinesText(init), LineText(l), "\n");
    } else {
      assert (ls + [Other("\n")])[..|ls|] == ls;
    }
  }

  /** What can be edited in place: no key that shares its line with the dash goes, and no nested value moves. */
  ghost predicate LineUpdatable(ls: seq<Line>, i: nat, want: Pairs)
    requires i < |ls|
  {
    ls[i].Field? ==>
      match Lookup(want, ls[i].name)
      case None => i > 0 && ls[i].value.Scalar?
      case Some(v) => v == ls[i].value || (ls[i].value.Scalar? && v.Scalar?)
  }

  ghost predicate Updatable(ls: seq<Line>, want: Pairs) {
    && (forall i :: 0 <= i < |ls| ==> LineUpdatable(ls, i, want))
    && (forall p :: p in want && Lookup(PairsOf(ls), p.0).None? ==> p.1.Scalar?)
  }

  lemma {:induction false} FoundIsThere(ps: Pairs, name: string)
    ensures Lookup(ps, name).Some? ==> (name, Lookup(ps, name).value) in ps
  {
    if ps != [] && ps[0].0 != name {
      FoundIsThere(ps[1..], name);
    }
  }

  /** An item of scalars takes any entry of scalars that keeps its first key. */
  lemma ScalarsAreUpdatable(ls: seq<Line>, want: Pairs)
    requires ls != [] && forall i :: 0 <= i < |ls| ==> ls[i].Field? && ls[i].value.Scalar?
    requires Lookup(want, ls[0].name).Some? && forall p :: p in want ==> p.1.Scalar?
    ensures Updatable(ls, want)
  {
    forall i | 0 <= i < |ls|
      ensures LineUpdatable(ls, i, want)
    {
      FoundIsThere(want, ls[i].name);
    }
  }

  /** It takes none that drops its first key, or changes a list or a mapping, or adds one. */
  lemma WhatIsNotUpdatable(ls: seq<Line>, want: Pairs, i: nat, p: (string, Value))
    requires i < |ls| && ls[i].Field? && p in want
    requires
      || (i == 0 && Lookup(want, ls[i].name).None?)
      || (Lookup(want, ls[i].name).Some? && Lookup(want, ls[i].name).value != ls[i].value &&
            (ls[i].value.Nested? || Lookup(want, ls[i].name).value.Nested?))
      || (Lookup(PairsOf(ls), p.0).None? && p.1.Nested?)
    ensures !Updatable(ls, want)
  {
    hide Lookup;
    assert LineUpdatable(ls, i, want) ==> Lookup(PairsOf(ls), p.0).None? && p.1.Nested?;
  }

  /** The first item at or after j with the wanted path. */
  function Find(items: seq<Node>, j: nat, path: Option<Value>): (k: Option<nat>)
    requires j <= |items|
    ensures k.Some? ==> j <= k.value < |items| && Lookup(PairsOf(items[k.value].lines), "path") == path
    ensures forall x :: j <= x < (if k.Some? then k.value else |items|) ==>
      Lookup(PairsOf(items[x].lines), "path") != path
    decreases |items| - j
  {
    if j == |items| then None
    else if Lookup(PairsOf(items[j].lines), "path") == path then Some(j)
    else Find(items, j + 1, path)
  }

  /** At the end of a text whose last line has no newline. */
  predicate Unfinished(src: string, at: nat) {
    at > 0 && at == |src| && src[at - 1] != '\n'
  }

  /** Where the work has got to when items before j are dealt with: at item j, or after the last. */
  ghost function At(d: Doc, j: nat): nat
    requires Shaped(d) && j <= |d.items|
  {
    if j < |d.items| then Start(d, j) else End(d, |d.items| - 1)
  }

  function GapAfter(d: Doc, k: nat): seq<Block>
    requires |d.gaps| == |d.items|
  {
    if k + 1 < |d.items| then [Gap(d.gaps[k + 1])] else []
  }

  /** Items j up to k gone, the gaps after them kept. */
  function Removed(d: Doc, j: nat, k: nat): seq<Block>
    requires |d.gaps| == |d.items| && j <= k
  {
    if j == k then [] else Removed(d, j, k - 1) + GapAfter(d, k - 1)
  }

  function EntryOf(b: Block): seq<Pairs> {
    match b
    case Gap(_) => []
    case Item(lines) => [PairsOf(lines)]
    case Fresh(_, entry) => [entry]
  }

  function EntriesOf(bs: seq<Block>): seq<Pairs> {
    if bs == [] then []
    else
      var b := bs[|bs| - 1];
      EntriesOf(bs[..|bs| - 1]) + EntryOf(b)
  }

  function GapOf(b: Block): seq<string> {
    if b.Gap? then [b.text] else []
  }

  function GapsOf(bs: seq<Block>): seq<string> {
    if bs == [] then [] else GapsOf(bs[..|bs| - 1]) + GapOf(bs[|bs| - 1])
  }

  lemma NoneRemoved(d: Doc, j: nat)
    requires |d.gaps| == |d.items|
    ensures Removed(d, j, j) == []
    ensures EntriesOf(Removed(d, j, j)) == [] && GapsOf(Removed(d, j, j)) == []
  {
  }

  lemma RemovedNext(d: Doc, j: nat, k: nat, n: nat)
    requires |d.gaps| == |d.items| && j <= k && n == k + 1
    ensures Removed(d, j, n) == Removed(d, j, k) + GapAfter(d, k)
  {
    assert n - 1 == k;
  }

  ghost function Matched(render: Renderer, d: Doc, j: nat, k: nat, want: Pairs): seq<Block>
    requires Shaped(d) && j <= k < |d.items|
  {
    Removed(d, j, k) + [Item(UpdatedItem(render, d.items[k], want, Unfinished(DocText(d), End(d, k))))] + GapAfter(d, k)
  }

  ghost function Edited(render: Renderer, d: Doc, j: nat, next: seq<Pairs>): seq<Block>
    requires Shaped(d) && j <= |d.items|
    decreases |next|
  {
    if next == [] then Removed(d, j, |d.items|)
    else
      match Find(d.items, j, Lookup(next[0], "path"))
      case None =>
        [Fresh(Unfinished(DocText(d), At(d, j)), next[0])] + Edited(render, d, j, next[1..])
      case Some(k) =>
        Matched(render, d, j, k, next[0]) + Edited(render, d, k + 1, next[1..])
  }

  /** The two ways the edit goes on: the first wanted entry is new, or it is item k's. */
  lemma EditedFresh(render: Renderer, d: Doc, j: nat, next: seq<Pairs>)
    requires Shaped(d) && j <= |d.items| && next != [] && Find(d.items, j, Lookup(next[0], "path")).None?
    ensures Edited(render, d, j, next)
      == [Fresh(Unfinished(DocText(d), At(d, j)), next[0])] + Edited(render, d, j, next[1..])
  {
    hide Unfinished, Lookup, DocText, At;
  }

  lemma EditedMatched(render: Renderer, d: Doc, j: nat, k: nat, next: seq<Pairs>)
    requires Shaped(d) && j <= k < |d.items| && next != [] && Find(d.items, j, Lookup(next[0], "path")) == Some(k)
    ensures Edited(render, d, j, next) == Matched(render, d, j, k, next[0]) + Edited(render, d, k + 1, next[1..])
  {
    hide Matched, Lookup, Find, DocText, At, Unfinished;
  }

  /** Every wanted entry that matches an item can be written into it. */
  ghost predicate AllUpdatable(items: seq<Node>, j: nat, next: seq<Pairs>)
    requires j <= |items|
    decreases |next|
  {
    next == [] ||
    match Find(items, j, Lookup(next[0], "path"))
    case None => AllUpdatable(items, j, next[1..])
    case Some(k) => Updatable(items[k].lines, next[0]) && AllUpdatable(items, k + 1, next[1..])
  }

  ghost function Head(d: Doc, colon: nat, next: seq<Pairs>): string
    requires Shaped(d) && colon < |d.gaps[0]|
  {
    var head := d.gaps[0];
    if next == [] then head[..colon + 1] + " []" + head[colon + 1..] else head
  }

  /** The new file: an emptied list is written ` []` after the key's colon. */
  ghost function NewBlocks(render: Renderer, d: Doc, colon: nat, next: seq<Pairs>): seq<Block>
    requires Shaped(d) && colon < |d.gaps[0]|
  {
    [Gap(Head(d, colon, next))] + Edited(render, d, 0, next) + [Gap(d.tail)]
  }

  // ----- the items of the new file are the wanted entries

  lemma {:induction false} LookupAppend(a: Pairs, b: Pairs, n: string)
    ensures Lookup(a + b, n) == if Lookup(a, n).Some? then Lookup(a, n) else Lookup(b, n)
  {
    if a == [] {
      assert a + b == b;
    } else {
      LookupAppend(a[1..], b, n);
      assert (a + b)[1..] == a[1..] + b;
    }
  }

  lemma {:induction false} PairsAppend(a: seq<Line>, b: seq<Line>)
    ensures PairsOf(a + b) == PairsOf(a) + PairsOf(b)
  {
    if b == [] {
      assert a + b == a;
    } else {
      var init, l := b[..|b| - 1], b[|b| - 1];
      PairsAppend(a, init);
      assert (a + b)[..|a + b| - 1] == a + init && (a + b)[|a + b| - 1] == l;
      Assoc(PairsOf(a), PairsOf(init), PairOf(l));
    }
  }

  lemma LookupOne(p: (string, Value), n: string)
    ensures Lookup([p], n) == if p.0 == n then Some(p.1) else None
  {
    assert [p][1..] == [];
  }

  function Says(l: Line, n: string): Option<Value> {
    if l.Field? && l.name == n then Some(l.value) else None
  }

  lemma PairsSnoc(ls: seq<Line>, l: Line, n: string)
    ensures Lookup(PairsOf(ls + [l]), n) ==
      if Lookup(PairsOf(ls), n).Some? then Lookup(PairsOf(ls), n) else Says(l, n)
  {
    assert (ls + [l])[..|ls|] == ls;
    LookupAppend(PairsOf(ls), PairOf(l), n);
    if l.Field? {
      LookupOne((l.name, l.value), n);
    }
  }

  lemma UpdatedSays(render: Renderer, l: Line, want: Pairs, n: string)
    ensures Says(UpdatedLine(render, l, want), n) == if Says(l, n).Some? then Lookup(want, n) else None
  {
  }

  lemma PairsLast(ls: seq<Line>, n: string)
    requires ls != []
    ensures var before := Lookup(PairsOf(ls[..|ls| - 1]), n);
      Lookup(PairsOf(ls), n) == if before.Some? then before else Says(ls[|ls| - 1], n)
  {
    var l := ls[|ls| - 1];
    LookupAppend(PairsOf(ls[..|ls| - 1]), PairOf(l), n);
    if l.Field? {
      LookupOne((l.name, l.value), n);
    }
  }

  /** Keys the item keeps carry the wanted values; keys not wanted are gone. */
  lemma {:induction false} UpdatedHolds(render: Renderer, ls: seq<Line>, want: Pairs, n: string)
    ensures Lookup(PairsOf(UpdatedLines(render, ls, want)), n) ==
      if Lookup(PairsOf(ls), n).Some? then Lookup(want, n) else None
  {
    if ls != [] {
      var init, l := ls[..|ls| - 1], ls[|ls| - 1];
      UpdatedHolds(render, init, want, n);
      UpdatedSays(render, l, want, n);
      PairsSnoc(UpdatedLines(render, init, want), UpdatedLine(render, l, want), n);
      PairsLast(ls, n);
    }
  }

  lemma {:induction false} AddedHolds(render: Renderer, have: Pairs, want: Pairs, keyCol: nat, n: string)
    ensures Lookup(PairsOf(AddedLines(render, have, want, keyCol)), n) ==
      if Lookup(have, n).Some? then None else Lookup(want, n)
  {
    if want != [] {
      var init, p := want[..|want| - 1], want[|want| - 1];
      AddedHolds(render, have, init, keyCol, n);
      assert want == init + [p];
      LookupAppend(init, [p], n);
      LookupOne(p, n);
      PairsSnoc(AddedLines(render, have, init, keyCol), AddedLine(render, p.0, p.1, keyCol), n);
    }
  }

  lemma UpdatedItemHolds(render: Renderer, node: Node, want: Pairs, unfinished: bool)
    ensures SameEntry(PairsOf(UpdatedItem(render, node, want, unfinished)), want)
  {
    var kept := UpdatedLines(render, node.lines, want);
    var added := AddedLines(render, PairsOf(node.lines), want, node.keyCol);
    FinishedIs(kept);
    PairsAppend(if unfinished && added != [] then Finished(kept) else kept, added);
    forall n
      ensures Lookup(PairsOf(kept) + PairsOf(added), n) == Lookup(want, n)
    {
      UpdatedHolds(render, node.lines, want, n);
      AddedHolds(render, PairsOf(node.lines), want, node.keyCol, n);
      LookupAppend(PairsOf(kept), PairsOf(added), n);
    }
  }

  lemma {:induction false} EntriesAppend(a: seq<Block>, b: seq<Block>)
    ensures EntriesOf(a + b) == EntriesOf(a) + EntriesOf(b)
  {
    if b == [] {
      assert a + b == a;
    } else {
      var init, l := b[..|b| - 1], b[|b| - 1];
      EntriesAppend(a, init);
      assert (a + b)[..|a + b| - 1] == a + init && (a + b)[|a + b| - 1] == l;
      Assoc(EntriesOf(a), EntriesOf(init), EntryOf(l));
    }
  }

  lemma {:induction false} GapsAppend(a: seq<Block>, b: seq<Block>)
    ensures GapsOf(a + b) == GapsOf(a) + GapsOf(b)
  {
    if b == [] {
      assert a + b == a;
    } else {
      var init, l := b[..|b| - 1], b[|b| - 1];
      GapsAppend(a, init);
      assert (a + b)[..|a + b| - 1] == a + init && (a + b)[|a + b| - 1] == l;
      Assoc(GapsOf(a), GapsOf(init), GapOf(l));
    }
  }

  lemma BlocksAppend(a: seq<Block>, b: seq<Block>)
    ensures EntriesOf(a + b) == EntriesOf(a) + EntriesOf(b)
    ensures GapsOf(a + b) == GapsOf(a) + GapsOf(b)
  {
    EntriesAppend(a, b);
    GapsAppend(a, b);
  }

  lemma OneBlock(b: Block)
    ensures EntriesOf([b]) == EntryOf(b) && GapsOf([b]) == GapOf(b)
  {
    assert [b][..0] == [];
  }

  /** The gaps still to come after item j. */
  ghost function GapsFrom(d: Doc, j: nat): seq<string>
    requires Shaped(d) && j <= |d.items|
  {
    if j < |d.items| then d.gaps[j + 1..] else []
  }

  lemma GapAfterIs(d: Doc, k: nat, next: nat)
    requires Shaped(d) && next == k + 1 <= |d.items|
    ensures EntriesOf(GapAfter(d, k)) == []
    ensures GapsOf(GapAfter(d, k)) + GapsFrom(d, next) == GapsFrom(d, k)
  {
    if next < |d.items| {
      OneBlock(Gap(d.gaps[next]));
    }
  }

  lemma {:induction false} RemovedHolds(d: Doc, j: nat, k: nat)
    requires Shaped(d) && j <= k <= |d.items|
    ensures EntriesOf(Removed(d, j, k)) == []
    ensures GapsOf(Removed(d, j, k)) + GapsFrom(d, k) == GapsFrom(d, j)
  {
    hide GapAfter, GapsOf, EntriesOf, GapsFrom, Removed;
    if j == k {
      NoneRemoved(d, j);
    } else {
      RemovedHolds(d, j, k - 1);
      RemovedNext(d, j, k - 1, k);
      GapAfterIs(d, k - 1, k);
      BlocksAppend(Removed(d, j, k - 1), GapAfter(d, k - 1));
      Assoc(GapsOf(Removed(d, j, k - 1)), GapsOf(GapAfter(d, k - 1)), GapsFrom(d, k));
    }
  }

  ghost predicate AllSame(a: seq<Pairs>, b: seq<Pairs>) {
    |a| == |b| && forall w :: 0 <= w < |a| ==> SameEntry(a[w], b[w])
  }

  lemma AroundItem(before: seq<Block>, item: Block, after: seq<Block>)
    ensures EntriesOf(before + [item] + after) == EntriesOf(before) + EntryOf(item) + EntriesOf(after)
    ensures GapsOf(before + [item] + after) == GapsOf(before) + GapOf(item) + GapsOf(after)
  {
    var b := [item];
    OneBlock(item);
    BlocksAppend(before, b);
    BlocksAppend(before + b, after);
  }

  lemma MatchedHolds(render: Renderer, d: Doc, j: nat, k: nat, want: Pairs)
    requires Shaped(d) && j <= k < |d.items|
    ensures |EntriesOf(Matched(render, d, j, k, want))| == 1
    ensures SameEntry(EntriesOf(Matched(render, d, j, k, want))[0], want)
    ensures GapsOf(Matched(render, d, j, k, want)) + GapsFrom(d, k + 1) == GapsFrom(d, j)
  {
    hide UpdatedItem, Removed, EntriesOf, GapsOf;
    UpdatedItemHolds(render, d.items[k], want, Unfinished(DocText(d), End(d, k)));
    RemovedHolds(d, j, k);
    GapAfterIs(d, k, k + 1);
    AroundItem(Removed(d, j, k), Item(UpdatedItem(render, d.items[k], want, Unfinished(DocText(d), End(d, k)))),
               GapAfter(d, k));
    assert GapsOf(Removed(d, j, k)) + [] == GapsOf(Removed(d, j, k));
    Assoc(GapsOf(Removed(d, j, k)), GapsOf(GapAfter(d, k)), GapsFrom(d, k + 1));
  }

  lemma OneMore(first: seq<Block>, rest: seq<Block>, want: Pairs, next: seq<Pairs>)
    requires |EntriesOf(first)| == 1 && SameEntry(EntriesOf(first)[0], want) && AllSame(EntriesOf(rest), next)
    ensures AllSame(EntriesOf(first + rest), [want] + next)
    ensures GapsOf(first + rest) == GapsOf(first) + GapsOf(rest)
  {
    BlocksAppend(first, rest);
  }

  lemma NothingWanted(render: Renderer, d: Doc, j: nat)
    requires Shaped(d) && j <= |d.items|
    ensures Edited(render, d, j, []) == Removed(d, j, |d.items|) && GapsFrom(d, |d.items|) == [] && AllSame([], [])
    ensures GapsOf(Removed(d, j, |d.items|)) + [] == GapsOf(Removed(d, j, |d.items|))
  {
    hide Removed, GapsOf;
  }

  lemma FreshHolds(render: Renderer, d: Doc, j: nat, want: Pairs, rest: seq<Block>, next: seq<Pairs>)
    requires Shaped(d) && j <= |d.items| && AllSame(EntriesOf(rest), next)
    ensures var b := Fresh(Unfinished(DocText(d), At(d, j)), want);
      AllSame(EntriesOf([b] + rest), [want] + next) && GapsOf([b] + rest) == GapsOf(rest)
  {
    hide AllSame, Lookup, DocText, At, EntriesOf, GapsOf, Unfinished;
    var b := Fresh(Unfinished(DocText(d), At(d, j)), want);
    OneBlock(b);
    OneMore([b], rest, want, next);
  }

  /** The list's items become exactly the wanted entries, in the wanted order; every gap survives, in order. */
  lemma {:induction false} EditedHoldsNext(render: Renderer, d: Doc, j: nat, next: seq<Pairs>)
    requires Shaped(d) && j <= |d.items|
    ensures AllSame(EntriesOf(Edited(render, d, j, next)), next)
    ensures GapsOf(Edited(render, d, j, next)) == GapsFrom(d, j)
    decreases |next|
  {
    hide Find, Lookup, Shaped, DocText, At, Unfinished, EntriesOf, GapsOf, GapsFrom, Matched, AllSame;
    if next == [] {
      RemovedHolds(d, j, |d.items|);
      NothingWanted(render, d, j);
    } else {
      assert next == [next[0]] + next[1..];
      match Find(d.items, j, Lookup(next[0], "path"))
      case None =>
        EditedHoldsNext(render, d, j, next[1..]);
        EditedFresh(render, d, j, next);
        FreshHolds(render, d, j, next[0], Edited(render, d, j, next[1..]), next[1..]);
      case Some(k) =>
        EditedHoldsNext(render, d, k + 1, next[1..]);
        EditedMatched(render, d, j, k, next);
        MatchedHolds(render, d, j, k, next[0]);
        OneMore(Matched(render, d, j, k, next[0]), Edited(render, d, k + 1, next[1..]), next[0], next[1..]);
    }
  }

  lemma BetweenGaps(head: string, bs: seq<Block>, tail: string)
    ensures EntriesOf([Gap(head)] + bs + [Gap(tail)]) == EntriesOf(bs)
    ensures GapsOf([Gap(head)] + bs + [Gap(tail)]) == [head] + GapsOf(bs) + [tail]
  {
    OneBlock(Gap(head));
    OneBlock(Gap(tail));
    BlocksAppend([Gap(head)], bs);
    BlocksAppend([Gap(head)] + bs, [Gap(tail)]);
  }

  /**
   The new file's items are exactly the wanted entries in order, and the text between items is the old
   file's, all of it and in order, but for the ` []` that an emptied list gets.
   */
  lemma NewFileHoldsNext(render: Renderer, d: Doc, colon: nat, next: seq<Pairs>)
    requires Shaped(d) && colon < |d.gaps[0]|
    ensures AllSame(EntriesOf(NewBlocks(render, d, colon, next)), next)
    ensures GapsOf(NewBlocks(render, d, colon, next)) == [Head(d, colon, next)] + d.gaps[1..] + [d.tail]
  {
    EditedHoldsNext(render, d, 0, next);
    BetweenGaps(Head(d, colon, next), Edited(render, d, 0, next), d.tail);
  }

  // ----- what stays of an item, and where the items stand

  function Flat(texts: seq<string>): string {
    if texts == [] then "" else Flat(texts[..|texts| - 1]) + texts[|texts| - 1]
  }

  lemma FlatSnoc(texts: seq<string>, s: string)
    ensures Flat(texts + [s]) == Flat(texts) + s
  {
    assert (texts + [s])[..|texts|] == texts;
  }

  lemma {:induction false} FlatAppend(a: seq<string>, b: seq<string>)
    ensures Flat(a + b) == Flat(a) + Flat(b)
  {
    if b == [] {
      assert a + b == a;
    } else {
      var init := b[..|b| - 1];
      FlatAppend(a, init);
      assert (a + b)[..|a + b| - 1] == a + init;
      Assoc(Flat(a), Flat(init), b[|b| - 1]);
    }
  }

  lemma LinesSnoc(ls: seq<Line>, l: Line)
    ensures LinesText(ls + [l]) == LinesText(ls) + LineText(l)
  {
    assert (ls + [l])[..|ls|] == ls;
  }

  lemma {:induction false} KeysWritten(render: Renderer, ls: seq<Line>, want: Pairs) returns (texts: seq<string>)
    ensures LinesText(UpdatedLines(render, ls, want)) == Flat(texts) && |texts| == |ls|
    ensures forall i :: 0 <= i < |ls| ==> texts[i] == LineText(UpdatedLine(render, ls[i], want))
  {
    hide UpdatedLine, LineText;
    texts := [];
    if ls != [] {
      var init, l := ls[..|ls| - 1], ls[|ls| - 1];
      texts := KeysWritten(render, init, want);
      var text := LineText(UpdatedLine(render, l, want));
      FlatSnoc(texts, text);
      LinesSnoc(UpdatedLines(render, init, want), UpdatedLine(render, l, want));
      texts := texts + [text];
    }
  }

  /**
   What an update writes for a key an item has: if it is not wanted the comments above it, and else all its text but
   for a value that differs from the wanted one.
   */
  lemma KeyWritten(render: Renderer, l: Line, want: Pairs)
    requires l.Field?
    ensures LineText(UpdatedLine(render, l, want)) ==
      if Lookup(want, l.name).None? then l.above
      else if Lookup(want, l.name).value == l.value then l.above + l.lead + l.val + l.trail
      else l.above + l.lead + render.scalar(Lookup(want, l.name).value) + l.trail
  {
  }

  /** The wanted keys an item does not have, in their order. */
  function Missing(have: Pairs, want: Pairs): Pairs {
    if want == [] then []
    else
      var before, p := Missing(have, want[..|want| - 1]), want[|want| - 1];
      if Lookup(have, p.0).Some? then before else before + [p]
  }

  lemma AddedLineText(render: Renderer, name: string, v: Value, keyCol: nat)
    ensures LineText(AddedLine(render, name, v, keyCol))
      == Spaces(keyCol) + render.key(name) + ": " + render.scalar(v) + "\n"
  {
    var lead := Spaces(keyCol) + render.key(name) + ": ";
    assert "" + lead == lead;
  }

  lemma {:induction false} MissingWritten(render: Renderer, have: Pairs, want: Pairs, keyCol: nat)
    returns (texts: seq<string>)
    ensures LinesText(AddedLines(render, have, want, keyCol)) == Flat(texts) && |texts| == |Missing(have, want)|
    ensures forall i :: 0 <= i < |texts| ==>
      var (name, v) := Missing(have, want)[i];
      texts[i] == Spaces(keyCol) + render.key(name) + ": " + render.scalar(v) + "\n"
    ensures AddedLines(render, have, want, keyCol) == [] <==> Missing(have, want) == []
  {
    hide Lookup, Spaces;
    texts := [];
    if want != [] {
      var init, p := want[..|want| - 1], want[|want| - 1];
      texts := MissingWritten(render, have, init, keyCol);
      if Lookup(have, p.0).None? {
        var l := AddedLine(render, p.0, p.1, keyCol);
        AddedLineText(render, p.0, p.1, keyCol);
        FlatSnoc(texts, LineText(l));
        LinesSnoc(AddedLines(render, have, init, keyCol), l);
        texts := texts + [LineText(l)];
      }
    }
  }

  lemma {:induction false} LinesTextAppend(a: seq<Line>, b: seq<Line>)
    ensures LinesText(a + b) == LinesText(a) + LinesText(b)
  {
    if b == [] {
      assert a + b == a;
    } else {
      var init, l := b[..|b| - 1], b[|b| - 1];
      LinesTextAppend(a, init);
      assert (a + b)[..|a + b| - 1] == a + init && (a + b)[|a + b| - 1] == l;
      Assoc(LinesText(a), LinesText(init), LineText(l));
    }
  }

  /**
   The text of an updated item, key by key: comments and the rest of every line stay, then come the keys it lacked,
   after a newline where the file ended without one.
   */
  lemma ItemKeeps(render: Renderer, node: Node, want: Pairs, unfinished: bool)
      returns (kept: seq<string>, added: seq<string>)
    requires forall i :: 0 <= i < |node.lines| ==> node.lines[i].Field?
    ensures LinesText(UpdatedItem(render, node, want, unfinished))
      == Flat(kept) + (if unfinished && added != [] then "\n" else "") + Flat(added)
    ensures |kept| == |node.lines| && forall i :: 0 <= i < |kept| ==>
      var l := node.lines[i];
      kept[i] == if Lookup(want, l.name).None? then l.above
                 else if Lookup(want, l.name).value == l.value then l.above + l.lead + l.val + l.trail
                 else l.above + l.lead + render.scalar(Lookup(want, l.name).value) + l.trail
    ensures var missing := Missing(PairsOf(node.lines), want);
      |added| == |missing| && forall i :: 0 <= i < |added| ==>
        added[i] == Spaces(node.keyCol) + render.key(missing[i].0) + ": " + render.scalar(missing[i].1) + "\n"
  {
    hide Lookup, Spaces, UpdatedLine, UpdatedLines, AddedLines, Finished, LineText, LinesText;
    kept := KeysWritten(render, node.lines, want);
    forall i | 0 <= i < |node.lines|
      ensures var l := node.lines[i];
        kept[i] == if Lookup(want, l.name).None? then l.above
                   else if Lookup(want, l.name).value == l.value then l.above + l.lead + l.val + l.trail
                   else l.above + l.lead + render.scalar(Lookup(want, l.name).value) + l.trail
    {
      KeyWritten(render, node.lines[i], want);
    }
    added := MissingWritten(render, PairsOf(node.lines), want, node.keyCol);
    var lines := UpdatedLines(render, node.lines, want);
    var more := AddedLines(render, PairsOf(node.lines), want, node.keyCol);
    FinishedIs(lines);
    LinesTextAppend(if unfinished && more != [] then Finished(lines) else lines, more);
    assert Flat(kept) + "" == Flat(kept);
  }

  /** How many gaps stand before each item or entry, after g of them. */
  function GapsBefore(bs: seq<Block>, g: nat): seq<nat> {
    if bs == [] then []
    else if bs[0].Gap? then GapsBefore(bs[1..], g + 1)
    else [g] + GapsBefore(bs[1..], g)
  }

  lemma NoGaps()
    ensures GapsOf([]) == []
  {
  }

  lemma {:induction false} GapsBeforeAppend(a: seq<Block>, b: seq<Block>, g: nat)
    ensures GapsBefore(a + b, g) == GapsBefore(a, g) + GapsBefore(b, g + |GapsOf(a)|)
  {
    hide GapsOf;
    if a == [] {
      assert a + b == b;
      NoGaps();
    } else {
      var first, rest, after := a[0], a[1..], if a[0].Gap? then g + 1 else g;
      assert (a + b)[0] == first && (a + b)[1..] == rest + b;
      assert g + |GapsOf(a)| == after + |GapsOf(rest)| by {
        assert a == [first] + rest;
        GapsAppend([first], rest);
        OneBlock(first);
      }
      GapsBeforeAppend(rest, b, after);
    }
  }

  /**
   Where the wanted entries go: an item's stays between the gaps it stood between, and a new one comes right before the
   next item, or after the last.
   */
  function Places(items: seq<Node>, j: nat, next: seq<Pairs>): seq<nat>
    requires j <= |items|
    decreases |next|
  {
    if next == [] then []
    else
      match Find(items, j, Lookup(next[0], "path"))
      case None => [if j < |items| then j + 1 else |items|] + Places(items, j, next[1..])
      case Some(k) => [k + 1] + Places(items, k + 1, next[1..])
  }

  lemma GapAfterOnly(d: Doc, k: nat, g: nat)
    requires |d.gaps| == |d.items|
    ensures GapsBefore(GapAfter(d, k), g) == []
  {
    assert GapAfter(d, k) != [] ==> GapAfter(d, k)[1..] == [];
  }

  lemma {:induction false} RemovedGaps(d: Doc, j: nat, k: nat, g: nat)
    requires |d.gaps| == |d.items| && j <= k
    ensures GapsBefore(Removed(d, j, k), g) == []
  {
    hide GapAfter;
    if j < k {
      RemovedGaps(d, j, k - 1, g);
      GapsBeforeAppend(Removed(d, j, k - 1), GapAfter(d, k - 1), g);
      GapAfterOnly(d, k - 1, g + |GapsOf(Removed(d, j, k - 1))|);
    }
  }

  lemma RemovedCount(d: Doc, j: nat, k: nat)
    requires Shaped(d) && j <= k < |d.items|
    ensures |GapsOf(Removed(d, j, k))| == k - j
  {
    hide Removed, GapsOf;
    RemovedHolds(d, j, k);
  }

  lemma AroundGaps(before: seq<Block>, item: Block, after: seq<Block>, g: nat)
    requires !item.Gap? && GapsBefore(before, g) == [] && forall h: nat :: GapsBefore(after, h) == []
    ensures GapsBefore(before + [item] + after, g) == [g + |GapsOf(before)|]
  {
    hide GapsOf;
    GapsBeforeAppend(before, [item], g);
    GapsBeforeAppend(before + [item], after, g);
    assert [item][1..] == [];
  }

  lemma MatchedGaps(render: Renderer, d: Doc, j: nat, k: nat, want: Pairs, g: nat)
    requires Shaped(d) && j <= k < |d.items|
    ensures GapsBefore(Matched(render, d, j, k, want), g) == [g + (k - j)]
    ensures |GapsOf(Matched(render, d, j, k, want))| == (k - j) + (if k + 1 < |d.items| then 1 else 0)
  {
    hide Removed, GapsOf, UpdatedItem, GapAfter, EntriesOf, GapsBefore, SameEntry;
    var item := Item(UpdatedItem(render, d.items[k], want, Unfinished(DocText(d), End(d, k))));
    RemovedCount(d, j, k);
    RemovedGaps(d, j, k, g);
    MatchedHolds(render, d, j, k, want);
    forall h: nat
      ensures GapsBefore(GapAfter(d, k), h) == []
    {
      GapAfterOnly(d, k, h);
    }
    AroundGaps(Removed(d, j, k), item, GapAfter(d, k), g);
  }

  lemma FreshGaps(b: Block, rest: seq<Block>, g: nat)
    requires !b.Gap?
    ensures GapsBefore([b] + rest, g) == [g] + GapsBefore(rest, g)
  {
    assert ([b] + rest)[1..] == rest;
  }

  /** The edit puts every entry there. */
  lemma {:induction false} EditedPlaces(render: Renderer, d: Doc, j: nat, next: seq<Pairs>)
    requires Shaped(d) && j <= |d.items|
    ensures var g := if j < |d.items| then j + 1 else |d.items|;
      GapsBefore(Edited(render, d, j, next), g) == Places(d.items, j, next)
    decreases |next|
  {
    hide Find, Lookup, DocText, At, Unfinished, GapsOf, Matched, Edited, GapsBefore;
    var g := if j < |d.items| then j + 1 else |d.items|;
    if next == [] {
      RemovedGaps(d, j, |d.items|, g);
      NothingWanted(render, d, j);
    } else {
      match Find(d.items, j, Lookup(next[0], "path"))
      case None =>
        EditedFresh(render, d, j, next);
        EditedPlaces(render, d, j, next[1..]);
        var b := Fresh(Unfinished(DocText(d), At(d, j)), next[0]);
        FreshGaps(b, Edited(render, d, j, next[1..]), g);
      case Some(k) =>
        EditedMatched(render, d, j, k, next);
        EditedPlaces(render, d, k + 1, next[1..]);
        MatchedGaps(render, d, j, k, next[0], g);
        GapsBeforeAppend(Matched(render, d, j, k, next[0]), Edited(render, d, k + 1, next[1..]), g);
    }
  }

  lemma {:induction false} GapsOnly(render: Renderer, indent: nat, bs: seq<Block>)
    requires forall b :: b in bs ==> b.Gap?
    ensures BlocksText(render, indent, bs) == Flat(GapsOf(bs))
  {
    if bs != [] {
      var b := bs[|bs| - 1];
      assert b in bs;
      GapsOnly(render, indent, bs[..|bs| - 1]);
      FlatSnoc(GapsOf(bs[..|bs| - 1]), b.text);
    }
  }

  lemma {:induction false} RemovedAreGaps(d: Doc, j: nat, k: nat)
    requires |d.gaps| == |d.items| && j <= k
    ensures forall b :: b in Removed(d, j, k) ==> b.Gap?
  {
    if j < k {
      RemovedAreGaps(d, j, k - 1);
    }
  }

  lemma FlatOne(s: string)
    ensures Flat([s]) == s
  {
    assert [s][..0] == [];
  }

  /** An emptied file: ` []` after the colon, and all the text that stood around the items. */
  lemma EmptiedFileText(render: Renderer, indent: nat, d: Doc, colon: nat)
    requires Shaped(d) && colon < |d.gaps[0]|
    ensures BlocksText(render, indent, NewBlocks(render, d, colon, []))
      == d.gaps[0][..colon + 1] + " []" + d.gaps[0][colon + 1..] + Flat(d.gaps[1..]) + d.tail
  {
    hide Removed, GapsOf, BlocksText, Flat;
    var bs := NewBlocks(render, d, colon, []);
    var head := Head(d, colon, []);
    NewFileHoldsNext(render, d, colon, []);
    NothingWanted(render, d, 0);
    RemovedAreGaps(d, 0, |d.items|);
    GapsOnly(render, indent, bs);
    FlatAppend([head] + d.gaps[1..], [d.tail]);
    FlatAppend([head], d.gaps[1..]);
    FlatOne(head);
    FlatOne(d.tail);
  }
}
