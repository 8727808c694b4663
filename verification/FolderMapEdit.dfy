/**
 How `surgical` carries out what FolderMapText says: the edits it records, in order, against the reader's
 positions, and the text they make of the file. A `Progress` goes with the loops: how far the file has been
 dealt with, the edits recorded so far, and the text these make of what lies behind.
 */
module FolderMapEdit {
  import opened Wrappers
  import opened TextEdits
  import opened FolderMapText

  // ----- what the YAML reader hands over

  datatype Pair = Pair(name: string, value: Value, keyStart: nat, valStart: nat, valEnd: nat)

  datatype MapNode = MapNode(start: nat, pairs: seq<Pair>)

  function LineLength(l: Line): nat {
    match l
    case Other(text) => |text|
    case Field(above, lead, _, val, trail, _, _) => |above| + |lead| + |val| + |trail|
  }

  /** The length of the first i lines. */
  function LinePos(ls: seq<Line>, i: nat): nat
    requires i <= |ls|
  {
    if i == 0 then 0 else LinePos(ls, i - 1) + LineLength(ls[i - 1])
  }

  lemma LinePosNext(ls: seq<Line>, i: nat, n: nat)
    requires n == i + 1 <= |ls|
    ensures LinePos(ls, n) == LinePos(ls, i) + LineLength(ls[i])
  {
    assert n - 1 == i;
  }

  lemma {:induction false} LinePosIs(ls: seq<Line>, i: nat)
    requires i <= |ls|
    ensures LinePos(ls, i) == |LinesText(ls[..i])|
  {
    if i > 0 {
      LinePosIs(ls, i - 1);
      assert ls[..i][..i - 1] == ls[..i - 1];
    }
  }

  /** The key's lines stand at a, its value where p says. */
  ghost predicate TextAt(src: string, a: nat, f: Line, p: Pair) {
    && f.Field? && p.name == f.name && p.value == f.value
    && var line, b := a + |f.above|, p.valEnd + |f.trail|;
      && line + f.keyAt == p.keyStart < p.valStart <= p.valEnd <= b <= |src|
      && src[a..line] == f.above && src[line..p.valStart] == f.lead
      && src[p.valStart..p.valEnd] == f.val && src[p.valEnd..b] == f.trail
  }

  /** The key's own line starts a line of the file, and its value's trail ends one. */
  ghost predicate OnLines(src: string, line: nat, b: nat, p: Pair) {
    && line <= p.keyStart < p.valStart <= p.valEnd <= |src|
    && (line == 0 || src[line - 1] == '\n') && NoNewline(src, line, p.keyStart)
    && EndsLine(src, p.valEnd, b)
  }

  ghost predicate TextOfKey(src: string, s: nat, ls: seq<Line>, ps: seq<Pair>, i: nat)
    requires i < |ls| == |ps|
  {
    TextAt(src, s + LinePos(ls, i), ls[i], ps[i])
  }

  ghost predicate LinesOfKey(src: string, s: nat, ls: seq<Line>, ps: seq<Pair>, i: nat)
    requires i < |ls| == |ps|
  {
    ls[i].Field? && OnLines(src, s + LinePos(ls, i) + |ls[i].above|, s + LinePos(ls, i) + LineLength(ls[i]), ps[i])
  }

  /** Where an item at s has its keys; stated key by key, text and line breaks apart. */
  ghost predicate AllPlaced(src: string, s: nat, ls: seq<Line>, ps: seq<Pair>) {
    && |ls| == |ps|
    && (forall i {:trigger TextOfKey(src, s, ls, ps, i)} :: 0 <= i < |ls| ==> TextOfKey(src, s, ls, ps, i))
    && (forall i {:trigger LinesOfKey(src, s, ls, ps, i)} :: 0 <= i < |ls| ==> LinesOfKey(src, s, ls, ps, i))
  }

  ghost predicate NodeLocated(src: string, s: nat, node: Node, m: MapNode) {
    if m.pairs == [] then PairsOf(node.lines) == []
    else
      && AllPlaced(src, s, node.lines, m.pairs)
      && node.lines[0].Field? && node.lines[0].above == "" && 0 < node.keyCol
      && m.start == m.pairs[0].keyStart == s + node.keyCol
      && DistinctNames(PairsOf(node.lines))
  }

  ghost predicate Located(src: string, nodes: seq<MapNode>, d: Doc) {
    && Shaped(d) && src == DocText(d) && |nodes| == |d.items|
    && forall k :: 0 <= k < |nodes| ==> NodeLocated(src, Start(d, k), d.items[k], nodes[k])
  }

  /** An item with at least one key, the first of them on the line of a dash. */
  ghost predicate Dashed(node: Node, m: MapNode) {
    m.pairs != [] && node.lines != [] && node.lines[0].Field? && node.keyCol <= |node.lines[0].lead| &&
    LastDash(node.lines[0].lead, node.keyCol) >= 0
  }

  /** There is a dash on the line before the first key. */
  lemma DashedIs(node: Node, m: MapNode)
    requires m.pairs != [] && node.lines != [] && node.lines[0].Field? && node.keyCol <= |node.lines[0].lead|
    ensures Dashed(node, m) <==> '-' in node.lines[0].lead[..node.keyCol]
  {
    var lead := node.lines[0].lead;
    NoDashAfter(lead, node.keyCol);
    assert forall i :: 0 <= i < node.keyCol ==> lead[..node.keyCol][i] == lead[i];
  }

  function NodePairs(ps: seq<Pair>): Pairs {
    if ps == [] then [] else NodePairs(ps[..|ps| - 1]) + [(ps[|ps| - 1].name, ps[|ps| - 1].value)]
  }

  lemma {:induction false} NodePairsAre(ps: seq<Pair>, ls: seq<Line>)
    requires |ps| == |ls|
    requires forall i :: 0 <= i < |ps| ==> ls[i].Field? && ps[i].name == ls[i].name && ps[i].value == ls[i].value
    ensures NodePairs(ps) == PairsOf(ls)
  {
    if ps != [] {
      NodePairsAre(ps[..|ps| - 1], ls[..|ls| - 1]);
    }
  }

  // ----- what the code reads off a key's position

  lemma OnLinesMeans(src: string, line: nat, b: nat, p: Pair)
    requires OnLines(src, line, b, p)
    ensures p.keyStart <= |src| && LineStart(src, p.keyStart) == line
    ensures LineEndIncl(src, p.valEnd) == b
  {
    LineStartIs(src, line, p.keyStart);
    LineEndIs(src, p.valEnd, b);
  }

  lemma FieldText(src: string, a: nat, f: Line, p: Pair)
    requires TextAt(src, a, f, p)
    ensures src[a..p.valStart] == f.above + f.lead
    ensures src[a..p.valEnd + |f.trail|] == LineText(f)
  {
    var b := p.valEnd + |f.trail|;
    assert src[a..p.valStart] == src[a..a + |f.above|] + src[a + |f.above|..p.valStart];
    assert src[a..p.valEnd] == src[a..p.valStart] + src[p.valStart..p.valEnd];
    assert src[a..b] == src[a..p.valEnd] + src[p.valEnd..b];
  }

  /** Key i's lines run from a to b. */
  ghost predicate KeySpan(s: nat, ls: seq<Line>, i: nat, a: nat, b: nat) {
    i < |ls| && a == s + LinePos(ls, i) && b == a + LineLength(ls[i])
  }

  /** What they read, whole or in part, and with another value. */
  lemma KeyText(src: string, s: nat, ls: seq<Line>, ps: seq<Pair>, i: nat, a: nat, b: nat)
    requires AllPlaced(src, s, ls, ps) && KeySpan(s, ls, i, a, b)
    ensures TextAt(src, a, ls[i], ps[i]) && b == ps[i].valEnd + |ls[i].trail|
  {
    assert TextOfKey(src, s, ls, ps, i);
  }

  lemma KeyOnLines(src: string, s: nat, ls: seq<Line>, ps: seq<Pair>, i: nat, a: nat, b: nat, line: nat)
    requires AllPlaced(src, s, ls, ps) && KeySpan(s, ls, i, a, b) && ls[i].Field? && line == a + |ls[i].above|
    ensures OnLines(src, line, b, ps[i])
  {
    assert LinesOfKey(src, s, ls, ps, i);
  }

  /** Where the code finds that they start and end. */
  lemma KeyLines(src: string, s: nat, ls: seq<Line>, ps: seq<Pair>, i: nat, a: nat, b: nat, line: nat)
    requires AllPlaced(src, s, ls, ps) && KeySpan(s, ls, i, a, b) && ls[i].Field? && line == a + |ls[i].above|
    ensures ps[i].keyStart <= |src| && ps[i].valEnd <= |src|
    ensures LineStart(src, ps[i].keyStart) == line
    ensures LineEndIncl(src, ps[i].valEnd) == b
  {
    KeyOnLines(src, s, ls, ps, i, a, b, line);
    OnLinesMeans(src, line, b, ps[i]);
  }

  lemma KeyFacts(src: string, s: nat, ls: seq<Line>, ps: seq<Pair>, i: nat, a: nat, b: nat)
    requires AllPlaced(src, s, ls, ps) && KeySpan(s, ls, i, a, b)
    ensures ls[i].Field? && ps[i].name == ls[i].name && ps[i].value == ls[i].value
    ensures a + |ls[i].above| <= ps[i].keyStart < ps[i].valStart <= ps[i].valEnd <= b <= |src|
  {
    KeyText(src, s, ls, ps, i, a, b);
  }

  lemma LinesGrow(ls: seq<Line>, i: nat, j: nat)
    requires i <= j <= |ls|
    ensures LinePos(ls, i) <= LinePos(ls, j)
  {
  }

  /** Only the first key starts where the item does. */
  lemma FirstOnly(src: string, s: nat, ls: seq<Line>, ps: seq<Pair>, i: nat)
    requires AllPlaced(src, s, ls, ps) && i < |ls|
    ensures ps[i].keyStart == ps[0].keyStart <==> i == 0
  {
    if i > 0 {
      KeyFacts(src, s, ls, ps, 0, s + LinePos(ls, 0), s + LinePos(ls, 1));
      KeyFacts(src, s, ls, ps, i, s + LinePos(ls, i), s + LinePos(ls, i + 1));
      LinesGrow(ls, 1, i);
    }
  }

  // ----- the edits of one item

  lemma DroppedText(src: string, a: nat, f: Line, p: Pair)
    requires TextAt(src, a, f, p)
    ensures var b := p.valEnd + |f.trail|; src[a..a + |f.above|] + "" + src[b..b] == LineText(Other(f.above))
  {
  }

  lemma RewrittenText(src: string, a: nat, f: Line, p: Pair, text: string, v: Value)
    requires TextAt(src, a, f, p)
    ensures src[a..p.valStart] + text + src[p.valEnd..p.valEnd + |f.trail|] == LineText(f.(val := text, value := v))
  {
    assert src[a..p.valStart] == src[a..a + |f.above|] + src[a + |f.above|..p.valStart];
  }

  lemma UntouchedText(src: string, a: nat, f: Line, p: Pair)
    requires TextAt(src, a, f, p)
    ensures src[a..p.valEnd + |f.trail|] == LineText(f)
  {
    FieldText(src, a, f, p);
  }

  /**
   One key: its lines go but for the comments above them, or its value is replaced, or they are passed over.
   `line` is where they start without the comments, b where they end.
   */
  ghost function KeyProgress(pr: Progress, p: Pair, f: Line, line: nat, b: nat, want: Pairs,
                             render: Renderer): (pr': Progress)
    ensures pr'.at == b && pr'.text == pr.text + LineText(UpdatedLine(render, f, want))
  {
    var text := LineText(UpdatedLine(render, f, want));
    match Lookup(want, p.name)
    case None => Put(pr, Edit(line, b, "", |pr.edits|), b, text)
    case Some(v) =>
      if v == p.value then Pass(pr, b, text)
        else Put(pr, Edit(p.valStart, p.valEnd, render.scalar(v), |pr.edits|), b, text)
  }

  /** Key i of an item at s. */
  ghost function KeyStep(now: Progress, s: nat, ls: seq<Line>, ps: seq<Pair>, i: nat, want: Pairs,
                         render: Renderer): (pr': Progress)
    requires i < |ls| == |ps| && ls[i].Field?
    ensures pr'.at == s + LinePos(ls, i + 1) && pr'.text == now.text + LineText(UpdatedLine(render, ls[i], want))
  {
    KeyProgress(now, ps[i], ls[i], s + LinePos(ls, i) + |ls[i].above|, s + LinePos(ls, i) + LineLength(ls[i]), want,
                render)
  }

  lemma KeyStepIs(now: Progress, s: nat, ls: seq<Line>, ps: seq<Pair>, i: nat, line: nat, b: nat, want: Pairs,
                  render: Renderer)
    requires i < |ls| == |ps| && ls[i].Field?
    requires line == s + LinePos(ls, i) + |ls[i].above| && b == s + LinePos(ls, i) + LineLength(ls[i])
    ensures KeyStep(now, s, ls, ps, i, want, render) == KeyProgress(now, ps[i], ls[i], line, b, want, render)
  {
    hide LinePos, LineLength, KeyProgress;
  }

  /** The first i keys of an item at s. */
  ghost function KeysProgress(pr: Progress, s: nat, ls: seq<Line>, ps: seq<Pair>, i: nat, want: Pairs,
                              render: Renderer): Progress
    requires i <= |ls| == |ps| && forall x :: 0 <= x < |ls| ==> ls[x].Field?
  {
    if i == 0 then pr else KeyStep(KeysProgress(pr, s, ls, ps, i - 1, want, render), s, ls, ps, i - 1, want, render)
  }

  lemma KeyGood(src: string, pr: Progress, p: Pair, f: Line, line: nat, b: nat, want: Pairs, render: Renderer)
    requires Good(src, pr) && TextAt(src, pr.at, f, p) && line == pr.at + |f.above| && b == p.valEnd + |f.trail|
    ensures Good(src, KeyProgress(pr, p, f, line, b, want, render))
  {
    match Lookup(want, p.name)
    case None =>
      DroppedText(src, pr.at, f, p);
      PutGood(src, pr, Edit(line, b, "", |pr.edits|), b, f.above);
    case Some(v) =>
      if v == p.value {
        UntouchedText(src, pr.at, f, p);
        PassGood(src, pr, b, LineText(f));
      } else {
        RewrittenText(src, pr.at, f, p, render.scalar(v), v);
        PutGood(src, pr, Edit(p.valStart, p.valEnd, render.scalar(v), |pr.edits|), b,
                LineText(UpdatedLine(render, f, want)));
      }
  }

  lemma {:induction false} KeysAt(pr: Progress, s: nat, ls: seq<Line>, ps: seq<Pair>, i: nat, want: Pairs,
                                  render: Renderer)
    requires i <= |ls| == |ps| && forall x :: 0 <= x < |ls| ==> ls[x].Field?
    requires pr.at == s
    ensures KeysProgress(pr, s, ls, ps, i, want, render).at == s + LinePos(ls, i)
  {
    hide KeyStep;
  }

  lemma KeyStepGood(src: string, now: Progress, s: nat, ls: seq<Line>, ps: seq<Pair>, i: nat, a: nat, want: Pairs,
                    render: Renderer)
    requires i < |ls| == |ps| && AllPlaced(src, s, ls, ps) && ls[i].Field? && a == s + LinePos(ls, i) &&
      now.at == a && Good(src, now)
    ensures Good(src, KeyStep(now, s, ls, ps, i, want, render))
  {
    hide AllPlaced, Good, KeyProgress, TextAt, LinePos, LineLength, UpdatedLine, LineText;
    var b := a + LineLength(ls[i]);
    KeyText(src, s, ls, ps, i, a, b);
    KeyGood(src, now, ps[i], ls[i], a + |ls[i].above|, b, want, render);
  }

  lemma KeysNext(pr: Progress, s: nat, ls: seq<Line>, ps: seq<Pair>, i: nat, want: Pairs, render: Renderer, n: nat)
    requires i < |ls| == |ps| && n == i + 1 && forall x :: 0 <= x < |ls| ==> ls[x].Field?
    ensures KeysProgress(pr, s, ls, ps, n, want, render)
      == KeyStep(KeysProgress(pr, s, ls, ps, i, want, render), s, ls, ps, i, want, render)
  {
    hide KeyStep, LinePos;
    assert n - 1 == i;
  }

  lemma NoKeysYet(pr: Progress, s: nat, ls: seq<Line>, ps: seq<Pair>, want: Pairs, render: Renderer)
    requires |ls| == |ps| && forall x :: 0 <= x < |ls| ==> ls[x].Field?
    ensures KeysProgress(pr, s, ls, ps, 0, want, render) == pr
  {
  }

  lemma {:induction false} KeysGood(src: string, pr: Progress, s: nat, ls: seq<Line>, ps: seq<Pair>, i: nat,
                                    want: Pairs, render: Renderer)
    requires |ls| == |ps| && AllPlaced(src, s, ls, ps) && forall x :: 0 <= x < |ls| ==> ls[x].Field?
    requires i <= |ls| && pr.at == s && Good(src, pr)
    ensures Good(src, KeysProgress(pr, s, ls, ps, i, want, render))
  {
    hide AllPlaced, Good, KeyStep, LinePos, KeysProgress;
    if i == 0 {
      NoKeysYet(pr, s, ls, ps, want, render);
    } else {
      KeysGood(src, pr, s, ls, ps, i - 1, want, render);
      KeysAt(pr, s, ls, ps, i - 1, want, render);
      KeysNext(pr, s, ls, ps, i - 1, want, render, i);
      KeyStepGood(src, KeysProgress(pr, s, ls, ps, i - 1, want, render), s, ls, ps, i - 1, s + LinePos(ls, i - 1),
                  want, render);
    }
  }

  lemma OneMoreUpdated(render: Renderer, ls: seq<Line>, i: nat, want: Pairs)
    requires 0 < i <= |ls|
    ensures LinesText(UpdatedLines(render, ls[..i], want))
      == LinesText(UpdatedLines(render, ls[..i - 1], want)) + LineText(UpdatedLine(render, ls[i - 1], want))
  {
    var u, l := UpdatedLines(render, ls[..i - 1], want), UpdatedLine(render, ls[i - 1], want);
    assert ls[..i][..i - 1] == ls[..i - 1];
    assert (u + [l])[..|u|] == u;
  }

  lemma {:induction false} KeysText(pr: Progress, s: nat, ls: seq<Line>, ps: seq<Pair>, i: nat, want: Pairs,
                                    render: Renderer)
    requires i <= |ls| == |ps| && forall x :: 0 <= x < |ls| ==> ls[x].Field?
    ensures KeysProgress(pr, s, ls, ps, i, want, render).text ==
      pr.text + LinesText(UpdatedLines(render, ls[..i], want))
  {
    hide KeyStep, UpdatedLine, LineText;
    if i == 0 {
      assert ls[..0] == [];
      assert pr.text + "" == pr.text;
    } else {
      KeysText(pr, s, ls, ps, i - 1, want, render);
      OneMoreUpdated(render, ls, i, want);
      Assoc(pr.text, LinesText(UpdatedLines(render, ls[..i - 1], want)),
            LineText(UpdatedLine(render, ls[i - 1], want)));
    }
  }

  /** Insert at pos, starting a new line first when pos is the end of an unfinished last line. */
  function InsertAt(src: string, pos: nat, text: string, num: nat): Edit {
    Edit(pos, pos, (if Unfinished(src, pos) then "\n" else "") + text, num)
  }

  /** An item's keys, then at its end the keys it lacks. */
  ghost function ItemProgress(src: string, pr: Progress, node: Node, m: MapNode, want: Pairs,
                              render: Renderer): Progress
    requires |node.lines| == |m.pairs| && forall x :: 0 <= x < |node.lines| ==> node.lines[x].Field?
  {
    var keys := KeysProgress(pr, pr.at, node.lines, m.pairs, |m.pairs|, want, render);
    var added := AddedLines(render, PairsOf(node.lines), want, node.keyCol);
    if added == [] then keys
    else
      var e := InsertAt(src, keys.at, LinesText(added), |keys.edits|);
      Put(keys, e, keys.at, e.text)
  }

  /** The item at s with its keys, and the end the code finds for it. */
  ghost predicate ItemReady(src: string, s: nat, end: nat, node: Node, m: MapNode) {
    && m.pairs != [] && NodeLocated(src, s, node, m) && end == s + LinePos(node.lines, |node.lines|)
    && forall x :: 0 <= x < |node.lines| ==> node.lines[x].Field?
  }

  lemma ReadyPairs(src: string, s: nat, node: Node, m: MapNode)
    requires NodeLocated(src, s, node, m)
    ensures NodePairs(m.pairs) == PairsOf(node.lines)
  {
    if m.pairs != [] {
      forall i | 0 <= i < |m.pairs|
        ensures node.lines[i].Field? && m.pairs[i].name == node.lines[i].name && m.pairs[i].value == node.lines[i].value
      {
        KeyFacts(src, s, node.lines, m.pairs, i, s + LinePos(node.lines, i), s + LinePos(node.lines, i + 1));
      }
      NodePairsAre(m.pairs, node.lines);
    }
  }

  lemma KeysEnd(src: string, s: nat, node: Node, m: MapNode)
    requires m.pairs != [] && NodeLocated(src, s, node, m)
    ensures s + LinePos(node.lines, |node.lines|) <= |src|
  {
    var n := |node.lines|;
    KeyFacts(src, s, node.lines, m.pairs, n - 1, s + LinePos(node.lines, n - 1), s + LinePos(node.lines, n));
  }

  lemma InsertGood(src: string, pr: Progress, text: string)
    requires Good(src, pr)
    ensures var e := InsertAt(src, pr.at, text, |pr.edits|); Good(src, Put(pr, e, pr.at, e.text))
  {
    var e := InsertAt(src, pr.at, text, |pr.edits|);
    assert src[pr.at..pr.at] + e.text + src[pr.at..pr.at] == e.text;
    PutGood(src, pr, e, pr.at, e.text);
  }

  lemma ItemGood(src: string, pr: Progress, end: nat, node: Node, m: MapNode, want: Pairs, render: Renderer)
    requires ItemReady(src, pr.at, end, node, m) && Good(src, pr)
    ensures Good(src, ItemProgress(src, pr, node, m, want, render))
    ensures ItemProgress(src, pr, node, m, want, render).at == end
  {
    var keys := KeysProgress(pr, pr.at, node.lines, m.pairs, |m.pairs|, want, render);
    KeysGood(src, pr, pr.at, node.lines, m.pairs, |m.pairs|, want, render);
    KeysAt(pr, pr.at, node.lines, m.pairs, |m.pairs|, want, render);
    KeysEnd(src, pr.at, node, m);
    var added := AddedLines(render, PairsOf(node.lines), want, node.keyCol);
    if added != [] {
      InsertGood(src, keys, LinesText(added));
    }
  }

  lemma {:induction false} BlocksTextAppend(render: Renderer, indent: nat, a: seq<Block>, b: seq<Block>)
    ensures BlocksText(render, indent, a + b) == BlocksText(render, indent, a) + BlocksText(render, indent, b)
  {
    if b == [] {
      assert a + b == a;
    } else {
      var init, l := b[..|b| - 1], b[|b| - 1];
      BlocksTextAppend(render, indent, a, init);
      assert (a + b)[..|a + b| - 1] == a + init && (a + b)[|a + b| - 1] == l;
      Assoc(BlocksText(render, indent, a), BlocksText(render, indent, init), BlockText(render, indent, l));
    }
  }

  lemma BlocksTextOne(render: Renderer, indent: nat, b: Block)
    ensures BlocksText(render, indent, [b]) == BlockText(render, indent, b)
  {
    assert [b][..0] == [];
  }

  lemma UpdatedItemText(render: Renderer, node: Node, want: Pairs, unfinished: bool)
    ensures var added := AddedLines(render, PairsOf(node.lines), want, node.keyCol);
      LinesText(UpdatedItem(render, node, want, unfinished)) == LinesText(UpdatedLines(render, node.lines, want)) +
        if added == [] then "" else (if unfinished then "\n" else "") + LinesText(added)
  {
    hide LinesText, Finished, UpdatedLines, AddedLines;
    var kept := UpdatedLines(render, node.lines, want);
    var added := AddedLines(render, PairsOf(node.lines), want, node.keyCol);
    if added == [] {
      assert kept + added == kept;
    } else if unfinished {
      FinishedIs(kept);
      LinesTextAppend(Finished(kept), added);
      Assoc(LinesText(kept), "\n", LinesText(added));
    } else {
      LinesTextAppend(kept, added);
      assert "" + LinesText(added) == LinesText(added);
    }
  }

  lemma ItemText(src: string, pr: Progress, end: nat, node: Node, m: MapNode, want: Pairs, render: Renderer)
    requires |node.lines| == |m.pairs| && forall x :: 0 <= x < |node.lines| ==> node.lines[x].Field?
    requires end == pr.at + LinePos(node.lines, |node.lines|)
    ensures ItemProgress(src, pr, node, m, want, render).text
      == pr.text + LinesText(UpdatedItem(render, node, want, Unfinished(src, end)))
  {
    KeysText(pr, pr.at, node.lines, m.pairs, |m.pairs|, want, render);
    KeysAt(pr, pr.at, node.lines, m.pairs, |m.pairs|, want, render);
    assert node.lines[..|node.lines|] == node.lines;
    UpdatedItemText(render, node, want, Unfinished(src, end));
    var added := AddedLines(render, PairsOf(node.lines), want, node.keyCol);
    var kept := LinesText(UpdatedLines(render, node.lines, want));
    if added == [] {
      assert kept + "" == kept;
    } else {
      Assoc(pr.text, kept, (if Unfinished(src, end) then "\n" else "") + LinesText(added));
    }
  }

  // ----- the edits of the list

  /**
   The positions that matter once the layout is known: item x runs from at[x] to end[x], then gap[x] to
   at[x + 1], where at[n] is the end of the last item.
   */
  datatype Layout = Layout(at: seq<nat>, end: seq<nat>, gap: seq<string>)

  ghost predicate ItemFits(src: string, l: Layout, x: nat)
    requires x < |l.end| == |l.gap| < |l.at|
  {
    l.at[x] <= l.end[x] <= l.at[x + 1] <= |src| && src[l.end[x]..l.at[x + 1]] == l.gap[x]
  }

  /** Everything a run over the list is given: the text, where items are, and how to write. */
  datatype Job = Job(src: string, l: Layout, items: seq<Node>, nodes: seq<MapNode>, render: Renderer, indent: nat)
  {
    ghost predicate Sized() {
      |items| == |nodes| == |l.end| == |l.gap| && |l.at| == |items| + 1
    }

    ghost predicate ItemIs(k: nat)
      requires Sized() && k < |items|
    {
      && ItemFits(src, l, k)
      && |items[k].lines| == |nodes[k].pairs| && (forall x :: 0 <= x < |items[k].lines| ==> items[k].lines[x].Field?)
      && ItemReady(src, l.at[k], l.end[k], items[k], nodes[k])
    }

    ghost predicate Ready() {
      Sized() && forall k {:trigger ItemIs(k)} :: 0 <= k < |items| ==> ItemIs(k)
    }
  }

  ghost function RemovalProgress(l: Layout, x: nat, pr: Progress): Progress
    requires x < |l.end| == |l.gap| < |l.at|
  {
    Put(pr, Edit(l.at[x], l.end[x], "", |pr.edits|), l.at[x + 1], l.gap[x])
  }

  /** Items j up to k deleted, the gaps after them passed over. */
  ghost function RemovalsProgress(l: Layout, j: nat, k: nat, pr: Progress): Progress
    requires j <= k <= |l.end| == |l.gap| < |l.at|
  {
    if j == k then pr else RemovalProgress(l, k - 1, RemovalsProgress(l, j, k - 1, pr))
  }

  ghost function InsertionProgress(job: Job, want: Pairs, pr: Progress): (pr': Progress)
    ensures pr'.at == pr.at
  {
    var e := InsertAt(job.src, pr.at, job.render.item(want, job.indent), |pr.edits|);
    Put(pr, e, pr.at, e.text)
  }

  ghost function MatchProgress(job: Job, j: nat, k: nat, want: Pairs, pr: Progress): (pr': Progress)
    requires job.Ready() && j <= k < |job.items|
    ensures pr'.at == job.l.at[k + 1]
  {
    assert job.ItemIs(k);
    var gone := RemovalsProgress(job.l, j, k, pr);
    Pass(ItemProgress(job.src, gone, job.items[k], job.nodes[k], want, job.render), job.l.at[k + 1], job.l.gap[k])
  }

  /** The whole list from item j on, in the order the edits are recorded. */
  ghost function ListProgress(job: Job, j: nat, next: seq<Pairs>, pr: Progress): Progress
    requires job.Ready() && j <= |job.items|
    decreases |next|
  {
    if next == [] then RemovalsProgress(job.l, j, |job.items|, pr)
    else
      match Find(job.items, j, Lookup(next[0], "path"))
      case None => ListProgress(job, j, next[1..], InsertionProgress(job, next[0], pr))
      case Some(k) => ListProgress(job, k + 1, next[1..], MatchProgress(job, j, k, next[0], pr))
  }

  lemma RemovalGood(job: Job, x: nat, pr: Progress)
    requires job.Ready() && x < |job.items| && Good(job.src, pr) && pr.at == job.l.at[x]
    ensures Good(job.src, RemovalProgress(job.l, x, pr))
  {
    assert job.ItemIs(x);
    var l := job.l;
    var gap := job.src[l.end[x]..l.at[x + 1]];
    assert job.src[l.at[x]..l.at[x]] + "" + gap == gap;
    PutGood(job.src, pr, Edit(l.at[x], l.end[x], "", |pr.edits|), l.at[x + 1], l.gap[x]);
  }

  lemma {:induction false} RemovalsGood(job: Job, j: nat, k: nat, pr: Progress)
    requires job.Ready() && j <= k <= |job.items| && Good(job.src, pr) && pr.at == job.l.at[j]
    ensures Good(job.src, RemovalsProgress(job.l, j, k, pr)) && RemovalsProgress(job.l, j, k, pr).at == job.l.at[k]
  {
    if j < k {
      RemovalsGood(job, j, k - 1, pr);
      RemovalGood(job, k - 1, RemovalsProgress(job.l, j, k - 1, pr));
    }
  }

  lemma UpdateGood(job: Job, k: nat, want: Pairs, pr: Progress)
    requires job.Ready() && k < |job.items| && Good(job.src, pr) && pr.at == job.l.at[k]
    ensures job.ItemIs(k)
    ensures Good(job.src,
                 Pass(ItemProgress(job.src, pr, job.items[k], job.nodes[k], want, job.render), job.l.at[k + 1],
                      job.l.gap[k]))
  {
    assert job.ItemIs(k);
    ItemGood(job.src, pr, job.l.end[k], job.items[k], job.nodes[k], want, job.render);
    PassGood(job.src, ItemProgress(job.src, pr, job.items[k], job.nodes[k], want, job.render), job.l.at[k + 1],
             job.l.gap[k]);
  }

  lemma MatchGood(job: Job, j: nat, k: nat, want: Pairs, pr: Progress)
    requires job.Ready() && j <= k < |job.items| && Good(job.src, pr) && pr.at == job.l.at[j]
    ensures Good(job.src, MatchProgress(job, j, k, want, pr))
  {
    RemovalsGood(job, j, k, pr);
    UpdateGood(job, k, want, RemovalsProgress(job.l, j, k, pr));
  }

  lemma InsertionGood(job: Job, want: Pairs, pr: Progress)
    requires Good(job.src, pr)
    ensures Good(job.src, InsertionProgress(job, want, pr))
  {
    InsertGood(job.src, pr, job.render.item(want, job.indent));
  }

  /** The recorded edits never overlap, and make of the text what the progress says. */
  lemma {:induction false} ListGood(job: Job, j: nat, next: seq<Pairs>, pr: Progress)
    requires job.Ready() && j <= |job.items| && Good(job.src, pr) && pr.at == job.l.at[j]
    ensures Good(job.src, ListProgress(job, j, next, pr)) && ListProgress(job, j, next, pr).at == job.l.at[|job.items|]
    decreases |next|
  {
    hide Good, MatchProgress, RemovalsProgress, InsertionProgress, Lookup;
    if next == [] {
      RemovalsGood(job, j, |job.items|, pr);
    } else {
      match Find(job.items, j, Lookup(next[0], "path"))
      case None =>
        InsertionGood(job, next[0], pr);
        ListGood(job, j, next[1..], InsertionProgress(job, next[0], pr));
      case Some(k) =>
        MatchGood(job, j, k, next[0], pr);
        ListGood(job, k + 1, next[1..], MatchProgress(job, j, k, next[0], pr));
    }
  }

  // ----- the text it leaves

  ghost function GapText(d: Doc, k: nat): string
    requires Shaped(d) && k < |d.items|
  {
    if k + 1 < |d.items| then d.gaps[k + 1] else ""
  }

  ghost function LayoutOf(d: Doc): (l: Layout)
    requires Shaped(d)
    ensures |l.at| == |d.items| + 1 && |l.end| == |d.items| == |l.gap|
    ensures forall k :: 0 <= k <= |d.items| ==> l.at[k] == At(d, k)
    ensures forall k :: 0 <= k < |d.items| ==> l.end[k] == End(d, k) && l.gap[k] == GapText(d, k)
  {
    Layout(seq(|d.items| + 1, k requires 0 <= k <= |d.items| => At(d, k)),
           seq(|d.items|, k requires 0 <= k < |d.items| => End(d, k)),
           seq(|d.items|, k requires 0 <= k < |d.items| => GapText(d, k)))
  }

  lemma GapAfterText(render: Renderer, indent: nat, d: Doc, k: nat)
    requires Shaped(d) && k < |d.items|
    ensures BlocksText(render, indent, GapAfter(d, k)) == GapText(d, k)
  {
    if k + 1 < |d.items| {
      BlocksTextOne(render, indent, Gap(d.gaps[k + 1]));
    }
  }

  lemma ThenText(render: Renderer, indent: nat, text: string, first: seq<Block>, rest: seq<Block>)
    ensures text + BlocksText(render, indent, first) + BlocksText(render, indent, rest)
      == text + BlocksText(render, indent, first + rest)
  {
    BlocksTextAppend(render, indent, first, rest);
    Assoc(text, BlocksText(render, indent, first), BlocksText(render, indent, rest));
  }

  function GapTexts(gaps: seq<string>, j: nat, k: nat): string
    requires j <= k <= |gaps|
  {
    if j == k then "" else GapTexts(gaps, j, k - 1) + gaps[k - 1]
  }

  lemma GapTextsNext(gaps: seq<string>, j: nat, k: nat, n: nat)
    requires j <= k < |gaps| && n == k + 1
    ensures GapTexts(gaps, j, n) == GapTexts(gaps, j, k) + gaps[k]
  {
    assert n - 1 == k;
  }

  lemma NoGapTexts(gaps: seq<string>, j: nat)
    requires j <= |gaps|
    ensures GapTexts(gaps, j, j) == ""
  {
  }

  lemma NothingRemoved(render: Renderer, indent: nat, d: Doc, j: nat)
    requires |d.gaps| == |d.items|
    ensures BlocksText(render, indent, Removed(d, j, j)) == ""
  {
  }

  lemma {:induction false} RemovedText(render: Renderer, indent: nat, d: Doc, gaps: seq<string>, j: nat, k: nat)
    requires Shaped(d) && j <= k <= |d.items| == |gaps| && forall x :: 0 <= x < |gaps| ==> gaps[x] == GapText(d, x)
    ensures BlocksText(render, indent, Removed(d, j, k)) == GapTexts(gaps, j, k)
  {
    hide BlocksText, GapAfter, GapText, Removed, GapTexts;
    NoGapTexts(gaps, j);
    if j == k {
      NothingRemoved(render, indent, d, j);
    } else {
      RemovedText(render, indent, d, gaps, j, k - 1);
      RemovedNext(d, j, k - 1, k);
      GapTextsNext(gaps, j, k - 1, k);
      GapAfterText(render, indent, d, k - 1);
      BlocksTextAppend(render, indent, Removed(d, j, k - 1), GapAfter(d, k - 1));
    }
  }

  lemma {:induction false} RemovalsText(l: Layout, j: nat, k: nat, pr: Progress)
    requires j <= k <= |l.end| == |l.gap| < |l.at|
    ensures RemovalsProgress(l, j, k, pr).text == pr.text + GapTexts(l.gap, j, k)
  {
    if j == k {
      assert pr.text + "" == pr.text;
    } else {
      RemovalsText(l, j, k - 1, pr);
      Assoc(pr.text, GapTexts(l.gap, j, k - 1), l.gap[k - 1]);
    }
  }

  lemma MatchedText(render: Renderer, indent: nat, d: Doc, j: nat, k: nat, item: Block, text: string)
    requires Shaped(d) && j <= k < |d.items|
    ensures text + BlocksText(render, indent, Removed(d, j, k)) + BlockText(render, indent, item) + GapText(d, k)
      == text + BlocksText(render, indent, Removed(d, j, k) + [item] + GapAfter(d, k))
  {
    var gone, after := Removed(d, j, k), GapAfter(d, k);
    BlocksTextOne(render, indent, item);
    GapAfterText(render, indent, d, k);
    BlocksTextAppend(render, indent, gone, [item]);
    BlocksTextAppend(render, indent, gone + [item], after);
    Assoc(text, BlocksText(render, indent, gone), BlockText(render, indent, item));
    Assoc(text, BlocksText(render, indent, gone) + BlockText(render, indent, item), GapText(d, k));
  }

  lemma MatchText(job: Job, d: Doc, j: nat, k: nat, want: Pairs, pr: Progress)
    requires Shaped(d) && job.Ready() && job.l == LayoutOf(d) && job.items == d.items && job.src == DocText(d)
    requires j <= k < |d.items| && Good(job.src, pr) && pr.at == job.l.at[j]
    ensures MatchProgress(job, j, k, want, pr).text
      == pr.text + BlocksText(job.render, job.indent, Matched(job.render, d, j, k, want))
  {
    var gone := RemovalsProgress(job.l, j, k, pr);
    var item := Item(UpdatedItem(job.render, d.items[k], want, Unfinished(job.src, End(d, k))));
    assert job.ItemIs(k);
    RemovalsText(job.l, j, k, pr);
    RemovedText(job.render, job.indent, d, job.l.gap, j, k);
    RemovalsGood(job, j, k, pr);
    ItemText(job.src, gone, job.l.end[k], job.items[k], job.nodes[k], want, job.render);
    MatchedText(job.render, job.indent, d, j, k, item, pr.text);
  }

  /** The text the progress claims is the text of the edited list. */
  lemma InsertionFirst(job: Job, d: Doc, j: nat, next: seq<Pairs>, pr: Progress)
    requires Shaped(d) && job.Ready() && job.items == d.items && j <= |d.items| && next != []
    requires Find(d.items, j, Lookup(next[0], "path")) == None
    ensures ListProgress(job, j, next, pr) == ListProgress(job, j, next[1..], InsertionProgress(job, next[0], pr))
    ensures Edited(job.render, d, j, next)
      == [Fresh(Unfinished(DocText(d), At(d, j)), next[0])] + Edited(job.render, d, j, next[1..])
  {
    hide InsertionProgress, Unfinished, Edited, Lookup, DocText, At;
    EditedFresh(job.render, d, j, next);
  }

  lemma MatchFirst(job: Job, d: Doc, j: nat, k: nat, next: seq<Pairs>, pr: Progress)
    requires Shaped(d) && job.Ready() && job.items == d.items && j <= k < |d.items| && next != []
    requires Find(d.items, j, Lookup(next[0], "path")) == Some(k)
    ensures ListProgress(job, j, next, pr) == ListProgress(job, k + 1, next[1..], MatchProgress(job, j, k, next[0], pr))
    ensures Edited(job.render, d, j, next) ==
      Matched(job.render, d, j, k, next[0]) + Edited(job.render, d, k + 1, next[1..])
  {
    hide MatchProgress, Matched, Edited, Lookup, DocText, At;
    EditedMatched(job.render, d, j, k, next);
  }

  lemma InsertionText(job: Job, d: Doc, j: nat, want: Pairs, pr: Progress)
    requires Shaped(d) && job.src == DocText(d) && j <= |d.items| && pr.at == At(d, j)
    ensures InsertionProgress(job, want, pr).text
      == pr.text + BlocksText(job.render, job.indent, [Fresh(Unfinished(DocText(d), At(d, j)), want)])
  {
    BlocksTextOne(job.render, job.indent, Fresh(Unfinished(DocText(d), At(d, j)), want));
  }

  /** One entry inserted: what the rest of the list adds comes after it. */
  lemma InsertionThen(job: Job, d: Doc, j: nat, next: seq<Pairs>, pr: Progress, rest: Progress)
    requires Shaped(d) && job.Ready() && job.items == d.items && job.src == DocText(d) && j <= |d.items| && next != []
    requires pr.at == At(d, j) && Find(d.items, j, Lookup(next[0], "path")) == None
    requires rest == InsertionProgress(job, next[0], pr)
    requires ListProgress(job, j, next[1..], rest).text
      == rest.text + BlocksText(job.render, job.indent, Edited(job.render, d, j, next[1..]))
    ensures ListProgress(job, j, next, pr).text
      == pr.text + BlocksText(job.render, job.indent, Edited(job.render, d, j, next))
  {
    hide InsertionProgress, Shaped, BlocksText, Edited, ListProgress;
    InsertionText(job, d, j, next[0], pr);
    InsertionFirst(job, d, j, next, pr);
    ThenText(job.render, job.indent, pr.text, [Fresh(Unfinished(DocText(d), At(d, j)), next[0])],
             Edited(job.render, d, j, next[1..]));
  }

  /** One entry matched: likewise. */
  lemma MatchThen(job: Job, d: Doc, j: nat, k: nat, next: seq<Pairs>, pr: Progress, rest: Progress)
    requires Shaped(d) && job.Ready() && job.l == LayoutOf(d) && job.items == d.items && job.src == DocText(d)
    requires j <= k < |d.items| && Good(job.src, pr) && pr.at == job.l.at[j] && next != []
    requires Find(d.items, j, Lookup(next[0], "path")) == Some(k)
    requires rest == MatchProgress(job, j, k, next[0], pr)
    requires ListProgress(job, k + 1, next[1..], rest).text
      == rest.text + BlocksText(job.render, job.indent, Edited(job.render, d, k + 1, next[1..]))
    ensures ListProgress(job, j, next, pr).text
      == pr.text + BlocksText(job.render, job.indent, Edited(job.render, d, j, next))
  {
    hide MatchProgress, Matched, Good, Shaped, BlocksText, Edited, ListProgress, LayoutOf;
    MatchText(job, d, j, k, next[0], pr);
    MatchFirst(job, d, j, k, next, pr);
    ThenText(job.render, job.indent, pr.text, Matched(job.render, d, j, k, next[0]),
             Edited(job.render, d, k + 1, next[1..]));
  }

  lemma LeftoverText(job: Job, d: Doc, j: nat, pr: Progress)
    requires Shaped(d) && job.Ready() && job.l == LayoutOf(d) && job.items == d.items && j <= |d.items|
    ensures ListProgress(job, j, [], pr).text ==
      pr.text + BlocksText(job.render, job.indent, Edited(job.render, d, j, []))
  {
    hide BlocksText, RemovalsProgress, Removed;
    assert Edited(job.render, d, j, []) == Removed(d, j, |d.items|);
    assert ListProgress(job, j, [], pr) == RemovalsProgress(job.l, j, |job.items|, pr);
    RemovalsText(job.l, j, |d.items|, pr);
    RemovedText(job.render, job.indent, d, job.l.gap, j, |d.items|);
  }

  lemma {:induction false} ListText(job: Job, d: Doc, j: nat, next: seq<Pairs>, pr: Progress)
    requires Shaped(d) && job.Ready() && job.l == LayoutOf(d) && job.items == d.items && job.src == DocText(d)
    requires j <= |d.items| && Good(job.src, pr) && pr.at == job.l.at[j]
    ensures ListProgress(job, j, next, pr).text
      == pr.text + BlocksText(job.render, job.indent, Edited(job.render, d, j, next))
    decreases |next|
  {
    hide MatchProgress, Good, InsertionProgress, ListProgress, Edited, BlocksText, Find, Shaped, LayoutOf, Lookup,
         DocText;
    if next == [] {
      LeftoverText(job, d, j, pr);
    } else {
      match Find(job.items, j, Lookup(next[0], "path"))
      case None =>
        InsertionGood(job, next[0], pr);
        var rest := InsertionProgress(job, next[0], pr);
        ListText(job, d, j, next[1..], rest);
        InsertionThen(job, d, j, next, pr, rest);
      case Some(k) =>
        MatchGood(job, j, k, next[0], pr);
        var rest := MatchProgress(job, j, k, next[0], pr);
        ListText(job, d, k + 1, next[1..], rest);
        MatchThen(job, d, j, k, next, pr, rest);
    }
  }

  // ----- the code

  /** Where an item's dash and end are, and the column of its keys. */
  datatype Span = Span(dash: nat, end: nat, keyCol: nat)

  ghost predicate SpanIs(src: string, s: nat, node: Node, span: Span) {
    && node.lines != [] && node.lines[0].Field? && node.keyCol <= |node.lines[0].lead|
    && LineStart(src, span.dash) == s && span.dash == s + LastDash(node.lines[0].lead, node.keyCol)
    && span.end == s + |LinesText(node.lines)| && span.keyCol == node.keyCol
  }

  lemma AddedTextNext(render: Renderer, have: Pairs, want: Pairs, i: nat, keyCol: nat)
    requires i < |want|
    ensures var before := AddedLines(render, have, want[..i], keyCol);
      if Lookup(have, want[i].0).Some? then AddedLines(render, have, want[..i + 1], keyCol) == before
      else
        && AddedLines(render, have, want[..i + 1], keyCol) != []
        && LineText(AddedLine(render, want[i].0, want[i].1, keyCol)) != ""
        && LinesText(AddedLines(render, have, want[..i + 1], keyCol))
             == LinesText(before) + LineText(AddedLine(render, want[i].0, want[i].1, keyCol))
  {
    assert want[..i + 1][..i] == want[..i];
    var before, l := AddedLines(render, have, want[..i], keyCol), AddedLine(render, want[i].0, want[i].1, keyCol);
    assert (before + [l])[..|before|] == before;
  }

  lemma NoLines()
    ensures LinesText([]) == ""
  {
  }

  ghost predicate AllAddable(have: Pairs, want: Pairs, n: nat) {
    n <= |want| && forall i :: 0 <= i < n && Lookup(have, want[i].0).None? ==> want[i].1.Scalar?
  }

  method AddedText(render: Renderer, have: Pairs, want: Pairs, keyCol: nat) returns (text: Option<string>)
    ensures text.Some? <==> forall p :: p in want && Lookup(have, p.0).None? ==> p.1.Scalar?
    ensures text.Some? ==> text.value == LinesText(AddedLines(render, have, want, keyCol))
    ensures text.Some? ==> (text.value == "" <==> AddedLines(render, have, want, keyCol) == [])
  {
    hide LinesText, LineText, AddedLine;
    var added := "";
    NoLines();
    for i := 0 to |want|
      invariant AllAddable(have, want, i)
      invariant added == LinesText(AddedLines(render, have, want[..i], keyCol))
      invariant added == "" <==> AddedLines(render, have, want[..i], keyCol) == []
    {
      var (name, v) := want[i];
      AddedTextNext(render, have, want, i, keyCol);
      if Lookup(have, name).None? {
        if v.Nested? {
          assert want[i] in want;
          return None;
        }
        added := added + LineText(AddedLine(render, name, v, keyCol));
      }
    }
    assert want[..|want|] == want;
    text := Some(added);
  }

  /** One key's edit, or none, or failure when it cannot be edited in place. */
  method UpdateKey(src: string, p: Pair, start: nat, want: Pairs, render: Renderer, edits: seq<Edit>,
                   ghost pr: Progress, ghost ls: seq<Line>, ghost i: nat, ghost line: nat, ghost b: nat)
    returns (more: Option<seq<Edit>>)
    requires i < |ls| && ls[i].Field? && p.name == ls[i].name && p.value == ls[i].value
    requires p.keyStart == start <==> i == 0
    requires LineStart(src, p.keyStart) == line && LineEndIncl(src, p.valEnd) == b && pr.edits == edits
    ensures more.Some? <==> LineUpdatable(ls, i, want)
    ensures more.Some? ==> more.value == KeyProgress(pr, p, ls[i], line, b, want, render).edits
  {
    match Lookup(want, p.name) {
      case None =>
        if p.keyStart == start || p.value.Nested? {
          return None;
        }
        return Some(edits + [Edit(LineStart(src, p.keyStart), LineEndIncl(src, p.valEnd), "", |edits|)]);
      case Some(v) =>
        if v == p.value {
          return Some(edits);
        }
        if p.value.Nested? || v.Nested? {
          return None;
        }
        return Some(edits + [Edit(p.valStart, p.valEnd, render.scalar(v), |edits|)]);
    }
  }

  /** The first n keys can be edited in place. */
  ghost predicate UpdatableUpto(ls: seq<Line>, n: nat, want: Pairs) {
    n <= |ls| && forall x {:trigger LineUpdatable(ls, x, want)} :: 0 <= x < n ==> LineUpdatable(ls, x, want)
  }

  lemma NoneYet(ls: seq<Line>, want: Pairs)
    ensures UpdatableUpto(ls, 0, want)
  {
  }

  lemma UptoNext(ls: seq<Line>, i: nat, want: Pairs, n: nat)
    requires i < |ls| && n == i + 1
    ensures UpdatableUpto(ls, n, want) <==> UpdatableUpto(ls, i, want) && LineUpdatable(ls, i, want)
  {
    hide LineUpdatable;
  }

  lemma UptoFails(ls: seq<Line>, i: nat, want: Pairs)
    requires i < |ls| && !LineUpdatable(ls, i, want)
    ensures !UpdatableUpto(ls, |ls|, want)
  {
    hide LineUpdatable;
  }

  method UpdateKeys(src: string, m: MapNode, want: Pairs, render: Renderer, edits: seq<Edit>,
                    ghost pr: Progress, ghost ls: seq<Line>)
    returns (more: Option<seq<Edit>>)
    requires |ls| == |m.pairs| && AllPlaced(src, pr.at, ls, m.pairs) && forall x :: 0 <= x < |ls| ==> ls[x].Field?
    requires m.pairs != [] && m.start == m.pairs[0].keyStart && pr.edits == edits
    ensures more.Some? <==> UpdatableUpto(ls, |ls|, want)
    ensures more.Some? ==> more.value == KeysProgress(pr, pr.at, ls, m.pairs, |m.pairs|, want, render).edits
  {
    hide AllPlaced, LineUpdatable, UpdatableUpto, KeyProgress, KeyStep;
    var es := edits;
    ghost var s, now := pr.at, pr;
    NoneYet(ls, want);
    for i := 0 to |m.pairs|
      invariant UpdatableUpto(ls, i, want)
      invariant now == KeysProgress(pr, s, ls, m.pairs, i, want, render)
      invariant es == now.edits && now.at == s + LinePos(ls, i)
    {
      ghost var a := s + LinePos(ls, i);
      ghost var line, b := a + |ls[i].above|, a + LineLength(ls[i]);
      KeyFacts(src, s, ls, m.pairs, i, a, b);
      KeyLines(src, s, ls, m.pairs, i, a, b, line);
      FirstOnly(src, s, ls, m.pairs, i);
      KeysNext(pr, s, ls, m.pairs, i, want, render, i + 1);
      var next := UpdateKey(src, m.pairs[i], m.start, want, render, es, now, ls, i, line, b);
      if next.None? {
        UptoFails(ls, i, want);
        return None;
      }
      UptoNext(ls, i, want, i + 1);
      es := next.value;
      KeyStepIs(now, s, ls, m.pairs, i, line, b, want, render);
      now := KeyStep(now, s, ls, m.pairs, i, want, render);
    }
    more := Some(es);
  }

  method UpdateItem(src: string, m: MapNode, span: Span, want: Pairs, render: Renderer, edits: seq<Edit>,
                    ghost pr: Progress, ghost node: Node)
    returns (more: Option<seq<Edit>>)
    requires ItemReady(src, pr.at, span.end, node, m) && span.keyCol == node.keyCol && pr.edits == edits
    ensures |node.lines| == |m.pairs|
    ensures more.Some? <==> Updatable(node.lines, want)
    ensures more.Some? ==> more.value == ItemProgress(src, pr, node, m, want, render).edits
  {
    var keys := UpdateKeys(src, m, want, render, edits, pr, node.lines);
    if keys.None? {
      return None;
    }
    KeysAt(pr, pr.at, node.lines, m.pairs, |m.pairs|, want, render);
    ReadyPairs(src, pr.at, node, m);
    var added := AddedText(render, NodePairs(m.pairs), want, span.keyCol);
    if added.None? {
      return None;
    }
    if added.value == "" {
      return keys;
    }
    return Some(keys.value + [InsertAt(src, span.end, added.value, |keys.value|)]);
  }

  method FindPath(paths: seq<Option<Value>>, j: nat, path: Option<Value>, ghost items: seq<Node>)
    returns (k: Option<nat>)
    requires |paths| == |items| && j <= |items|
    requires forall x :: 0 <= x < |items| ==> paths[x] == Lookup(PairsOf(items[x].lines), "path")
    ensures k == Find(items, j, path)
  {
    hide Lookup, PairsOf;
    var x := j;
    while x < |paths|
      invariant j <= x <= |paths| && Find(items, j, path) == Find(items, x, path)
    {
      if paths[x] == path {
        return Some(x);
      }
      x := x + 1;
    }
    k := None;
  }

  lemma FirstLead(src: string, a: nat, f: Line, p: Pair)
    requires TextAt(src, a, f, p) && f.above == ""
    ensures p.keyStart < a + |f.lead| <= |src| && src[a..a + |f.lead|] == f.lead
  {
  }

  /** A dash on the first key's line is at the line's start or after it. */
  lemma DashFacts(src: string, s: nat, node: Node, m: MapNode)
    requires m.pairs != [] && NodeLocated(src, s, node, m)
    ensures m.start <= |src| && node.keyCol <= |node.lines[0].lead|
    ensures var col := LastDash(node.lines[0].lead, node.keyCol);
      if col >= 0 then LastDash(src, m.start) == s + col else LastDash(src, m.start) < s
  {
    hide TextAt, LastDash;
    KeyText(src, s, node.lines, m.pairs, 0, s, s + LineLength(node.lines[0]));
    FirstLead(src, s, node.lines[0], m.pairs[0]);
    LastDashIs(src, s, node.lines[0].lead, node.keyCol, m.start);
  }

  lemma StartOnLine(src: string, s: nat, node: Node, m: MapNode)
    requires m.pairs != [] && NodeLocated(src, s, node, m)
    ensures m.start <= |src| && LineStart(src, m.start) == s
  {
    KeyLines(src, s, node.lines, m.pairs, 0, s, s + LineLength(node.lines[0]), s);
  }

  lemma DashOnLine(src: string, s: nat, node: Node, m: MapNode, dash: nat)
    requires m.pairs != [] && NodeLocated(src, s, node, m) && s <= dash < m.start
    ensures LineStart(src, dash) == s
  {
    hide TextAt;
    KeyOnLines(src, s, node.lines, m.pairs, 0, s, s + LineLength(node.lines[0]), s);
    LineStartIs(src, s, dash);
  }

  lemma EndFacts(src: string, s: nat, node: Node, m: MapNode)
    requires m.pairs != [] && NodeLocated(src, s, node, m)
    ensures LineEndIncl(src, m.pairs[|m.pairs| - 1].valEnd) == s + LinePos(node.lines, |node.lines|)
    ensures s + LinePos(node.lines, |node.lines|) == s + |LinesText(node.lines)|
  {
    hide LineEndIncl, TextAt, LinesText, LastDash, LinePos;
    var n := |node.lines|;
    LinePosNext(node.lines, n - 1, n);
    var a, b := s + LinePos(node.lines, n - 1), s + LinePos(node.lines, n);
    KeyFacts(src, s, node.lines, m.pairs, n - 1, a, b);
    KeyLines(src, s, node.lines, m.pairs, n - 1, a, b, a + |node.lines[n - 1].above|);
    LinePosIs(node.lines, n);
    assert node.lines[..n] == node.lines;
  }

  method SpanOf(src: string, m: MapNode, ghost s: nat, ghost node: Node) returns (span: Option<Span>)
    requires NodeLocated(src, s, node, m)
    ensures span.Some? <==> Dashed(node, m)
    ensures span.Some? ==> SpanIs(src, s, node, span.value)
  {
    if m.pairs == [] {
      return None;
    }
    DashFacts(src, s, node, m);
    StartOnLine(src, s, node, m);
    EndFacts(src, s, node, m);
    var ls := LineStart(src, m.start);
    var dash := LastDash(src, m.start);
    if dash < ls {
      return None;
    }
    DashOnLine(src, s, node, m, dash);
    span := Some(Span(dash, LineEndIncl(src, m.pairs[|m.pairs| - 1].valEnd), m.start - ls));
  }

  ghost function JobOf(src: string, nodes: seq<MapNode>, d: Doc, render: Renderer, indent: nat): Job
    requires Shaped(d)
  {
    Job(src, LayoutOf(d), d.items, nodes, render, indent)
  }

  lemma GapFits(d: Doc, k: nat)
    requires Shaped(d) && k < |d.items|
    ensures At(d, k) <= End(d, k) <= At(d, k + 1) <= |DocText(d)|
    ensures DocText(d)[End(d, k)..At(d, k + 1)] == GapText(d, k)
  {
    hide LinesText, DocText, Upto;
    ItemAt(d, k);
    if k + 1 < |d.items| {
      GapAt(d, k);
    }
  }

  lemma ItemIsReady(src: string, nodes: seq<MapNode>, d: Doc, k: nat)
    requires Located(src, nodes, d) && k < |nodes| && nodes[k].pairs != []
    ensures ItemReady(src, Start(d, k), End(d, k), d.items[k], nodes[k])
    ensures |d.items[k].lines| == |nodes[k].pairs|
  {
    var s, node, m := Start(d, k), d.items[k], nodes[k];
    assert NodeLocated(src, s, node, m);
    EndFacts(src, s, node, m);
    forall x | 0 <= x < |node.lines|
      ensures node.lines[x].Field?
    {
      KeyFacts(src, s, node.lines, m.pairs, x, s + LinePos(node.lines, x), s + LinePos(node.lines, x + 1));
    }
  }

  /** The first n items are mappings under dashes. */
  ghost predicate DashedUpto(items: seq<Node>, nodes: seq<MapNode>, n: nat) {
    n <= |items| && n <= |nodes| && forall k {:trigger Dashed(items[k], nodes[k])} :: 0 <= k < n ==>
        Dashed(items[k], nodes[k])
  }

  ghost predicate AllDashed(items: seq<Node>, nodes: seq<MapNode>) {
    DashedUpto(items, nodes, |nodes|)
  }

  ghost predicate JobFor(job: Job, d: Doc) {
    Shaped(d) && job.Ready() && job.l == LayoutOf(d) && job.items == d.items && job.src == DocText(d)
  }

  /** The reader's positions make the job ready, once every item has keys. */
  lemma JobReady(src: string, nodes: seq<MapNode>, d: Doc, render: Renderer, indent: nat)
    requires Located(src, nodes, d) && AllDashed(d.items, nodes)
    ensures JobFor(JobOf(src, nodes, d, render, indent), d)
  {
    var job := JobOf(src, nodes, d, render, indent);
    forall k | 0 <= k < |job.items|
      ensures job.ItemIs(k)
    {
      assert Dashed(d.items[k], nodes[k]);
      ItemIsReady(src, nodes, d, k);
      GapFits(d, k);
    }
  }

  ghost predicate SpanAt(src: string, at: seq<nat>, items: seq<Node>, spans: seq<Span>, k: nat) {
    k < |at| && k < |items| && k < |spans| && SpanIs(src, at[k], items[k], spans[k])
  }

  ghost predicate NodeAt(src: string, at: seq<nat>, items: seq<Node>, nodes: seq<MapNode>, k: nat) {
    k < |at| && k < |items| && k < |nodes| && NodeLocated(src, at[k], items[k], nodes[k])
  }

  ghost predicate AllNodesAt(src: string, at: seq<nat>, items: seq<Node>, nodes: seq<MapNode>) {
    |nodes| == |items| &&
    forall k {:trigger NodeAt(src, at, items, nodes, k)} :: 0 <= k < |nodes| ==> NodeAt(src, at, items, nodes, k)
  }

  ghost predicate AllSpansAt(src: string, at: seq<nat>, items: seq<Node>, spans: seq<Span>) {
    forall k {:trigger SpanAt(src, at, items, spans, k)} :: 0 <= k < |spans| ==> SpanAt(src, at, items, spans, k)
  }

  lemma SpansSnoc(src: string, at: seq<nat>, items: seq<Node>, spans: seq<Span>, span: Span)
    requires AllSpansAt(src, at, items, spans)
    requires |spans| < |at| && |spans| < |items| && SpanIs(src, at[|spans|], items[|spans|], span)
    ensures AllSpansAt(src, at, items, spans + [span])
  {
    forall x | 0 <= x <= |spans|
      ensures SpanAt(src, at, items, spans + [span], x)
    {
      if x < |spans| {
        assert SpanAt(src, at, items, spans, x);
      }
    }
  }

  method SpansOf(src: string, nodes: seq<MapNode>, ghost at: seq<nat>, ghost items: seq<Node>)
    returns (spans: Option<seq<Span>>)
    requires AllNodesAt(src, at, items, nodes)
    ensures spans.Some? <==> AllDashed(items, nodes)
    ensures spans.Some? ==> |spans.value| == |nodes| && AllSpansAt(src, at, items, spans.value)
  {
    var found: seq<Span> := [];
    for k := 0 to |nodes|
      invariant |found| == k && AllSpansAt(src, at, items, found) && DashedUpto(items, nodes, k)
    {
      assert NodeAt(src, at, items, nodes, k);
      var span := SpanOf(src, nodes[k], at[k], items[k]);
      if span.None? {
        return None;
      }
      SpansSnoc(src, at, items, found, span.value);
      found := found + [span.value];
    }
    spans := Some(found);
  }

  ghost predicate SpansFit(job: Job, spans: seq<Span>)
    requires job.Sized()
  {
    && |spans| == |job.items| > 0
    && (forall k :: 0 <= k < |spans| ==>
          LineStart(job.src, spans[k].dash) == job.l.at[k] && spans[k].end == job.l.end[k] &&
          spans[k].keyCol == job.items[k].keyCol)
    && job.l.at[|spans|] == job.l.end[|spans| - 1]
  }

  method RemoveItems(src: string, spans: seq<Span>, j: nat, k: nat, edits: seq<Edit>, ghost job: Job,
                     ghost pr: Progress)
    returns (more: seq<Edit>)
    requires job.Sized() && job.src == src && SpansFit(job, spans) && j <= k <= |spans| && pr.edits == edits
    ensures more == RemovalsProgress(job.l, j, k, pr).edits
  {
    more := edits;
    for x := j to k
      invariant more == RemovalsProgress(job.l, j, x, pr).edits
    {
      more := more + [Edit(LineStart(src, spans[x].dash), spans[x].end, "", |more|)];
    }
  }

  ghost function Advance(job: Job, j: nat, k: Option<nat>, want: Pairs, pr: Progress): Progress
    requires job.Ready() && (k.Some? ==> j <= k.value < |job.items|)
  {
    if k.Some? then MatchProgress(job, j, k.value, want, pr) else InsertionProgress(job, want, pr)
  }

  /** One wanted entry: insert it where the matching has got to, or delete up to its item and update that. */
  method WriteEntry(src: string, nodes: seq<MapNode>, spans: seq<Span>, indent: nat, j: nat, k: Option<nat>,
                    want: Pairs,
                    render: Renderer, edits: seq<Edit>, ghost job: Job, ghost pr: Progress)
    returns (more: Option<seq<Edit>>)
    requires job.Ready() && SpansFit(job, spans) && job.src == src && job.nodes == nodes && job.render == render &&
      job.indent == indent
    requires j <= |spans| && (k.Some? ==> j <= k.value < |spans|)
    requires Good(src, pr) && pr.at == job.l.at[j] && pr.edits == edits
    ensures more.Some? <==> (k.Some? ==> Updatable(job.items[k.value].lines, want))
    ensures more.Some? ==> more.value == Advance(job, j, k, want, pr).edits
  {
    match k {
      case None =>
        var at := if j < |spans| then LineStart(src, spans[j].dash) else spans[|spans| - 1].end;
        more := Some(edits + [InsertAt(src, at, render.item(want, indent), |edits|)]);
      case Some(x) =>
        var es := RemoveItems(src, spans, j, x, edits, job, pr);
        assert job.ItemIs(x);
        RemovalsGood(job, j, x, pr);
        more := UpdateItem(src, nodes[x], spans[x], want, render, es, RemovalsProgress(job.l, j, x, pr), job.items[x]);
    }
  }

  method PathsOf(nodes: seq<MapNode>, ghost job: Job) returns (paths: seq<Option<Value>>)
    requires job.Ready() && job.nodes == nodes
    ensures |paths| == |nodes|
    ensures forall k :: 0 <= k < |nodes| ==> paths[k] == Lookup(PairsOf(job.items[k].lines), "path")
  {
    paths := seq(|nodes|, k requires 0 <= k < |nodes| => Lookup(NodePairs(nodes[k].pairs), "path"));
    forall k | 0 <= k < |nodes|
      ensures paths[k] == Lookup(PairsOf(job.items[k].lines), "path")
    {
      assert job.ItemIs(k);
      ReadyPairs(job.src, job.l.at[k], job.items[k], nodes[k]);
    }
  }

  function After(j: nat, k: Option<nat>): nat {
    if k.Some? then k.value + 1 else j
  }

  lemma AdvanceGood(job: Job, j: nat, k: Option<nat>, want: Pairs, pr: Progress)
    requires job.Ready() && j <= |job.items| && (k.Some? ==> j <= k.value < |job.items|)
    requires Good(job.src, pr) && pr.at == job.l.at[j]
    ensures Good(job.src, Advance(job, j, k, want, pr)) && Advance(job, j, k, want, pr).at == job.l.at[After(j, k)]
  {
    hide RemovalsProgress, MatchProgress, Good, Job.Ready;
    if k.Some? {
      MatchGood(job, j, k.value, want, pr);
    } else {
      InsertGood(job.src, pr, job.render.item(want, job.indent));
    }
  }

  /** After the first wanted entry, the rest of the list is what remains to be done. */
  lemma Advanced(job: Job, j: nat, k: Option<nat>, next: seq<Pairs>, pr: Progress)
    requires job.Ready() && j <= |job.items| && next != [] && k == Find(job.items, j, Lookup(next[0], "path"))
    ensures ListProgress(job, j, next, pr) == ListProgress(job, After(j, k), next[1..], Advance(job, j, k, next[0], pr))
  {
    hide MatchProgress, InsertionProgress, Lookup, Find, RemovalsProgress;
  }

  lemma AdvancedUpdatable(items: seq<Node>, j: nat, k: Option<nat>, next: seq<Pairs>)
    requires j <= |items| && next != [] && k == Find(items, j, Lookup(next[0], "path"))
    ensures AllUpdatable(items, j, next) <==>
      (k.Some? ==> Updatable(items[k.value].lines, next[0])) && AllUpdatable(items, After(j, k), next[1..])
  {
    hide Updatable, Find, Lookup;
    var rest := next[1..];
    if k.Some? {
      assert AllUpdatable(items, j, next) ==
        (Updatable(items[k.value].lines, next[0]) && AllUpdatable(items, k.value + 1, rest));
    } else {
      assert AllUpdatable(items, j, next) == AllUpdatable(items, j, rest);
    }
  }

  /** Every wanted entry in turn, then the items left over. */
  method RecordEdits(src: string, nodes: seq<MapNode>, spans: seq<Span>, indent: nat, next: seq<Pairs>,
                     render: Renderer,
                     ghost job: Job, ghost start: Progress)
    returns (edits: Option<seq<Edit>>)
    requires job.Ready() && SpansFit(job, spans) && job.src == src && job.nodes == nodes && job.render == render &&
      job.indent == indent
    requires Good(src, start) && start.at == job.l.at[0] && start.edits == []
    ensures edits.Some? <==> AllUpdatable(job.items, 0, next)
    ensures edits.Some? ==> edits.value == ListProgress(job, 0, next, start).edits
  {
    var paths := PathsOf(nodes, job);
    var es: seq<Edit> := [];
    var j: nat := 0;
    ghost var pr := start;
    assert next[0..] == next;
    for w := 0 to |next|
      invariant j <= |nodes| && es == pr.edits && Good(src, pr) && pr.at == job.l.at[j]
      invariant ListProgress(job, j, next[w..], pr) == ListProgress(job, 0, next, start)
      invariant AllUpdatable(job.items, j, next[w..]) <==> AllUpdatable(job.items, 0, next)
    {
      var k := FindPath(paths, j, Lookup(next[w], "path"), job.items);
      assert next[w..][0] == next[w] && next[w..][1..] == next[w + 1..];
      AdvanceGood(job, j, k, next[w], pr);
      Advanced(job, j, k, next[w..], pr);
      AdvancedUpdatable(job.items, j, k, next[w..]);
      var more := WriteEntry(src, nodes, spans, indent, j, k, next[w], render, es, job, pr);
      if more.None? {
        return None;
      }
      es, pr := more.value, Advance(job, j, k, next[w], pr);
      j := After(j, k);
    }
    assert next[|next|..] == [];
    es := RemoveItems(src, spans, j, |spans|, es, job, pr);
    edits := Some(es);
  }

  lemma {:induction false} RemovalsStart(job: Job, k: nat, pr: Progress)
    requires job.Ready() && k <= |job.items| && pr.edits == []
    ensures job.l.at[0] <= job.l.at[k]
    ensures forall i :: 0 <= i < |RemovalsProgress(job.l, 0, k, pr).edits| ==>
      job.l.at[0] <= RemovalsProgress(job.l, 0, k, pr).edits[i].start
  {
    if k > 0 {
      RemovalsStart(job, k - 1, pr);
      assert job.ItemIs(k - 1);
    }
  }

  /** The column of the first item's dash, -1 where there is none. */
  function DashIndent(d: Doc): int {
    if d.items != [] && d.items[0].lines != [] && d.items[0].lines[0].Field? &&
      d.items[0].keyCol <= |d.items[0].lines[0].lead| then
      LastDash(d.items[0].lines[0].lead, d.items[0].keyCol)
    else -1
  }

  ghost function Beginning(d: Doc): Progress
    requires Shaped(d)
  {
    Progress([], Start(d, 0), d.gaps[0])
  }

  lemma BeginningIs(job: Job, d: Doc)
    requires JobFor(job, d)
    ensures Beginning(d).at == Start(d, 0) == job.l.at[0] && Beginning(d).edits == [] && Beginning(d).text == d.gaps[0]
    ensures job.l.at[|d.items|] == End(d, |d.items| - 1)
  {
  }

  lemma BeginningGood(d: Doc)
    requires Shaped(d)
    ensures Good(DocText(d), Beginning(d))
  {
    ItemAt(d, 0);
  }

  /** What the edits leave of the list, between the head and the tail. */
  lemma ListLeaves(job: Job, d: Doc, next: seq<Pairs>)
    requires JobFor(job, d)
    ensures var end := ListProgress(job, 0, next, Beginning(d));
      && Good(job.src, end) && end.at <= |job.src| && job.src[end.at..] == d.tail && end.at >= Start(d, 0)
      && end.text == d.gaps[0] + BlocksText(job.render, job.indent, Edited(job.render, d, 0, next))
  {
    hide Good, ListProgress, Edited, BlocksText, DocText, RemovalsProgress, Beginning, Upto, LinesText, LayoutOf;
    BeginningGood(d);
    BeginningIs(job, d);
    ListGood(job, 0, next, Beginning(d));
    ListText(job, d, 0, next, Beginning(d));
    TailAt(d);
    RemovalsStart(job, |d.items|, Beginning(d));
  }

  lemma NewFileText(render: Renderer, indent: nat, d: Doc, colon: nat, next: seq<Pairs>, mid: string)
    requires Shaped(d) && colon < |d.gaps[0]| && mid == BlocksText(render, indent, Edited(render, d, 0, next))
    ensures BlocksText(render, indent, NewBlocks(render, d, colon, next)) == Head(d, colon, next) + mid + d.tail
  {
    var head, tail := [Gap(Head(d, colon, next))], [Gap(d.tail)];
    BlocksTextOne(render, indent, head[0]);
    BlocksTextOne(render, indent, tail[0]);
    BlocksTextAppend(render, indent, head, Edited(render, d, 0, next));
    BlocksTextAppend(render, indent, head + Edited(render, d, 0, next), tail);
  }

  /** The recorded edits, applied, give the new file. */
  lemma AppliedIsNewFile(job: Job, d: Doc, colon: nat, next: seq<Pairs>)
    requires JobFor(job, d) && colon + 1 < |d.gaps[0]| && next != []
    ensures ApplyEach(job.src, Sorted(ListProgress(job, 0, next, Beginning(d)).edits))
      == BlocksText(job.render, job.indent, NewBlocks(job.render, d, colon, next))
  {
    ListLeaves(job, d, next);
    NewFileText(job.render, job.indent, d, colon, next,
                BlocksText(job.render, job.indent, Edited(job.render, d, 0, next)));
    AppliedProgress(job.src, ListProgress(job, 0, next, Beginning(d)));
  }

  lemma EmptiedHead(src: string, head: string, mid: string, tail: string, at: nat)
    requires at <= |head| <= |src| && src[..|head|] == head
    ensures src[..at] + " []" + (head + mid)[at..] + tail == (head[..at] + " []" + head[at..]) + mid + tail
  {
    assert src[..at] == src[..|head|][..at];
    assert (head + mid)[at..] == head[at..] + mid;
  }

  lemma AppliedIsEmptied(job: Job, d: Doc, colon: nat)
    requires JobFor(job, d) && colon + 1 < |d.gaps[0]|
    ensures var edits := ListProgress(job, 0, [], Beginning(d)).edits;
      ApplyEach(job.src, Sorted(edits + [Edit(colon + 1, colon + 1, " []", |edits|)]))
        == BlocksText(job.render, job.indent, NewBlocks(job.render, d, colon, []))
  {
    hide Good, BlocksText, Edited, NewBlocks, DocText, RemovalsProgress, LinesText;
    var src, end := job.src, ListProgress(job, 0, [], Beginning(d));
    var head, mid := d.gaps[0], BlocksText(job.render, job.indent, Edited(job.render, d, 0, []));
    ListLeaves(job, d, []);
    NewFileText(job.render, job.indent, d, colon, [], mid);
    RemovalsStart(job, |d.items|, Beginning(d));
    AppliedAhead(src, Edit(colon + 1, colon + 1, " []", |end.edits|), end);
    ItemAt(d, 0);
    EmptiedHead(src, head, mid, d.tail, colon + 1);
  }

  method Finish(src: string, colon: nat, next: seq<Pairs>, edits: seq<Edit>, ghost job: Job, ghost d: Doc)
    returns (out: string)
    requires JobFor(job, d) && job.src == src && colon + 1 < |d.gaps[0]|
    requires edits == ListProgress(job, 0, next, Beginning(d)).edits
    ensures out == BlocksText(job.render, job.indent, NewBlocks(job.render, d, colon, next))
  {
    if next == [] {
      AppliedIsEmptied(job, d, colon);
      out := ApplyEdits(src, edits + [Edit(colon + 1, colon + 1, " []", |edits|)]);
    } else {
      AppliedIsNewFile(job, d, colon, next);
      out := ApplyEdits(src, edits);
    }
  }

  lemma LocatedNodes(src: string, nodes: seq<MapNode>, d: Doc)
    requires Located(src, nodes, d)
    ensures Shaped(d) && src == DocText(d) && |nodes| == |d.items|
    ensures AllNodesAt(src, LayoutOf(d).at, d.items, nodes)
  {
  }

  /** The indent the code reads off the first dash is that of the first dash. */
  lemma IndentIs(src: string, nodes: seq<MapNode>, d: Doc, spans: seq<Span>)
    requires Located(src, nodes, d) && AllDashed(d.items, nodes)
    requires |spans| == |nodes| && AllSpansAt(src, LayoutOf(d).at, d.items, spans)
    ensures spans[0].dash - LineStart(src, spans[0].dash) == DashIndent(d) >= 0
  {
    hide LastDash, LineStart, NodeLocated, DocText, LinesText;
    assert SpanAt(src, LayoutOf(d).at, d.items, spans, 0) && Dashed(d.items[0], nodes[0]);
  }

  lemma SpansFitJob(job: Job, d: Doc, spans: seq<Span>)
    requires Shaped(d) && job.Sized() && job.l == LayoutOf(d) && job.items == d.items
    requires |spans| == |d.items| && AllSpansAt(job.src, job.l.at, job.items, spans)
    ensures SpansFit(job, spans)
  {
    hide LineStart, LastDash, LinesText, DocText, LayoutOf, Upto;
    forall k | 0 <= k < |spans|
      ensures LineStart(job.src, spans[k].dash) == job.l.at[k] && spans[k].end == job.l.end[k] &&
        spans[k].keyCol == job.items[k].keyCol
    {
      assert SpanAt(job.src, job.l.at, job.items, spans, k);
    }
  }

  /**
   The in-place edit succeeds exactly when every item is a mapping under a dash and every matched one can be
   updated in place; it then gives the new file FolderMapText describes.
   */
  method Surgical(src: string, nodes: seq<MapNode>, colon: nat, next: seq<Pairs>, render: Renderer, ghost d: Doc)
    returns (res: Option<string>)
    requires Located(src, nodes, d) && colon + 1 < |d.gaps[0]|
    ensures res.Some? <==> AllDashed(d.items, nodes) && AllUpdatable(d.items, 0, next)
    ensures res.Some? ==>
      DashIndent(d) >= 0 && res.value == BlocksText(render, DashIndent(d), NewBlocks(render, d, colon, next))
  {
    hide Located, AllNodesAt, AllSpansAt, AllDashed, AllUpdatable, SpansFit, Good, DocText, Upto, LayoutOf, DashIndent,
         BlocksText, NewBlocks, ListProgress, LineStart, Job.ItemIs;
    LocatedNodes(src, nodes, d);
    ghost var at := LayoutOf(d).at;
    var found := SpansOf(src, nodes, at, d.items);
    if found.None? {
      return None;
    }
    var spans := found.value;
    IndentIs(src, nodes, d, spans);
    var indent := spans[0].dash - LineStart(src, spans[0].dash);
    ghost var job := JobOf(src, nodes, d, render, indent);
    JobReady(src, nodes, d, render, indent);
    SpansFitJob(job, d, spans);
    BeginningGood(d);
    var edits := RecordEdits(src, nodes, spans, indent, next, render, job, Beginning(d));
    if edits.None? {
      return None;
    }
    var out := Finish(src, colon, next, edits.value, job, d);
    res := Some(out);
  }

  // ----- what need not change does not

  lemma {:induction false} LookupIn(ps: Pairs, i: nat)
    requires DistinctNames(ps) && i < |ps|
    ensures Lookup(ps, ps[i].0) == Some(ps[i].1)
  {
    if i > 0 {
      LookupIn(ps[1..], i - 1);
    }
  }

  lemma {:induction false} PairsAt(ls: seq<Line>, i: nat)
    requires (forall x :: 0 <= x < |ls| ==> ls[x].Field?) && i < |ls|
    ensures |PairsOf(ls)| == |ls| && PairsOf(ls)[i] == (ls[i].name, ls[i].value)
  {
    var init := ls[..|ls| - 1];
    if i < |init| {
      PairsAt(init, i);
    } else if init != [] {
      PairsAt(init, 0);
    }
  }

  lemma {:induction false} UpdatedLinesSame(render: Renderer, ls: seq<Line>, want: Pairs)
    requires forall i :: 0 <= i < |ls| ==> ls[i].Field? && Lookup(want, ls[i].name) == Some(ls[i].value)
    ensures UpdatedLines(render, ls, want) == ls
  {
    if ls != [] {
      UpdatedLinesSame(render, ls[..|ls| - 1], want);
    }
  }

  lemma {:induction false} NothingAdded(render: Renderer, have: Pairs, want: Pairs, keyCol: nat)
    requires forall i :: 0 <= i < |want| ==> Lookup(have, want[i].0).Some?
    ensures AddedLines(render, have, want, keyCol) == []
  {
    if want != [] {
      NothingAdded(render, have, want[..|want| - 1], keyCol);
    }
  }

  lemma {:induction false} LookupNonempty(ps: Pairs, i: nat)
    requires i < |ps|
    ensures Lookup(ps, ps[i].0).Some?
  {
    if i > 0 && ps[0].0 != ps[i].0 {
      LookupNonempty(ps[1..], i - 1);
    }
  }

  /** An item that already holds the wanted entry keeps every byte, its quoting and comments included. */
  lemma UnchangedItem(render: Renderer, node: Node, want: Pairs, unfinished: bool)
    requires (forall i :: 0 <= i < |node.lines| ==> node.lines[i].Field?) && DistinctNames(PairsOf(node.lines))
    requires SameEntry(PairsOf(node.lines), want)
    ensures UpdatedItem(render, node, want, unfinished) == node.lines && Updatable(node.lines, want)
  {
    var have := PairsOf(node.lines);
    forall i | 0 <= i < |node.lines|
      ensures Lookup(want, node.lines[i].name) == Some(node.lines[i].value)
    {
      PairsAt(node.lines, i);
      LookupIn(have, i);
    }
    forall i | 0 <= i < |want|
      ensures Lookup(have, want[i].0).Some?
    {
      LookupNonempty(want, i);
    }
    UpdatedLinesSame(render, node.lines, want);
    NothingAdded(render, have, want, node.keyCol);
  }

  /** Item k holds a mapping, no key twice, and the wanted entry. */
  ghost predicate AlreadyHolds(items: seq<Node>, k: nat, want: Pairs) {
    && k < |items| && SameEntry(PairsOf(items[k].lines), want)
    && (forall i :: 0 <= i < |items[k].lines| ==> items[k].lines[i].Field?) && DistinctNames(PairsOf(items[k].lines))
  }

  /** The items from j on hold exactly the wanted entries. */
  ghost predicate Holds(items: seq<Node>, j: nat, next: seq<Pairs>)
    decreases |next|
  {
    if next == [] then j == |items| else AlreadyHolds(items, j, next[0]) && Holds(items, j + 1, next[1..])
  }

  ghost function TextFrom(d: Doc, j: nat): string
    requires Shaped(d) && j <= |d.items|
    decreases |d.items| - j
  {
    if j == |d.items| then "" else LinesText(d.items[j].lines) + GapText(d, j) + TextFrom(d, j + 1)
  }

  lemma {:induction false} TextFromIs(d: Doc, j: nat)
    requires Shaped(d) && j < |d.items|
    ensures Upto(d, j) + TextFrom(d, j) + d.tail == DocText(d)
    decreases |d.items| - j
  {
    hide LinesText;
    var item := LinesText(d.items[j].lines);
    if j + 1 < |d.items| {
      TextFromIs(d, j + 1);
      assert Upto(d, j + 1) == Upto(d, j) + item + d.gaps[j + 1];
      Assoc(Upto(d, j) + item, d.gaps[j + 1], TextFrom(d, j + 1));
      Assoc(Upto(d, j), item + d.gaps[j + 1], TextFrom(d, j + 1));
      Assoc(Upto(d, j), item, d.gaps[j + 1]);
    } else {
      assert TextFrom(d, j + 1) == "" && item + "" + "" == item;
    }
  }

  lemma MatchedUnchanged(render: Renderer, indent: nat, d: Doc, j: nat, want: Pairs)
    requires Shaped(d) && AlreadyHolds(d.items, j, want)
    ensures BlocksText(render, indent, Matched(render, d, j, j, want)) == LinesText(d.items[j].lines) + GapText(d, j)
  {
    hide BlocksText, UpdatedItem, SameEntry, DistinctNames, Unfinished, DocText, Upto, LinesText, GapAfter, GapText;
    var item := Item(d.items[j].lines);
    UnchangedItem(render, d.items[j], want, Unfinished(DocText(d), End(d, j)));
    assert Matched(render, d, j, j, want) == [item] + GapAfter(d, j);
    BlocksTextOne(render, indent, item);
    GapAfterText(render, indent, d, j);
    BlocksTextAppend(render, indent, [item], GapAfter(d, j));
  }

  lemma FirstIsNext(d: Doc, j: nat, next: seq<Pairs>)
    requires Shaped(d) && next != [] && AlreadyHolds(d.items, j, next[0])
    ensures Find(d.items, j, Lookup(next[0], "path")) == Some(j)
  {
  }

  lemma FirstText(render: Renderer, indent: nat, d: Doc, j: nat, next: seq<Pairs>)
    requires Shaped(d) && next != [] && AlreadyHolds(d.items, j, next[0])
    ensures j < |d.items|
    ensures BlocksText(render, indent, Edited(render, d, j, next))
      == LinesText(d.items[j].lines) + GapText(d, j) + BlocksText(render, indent, Edited(render, d, j + 1, next[1..]))
  {
    hide Matched, Edited, BlocksText, Lookup, Find, GapText, LinesText, SameEntry, DistinctNames;
    FirstIsNext(d, j, next);
    EditedMatched(render, d, j, j, next);
    MatchedUnchanged(render, indent, d, j, next[0]);
    BlocksTextAppend(render, indent, Matched(render, d, j, j, next[0]), Edited(render, d, j + 1, next[1..]));
  }

  lemma FirstUpdatable(render: Renderer, d: Doc, j: nat, next: seq<Pairs>)
    requires Shaped(d) && next != [] && AlreadyHolds(d.items, j, next[0])
    ensures AllUpdatable(d.items, j, next) == AllUpdatable(d.items, j + 1, next[1..])
  {
    FirstIsNext(d, j, next);
    UnchangedItem(render, d.items[j], next[0], false);
  }

  lemma NothingLeft(render: Renderer, indent: nat, d: Doc)
    requires Shaped(d)
    ensures BlocksText(render, indent, Edited(render, d, |d.items|, [])) == ""
  {
  }

  lemma {:induction false} UnchangedList(render: Renderer, indent: nat, d: Doc, j: nat, next: seq<Pairs>)
    requires Shaped(d) && j <= |d.items| && Holds(d.items, j, next)
    ensures BlocksText(render, indent, Edited(render, d, j, next)) == TextFrom(d, j) && AllUpdatable(d.items, j, next)
    decreases |next|
  {
    hide LinesText, GapText, BlocksText, Edited, AlreadyHolds, Updatable, Find, Lookup;
    if next == [] {
      NothingLeft(render, indent, d);
    } else {
      FirstText(render, indent, d, j, next);
      FirstUpdatable(render, d, j, next);
      UnchangedList(render, indent, d, j + 1, next[1..]);
    }
  }

  /** Writing the entries a file already holds leaves the file as it is, byte for byte. */
  lemma UnchangedFile(render: Renderer, indent: nat, d: Doc, colon: nat, next: seq<Pairs>)
    requires Shaped(d) && colon < |d.gaps[0]| && Holds(d.items, 0, next)
    ensures AllUpdatable(d.items, 0, next)
    ensures BlocksText(render, indent, NewBlocks(render, d, colon, next)) == DocText(d)
  {
    UnchangedList(render, indent, d, 0, next);
    NewFileText(render, indent, d, colon, next, TextFrom(d, 0));
    TextFromIs(d, 0);
  }
}
