/**
 The edited `folders.yaml`, read again.

 A file is read item after item, as a `Draft`: what stands before an item, the item, what follows it. A file of
 the layout the edit expects can be read so, and one that can be read so has that layout. The edit's pieces are
 then read one after another into such a draft, so what it returns has the layout once more: that a second edit
 can be made in place, and that its items are the wanted entries, follows.

 The reader and the writer are given as functions. The writer is asked to undo the reader on one line only, and
 the lemmas ask that what the edit writes is on one line: a key, a scalar that is added, and one that takes the
 place of another, which must stand after a blank. An entry that is new is written as a whole item.
 */
module FolderMapRead {
  import opened Wrappers
  import opened FolderMapText
  import opened FolderMapEdit

  // ----- the reader and the writer

  /** What the reader makes of a key with its colon, of a value's text, and of an item's text. */
  datatype Reader = Reader(key: string -> Option<string>, value: string -> Option<Value>, item: string -> Node)

  predicate OneLine(s: string) {
    '\n' !in s
  }

  /** Empty, or ended by a newline. */
  predicate Ended(s: string) {
    s == "" || s[|s| - 1] == '\n'
  }

  predicate Spaced(s: string) {
    s != "" && (s[|s| - 1] == ' ' || s[|s| - 1] == '\t')
  }

  /** The key and the value of the line are what their text reads as; a value stands apart from its key. */
  ghost predicate LineReads(read: Reader, l: Line) {
    && l.Field? && l.keyAt < |l.lead| && read.key(l.lead[l.keyAt..]) == Some(l.name)
    && read.value(l.val) == Some(l.value) && (l.val == "" || Spaced(l.lead))
  }

  /** What follows the value ends with the line, and is nothing else. */
  predicate Closed(l: Line) {
    l.Field? && l.trail != "" && Ended(l.trail) && OneLine(l.trail[..|l.trail| - 1])
  }

  /** The same with the newline missing. */
  predicate Open(l: Line) {
    l.Field? && OneLine(l.trail) && !Ended(LineText(l))
  }

  ghost predicate LineOk(read: Reader, l: Line, open: bool) {
    LineReads(read, l) && Ended(l.above) && OneLine(l.lead[..l.keyAt]) && (Closed(l) || (open && Open(l)))
  }

  ghost predicate AllClosed(read: Reader, ls: seq<Line>) {
    forall l :: l in ls ==> LineOk(read, l, false)
  }

  /** All lines but the last are whole, and the last is, or its newline is missing where that is allowed. */
  ghost predicate AllOk(read: Reader, ls: seq<Line>, open: bool) {
    ls == [] || (AllClosed(read, ls[..|ls| - 1]) && LineOk(read, ls[|ls| - 1], open))
  }

  predicate FirstOk(node: Node) {
    && node.lines != [] && node.lines[0].Field? && node.lines[0].above == "" && 0 < node.keyCol == node.lines[0].keyAt
    && node.keyCol <= |node.lines[0].lead| && LastDash(node.lines[0].lead, node.keyCol) >= 0
  }

  /** A mapping under a dash that reads as its labels say. */
  ghost predicate NodeOk(read: Reader, node: Node, open: bool) {
    && node.lines != [] && AllOk(read, node.lines, open) && FirstOk(node) && DistinctNames(PairsOf(node.lines))
  }

  ghost predicate ItemReads(read: Reader, node: Node, text: string, entry: Pairs) {
    LinesText(node.lines) == text && NodeOk(read, node, false) && SameEntry(PairsOf(node.lines), entry)
  }

  predicate CleanPair(render: Renderer, p: (string, Value)) {
    OneLine(render.key(p.0)) && (p.1.Scalar? ==> OneLine(render.scalar(p.1)))
  }

  /** An entry with keys, none twice, whose keys and scalars are written on one line each. */
  ghost predicate CleanEntry(render: Renderer, entry: Pairs) {
    entry != [] && DistinctNames(entry) && forall p :: p in entry ==> CleanPair(render, p)
  }

  /** What is written on one line reads back as what it was written from, and so does a whole item. */
  ghost predicate GoodRenderer(read: Reader, render: Renderer) {
    && (forall v: Value :: v.Scalar? && OneLine(render.scalar(v)) ==> read.value(render.scalar(v)) == Some(v))
    && (forall n: string :: OneLine(render.key(n)) ==> read.key(render.key(n) + ": ") == Some(n))
    && (forall entry: Pairs, indent: nat :: CleanEntry(render, entry) ==>
          ItemReads(read, read.item(render.item(entry, indent)), render.item(entry, indent), entry))
  }

  // ----- what the edit has to write

  /** A value that is replaced is a scalar, stands after a blank, and its new text is on one line. */
  ghost predicate CleanLine(render: Renderer, l: Line, want: Pairs) {
    l.Field? && Lookup(want, l.name).Some? && Lookup(want, l.name).value != l.value ==>
      Spaced(l.lead) && OneLine(render.scalar(Lookup(want, l.name).value))
  }

  ghost predicate CleanUpdate(render: Renderer, ls: seq<Line>, want: Pairs) {
    && DistinctNames(want)
    && (forall l :: l in ls ==> CleanLine(render, l, want))
    && (forall p :: p in want && Lookup(PairsOf(ls), p.0).None? ==> CleanPair(render, p))
  }

  ghost predicate AllClean(render: Renderer, items: seq<Node>, j: nat, next: seq<Pairs>)
    requires j <= |items|
    decreases |next|
  {
    next == [] ||
    match Find(items, j, Lookup(next[0], "path"))
    case None => CleanEntry(render, next[0]) && AllClean(render, items, j, next[1..])
    case Some(k) => CleanUpdate(render, items[k].lines, next[0]) && AllClean(render, items, k + 1, next[1..])
  }

  // ----- a file as it is read, item after item

  datatype Draft = Begun(head: string) | Then(before: Draft, node: Node, rest: string)

  function Laid(f: Draft): string {
    match f
    case Begun(head) => head
    case Then(before, node, rest) => Laid(before) + LinesText(node.lines) + rest
  }

  function Contents(f: Draft): seq<Pairs> {
    match f
    case Begun(_) => []
    case Then(before, node, _) => Contents(before) + [PairsOf(node.lines)]
  }

  /** Every item starts a line, and only the last of the file may lack its newline. */
  ghost predicate Sound(read: Reader, f: Draft) {
    match f
    case Begun(_) => true
    case Then(before, node, rest) => Sound(read, before) && Ended(Laid(before)) && NodeOk(read, node, rest == "")
  }

  function DocOf(f: Draft): (d: Doc)
    ensures |d.gaps| == |d.items|
  {
    match f
    case Begun(head) => Doc([], [], head)
    case Then(before, node, rest) =>
      var d := DocOf(before);
      Doc(d.gaps + [d.tail], d.items + [node], rest)
  }

  function Grown(f: Draft, text: string): Draft {
    match f
    case Begun(head) => Begun(head + text)
    case Then(before, node, rest) => Then(before, node, rest + text)
  }

  /** A newline more ends the last line, or is a blank line. */
  function NewLine(f: Draft): Draft {
    if f.Then? && f.rest == "" && !Ended(Laid(f)) then f.(node := f.node.(lines := Finished(f.node.lines)))
    else Grown(f, "\n")
  }

  /** The comments of keys that are gone go to the key below, or after the item. */
  function Tidy(ls: seq<Line>): (seq<Line>, string) {
    if ls == [] then ([], "")
    else
      var (fs, rest) := Tidy(ls[..|ls| - 1]);
      var l := ls[|ls| - 1];
      if l.Other? then (fs, rest + l.text) else (fs + [l.(above := rest + l.above)], "")
  }

  function NodeOf(fs: seq<Line>): Node {
    Node(fs, if fs != [] && fs[0].Field? then fs[0].keyAt else 0)
  }

  function ReadBlock(read: Reader, render: Renderer, indent: nat, f: Draft, b: Block): Draft {
    match b
    case Gap(text) => Grown(f, text)
    case Item(lines) => Then(f, NodeOf(Tidy(lines).0), Tidy(lines).1)
    case Fresh(newline, entry) => Then(if newline then NewLine(f) else f, read.item(render.item(entry, indent)), "")
  }

  function Reread(read: Reader, render: Renderer, indent: nat, f: Draft, bs: seq<Block>): Draft
    decreases |bs|
  {
    if bs == [] then f else Reread(read, render, indent, ReadBlock(read, render, indent, f, bs[0]), bs[1..])
  }

  lemma {:induction false} RereadAppend(read: Reader, render: Renderer, indent: nat, f: Draft, a: seq<Block>,
                                        b: seq<Block>)
    ensures Reread(read, render, indent, f, a + b)
      == Reread(read, render, indent, Reread(read, render, indent, f, a), b)
    decreases |a|
  {
    if a == [] {
      assert a + b == b;
    } else {
      assert (a + b)[0] == a[0] && (a + b)[1..] == a[1..] + b;
      RereadAppend(read, render, indent, ReadBlock(read, render, indent, f, a[0]), a[1..], b);
    }
  }

  lemma RereadOne(read: Reader, render: Renderer, indent: nat, f: Draft, b: Block)
    ensures Reread(read, render, indent, f, [b]) == ReadBlock(read, render, indent, f, b)
  {
    assert [b][1..] == [];
  }

  // ----- nothing of the text or the entries is lost

  lemma Assoc4(a: string, b: string, c: string, d: string, e: string)
    ensures a + b + c + d + e == a + (b + c + d + e)
  {
  }

  lemma {:induction false} TidyKeeps(ls: seq<Line>)
    ensures LinesText(Tidy(ls).0) + Tidy(ls).1 == LinesText(ls)
    ensures PairsOf(Tidy(ls).0) == PairsOf(ls)
  {
    if ls != [] {
      var init, l := ls[..|ls| - 1], ls[|ls| - 1];
      TidyKeeps(init);
      var (fs, rest) := Tidy(init);
      if l.Other? {
        Assoc(LinesText(fs), rest, l.text);
        assert PairsOf(init) + [] == PairsOf(init);
      } else {
        var l' := l.(above := rest + l.above);
        assert (fs + [l'])[..|fs|] == fs;
        Assoc4(rest, l.above, l.lead, l.val, l.trail);
        Assoc(LinesText(fs), rest, LineText(l));
        assert LinesText(fs + [l']) + "" == LinesText(fs + [l']);
      }
    }
  }

  lemma GrownKeeps(f: Draft, text: string)
    ensures Laid(Grown(f, text)) == Laid(f) + text && Contents(Grown(f, text)) == Contents(f)
  {
    hide LinesText, PairsOf;
    if f.Then? {
      Assoc(Laid(f.before) + LinesText(f.node.lines), f.rest, text);
    }
  }

  lemma NewLineKeeps(f: Draft)
    ensures Laid(NewLine(f)) == Laid(f) + "\n" && Contents(NewLine(f)) == Contents(f)
  {
    hide LinesText, PairsOf, Finished;
    if f.Then? && f.rest == "" && !Ended(Laid(f)) {
      FinishedIs(f.node.lines);
      var before, text := Laid(f.before), LinesText(f.node.lines);
      assert before + text + "" == before + text;
      assert before + (text + "\n") + "" == before + text + "\n";
    } else {
      GrownKeeps(f, "\n");
    }
  }

  ghost predicate FreshReads(read: Reader, render: Renderer, indent: nat, b: Block) {
    b.Fresh? ==> ItemReads(read, read.item(render.item(b.entry, indent)), render.item(b.entry, indent), b.entry)
  }

  lemma BlockKeeps(read: Reader, render: Renderer, indent: nat, f: Draft, b: Block)
    requires FreshReads(read, render, indent, b)
    ensures var g := ReadBlock(read, render, indent, f, b);
      Laid(g) == Laid(f) + BlockText(render, indent, b) && AllSame(Contents(g), Contents(f) + EntryOf(b))
  {
    hide LinesText, PairsOf, Lookup, Tidy, NodeOk, Ended;
    match b
    case Gap(text) => GrownKeeps(f, text);
    case Item(lines) =>
      TidyKeeps(lines);
      Assoc(Laid(f), LinesText(Tidy(lines).0), Tidy(lines).1);
    case Fresh(newline, entry) =>
      var text := render.item(entry, indent);
      if newline {
        NewLineKeeps(f);
        Assoc(Laid(f), "\n", text);
      } else {
        assert "" + text == text;
      }
      assert Laid(f) + BlockText(render, indent, b) + "" == Laid(f) + BlockText(render, indent, b);
  }

  lemma SameThen(a: seq<Pairs>, b: seq<Pairs>, c: seq<Pairs>, d: seq<Pairs>)
    requires AllSame(a, b + c) && AllSame(b, d)
    ensures AllSame(a, d + c)
  {
    hide Lookup;
    forall w | 0 <= w < |a|
      ensures SameEntry(a[w], (d + c)[w])
    {
      assert SameEntry(a[w], (b + c)[w]);
    }
  }

  lemma NothingRead(render: Renderer, indent: nat, f: Draft)
    ensures Laid(f) + BlocksText(render, indent, []) == Laid(f) && AllSame(Contents(f), Contents(f) + EntriesOf([]))
  {
    assert Contents(f) + [] == Contents(f);
  }

  lemma {:induction false} RereadKeeps(read: Reader, render: Renderer, indent: nat, f: Draft, bs: seq<Block>)
    requires forall b :: b in bs ==> FreshReads(read, render, indent, b)
    ensures var g := Reread(read, render, indent, f, bs);
      Laid(g) == Laid(f) + BlocksText(render, indent, bs) && AllSame(Contents(g), Contents(f) + EntriesOf(bs))
    decreases |bs|
  {
    hide Laid, Contents, BlocksText, EntriesOf, ReadBlock, FreshReads, SameEntry, AllSame;
    if bs == [] {
      NothingRead(render, indent, f);
    } else {
      var b, rest := bs[0], bs[1..];
      var g := ReadBlock(read, render, indent, f, b);
      assert bs == [b] + rest;
      BlockKeeps(read, render, indent, f, b);
      RereadKeeps(read, render, indent, g, rest);
      OneBlock(b);
      BlocksTextOne(render, indent, b);
      EntriesAppend([b], rest);
      BlocksTextAppend(render, indent, [b], rest);
      Assoc(Laid(f), BlockText(render, indent, b), BlocksText(render, indent, rest));
      Assoc(Contents(f), EntryOf(b), EntriesOf(rest));
      SameThen(Contents(Reread(read, render, indent, g, rest)), Contents(g), EntriesOf(rest), Contents(f) + EntryOf(b));
    }
  }

  // ----- one item, rewritten

  ghost predicate TidyOk(read: Reader, ls: seq<Line>, open: bool) {
    Ended(Tidy(ls).1) && AllOk(read, Tidy(ls).0, open && Tidy(ls).1 == "")
  }

  lemma EndedAppend(a: string, b: string)
    requires Ended(a) && Ended(b)
    ensures Ended(a + b)
  {
  }

  lemma AllOkSnoc(read: Reader, fs: seq<Line>, l: Line, open: bool)
    requires AllClosed(read, fs) && LineOk(read, l, open)
    ensures AllOk(read, fs + [l], open)
  {
    assert (fs + [l])[..|fs|] == fs;
  }

  lemma AllFields(read: Reader, ls: seq<Line>, open: bool)
    requires AllOk(read, ls, open)
    ensures forall i :: 0 <= i < |ls| ==> ls[i].Field?
  {
    forall i | 0 <= i < |ls|
      ensures ls[i].Field?
    {
      if i < |ls| - 1 {
        assert ls[i] in ls[..|ls| - 1];
      }
    }
  }

  lemma AllOkClosed(read: Reader, ls: seq<Line>)
    ensures AllOk(read, ls, false) <==> AllClosed(read, ls)
  {
    if ls != [] {
      assert ls == ls[..|ls| - 1] + [ls[|ls| - 1]];
    }
  }

  lemma AboveOnly(read: Reader, l: Line, above: string, open: bool)
    requires LineOk(read, l, open) && Ended(above)
    ensures LineOk(read, l.(above := above), open)
  {
    var l' := l.(above := above);
    assert LineText(l') == above + (l.lead + l.val + l.trail);
    assert LineText(l) == l.above + (l.lead + l.val + l.trail);
  }

  /** A key's line with the comments left by keys above it. */
  lemma TidyField(read: Reader, ls: seq<Line>, l: Line, open: bool)
    requires TidyOk(read, ls, false) && LineOk(read, l, open)
    ensures TidyOk(read, ls + [l], open)
  {
    hide Closed;
    var (fs, rest) := Tidy(ls);
    assert (ls + [l])[..|ls|] == ls;
    var l' := l.(above := rest + l.above);
    EndedAppend(rest, l.above);
    AboveOnly(read, l, rest + l.above, open);
    AllOkClosed(read, fs);
    AllOkSnoc(read, fs, l', open);
  }

  lemma TidyOther(read: Reader, ls: seq<Line>, text: string)
    requires TidyOk(read, ls, false) && Ended(text)
    ensures TidyOk(read, ls + [Other(text)], false)
  {
    assert (ls + [Other(text)])[..|ls|] == ls;
    EndedAppend(Tidy(ls).1, text);
  }

  /** Tidy, and open only if the last line is a key's. */
  ghost predicate EndsOpen(read: Reader, ls: seq<Line>, open: bool) {
    TidyOk(read, ls, open && ls != [] && ls[|ls| - 1].Field?)
  }

  lemma StillOpen(l: Line, l': Line)
    requires Open(l) && l'.Field? && l'.lead == l.lead && l'.trail == l.trail && OneLine(l'.val) && Spaced(l.lead)
    ensures Open(l')
  {
    var before := l'.above + l'.lead + l'.val;
    if l'.trail != "" {
      assert l'.trail[|l'.trail| - 1] in l'.trail;
      assert LineText(l')[|LineText(l')| - 1] == l'.trail[|l'.trail| - 1];
    } else {
      assert LineText(l') == before;
      if l'.val != "" {
        assert l'.val[|l'.val| - 1] in l'.val;
        assert before[|before| - 1] == l'.val[|l'.val| - 1];
      } else {
        assert before[|before| - 1] == l.lead[|l.lead| - 1];
      }
    }
  }

  /** A line that stays, its value replaced or not, is as whole as it was. */
  lemma UpdatedLineOk(read: Reader, render: Renderer, l: Line, want: Pairs, open: bool)
    requires GoodRenderer(read, render) && LineOk(read, l, open) && CleanLine(render, l, want)
    requires Lookup(want, l.name).Some? &&
      (Lookup(want, l.name).value != l.value ==> Lookup(want, l.name).value.Scalar?)
    ensures LineOk(read, UpdatedLine(render, l, want), open)
  {
    hide Lookup;
    var v := Lookup(want, l.name).value;
    if v != l.value {
      var l' := l.(val := render.scalar(v), value := v);
      assert LineReads(read, l');
      if Open(l) && !Closed(l) {
        StillOpen(l, l');
      }
    }
  }

  /** What an update of these lines meets. */
  ghost predicate Rewritable(render: Renderer, ls: seq<Line>, want: Pairs) {
    forall l :: l in ls && l.Field? && Lookup(want, l.name).Some? && Lookup(want, l.name).value != l.value ==>
      CleanLine(render, l, want) && Lookup(want, l.name).value.Scalar?
  }

  lemma RewritableIs(render: Renderer, ls: seq<Line>, want: Pairs)
    requires Updatable(ls, want) && CleanUpdate(render, ls, want)
    ensures Rewritable(render, ls, want)
  {
    hide Lookup, CleanLine;
    forall l | l in ls && l.Field? && Lookup(want, l.name).Some? && Lookup(want, l.name).value != l.value
      ensures CleanLine(render, l, want) && Lookup(want, l.name).value.Scalar?
    {
      var i :| 0 <= i < |ls| && ls[i] == l;
      assert LineUpdatable(ls, i, want);
    }
  }

  lemma NoneTidy(read: Reader, open: bool)
    ensures EndsOpen(read, [], open)
  {
  }

  lemma NotOpen(read: Reader, ls: seq<Line>)
    requires EndsOpen(read, ls, false)
    ensures TidyOk(read, ls, false)
  {
  }

  lemma OneTidied(read: Reader, render: Renderer, before: seq<Line>, l: Line, want: Pairs, open: bool)
    requires GoodRenderer(read, render) && TidyOk(read, before, false) && LineOk(read, l, open)
    requires Lookup(want, l.name).Some? && Lookup(want, l.name).value != l.value ==>
      CleanLine(render, l, want) && Lookup(want, l.name).value.Scalar?
    ensures EndsOpen(read, before + [UpdatedLine(render, l, want)], open)
  {
    hide GoodRenderer, Lookup, CleanLine, TidyOk;
    if Lookup(want, l.name).None? {
      TidyOther(read, before, l.above);
    } else {
      if Lookup(want, l.name).value == l.value {
        assert UpdatedLine(render, l, want) == l;
      } else {
        UpdatedLineOk(read, render, l, want, open);
      }
      TidyField(read, before, UpdatedLine(render, l, want), open);
    }
  }

  lemma {:induction false} UpdatedTidy(read: Reader, render: Renderer, ls: seq<Line>, want: Pairs, open: bool)
    requires GoodRenderer(read, render) && AllOk(read, ls, open) && Rewritable(render, ls, want)
    ensures EndsOpen(read, UpdatedLines(render, ls, want), open)
  {
    hide GoodRenderer, LineOk, Lookup, CleanLine, TidyOk, UpdatedLine, EndsOpen;
    if ls == [] {
      NoneTidy(read, open);
    } else {
      var init, l := ls[..|ls| - 1], ls[|ls| - 1];
      AllOkClosed(read, init);
      AllFields(read, ls, open);
      UpdatedTidy(read, render, init, want, false);
      NotOpen(read, UpdatedLines(render, init, want));
      OneTidied(read, render, UpdatedLines(render, init, want), l, want, open);
    }
  }

  lemma FinishedTidy(read: Reader, ls: seq<Line>, open: bool)
    requires EndsOpen(read, ls, open) && (ls != [] && ls[|ls| - 1].Field? ==> OneLine(ls[|ls| - 1].trail))
    ensures TidyOk(read, Finished(ls), false)
  {
    if ls != [] && ls[|ls| - 1].Field? {
      var init, l := ls[..|ls| - 1], ls[|ls| - 1];
      var (fs, rest) := Tidy(init);
      var l', f := l.(trail := l.trail + "\n"), l.(above := rest + l.above);
      assert (init + [l'])[..|init|] == init;
      assert (fs + [f])[..|fs|] == fs;
      assert l'.trail[..|l'.trail| - 1] == l.trail;
      assert LineOk(read, f, open);
      AllOkSnoc(read, fs, f.(trail := l.trail + "\n"), false);
    } else {
      assert (ls + [Other("\n")])[..|ls|] == ls;
      EndedAppend(Tidy(ls).1, "\n");
      AllOkClosed(read, Tidy(ls).0);
    }
  }

  lemma AddedLineOk(read: Reader, render: Renderer, name: string, v: Value, keyCol: nat)
    requires GoodRenderer(read, render) && CleanPair(render, (name, v)) && v.Scalar?
    ensures LineOk(read, AddedLine(render, name, v, keyCol), false)
  {
    var l := AddedLine(render, name, v, keyCol);
    assert l.lead[..keyCol] == Spaces(keyCol);
    assert l.lead[keyCol..] == render.key(name) + ": ";
    assert l.lead[|l.lead| - 1] == ' ';
  }

  lemma {:induction false} AddedTidy(read: Reader, render: Renderer, before: seq<Line>, have: Pairs, want: Pairs,
                                     keyCol: nat)
    requires GoodRenderer(read, render) && TidyOk(read, before, false)
    requires forall p :: p in want && Lookup(have, p.0).None? ==> CleanPair(render, p) && p.1.Scalar?
    ensures TidyOk(read, before + AddedLines(render, have, want, keyCol), false)
  {
    hide GoodRenderer, TidyOk, CleanPair, LineOk, Lookup, AddedLine;
    if want == [] {
      assert before + [] == before;
    } else {
      var init, p := want[..|want| - 1], want[|want| - 1];
      AddedTidy(read, render, before, have, init, keyCol);
      var added := AddedLines(render, have, init, keyCol);
      if Lookup(have, p.0).None? {
        assert p in want;
        AddedLineOk(read, render, p.0, p.1, keyCol);
        TidyField(read, before + added, AddedLine(render, p.0, p.1, keyCol), false);
        Assoc(before, added, [AddedLine(render, p.0, p.1, keyCol)]);
      }
    }
  }

  lemma {:induction false} UpdatedAt(render: Renderer, ls: seq<Line>, want: Pairs, i: nat)
    requires i < |ls|
    ensures |UpdatedLines(render, ls, want)| == |ls| &&
      UpdatedLines(render, ls, want)[i] == UpdatedLine(render, ls[i], want)
  {
    hide UpdatedLine;
    var init := ls[..|ls| - 1];
    if i < |init| {
      UpdatedAt(render, init, want, i);
    } else if init != [] {
      UpdatedAt(render, init, want, 0);
    }
  }

  lemma {:induction false} TidyFirst(ls: seq<Line>)
    requires ls != [] && ls[0].Field?
    ensures Tidy(ls).0 != [] && Tidy(ls).0[0] == ls[0]
  {
    var init := ls[..|ls| - 1];
    if init != [] {
      TidyFirst(init);
    } else {
      assert ls[0].(above := "" + ls[0].above) == ls[0];
    }
  }

  // ----- names stay distinct

  lemma {:induction false} LookupNone(ps: Pairs, n: string)
    requires forall i :: 0 <= i < |ps| ==> ps[i].0 != n
    ensures Lookup(ps, n).None?
  {
    if ps != [] {
      LookupNone(ps[1..], n);
    }
  }

  lemma DistinctSnoc(ps: Pairs, p: (string, Value))
    ensures DistinctNames(ps + [p]) <==> DistinctNames(ps) && Lookup(ps, p.0).None?
  {
    hide Lookup;
    var all := ps + [p];
    if DistinctNames(all) {
      assert all[|ps|] == p && forall i :: 0 <= i < |ps| ==> all[i] == ps[i];
      LookupNone(ps, p.0);
    }
    if Lookup(ps, p.0).None? {
      forall i | 0 <= i < |ps|
        ensures ps[i].0 != p.0
      {
        LookupNonempty(ps, i);
      }
    }
  }

  lemma PairsSplit(init: seq<Line>, l: Line, ls: seq<Line>)
    requires ls == init + [l]
    ensures PairsOf(ls) == PairsOf(init) + PairOf(l)
  {
    assert ls[..|ls| - 1] == init;
  }

  lemma StillDistinct(render: Renderer, kept: Pairs, l: Line, want: Pairs)
    requires DistinctNames(kept) && (l.Field? ==> Lookup(kept, l.name).None?)
    ensures DistinctNames(kept + PairOf(UpdatedLine(render, l, want)))
  {
    hide DistinctNames;
    var l' := UpdatedLine(render, l, want);
    if l'.Field? {
      DistinctSnoc(kept, (l'.name, l'.value));
    } else {
      assert kept + [] == kept;
    }
  }

  lemma {:induction false} UpdatedDistinct(render: Renderer, ls: seq<Line>, want: Pairs)
    requires DistinctNames(PairsOf(ls))
    ensures DistinctNames(PairsOf(UpdatedLines(render, ls, want)))
  {
    hide DistinctNames, Lookup, UpdatedLine;
    if ls == [] {
      assert PairsOf(UpdatedLines(render, [], want)) == PairsOf(ls);
    } else {
      var init, l := ls[..|ls| - 1], ls[|ls| - 1];
      var kept := UpdatedLines(render, init, want);
      PairsSplit(init, l, ls);
      PairsSplit(kept, UpdatedLine(render, l, want), kept + [UpdatedLine(render, l, want)]);
      if l.Field? {
        DistinctSnoc(PairsOf(init), (l.name, l.value));
        UpdatedHolds(render, init, want, l.name);
        UpdatedDistinct(render, init, want);
        StillDistinct(render, PairsOf(kept), l, want);
      } else {
        assert PairsOf(init) + [] == PairsOf(init);
        UpdatedDistinct(render, init, want);
        StillDistinct(render, PairsOf(kept), l, want);
      }
    }
  }

  lemma AddedPair(render: Renderer, name: string, v: Value, keyCol: nat)
    ensures PairOf(AddedLine(render, name, v, keyCol)) == [(name, v)]
  {
  }

  lemma {:induction false} AddedDistinct(render: Renderer, kept: Pairs, have: Pairs, want: Pairs, keyCol: nat)
    requires DistinctNames(kept) && DistinctNames(want)
    requires forall n :: Lookup(have, n).None? ==> Lookup(kept, n).None?
    ensures DistinctNames(kept + PairsOf(AddedLines(render, have, want, keyCol)))
  {
    hide DistinctNames, Lookup, AddedLine;
    if want == [] {
      assert kept + [] == kept;
    } else {
      var init, p := want[..|want| - 1], want[|want| - 1];
      assert want == init + [p];
      DistinctSnoc(init, p);
      AddedDistinct(render, kept, have, init, keyCol);
      var added := AddedLines(render, have, init, keyCol);
      if Lookup(have, p.0).None? {
        AddedHolds(render, have, init, keyCol, p.0);
        LookupAppend(kept, PairsOf(added), p.0);
        DistinctSnoc(kept + PairsOf(added), p);
        AddedPair(render, p.0, p.1, keyCol);
        PairsSplit(added, AddedLine(render, p.0, p.1, keyCol), added + [AddedLine(render, p.0, p.1, keyCol)]);
        Assoc(kept, PairsOf(added), [p]);
      }
    }
  }

  lemma UpdatedItemDistinct(render: Renderer, node: Node, want: Pairs, unfinished: bool)
    requires DistinctNames(PairsOf(node.lines)) && DistinctNames(want)
    ensures DistinctNames(PairsOf(UpdatedItem(render, node, want, unfinished)))
  {
    hide DistinctNames, Lookup, Finished;
    var kept := UpdatedLines(render, node.lines, want);
    var added := AddedLines(render, PairsOf(node.lines), want, node.keyCol);
    FinishedIs(kept);
    PairsAppend(if unfinished && added != [] then Finished(kept) else kept, added);
    UpdatedDistinct(render, node.lines, want);
    forall n | Lookup(PairsOf(node.lines), n).None?
      ensures Lookup(PairsOf(kept), n).None?
    {
      UpdatedHolds(render, node.lines, want, n);
    }
    AddedDistinct(render, PairsOf(kept), PairsOf(node.lines), want, node.keyCol);
  }

  // ----- the rewritten item is one the reader takes

  lemma ClosedEnds(l: Line)
    requires Closed(l)
    ensures Ended(LineText(l))
  {
    assert LineText(l)[|LineText(l)| - 1] == l.trail[|l.trail| - 1];
  }

  lemma EndsAs(a: string, b: string)
    requires b != ""
    ensures a + b != "" && (Ended(a + b) <==> Ended(b))
  {
  }

  lemma LastDecides(ls: seq<Line>)
    requires ls != [] && LineText(ls[|ls| - 1]) != ""
    ensures LinesText(ls) != "" && (Ended(LinesText(ls)) <==> Ended(LineText(ls[|ls| - 1])))
  {
    hide LineText, Ended;
    EndsAs(LinesText(ls[..|ls| - 1]), LineText(ls[|ls| - 1]));
  }

  lemma LineNotEmpty(read: Reader, l: Line, open: bool)
    requires LineOk(read, l, open)
    ensures LineText(l) != ""
  {
  }

  lemma ClosedText(read: Reader, ls: seq<Line>)
    requires AllClosed(read, ls)
    ensures Ended(LinesText(ls))
  {
    hide LinesText;
    if ls == [] {
      NoLines();
    } else {
      var l := ls[|ls| - 1];
      assert LineOk(read, l, false);
      LineNotEmpty(read, l, false);
      ClosedEnds(l);
      LastDecides(ls);
    }
  }

  lemma NotEmptyNode(read: Reader, node: Node, open: bool)
    requires NodeOk(read, node, open)
    ensures LinesText(node.lines) != ""
  {
    hide LinesText, LineReads;
    LineNotEmpty(read, node.lines[|node.lines| - 1], open);
    LastDecides(node.lines);
  }

  /** An item whose text ends with a newline has only whole lines. */
  lemma NodeClosed(read: Reader, node: Node)
    requires NodeOk(read, node, true) && Ended(LinesText(node.lines))
    ensures NodeOk(read, node, false)
  {
    hide LinesText, LineReads;
    LineNotEmpty(read, node.lines[|node.lines| - 1], true);
    LastDecides(node.lines);
  }

  /** An item whose text does not end with one has an open last line. */
  lemma NodeOpen(read: Reader, node: Node)
    requires NodeOk(read, node, true) && !Ended(LinesText(node.lines))
    ensures Open(node.lines[|node.lines| - 1])
  {
    hide LinesText, LineReads;
    var l := node.lines[|node.lines| - 1];
    LineNotEmpty(read, l, true);
    LastDecides(node.lines);
    if Closed(l) {
      ClosedEnds(l);
    }
  }

  lemma TidyText(read: Reader, ls: seq<Line>)
    requires TidyOk(read, ls, false)
    ensures Ended(LinesText(ls))
  {
    hide LinesText;
    AllOkClosed(read, Tidy(ls).0);
    ClosedText(read, Tidy(ls).0);
    TidyKeeps(ls);
    EndedAppend(LinesText(Tidy(ls).0), Tidy(ls).1);
  }

  lemma MoreOpen(read: Reader, ls: seq<Line>, open: bool)
    requires EndsOpen(read, ls, open)
    ensures Ended(Tidy(ls).1) && AllOk(read, Tidy(ls).0, Tidy(ls).1 == "")
    ensures !open ==> TidyOk(read, ls, false)
  {
  }

  lemma FinishedFirst(ls: seq<Line>)
    requires ls != [] && ls[0].Field?
    ensures var l := Finished(ls)[0];
      l.Field? && l.above == ls[0].above && l.lead == ls[0].lead && l.keyAt == ls[0].keyAt
  {
  }

  lemma FirstOfItem(render: Renderer, node: Node, want: Pairs, unfinished: bool)
    requires node.lines != [] && node.lines[0].Field? && Lookup(want, node.lines[0].name).Some?
    ensures var ls, l := UpdatedItem(render, node, want, unfinished), node.lines[0];
      ls != [] && ls[0].Field? && ls[0].above == l.above && ls[0].lead == l.lead && ls[0].keyAt == l.keyAt
  {
    hide Lookup, AddedLines, UpdatedLines;
    UpdatedAt(render, node.lines, want, 0);
    FinishedFirst(UpdatedLines(render, node.lines, want));
  }

  lemma UpdatedFirst(render: Renderer, node: Node, want: Pairs, unfinished: bool)
    requires FirstOk(node) && Lookup(want, node.lines[0].name).Some?
    ensures FirstOk(NodeOf(Tidy(UpdatedItem(render, node, want, unfinished)).0))
  {
    hide Lookup, LastDash, UpdatedItem, Tidy;
    FirstOfItem(render, node, want, unfinished);
    TidyFirst(UpdatedItem(render, node, want, unfinished));
  }

  /** All lines of the item without those it lacks, and the newline it may need before those. */
  lemma KeptTidy(read: Reader, render: Renderer, node: Node, want: Pairs, unfinished: bool)
    requires GoodRenderer(read, render) && NodeOk(read, node, unfinished)
    requires unfinished ==> !Ended(LinesText(node.lines))
    requires Updatable(node.lines, want) && CleanUpdate(render, node.lines, want)
    ensures var kept := UpdatedLines(render, node.lines, want);
      EndsOpen(read, kept, unfinished) && TidyOk(read, if unfinished then Finished(kept) else kept, false)
  {
    hide GoodRenderer, Updatable, CleanUpdate, Lookup, LinesText, FirstOk, EndsOpen, Finished, AllOk, TidyOk;
    var kept := UpdatedLines(render, node.lines, want);
    RewritableIs(render, node.lines, want);
    UpdatedTidy(read, render, node.lines, want, unfinished);
    if unfinished {
      var n := |node.lines| - 1;
      NodeOpen(read, node);
      UpdatedAt(render, node.lines, want, n);
      FinishedTidy(read, kept, unfinished);
    } else {
      NotOpen(read, kept);
    }
  }

  lemma ClosedToo(read: Reader, ls: seq<Line>)
    requires TidyOk(read, ls, false)
    ensures Ended(Tidy(ls).1) && AllOk(read, Tidy(ls).0, Tidy(ls).1 == "")
  {
  }

  lemma UpdatedItemTidy(read: Reader, render: Renderer, node: Node, want: Pairs, unfinished: bool)
    requires GoodRenderer(read, render) && NodeOk(read, node, unfinished)
    requires unfinished ==> !Ended(LinesText(node.lines))
    requires Updatable(node.lines, want) && CleanUpdate(render, node.lines, want)
    ensures var ls := UpdatedItem(render, node, want, unfinished);
      && Ended(Tidy(ls).1) && AllOk(read, Tidy(ls).0, Tidy(ls).1 == "")
      && (!unfinished ==> Ended(LinesText(ls)))
  {
    hide GoodRenderer, NodeOk, LinesText, EndsOpen, Finished, AllOk, TidyOk, Tidy, AddedLines, Lookup;
    var ls := UpdatedItem(render, node, want, unfinished);
    var kept := UpdatedLines(render, node.lines, want);
    var added := AddedLines(render, PairsOf(node.lines), want, node.keyCol);
    KeptTidy(read, render, node, want, unfinished);
    if added == [] {
      assert ls == kept;
      MoreOpen(read, kept, unfinished);
    } else {
      AddedTidy(read, render, if unfinished then Finished(kept) else kept, PairsOf(node.lines), want, node.keyCol);
      ClosedToo(read, ls);
    }
    if !unfinished {
      TidyText(read, ls);
    }
  }

  lemma FirstNotEmpty(node: Node)
    requires FirstOk(node)
    ensures node.lines != []
  {
  }

  lemma FirstStays(render: Renderer, node: Node, want: Pairs)
    requires FirstOk(node) && Updatable(node.lines, want)
    ensures node.lines != [] && node.lines[0].Field? && Lookup(want, node.lines[0].name).Some?
  {
    hide Lookup;
    assert LineUpdatable(node.lines, 0, want);
  }

  lemma UpdatedItemOk(read: Reader, render: Renderer, node: Node, want: Pairs, unfinished: bool)
    requires GoodRenderer(read, render) && NodeOk(read, node, unfinished)
    requires unfinished ==> !Ended(LinesText(node.lines))
    requires Updatable(node.lines, want) && CleanUpdate(render, node.lines, want)
    ensures var ls := UpdatedItem(render, node, want, unfinished);
      && Ended(Tidy(ls).1) && NodeOk(read, NodeOf(Tidy(ls).0), Tidy(ls).1 == "")
      && (!unfinished ==> Ended(LinesText(ls)))
  {
    hide GoodRenderer, LinesText, UpdatedItem, AllOk, Tidy, Lookup, FirstOk;
    UpdatedItemTidy(read, render, node, want, unfinished);
    UpdatedItemDistinct(render, node, want, unfinished);
    TidyKeeps(UpdatedItem(render, node, want, unfinished));
    FirstStays(render, node, want);
    UpdatedFirst(render, node, want, unfinished);
    FirstNotEmpty(NodeOf(Tidy(UpdatedItem(render, node, want, unfinished)).0));
  }

  // ----- the rewritten file is one the reader takes

  /** Item k starts a line and is one the reader takes. */
  ghost predicate ItemOk(read: Reader, d: Doc, k: nat)
    requires Shaped(d) && k < |d.items|
  {
    NodeOk(read, d.items[k], Unfinished(DocText(d), End(d, k))) && Ended(Upto(d, k))
  }

  ghost predicate DocOk(read: Reader, d: Doc) {
    Shaped(d) && forall k {:trigger ItemOk(read, d, k)} :: 0 <= k < |d.items| ==> ItemOk(read, d, k)
  }

  /**
   What has been read when items before j are dealt with; a last line without newline ends it only at the file's
   end.
   */
  ghost predicate Going(read: Reader, d: Doc, j: nat, f: Draft)
    requires Shaped(d) && j <= |d.items|
  {
    Sound(read, f) && (Ended(Laid(f)) || (j == |d.items| && Unfinished(DocText(d), At(d, j))))
  }

  lemma LaidLast(read: Reader, before: string, node: Node)
    requires NodeOk(read, node, true)
    ensures Ended(before + LinesText(node.lines) + "") <==> Ended(LinesText(node.lines))
  {
    hide LinesText, NodeOk, Ended;
    NotEmptyNode(read, node, true);
    EndsAs(before, LinesText(node.lines));
    assert before + LinesText(node.lines) + "" == before + LinesText(node.lines);
  }

  lemma GrownSound(read: Reader, f: Draft, text: string)
    requires Sound(read, f) && (text == "" || Ended(Laid(f)))
    ensures Sound(read, Grown(f, text))
  {
    hide NodeOk, LinesText, Ended;
    if f.Then? && f.rest == "" && text != "" {
      LaidLast(read, Laid(f.before), f.node);
      NodeClosed(read, f.node);
    }
  }

  lemma LineFinished(read: Reader, l: Line)
    requires LineOk(read, l, true) && Open(l)
    ensures LineOk(read, l.(trail := l.trail + "\n"), true)
  {
    assert (l.trail + "\n")[..|l.trail + "\n"| - 1] == l.trail;
  }

  lemma FinishedNode(read: Reader, node: Node)
    requires NodeOk(read, node, true) && !Ended(LinesText(node.lines))
    ensures NodeOk(read, node.(lines := Finished(node.lines)), true)
  {
    hide LinesText, LineReads, DistinctNames, PairsOf;
    var n := |node.lines| - 1;
    NodeOpen(read, node);
    FinishedIs(node.lines);
    assert Finished(node.lines)[..n] == node.lines[..n];
    var l := node.lines[n];
    LineFinished(read, l);
  }

  lemma NewLineSound(read: Reader, f: Draft)
    requires Sound(read, f)
    ensures Sound(read, NewLine(f)) && Ended(Laid(NewLine(f)))
  {
    hide NodeOk, LinesText, Finished;
    NewLineKeeps(f);
    EndsAs(Laid(f), "\n");
    if f.Then? && f.rest == "" {
      LaidLast(read, Laid(f.before), f.node);
      if Ended(Laid(f)) {
        NodeClosed(read, f.node);
      } else {
        FinishedNode(read, f.node);
      }
    }
  }

  /** The gap before item n ends with a newline, if it is not empty. */
  lemma GapEnds(read: Reader, d: Doc, k: nat, n: nat)
    requires DocOk(read, d) && n == k + 1 < |d.items|
    ensures Ended(d.gaps[n])
  {
    hide Upto, NodeOk, LinesText, DocText;
    assert ItemOk(read, d, n);
    NextPrefix(d, k, n);
    if d.gaps[n] != "" {
      EndsAs(Upto(d, k) + LinesText(d.items[k].lines), d.gaps[n]);
    }
  }

  lemma GapSound(read: Reader, render: Renderer, indent: nat, d: Doc, k: nat, n: nat, f: Draft)
    requires Shaped(d) && DocOk(read, d) && n == k + 1 <= |d.items| && Sound(read, f)
    requires Ended(Laid(f)) || (n == |d.items| && Unfinished(DocText(d), At(d, n)))
    ensures Going(read, d, n, Reread(read, render, indent, f, GapAfter(d, k)))
  {
    hide DocOk, Sound, Laid, Grown, Unfinished, At, DocText;
    if n < |d.items| {
      var gap := d.gaps[n];
      GapEnds(read, d, k, n);
      RereadOne(read, render, indent, f, Gap(gap));
      GrownKeeps(f, gap);
      GrownSound(read, f, gap);
      EndedAppend(Laid(f), gap);
    }
  }

  lemma NothingReread(read: Reader, render: Renderer, indent: nat, f: Draft)
    ensures Reread(read, render, indent, f, []) == f
  {
  }

  lemma {:induction false} RemovedSound(read: Reader, render: Renderer, indent: nat, d: Doc, j: nat, k: nat, f: Draft)
    requires Shaped(d) && DocOk(read, d) && j <= k <= |d.items| && Going(read, d, j, f)
    ensures Going(read, d, k, Reread(read, render, indent, f, Removed(d, j, k)))
  {
    hide DocOk, Sound, Laid, GapAfter, Reread, ReadBlock, Ended, Unfinished, Removed;
    if j == k {
      NoneRemoved(d, j);
      NothingReread(read, render, indent, f);
    } else {
      RemovedSound(read, render, indent, d, j, k - 1, f);
      RemovedNext(d, j, k - 1, k);
      RereadAppend(read, render, indent, f, Removed(d, j, k - 1), GapAfter(d, k - 1));
      GapSound(read, render, indent, d, k - 1, k, Reread(read, render, indent, f, Removed(d, j, k - 1)));
    }
  }

  /** The text up to an item that is not the last ends with a newline, so it is not an unfinished file. */
  lemma MiddleEnds(read: Reader, d: Doc, k: nat)
    requires DocOk(read, d) && k + 1 < |d.items|
    ensures !Unfinished(DocText(d), End(d, k))
  {
    hide NodeOk, Upto, LinesText, DocText;
    var src := DocText(d);
    GapAt(d, k);
    ItemAt(d, k + 1);
    assert ItemOk(read, d, k + 1);
    assert src[..|src|] == src;
  }

  /** Only the last item can lack its newline, at the end of the file. */
  lemma UnfinishedIsLast(read: Reader, d: Doc, k: nat)
    requires DocOk(read, d) && k < |d.items| && Unfinished(DocText(d), End(d, k))
    ensures k == |d.items| - 1 && At(d, k + 1) == End(d, k) && !Ended(LinesText(d.items[k].lines))
  {
    hide NodeOk, Upto, LinesText, DocText;
    var src, text := DocText(d), LinesText(d.items[k].lines);
    ItemAt(d, k);
    assert ItemOk(read, d, k);
    if k + 1 < |d.items| {
      MiddleEnds(read, d, k);
    }
    NotEmptyNode(read, d.items[k], Unfinished(src, End(d, k)));
    assert src[|src| - 1] == src[Start(d, k)..End(d, k)][|text| - 1];
  }

  lemma ItemStepSound(read: Reader, render: Renderer, d: Doc, k: nat, want: Pairs, f: Draft)
    requires GoodRenderer(read, render) && DocOk(read, d) && k < |d.items| && Sound(read, f) && Ended(Laid(f))
    requires Updatable(d.items[k].lines, want) && CleanUpdate(render, d.items[k].lines, want)
    ensures var unfinished := Unfinished(DocText(d), End(d, k));
      var ls := UpdatedItem(render, d.items[k], want, unfinished);
      var g := Then(f, NodeOf(Tidy(ls).0), Tidy(ls).1);
      Sound(read, g) && (Ended(Laid(g)) || (k + 1 == |d.items| && Unfinished(DocText(d), At(d, k + 1))))
  {
    hide GoodRenderer, NodeOk, LinesText, UpdatedItem, Tidy, Unfinished, DocText, Upto, Updatable, CleanUpdate, Ended;
    var unfinished := Unfinished(DocText(d), End(d, k));
    var ls := UpdatedItem(render, d.items[k], want, unfinished);
    assert ItemOk(read, d, k);
    if unfinished {
      UnfinishedIsLast(read, d, k);
    }
    UpdatedItemOk(read, render, d.items[k], want, unfinished);
    TidyKeeps(ls);
    Assoc(Laid(f), LinesText(Tidy(ls).0), Tidy(ls).1);
    if !unfinished {
      EndedAppend(Laid(f), LinesText(ls));
    }
  }

  lemma MatchedSound(read: Reader, render: Renderer, indent: nat, d: Doc, j: nat, k: nat, want: Pairs, f: Draft)
    requires GoodRenderer(read, render) && Shaped(d) && DocOk(read, d) && j <= k < |d.items| && Going(read, d, j, f)
    requires Updatable(d.items[k].lines, want) && CleanUpdate(render, d.items[k].lines, want)
    ensures Going(read, d, k + 1, Reread(read, render, indent, f, Matched(render, d, j, k, want)))
  {
    hide GoodRenderer, DocOk, Sound, Laid, Reread, Updatable, CleanUpdate, UpdatedItem, Tidy, Unfinished, GapAfter,
         Removed, Ended, At, DocText, Upto, LinesText;
    var gone, after := Removed(d, j, k), GapAfter(d, k);
    var item := Item(UpdatedItem(render, d.items[k], want, Unfinished(DocText(d), End(d, k))));
    RemovedSound(read, render, indent, d, j, k, f);
    var f1 := Reread(read, render, indent, f, gone);
    ItemStepSound(read, render, d, k, want, f1);
    RereadAppend(read, render, indent, f, gone, [item]);
    RereadOne(read, render, indent, f1, item);
    RereadAppend(read, render, indent, f, gone + [item], after);
    GapSound(read, render, indent, d, k, k + 1, ReadBlock(read, render, indent, f1, item));
  }

  lemma NodeWider(read: Reader, node: Node)
    requires NodeOk(read, node, false)
    ensures NodeOk(read, node, true)
  {
  }

  lemma FreshSound(read: Reader, render: Renderer, indent: nat, d: Doc, j: nat, entry: Pairs, f: Draft)
    requires GoodRenderer(read, render) && Shaped(d) && DocOk(read, d) && j <= |d.items| && Going(read, d, j, f)
    requires CleanEntry(render, entry)
    ensures var b := Fresh(Unfinished(DocText(d), At(d, j)), entry);
      FreshReads(read, render, indent, b) && Going(read, d, j, ReadBlock(read, render, indent, f, b))
  {
    hide DocOk, LinesText, DocText, At, Unfinished, CleanEntry, AllOk, Ended, NewLine;
    var newline := Unfinished(DocText(d), At(d, j));
    var node := read.item(render.item(entry, indent));
    assert ItemReads(read, node, render.item(entry, indent), entry);
    if newline {
      NewLineSound(read, f);
    }
    NodeWider(read, node);
    AllOkClosed(read, node.lines);
    ClosedText(read, node.lines);
    LaidLast(read, Laid(if newline then NewLine(f) else f), node);
  }

  lemma {:induction false} RemovedOld(d: Doc, j: nat, k: nat)
    requires |d.gaps| == |d.items| && j <= k
    ensures forall b :: b in Removed(d, j, k) ==> !b.Fresh?
  {
    if j < k {
      RemovedOld(d, j, k - 1);
    }
  }

  lemma NothingEdited(read: Reader, render: Renderer, indent: nat, d: Doc, j: nat)
    requires Shaped(d) && j <= |d.items|
    ensures Edited(render, d, j, []) == Removed(d, j, |d.items|)
    ensures forall b :: b in Edited(render, d, j, []) ==> FreshReads(read, render, indent, b)
  {
    hide ItemReads;
    RemovedOld(d, j, |d.items|);
  }

  lemma MatchedOld(read: Reader, render: Renderer, indent: nat, d: Doc, j: nat, k: nat, want: Pairs)
    requires Shaped(d) && j <= k < |d.items|
    ensures forall b :: b in Matched(render, d, j, k, want) ==> FreshReads(read, render, indent, b)
  {
    hide ItemReads, UpdatedItem, Removed;
    RemovedOld(d, j, k);
  }

  lemma {:induction false} EditedSound(read: Reader, render: Renderer, indent: nat, d: Doc, j: nat, next: seq<Pairs>,
                                       f: Draft)
    requires GoodRenderer(read, render) && Shaped(d) && DocOk(read, d) && j <= |d.items| && Going(read, d, j, f)
    requires AllUpdatable(d.items, j, next) && AllClean(render, d.items, j, next)
    ensures Going(read, d, |d.items|, Reread(read, render, indent, f, Edited(render, d, j, next)))
    ensures forall b :: b in Edited(render, d, j, next) ==> FreshReads(read, render, indent, b)
    decreases |next|
  {
    hide GoodRenderer, DocOk, Going, Reread, ReadBlock, Updatable, CleanUpdate, CleanEntry, Unfinished, Removed,
         Matched, FreshReads, Lookup, DocText, At, Edited;
    if next == [] {
      RemovedSound(read, render, indent, d, j, |d.items|, f);
      NothingEdited(read, render, indent, d, j);
    } else {
      match Find(d.items, j, Lookup(next[0], "path"))
      case None =>
        var b := Fresh(Unfinished(DocText(d), At(d, j)), next[0]);
        EditedFresh(render, d, j, next);
        FreshSound(read, render, indent, d, j, next[0], f);
        RereadAppend(read, render, indent, f, [b], Edited(render, d, j, next[1..]));
        RereadOne(read, render, indent, f, b);
        EditedSound(read, render, indent, d, j, next[1..], ReadBlock(read, render, indent, f, b));
      case Some(k) =>
        var first := Matched(render, d, j, k, next[0]);
        EditedMatched(render, d, j, k, next);
        MatchedSound(read, render, indent, d, j, k, next[0], f);
        MatchedOld(read, render, indent, d, j, k, next[0]);
        RereadAppend(read, render, indent, f, first, Edited(render, d, k + 1, next[1..]));
        EditedSound(read, render, indent, d, k + 1, next[1..], Reread(read, render, indent, f, first));
    }
  }

  // ----- where the reader finds things in what it takes

  lemma {:induction false} UptoSame(d: Doc, e: Doc, k: nat)
    requires Shaped(d) && Shaped(e) && k < |d.items| && k < |e.items|
    requires forall x :: 0 <= x <= k ==> d.gaps[x] == e.gaps[x] && (x < k ==> d.items[x] == e.items[x])
    ensures Upto(d, k) == Upto(e, k)
  {
    hide LinesText;
    if k > 0 {
      UptoSame(d, e, k - 1);
      NextPrefix(d, k - 1, k);
      NextPrefix(e, k - 1, k);
    }
  }

  /** The text before the last item, and the whole text. */
  lemma {:induction false} DocLaid(f: Draft)
    requires f.Then?
    ensures Shaped(DocOf(f)) && Upto(DocOf(f), |DocOf(f).items| - 1) == Laid(f.before) && DocText(DocOf(f)) == Laid(f)
  {
    hide LinesText;
    var d, before := DocOf(f), DocOf(f.before);
    var n := |d.items| - 1;
    if f.before.Then? {
      DocLaid(f.before);
      NextPrefix(d, n - 1, n);
      UptoSame(d, before, n - 1);
    }
  }

  lemma {:induction false} SoundAt(read: Reader, f: Draft, k: nat)
    requires Sound(read, f) && k < |DocOf(f).items|
    ensures Shaped(DocOf(f)) && Ended(Upto(DocOf(f), k))
    ensures NodeOk(read, DocOf(f).items[k], k == |DocOf(f).items| - 1 && DocOf(f).tail == "")
  {
    hide NodeOk, LinesText, Ended, Upto, DocText;
    var d, before := DocOf(f), DocOf(f.before);
    DocLaid(f);
    if k < |before.items| {
      SoundAt(read, f.before, k);
      UptoSame(d, before, k);
      if k == |before.items| - 1 && before.tail == "" {
        LaidLast(read, Laid(f.before.before), f.before.node);
        NodeClosed(read, f.before.node);
      }
    }
  }

  function PairFor(l: Line, a: nat): Pair {
    if l.Other? then Pair("", Nested(""), a, a, a)
    else
      var line, val := a + |l.above|, a + |l.above| + |l.lead|;
      Pair(l.name, l.value, line + l.keyAt, val, val + |l.val|)
  }

  function PairsFor(ls: seq<Line>, s: nat): (ps: seq<Pair>)
    ensures |ps| == |ls|
  {
    seq(|ls|, i requires 0 <= i < |ls| => PairFor(ls[i], s + LinePos(ls, i)))
  }

  function NodeFor(node: Node, s: nat): MapNode {
    MapNode(s + node.keyCol, PairsFor(node.lines, s))
  }

  /** The positions of a file's items and keys, by its layout. */
  ghost function NodesOf(d: Doc): seq<MapNode>
    requires Shaped(d)
  {
    seq(|d.items|, k requires 0 <= k < |d.items| => NodeFor(d.items[k], Start(d, k)))
  }

  /** A key's lines stand from a to b. */
  ghost predicate Stands(src: string, l: Line, a: nat, b: nat) {
    a <= b <= |src| && src[a..b] == LineText(l)
  }

  lemma Halves(src: string, a: nat, m: nat, b: nat, x: string, y: string)
    requires a <= b <= |src| && src[a..b] == x + y && m == a + |x|
    ensures m <= b && src[a..m] == x && src[m..b] == y
  {
    assert |src[a..b]| == |x| + |y|;
    assert src[a..m] == src[a..b][..|x|] == x;
    assert src[m..b] == src[a..b][|x|..] == y;
  }

  lemma PlaceText(src: string, l: Line, a: nat, b: nat)
    requires Stands(src, l, a, b) && l.Field? && l.keyAt < |l.lead|
    ensures TextAt(src, a, l, PairFor(l, a)) && b == a + LineLength(l) == PairFor(l, a).valEnd + |l.trail|
  {
    var line, val, trail := a + |l.above|, a + |l.above| + |l.lead|, a + |l.above| + |l.lead| + |l.val|;
    Halves(src, a, trail, b, l.above + l.lead + l.val, l.trail);
    Halves(src, a, val, trail, l.above + l.lead, l.val);
    Halves(src, a, line, val, l.above, l.lead);
  }

  lemma EndedBefore(src: string, a: nat)
    requires a <= |src| && Ended(src[..a])
    ensures a == 0 || src[a - 1] == '\n'
  {
    assert a > 0 ==> src[..a][|src[..a]| - 1] == src[a - 1];
  }

  lemma LineFacts(read: Reader, l: Line, open: bool)
    requires LineOk(read, l, open)
    ensures l.Field? && l.keyAt < |l.lead|
  {
  }

  lemma TrailEnds(src: string, l: Line, v: nat, b: nat, open: bool)
    requires v <= b <= |src| && l.Field? && src[v..b] == l.trail && (open ==> b == |src|) &&
      (Closed(l) || (open && Open(l)))
    ensures EndsLine(src, v, b)
  {
    forall x | v <= x < b
      ensures src[x] == l.trail[x - v]
    {
      assert src[x] == src[v..b][x - v];
    }
    if Closed(l) {
      forall x | v <= x < b - 1
        ensures src[x] != '\n'
      {
        assert l.trail[..|l.trail| - 1][x - v] == src[x];
      }
    }
  }

  lemma PlaceLines(read: Reader, src: string, l: Line, a: nat, b: nat, open: bool)
    requires Stands(src, l, a, b) && LineOk(read, l, open) && (open ==> b == |src|) && Ended(src[..a])
    ensures OnLines(src, a + |l.above|, b, PairFor(l, a))
  {
    hide LineReads, LineText;
    LineFacts(read, l, open);
    PlaceText(src, l, a, b);
    var p, line := PairFor(l, a), a + |l.above|;
    EndedBefore(src, a);
    if l.above != "" {
      assert src[line - 1] == l.above[|l.above| - 1];
    }
    forall x | line <= x < p.keyStart
      ensures src[x] != '\n'
    {
      assert src[x] == src[line..p.valStart][x - line] == l.lead[x - line] == l.lead[..l.keyAt][x - line];
    }
    TrailEnds(src, l, p.valEnd, b, open);
  }

  lemma LinesSplit(ls: seq<Line>)
    requires ls != []
    ensures LinesText(ls) == LinesText(ls[..|ls| - 1]) + LineText(ls[|ls| - 1])
  {
  }

  lemma {:induction false} PosInit(ls: seq<Line>, n: nat, i: nat)
    requires i <= n <= |ls|
    ensures LinePos(ls[..n], i) == LinePos(ls, i)
  {
    if i > 0 {
      PosInit(ls, n, i - 1);
    }
  }

  lemma ClosedBefore(read: Reader, src: string, ls: seq<Line>, s: nat, m: nat)
    requires AllClosed(read, ls) && s <= m <= |src| && src[s..m] == LinesText(ls) && Ended(src[..s])
    ensures Ended(src[..m])
  {
    hide LinesText, Ended;
    ClosedText(read, ls);
    EndedAppend(src[..s], src[s..m]);
    assert src[..m] == src[..s] + src[s..m];
  }

  /** Line i of an item at s stands where its length puts it, and the text before it ends a line. */
  lemma {:induction false} LineStands(read: Reader, src: string, ls: seq<Line>, s: nat, i: nat, open: bool)
    requires AllOk(read, ls, open) && i < |ls| && s + |LinesText(ls)| <= |src|
    requires src[s..s + |LinesText(ls)|] == LinesText(ls) && Ended(src[..s])
    ensures Stands(src, ls[i], s + LinePos(ls, i), s + LinePos(ls, i + 1)) && Ended(src[..s + LinePos(ls, i)])
    ensures LineOk(read, ls[i], open && i == |ls| - 1)
    ensures s + LinePos(ls, i + 1) <= s + |LinesText(ls)| && (i == |ls| - 1 ==> LinePos(ls, i + 1) == |LinesText(ls)|)
    decreases |ls|
  {
    hide LineOk, LineText, Ended, LinesText, LinePos;
    var n := |ls| - 1;
    var init, l := ls[..n], ls[n];
    LinesSplit(ls);
    var m, b := s + |LinesText(init)|, s + |LinesText(ls)|;
    Halves(src, s, m, b, LinesText(init), LineText(l));
    LinePosIs(ls, n);
    LinePosIs(ls, n + 1);
    assert ls[..n + 1] == ls;
    AllOkClosed(read, init);
    if i < n {
      LineStands(read, src, init, s, i, false);
      PosInit(ls, n, i);
      PosInit(ls, n, i + 1);
    } else {
      ClosedBefore(read, src, init, s, m);
    }
  }

  lemma KeyPlaced(read: Reader, src: string, node: Node, s: nat, i: nat, open: bool)
    requires AllOk(read, node.lines, open) && s + |LinesText(node.lines)| <= |src| && Ended(src[..s])
    requires src[s..s + |LinesText(node.lines)|] == LinesText(node.lines)
    requires (open ==> s + |LinesText(node.lines)| == |src|) && i < |node.lines|
    ensures TextOfKey(src, s, node.lines, NodeFor(node, s).pairs, i)
    ensures LinesOfKey(src, s, node.lines, NodeFor(node, s).pairs, i)
  {
    hide LineOk, AllOk, LinesText, LinePos, LineLength, TextAt, OnLines, Stands, Ended;
    var ls := node.lines;
    LineStands(read, src, ls, s, i, open);
    LinePosNext(ls, i, i + 1);
    LineFacts(read, ls[i], open && i == |ls| - 1);
    PlaceText(src, ls[i], s + LinePos(ls, i), s + LinePos(ls, i + 1));
    PlaceLines(read, src, ls[i], s + LinePos(ls, i), s + LinePos(ls, i + 1), open && i == |ls| - 1);
  }

  lemma NodePlaced(read: Reader, src: string, node: Node, s: nat, open: bool)
    requires NodeOk(read, node, open) && s + |LinesText(node.lines)| <= |src| && Ended(src[..s])
    requires src[s..s + |LinesText(node.lines)|] == LinesText(node.lines)
    requires open ==> s + |LinesText(node.lines)| == |src|
    ensures AllPlaced(src, s, node.lines, NodeFor(node, s).pairs)
  {
    hide AllOk, LinesText, TextOfKey, LinesOfKey, Ended, FirstOk, DistinctNames;
    forall i | 0 <= i < |node.lines|
      ensures TextOfKey(src, s, node.lines, NodeFor(node, s).pairs, i)
      ensures LinesOfKey(src, s, node.lines, NodeFor(node, s).pairs, i)
    {
      KeyPlaced(read, src, node, s, i, open);
    }
  }

  lemma NodeFound(read: Reader, src: string, node: Node, s: nat, open: bool)
    requires NodeOk(read, node, open) && s + |LinesText(node.lines)| <= |src| && Ended(src[..s])
    requires src[s..s + |LinesText(node.lines)|] == LinesText(node.lines)
    requires open ==> s + |LinesText(node.lines)| == |src|
    ensures NodeLocated(src, s, node, NodeFor(node, s)) && Dashed(node, NodeFor(node, s))
  {
    hide LineOk, LinesText, AllPlaced, LastDash, DistinctNames;
    NodePlaced(read, src, node, s, open);
  }

  lemma OpenAtEnd(d: Doc, k: nat)
    requires Shaped(d) && k < |d.items|
    ensures k == |d.items| - 1 && d.tail == "" ==> Start(d, k) + |LinesText(d.items[k].lines)| == |DocText(d)|
  {
    hide LinesText, Upto;
  }

  /** A file that was taken item after item is laid out as the edit expects it. */
  lemma SoundIsLocated(read: Reader, f: Draft)
    requires Sound(read, f) && f.Then?
    ensures Shaped(DocOf(f)) && Located(Laid(f), NodesOf(DocOf(f)), DocOf(f)) &&
      AllDashed(DocOf(f).items, NodesOf(DocOf(f)))
  {
    hide NodeOk, LinesText, Upto, NodeLocated, Dashed, NodeFor, Sound, Ended, DocText;
    DocLaid(f);
    var d := DocOf(f);
    var nodes := NodesOf(d);
    forall k | 0 <= k < |d.items|
      ensures NodeLocated(Laid(f), Start(d, k), d.items[k], nodes[k]) && Dashed(d.items[k], nodes[k])
    {
      SoundAt(read, f, k);
      ItemAt(d, k);
      OpenAtEnd(d, k);
      NodeFound(read, Laid(f), d.items[k], Start(d, k), k == |d.items| - 1 && d.tail == "");
    }
  }

  // ----- a file laid out as the edit expects it is one the reader takes

  ghost predicate AllRead(read: Reader, ls: seq<Line>) {
    forall l :: l in ls ==> LineReads(read, l)
  }

  /** Every key and value of the file reads as its label says. */
  ghost predicate DocReads(read: Reader, d: Doc) {
    forall k {:trigger d.items[k]} :: 0 <= k < |d.items| ==> AllRead(read, d.items[k].lines)
  }

  /** The file's last value does not run up to the end of the file with a newline of its own. */
  ghost predicate EndsInLine(d: Doc)
    requires Shaped(d)
  {
    var ls := d.items[|d.items| - 1].lines;
    ls != [] && Ended(LineText(ls[|ls| - 1])) ==> Closed(ls[|ls| - 1])
  }

  lemma LeadIsOk(src: string, l: Line, p: Pair, a: nat, b: nat)
    requires TextAt(src, a, l, p) && b == p.valEnd + |l.trail| && OnLines(src, a + |l.above|, b, p)
    ensures Ended(l.above) && l.keyAt < |l.lead| && OneLine(l.lead[..l.keyAt])
  {
    var line := a + |l.above|;
    if l.above != "" {
      assert l.above[|l.above| - 1] == src[a..line][line - a - 1] == src[line - 1];
    }
    forall x | 0 <= x < l.keyAt
      ensures l.lead[..l.keyAt][x] != '\n'
    {
      assert l.lead[x] == src[line..p.valStart][x] == src[line + x];
    }
  }

  lemma KeyIsOk(read: Reader, src: string, l: Line, p: Pair, a: nat, b: nat)
    requires TextAt(src, a, l, p) && b == p.valEnd + |l.trail| && OnLines(src, a + |l.above|, b, p)
    requires LineReads(read, l) && (b == |src| && Ended(LineText(l)) ==> Closed(l))
    ensures LineOk(read, l, Unfinished(src, b))
  {
    hide LineReads, LineText;
    LeadIsOk(src, l, p, a, b);
    UntouchedText(src, a, l, p);
    forall x | 0 <= x < |l.trail|
      ensures l.trail[x] == src[p.valEnd + x]
    {
      assert l.trail[x] == src[p.valEnd..b][x];
    }
    assert LineText(l)[|LineText(l)| - 1] == src[a..b][b - a - 1] == src[b - 1];
  }

  /** A key is whole, or it is the last of its item and the file ends there. */
  lemma KeyOfItem(read: Reader, src: string, s: nat, node: Node, m: MapNode, i: nat)
    requires m.pairs != [] && NodeLocated(src, s, node, m) && AllRead(read, node.lines) && i < |node.lines|
    requires var l := node.lines[|node.lines| - 1];
      s + LinePos(node.lines, |node.lines|) == |src| && Ended(LineText(l)) ==> Closed(l)
    ensures LineOk(read, node.lines[i], i == |node.lines| - 1 && Unfinished(src, s + LinePos(node.lines, |node.lines|)))
  {
    hide TextAt, OnLines, LineReads, LineText, LastDash, Closed, LinePos, DistinctNames;
    var ls := node.lines;
    LinePosNext(ls, i, i + 1);
    var a, b := s + LinePos(ls, i), s + LinePos(ls, i + 1);
    KeyText(src, s, ls, m.pairs, i, a, b);
    KeyFacts(src, s, ls, m.pairs, i, a, b);
    KeyOnLines(src, s, ls, m.pairs, i, a, b, a + |ls[i].above|);
    assert ls[i] in ls;
    if i < |ls| - 1 {
      LinePosNext(ls, i + 1, i + 2);
      KeyFacts(src, s, ls, m.pairs, i + 1, b, s + LinePos(ls, i + 2));
    }
    KeyIsOk(read, src, ls[i], m.pairs[i], a, b);
  }

  lemma FirstOnLine(src: string, s: nat, node: Node, m: MapNode)
    requires m.pairs != [] && NodeLocated(src, s, node, m)
    ensures s < |src| && (s == 0 || src[s - 1] == '\n') && node.keyCol == node.lines[0].keyAt
  {
    var b := s + LineLength(node.lines[0]);
    KeyText(src, s, node.lines, m.pairs, 0, s, b);
    KeyOnLines(src, s, node.lines, m.pairs, 0, s, b, s);
  }

  lemma NodeIsOk(read: Reader, src: string, s: nat, node: Node, m: MapNode)
    requires m.pairs != [] && NodeLocated(src, s, node, m) && Dashed(node, m) && AllRead(read, node.lines)
    requires var l := node.lines[|node.lines| - 1];
      s + |LinesText(node.lines)| == |src| && Ended(LineText(l)) ==> Closed(l)
    ensures NodeOk(read, node, Unfinished(src, s + |LinesText(node.lines)|))
    ensures s < |src| && (s == 0 || src[s - 1] == '\n')
  {
    hide TextAt, OnLines, LineReads, LineText, LinesText, LastDash, Closed, LinePos, AllRead, Ended;
    var ls := node.lines;
    var n := |ls| - 1;
    EndFacts(src, s, node, m);
    KeyOfItem(read, src, s, node, m, n);
    forall l | l in ls[..n]
      ensures LineOk(read, l, false)
    {
      var i :| 0 <= i < n && ls[i] == l;
      KeyOfItem(read, src, s, node, m, i);
    }
    FirstOnLine(src, s, node, m);
  }

  lemma LocatedIsOk(read: Reader, src: string, nodes: seq<MapNode>, d: Doc)
    requires Located(src, nodes, d) && AllDashed(d.items, nodes) && DocReads(read, d) && EndsInLine(d)
    ensures Shaped(d) && DocOk(read, d)
  {
    hide NodeLocated, NodeOk, AllRead, LinesText, LineText, LastDash, Closed, Upto, DocText;
    forall k | 0 <= k < |d.items|
      ensures ItemOk(read, d, k)
    {
      assert Dashed(d.items[k], nodes[k]);
      if k + 1 < |d.items| {
        assert Dashed(d.items[k + 1], nodes[k + 1]);
        FirstOnLine(src, Start(d, k + 1), d.items[k + 1], nodes[k + 1]);
        GapAt(d, k);
      }
      NodeIsOk(read, src, Start(d, k), d.items[k], nodes[k]);
      ItemAt(d, k);
      if Start(d, k) > 0 {
        assert Upto(d, k)[Start(d, k) - 1] == src[..Start(d, k)][Start(d, k) - 1];
      }
    }
  }

  // ----- main results

  /** The new file as it is read. */
  ghost function NewDraft(read: Reader, render: Renderer, indent: nat, d: Doc, colon: nat, next: seq<Pairs>): Draft
    requires Shaped(d) && colon < |d.gaps[0]|
  {
    Reread(read, render, indent, Begun(""), NewBlocks(render, d, colon, next))
  }

  ghost function NewDoc(read: Reader, render: Renderer, indent: nat, d: Doc, colon: nat, next: seq<Pairs>): Doc
    requires Shaped(d) && colon < |d.gaps[0]|
  {
    DocOf(NewDraft(read, render, indent, d, colon, next))
  }

  lemma FirstGap(head: string)
    ensures Grown(Begun(""), head) == Begun(head)
  {
    assert "" + head == head;
  }

  lemma NewDraftIs(read: Reader, render: Renderer, indent: nat, d: Doc, colon: nat, next: seq<Pairs>)
    requires Shaped(d) && colon < |d.gaps[0]| && next != []
    ensures NewDraft(read, render, indent, d, colon, next)
      == Grown(Reread(read, render, indent, Begun(d.gaps[0]), Edited(render, d, 0, next)), d.tail)
  {
    hide Edited, Grown;
    var head, tail := [Gap(d.gaps[0])], [Gap(d.tail)];
    var list := Edited(render, d, 0, next);
    RereadAppend(read, render, indent, Begun(""), head + list, tail);
    RereadAppend(read, render, indent, Begun(""), head, list);
    RereadOne(read, render, indent, Begun(""), head[0]);
    FirstGap(d.gaps[0]);
    RereadOne(read, render, indent, Reread(read, render, indent, Begun(d.gaps[0]), list), tail[0]);
  }

  lemma NothingYet(read: Reader, head: string)
    ensures Sound(read, Begun(head)) && Laid(Begun(head)) == head
  {
  }

  lemma NewDraftSound(read: Reader, render: Renderer, indent: nat, d: Doc, colon: nat, next: seq<Pairs>)
    requires GoodRenderer(read, render) && Shaped(d) && DocOk(read, d) && colon < |d.gaps[0]| && next != []
    requires AllUpdatable(d.items, 0, next) && AllClean(render, d.items, 0, next)
    ensures Sound(read, NewDraft(read, render, indent, d, colon, next))
    ensures forall b :: b in Edited(render, d, 0, next) ==> FreshReads(read, render, indent, b)
  {
    hide GoodRenderer, NodeOk, AllUpdatable, AllClean, Edited, Reread, Sound, Laid, FreshReads, Grown;
    var begun := Begun(d.gaps[0]);
    assert ItemOk(read, d, 0);
    NothingYet(read, d.gaps[0]);
    EditedSound(read, render, indent, d, 0, next, begun);
    var f := Reread(read, render, indent, begun, Edited(render, d, 0, next));
    TailAt(d);
    GrownSound(read, f, d.tail);
    NewDraftIs(read, render, indent, d, colon, next);
  }

  lemma NoContents()
    ensures Contents(Begun("")) == [] && Laid(Begun("")) == ""
  {
  }

  lemma NewDraftKeeps(read: Reader, render: Renderer, indent: nat, d: Doc, colon: nat, next: seq<Pairs>)
    requires Shaped(d) && colon < |d.gaps[0]| && next != []
    requires forall b :: b in Edited(render, d, 0, next) ==> FreshReads(read, render, indent, b)
    ensures var f := NewDraft(read, render, indent, d, colon, next);
      Laid(f) == BlocksText(render, indent, NewBlocks(render, d, colon, next)) && AllSame(Contents(f), next)
  {
    hide Edited, Reread, BlocksText, EntriesOf, SameEntry, Laid, Contents, ItemReads;
    var bs := NewBlocks(render, d, colon, next);
    forall b | b in bs
      ensures FreshReads(read, render, indent, b)
    {
    }
    RereadKeeps(read, render, indent, Begun(""), bs);
    NoContents();
    assert [] + EntriesOf(bs) == EntriesOf(bs);
    assert "" + BlocksText(render, indent, bs) == BlocksText(render, indent, bs);
    NewFileHoldsNext(render, d, colon, next);
    assert AllSame(Contents(Reread(read, render, indent, Begun(""), bs)), EntriesOf(bs) + []) by {
      assert EntriesOf(bs) + [] == EntriesOf(bs);
    }
    SameThen(Contents(Reread(read, render, indent, Begun(""), bs)), EntriesOf(bs), [], next);
    assert next + [] == next;
  }

  lemma {:induction false} ContentsAre(f: Draft)
    ensures |DocOf(f).items| == |Contents(f)|
    ensures forall k :: 0 <= k < |Contents(f)| ==> Contents(f)[k] == PairsOf(DocOf(f).items[k].lines)
  {
    if f.Then? {
      ContentsAre(f.before);
    }
  }

  lemma NodeReads(read: Reader, node: Node, open: bool)
    requires NodeOk(read, node, open)
    ensures AllRead(read, node.lines)
  {
    hide LineReads, FirstOk, DistinctNames, PairsOf;
    assert node.lines == node.lines[..|node.lines| - 1] + [node.lines[|node.lines| - 1]];
  }

  lemma SoundReads(read: Reader, f: Draft)
    requires Sound(read, f)
    ensures DocReads(read, DocOf(f))
  {
    hide Sound, NodeOk, AllRead, DocText, Upto, Ended, DocOf;
    forall k | 0 <= k < |DocOf(f).items|
      ensures AllRead(read, DocOf(f).items[k].lines)
    {
      SoundAt(read, f, k);
      NodeReads(read, DocOf(f).items[k], k == |DocOf(f).items| - 1 && DocOf(f).tail == "");
    }
  }

  /**
   The file is laid out as an edit expects it, its keys and values read as its labels say, and it holds the
   entries.
   */
  ghost predicate HoldsEntries(read: Reader, text: string, d: Doc, next: seq<Pairs>) {
    && Shaped(d) && Located(text, NodesOf(d), d) && AllDashed(d.items, NodesOf(d)) && DocReads(read, d)
    && |d.items| == |next| && forall w :: 0 <= w < |next| ==> SameEntry(PairsOf(d.items[w].lines), next[w])
  }

  lemma ThenIs(f: Draft)
    ensures f.Then? <==> Contents(f) != []
  {
  }

  /**
   Whenever the edit succeeds, and what it writes is on one line and stands after a blank, the new text is again a
   file of mappings under dashes, read as what the edit meant it to be, and its items are the wanted entries in order.
   */
  lemma NewFileReads(read: Reader, render: Renderer, indent: nat, src: string, nodes: seq<MapNode>, d: Doc, colon: nat,
                     next: seq<Pairs>)
    requires GoodRenderer(read, render) && Located(src, nodes, d) && DocReads(read, d) && EndsInLine(d)
    requires colon < |d.gaps[0]| && next != []
    requires AllDashed(d.items, nodes) && AllUpdatable(d.items, 0, next) && AllClean(render, d.items, 0, next)
    ensures HoldsEntries(read, BlocksText(render, indent, NewBlocks(render, d, colon, next)),
                         NewDoc(read, render, indent, d, colon, next), next)
  {
    hide GoodRenderer, Located, DocReads, EndsInLine, AllDashed, AllUpdatable, AllClean, DocOk, Edited, BlocksText,
         NewBlocks, Sound, Laid, Contents, DocOf, NewDraft, FreshReads, SameEntry, NodesOf, PairsOf;
    LocatedIsOk(read, src, nodes, d);
    NewDraftSound(read, render, indent, d, colon, next);
    NewDraftKeeps(read, render, indent, d, colon, next);
    var f := NewDraft(read, render, indent, d, colon, next);
    ContentsAre(f);
    ThenIs(f);
    SoundIsLocated(read, f);
    SoundReads(read, f);
  }

  /** What stands before the first item. */
  function HeadOf(f: Draft): string {
    match f
    case Begun(head) => head
    case Then(before, _, _) => HeadOf(before)
  }

  lemma HeadGrows(read: Reader, render: Renderer, indent: nat, f: Draft, b: Block)
    ensures |HeadOf(f)| <= |HeadOf(ReadBlock(read, render, indent, f, b))|
  {
  }

  lemma {:induction false} HeadStays(read: Reader, render: Renderer, indent: nat, f: Draft, bs: seq<Block>)
    ensures |HeadOf(f)| <= |HeadOf(Reread(read, render, indent, f, bs))|
    decreases |bs|
  {
    if bs != [] {
      HeadGrows(read, render, indent, f, bs[0]);
      HeadStays(read, render, indent, ReadBlock(read, render, indent, f, bs[0]), bs[1..]);
    }
  }

  lemma {:induction false} HeadIs(f: Draft)
    requires f.Then?
    ensures DocOf(f).gaps != [] && DocOf(f).gaps[0] == HeadOf(f)
  {
    if f.before.Then? {
      HeadIs(f.before);
    }
  }

  /** The new file's head is no shorter than the old one's. */
  lemma NewHead(read: Reader, render: Renderer, indent: nat, d: Doc, colon: nat, next: seq<Pairs>)
    requires Shaped(d) && colon < |d.gaps[0]| && next != []
    requires Shaped(NewDoc(read, render, indent, d, colon, next))
    ensures |d.gaps[0]| <= |NewDoc(read, render, indent, d, colon, next).gaps[0]|
  {
    hide Edited, Reread;
    NewDraftIs(read, render, indent, d, colon, next);
    var f := Reread(read, render, indent, Begun(d.gaps[0]), Edited(render, d, 0, next));
    HeadStays(read, render, indent, Begun(d.gaps[0]), Edited(render, d, 0, next));
    HeadIs(Grown(f, d.tail));
  }

  lemma AllAreFields(src: string, s: nat, node: Node, m: MapNode)
    requires m.pairs != [] && NodeLocated(src, s, node, m)
    ensures forall i :: 0 <= i < |node.lines| ==> node.lines[i].Field?
  {
    hide TextAt, OnLines, LinePos, LineLength;
    forall i | 0 <= i < |node.lines|
      ensures node.lines[i].Field?
    {
      assert LinesOfKey(src, s, node.lines, m.pairs, i);
    }
  }

  lemma ItemHolds(read: Reader, text: string, d: Doc, next: seq<Pairs>, w: nat)
    requires HoldsEntries(read, text, d, next) && w < |next|
    ensures AlreadyHolds(d.items, w, next[w])
  {
    hide Lookup, LinesText, AllRead, AllPlaced, DistinctNames, PairsOf, LastDash;
    assert Dashed(d.items[w], NodesOf(d)[w]);
    assert NodeLocated(text, Start(d, w), d.items[w], NodesOf(d)[w]);
    AllAreFields(text, Start(d, w), d.items[w], NodesOf(d)[w]);
  }

  lemma {:induction false} HoldsAll(items: seq<Node>, j: nat, next: seq<Pairs>, all: seq<Pairs>)
    requires j <= |items| == |all| && next == all[j..]
    requires forall w :: 0 <= w < |all| ==> AlreadyHolds(items, w, all[w])
    ensures Holds(items, j, next)
    decreases |next|
  {
    hide AlreadyHolds;
    if next != [] {
      HoldsAll(items, j + 1, next[1..], all);
    }
  }

  /** Written once, the same entries change nothing: the edit succeeds and gives the same text. */
  lemma SecondWriteIsIdle(read: Reader, render: Renderer, indent: nat, src: string, nodes: seq<MapNode>, d: Doc,
                          colon: nat,
                          next: seq<Pairs>)
    requires GoodRenderer(read, render) && Located(src, nodes, d) && DocReads(read, d) && EndsInLine(d)
    requires colon + 1 < |d.gaps[0]| && next != []
    requires AllDashed(d.items, nodes) && AllUpdatable(d.items, 0, next) && AllClean(render, d.items, 0, next)
    ensures var text := BlocksText(render, indent, NewBlocks(render, d, colon, next));
      var d' := NewDoc(read, render, indent, d, colon, next);
      && Shaped(d') && Located(text, NodesOf(d'), d') && colon + 1 < |d'.gaps[0]|
      && AllDashed(d'.items, NodesOf(d')) && AllUpdatable(d'.items, 0, next)
      && forall i: nat :: BlocksText(render, i, NewBlocks(render, d', colon, next)) == text
  {
    hide GoodRenderer, DocReads, EndsInLine, AllDashed, AllUpdatable, AllClean, BlocksText, NewBlocks, NewDoc,
         NodeLocated, DocText, NodesOf, Holds;
    var text := BlocksText(render, indent, NewBlocks(render, d, colon, next));
    var d' := NewDoc(read, render, indent, d, colon, next);
    NewFileReads(read, render, indent, src, nodes, d, colon, next);
    NewHead(read, render, indent, d, colon, next);
    forall w | 0 <= w < |next|
      ensures AlreadyHolds(d'.items, w, next[w])
    {
      ItemHolds(read, text, d', next, w);
    }
    assert next[0..] == next;
    HoldsAll(d'.items, 0, next, next);
    forall i: nat
      ensures BlocksText(render, i, NewBlocks(render, d', colon, next)) == text
    {
      UnchangedFile(render, i, d', colon, next);
    }
    UnchangedFile(render, indent, d', colon, next);
  }
}
