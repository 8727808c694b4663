/**
 The bytes of the embedding cache's delta file: one JSON record to a line, appended, where an append
 may be cut anywhere by a killed process, between the bytes of one character too.
 */
module DeltaLog {
  import opened Wrappers

  /** An embedder's name and dimension: what a vector must have been made by to be served. */
  datatype Model = Model(name: string, dim: int)

  datatype Binary = Binary(mantissa: int, exponent: int)

  /** A finite floating-point number, mantissa times two to the exponent, in its one form with an odd mantissa. */
  type Float = x: Binary | x.mantissa % 2 == 1 || x == Binary(0, 0) witness Binary(0, 0)

  datatype Record = Record(id: string, hash: string, embedding: seq<Float>, model: Model)

  const NEWLINE: Byte := 10

  /** The JSON codec over UTF-8, with `parse` None for any bytes that are not a complete record. */
  datatype Codec = Codec(encode: Record -> Bytes, parse: Bytes -> Option<Record>)

  /** An object literal has no proper prefix that is JSON, and JSON.stringify escapes newlines. */
  ghost predicate GoodCodec(c: Codec) {
    && c.parse([]) == None
    && (forall r :: c.parse(c.encode(r)) == Some(r) && NEWLINE !in c.encode(r))
    && (forall r, n :: 0 <= n < |c.encode(r)| ==> c.parse(c.encode(r)[..n]) == None)
  }

  // ----- lines

  function WithFirst(b: Byte, ls: seq<Bytes>): seq<Bytes>
    requires ls != []
  {
    [[b] + ls[0]] + ls[1..]
  }

  /** `text.split('\n')` */
  function Lines(s: Bytes): (ls: seq<Bytes>)
    ensures ls != []
  {
    if s == [] then [[]]
    else if s[0] == NEWLINE then [[]] + Lines(s[1..])
    else WithFirst(s[0], Lines(s[1..]))
  }

  lemma {:induction false} LinesHoldNoNewline(s: Bytes)
    ensures forall l :: l in Lines(s) ==> NEWLINE !in l
  {
    if s != [] {
      LinesHoldNoNewline(s[1..]);
      var rest := Lines(s[1..]);
      assert rest[0] in rest;
      assert forall l :: l in rest[1..] ==> l in rest;
    }
  }

  lemma {:induction false} LinesOfOne(s: Bytes)
    requires NEWLINE !in s
    ensures Lines(s) == [s]
  {
    if s != [] {
      LinesOfOne(s[1..]);
      assert s == [s[0]] + s[1..];
    }
  }

  lemma FirstOfMore(b: Byte, ls: seq<Bytes>, more: seq<Bytes>)
    requires ls != []
    ensures WithFirst(b, ls + more) == WithFirst(b, ls) + more
  {
    assert (ls + more)[1..] == ls[1..] + more;
  }

  lemma {:induction false} LinesAppend(a: Bytes, b: Bytes)
    ensures Lines(a + [NEWLINE] + b) == Lines(a) + Lines(b)
  {
    hide WithFirst;
    var ab := a + [NEWLINE] + b;
    if a == [] {
      assert ab[0] == NEWLINE && ab[1..] == b;
    } else {
      LinesAppend(a[1..], b);
      assert ab[0] == a[0] && ab[1..] == a[1..] + [NEWLINE] + b;
      var rest, more := Lines(a[1..]), Lines(b);
      if a[0] == NEWLINE {
        Assoc([[]], rest, more);
      } else {
        FirstOfMore(a[0], rest, more);
      }
    }
  }

  function Found(p: Option<Record>): seq<Record> {
    if p.Some? then [p.value] else []
  }

  /** The records a reader finds, in file order; lines that do not parse are skipped. */
  function Parsed(c: Codec, ls: seq<Bytes>): seq<Record> {
    if ls == [] then [] else Found(c.parse(ls[0])) + Parsed(c, ls[1..])
  }

  lemma ParsedOne(c: Codec, l: Bytes)
    ensures Parsed(c, [l]) == Found(c.parse(l))
  {
    assert [l][1..] == [];
    assert Parsed(c, [l][1..]) == [];
  }

  function Records(c: Codec, text: Bytes): seq<Record> {
    Parsed(c, Lines(text))
  }

  lemma {:induction false} ParsedAppend(c: Codec, a: seq<Bytes>, b: seq<Bytes>)
    ensures Parsed(c, a + b) == Parsed(c, a) + Parsed(c, b)
  {
    hide Found;
    if a == [] {
      assert a + b == b;
    } else {
      ParsedAppend(c, a[1..], b);
      assert (a + b)[0] == a[0] && (a + b)[1..] == a[1..] + b;
      Assoc(Found(c.parse(a[0])), Parsed(c, a[1..]), Parsed(c, b));
    }
  }

  /** Reading one line more. */
  lemma ParsedNext(c: Codec, ls: seq<Bytes>, i: nat, n: nat)
    requires i < |ls| && n == i + 1
    ensures Parsed(c, ls[..n]) ==
      match c.parse(ls[i]) case None => Parsed(c, ls[..i]) case Some(r) => Parsed(c, ls[..i]) + [r]
  {
    ParsedAppend(c, ls[..i], [ls[i]]);
    ParsedOne(c, ls[i]);
    assert ls[..n] == ls[..i] + [ls[i]];
  }

  lemma RecordsAcrossNewline(c: Codec, a: Bytes, b: Bytes)
    ensures Records(c, a + [NEWLINE] + b) == Records(c, a) + Records(c, b)
  {
    LinesAppend(a, b);
    ParsedAppend(c, Lines(a), Lines(b));
  }

  lemma NoRecordsInNothing(c: Codec)
    requires GoodCodec(c)
    ensures Records(c, []) == []
  {
    ParsedOne(c, []);
  }

  // ----- appending

  /** Non-empty and without a final newline: a line was cut. */
  predicate EndsTorn(text: Bytes) {
    text != [] && text[|text| - 1] != NEWLINE
  }

  function Rendered(c: Codec, batch: seq<Record>): Bytes {
    if batch == [] then [] else c.encode(batch[0]) + [NEWLINE] + Rendered(c, batch[1..])
  }

  lemma {:induction false} RenderedSnoc(c: Codec, batch: seq<Record>, r: Record)
    ensures Rendered(c, batch + [r]) == Rendered(c, batch) + c.encode(r) + [NEWLINE]
  {
    if batch == [] {
      assert [r][1..] == [];
      assert batch + [r] == [r];
    } else {
      assert (batch + [r])[0] == batch[0] && (batch + [r])[1..] == batch[1..] + [r];
      RenderedSnoc(c, batch[1..], r);
    }
  }

  lemma RenderedNext(c: Codec, batch: seq<Record>, i: nat, n: nat)
    requires i < |batch| && n == i + 1
    ensures Rendered(c, batch[..n]) == Rendered(c, batch[..i]) + c.encode(batch[i]) + [NEWLINE]
  {
    RenderedSnoc(c, batch[..i], batch[i]);
    assert batch[..n] == batch[..i] + [batch[i]];
  }

  /** What an append is asked to write after `text`. */
  function Appendix(c: Codec, text: Bytes, batch: seq<Record>): Bytes {
    (if EndsTorn(text) then [NEWLINE] else []) + Rendered(c, batch)
  }

  /** How many records of the batch are whole after `cut` of its bytes. */
  function Whole(c: Codec, batch: seq<Record>, cut: nat): (n: nat)
    ensures n <= |batch|
  {
    if batch == [] then 0
    else
      var len := |c.encode(batch[0])|;
      if cut < len then 0 else if cut == len then 1 else 1 + Whole(c, batch[1..], cut - len - 1)
  }

  lemma {:induction false} WholeOfAll(c: Codec, batch: seq<Record>)
    ensures Whole(c, batch, |Rendered(c, batch)|) == |batch|
  {
    if batch != [] {
      WholeOfAll(c, batch[1..]);
    }
  }

  lemma OneRecord(c: Codec, r: Record)
    requires GoodCodec(c)
    ensures Records(c, c.encode(r)) == [r]
  {
    LinesOfOne(c.encode(r));
    ParsedOne(c, c.encode(r));
  }

  lemma TornRecord(c: Codec, r: Record, n: nat)
    requires GoodCodec(c) && n < |c.encode(r)|
    ensures Records(c, c.encode(r)[..n]) == []
  {
    LinesOfOne(c.encode(r)[..n]);
    ParsedOne(c, c.encode(r)[..n]);
  }

  /** A batch cut anywhere reads back as exactly its whole records. */
  lemma {:induction false} CutBatch(c: Codec, batch: seq<Record>, cut: nat)
    requires GoodCodec(c) && cut <= |Rendered(c, batch)|
    ensures Records(c, Rendered(c, batch)[..cut]) == batch[..Whole(c, batch, cut)]
  {
    if batch == [] {
      NoRecordsInNothing(c);
    } else {
      var line := c.encode(batch[0]);
      var rest := Rendered(c, batch[1..]);
      if cut < |line| {
        assert (line + [NEWLINE] + rest)[..cut] == line[..cut];
        TornRecord(c, batch[0], cut);
      } else if cut == |line| {
        assert (line + [NEWLINE] + rest)[..cut] == line;
        OneRecord(c, batch[0]);
      } else {
        var k := cut - |line| - 1;
        assert (line + [NEWLINE] + rest)[..cut] == line + [NEWLINE] + rest[..k];
        CutBatch(c, batch[1..], k);
        OneRecord(c, batch[0]);
        RecordsAcrossNewline(c, line, rest[..k]);
      }
    }
  }

  /** Text put on a line of its own adds its records after those already there. */
  lemma FreshLine(c: Codec, text: Bytes, more: Bytes)
    requires GoodCodec(c)
    requires !EndsTorn(text)
    ensures Records(c, text + more) == Records(c, text) + Records(c, more)
  {
    NoRecordsInNothing(c);
    if text == [] {
      assert text + more == more;
    } else {
      var a := text[..|text| - 1];
      assert text == a + [NEWLINE] + [];
      assert text + more == a + [NEWLINE] + more;
      RecordsAcrossNewline(c, a, []);
      RecordsAcrossNewline(c, a, more);
    }
  }

  /** The bytes of the batch itself that a cut append wrote. */
  function BatchCut(text: Bytes, cut: nat): nat {
    if EndsTorn(text) && cut > 0 then cut - 1 else cut
  }

  /**
   An append killed after any number of bytes, onto a file however torn, adds exactly the whole
   records of its batch and changes none that were there.
   */
  lemma CutAppend(c: Codec, text: Bytes, batch: seq<Record>, cut: nat)
    requires GoodCodec(c) && cut <= |Appendix(c, text, batch)|
    ensures Records(c, text + Appendix(c, text, batch)[..cut])
         == Records(c, text) + batch[..Whole(c, batch, BatchCut(text, cut))]
  {
    var body := Rendered(c, batch);
    if cut == 0 {
      assert text + Appendix(c, text, batch)[..cut] == text;
      CutBatch(c, batch, 0);
      NoRecordsInNothing(c);
    } else if EndsTorn(text) {
      assert text + ([NEWLINE] + body)[..cut] == text + [NEWLINE] + body[..cut - 1];
      RecordsAcrossNewline(c, text, body[..cut - 1]);
      CutBatch(c, batch, cut - 1);
    } else {
      assert [] + body == body;
      FreshLine(c, text, body[..cut]);
      CutBatch(c, batch, cut);
    }
  }

  lemma WholeAppend(c: Codec, text: Bytes, batch: seq<Record>)
    requires GoodCodec(c)
    ensures Records(c, text + Appendix(c, text, batch)) == Records(c, text) + batch
    ensures Appendix(c, text, batch) ==
      (if text == [] || text[|text| - 1] == NEWLINE then [] else [NEWLINE]) + Rendered(c, batch)
  {
    var all := Appendix(c, text, batch);
    WholeOfAll(c, batch);
    if all == [] {
      assert batch == [];
      assert text + all == text;
    } else {
      assert all[..|all|] == all;
      CutAppend(c, text, batch, |all|);
      assert BatchCut(text, |all|) == |Rendered(c, batch)|;
    }
  }

  // ----- what a fold leaves behind

  function Foreign(rs: seq<Record>, who: Model): seq<Record> {
    if rs == [] then []
    else if rs[0].model != who then [rs[0]] + Foreign(rs[1..], who)
    else Foreign(rs[1..], who)
  }

  lemma {:induction false} ForeignAppend(a: seq<Record>, b: seq<Record>, who: Model)
    ensures Foreign(a + b, who) == Foreign(a, who) + Foreign(b, who)
  {
    if a == [] {
      assert a + b == b;
    } else {
      ForeignAppend(a[1..], b, who);
      assert (a + b)[0] == a[0] && (a + b)[1..] == a[1..] + b;
      Assoc([a[0]], Foreign(a[1..], who), Foreign(b, who));
    }
  }

  /** The records of others are left, each as often as it was, and no others. */
  lemma {:induction false} ForeignCounts(rs: seq<Record>, who: Model, r: Record)
    ensures multiset(Foreign(rs, who))[r] == if r.model == who then 0 else multiset(rs)[r]
  {
    if rs != [] {
      var rest := rs[1..];
      ForeignCounts(rest, who, r);
      assert rs == [rs[0]] + rest;
      assert multiset([rs[0]] + rest) == multiset{rs[0]} + multiset(rest);
      assert multiset([rs[0]] + Foreign(rest, who)) == multiset{rs[0]} + multiset(Foreign(rest, who));
    }
  }

  /** The lines a fold for `who` keeps: those holding another model's record. */
  function KeptLines(c: Codec, ls: seq<Bytes>, who: Model): (kept: seq<Bytes>)
    ensures forall l :: l in kept ==> l in ls
  {
    if ls == [] then []
    else
      var p := c.parse(ls[0]);
      if p.Some? && p.value.model != who then [ls[0]] + KeptLines(c, ls[1..], who)
      else KeptLines(c, ls[1..], who)
  }

  /** `lines.join('\n') + '\n'` */
  function Joined(ls: seq<Bytes>): Bytes {
    if ls == [] then [] else ls[0] + [NEWLINE] + Joined(ls[1..])
  }

  /** The file a fold for `who` leaves; the empty text stands for the unlinked file. */
  function Trimmed(c: Codec, text: Bytes, who: Model): Bytes {
    Joined(KeptLines(c, Lines(text), who))
  }

  lemma {:induction false} JoinedReadsBack(c: Codec, ls: seq<Bytes>)
    requires GoodCodec(c)
    requires forall l :: l in ls ==> NEWLINE !in l
    ensures Records(c, Joined(ls)) == Parsed(c, ls)
  {
    if ls == [] {
      NoRecordsInNothing(c);
    } else {
      JoinedReadsBack(c, ls[1..]);
      RecordsAcrossNewline(c, ls[0], Joined(ls[1..]));
      LinesOfOne(ls[0]);
      ParsedOne(c, ls[0]);
    }
  }

  lemma {:induction false} KeptLinesHoldForeign(c: Codec, ls: seq<Bytes>, who: Model)
    ensures Parsed(c, KeptLines(c, ls, who)) == Foreign(Parsed(c, ls), who)
  {
    if ls != [] {
      KeptLinesHoldForeign(c, ls[1..], who);
      var p, rest := c.parse(ls[0]), Parsed(c, ls[1..]);
      if p.Some? {
        assert ([p.value] + rest)[1..] == rest;
        ParsedAppend(c, [ls[0]], KeptLines(c, ls[1..], who));
        ParsedOne(c, ls[0]);
      } else {
        assert Found(p) + rest == rest;
      }
    }
  }

  /** A fold keeps every record of other models, in order, and none of its own. */
  lemma TrimKeepsForeign(c: Codec, text: Bytes, who: Model)
    requires GoodCodec(c)
    ensures Records(c, Trimmed(c, text, who)) == Foreign(Records(c, text), who)
  {
    LinesHoldNoNewline(text);
    JoinedReadsBack(c, KeptLines(c, Lines(text), who));
    KeptLinesHoldForeign(c, Lines(text), who);
  }
}
