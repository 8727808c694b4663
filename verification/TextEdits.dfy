/**
 Edits of a text as ranges of the original to replace, and the two ways to carry them out: all at once,
 and one after another from the back, as `applyEdits` does after sorting.
 */
module TextEdits {
  import opened Wrappers

  datatype Edit = Edit(start: nat, end: nat, text: string, num: nat)

  // JavaScript's slice(0, n) and slice(n) on a string, for n >= 0.

  function Take(s: string, n: nat): string {
    if n <= |s| then s[..n] else s
  }

  function Drop(s: string, n: nat): string {
    if n <= |s| then s[n..] else ""
  }

  // ----- all at once

  /** Each edit starts at or after the end of the one before it, and they end by p. */
  ghost predicate InOrder(src: string, es: seq<Edit>, p: nat) {
    && p <= |src|
    && (es != [] ==>
          var e := es[|es| - 1];
          e.start <= e.end <= p && InOrder(src, es[..|es| - 1], e.start))
  }

  /** The first p characters of src with every edit carried out; all else survives, in order. */
  ghost function Spliced(src: string, es: seq<Edit>, p: nat): string
    requires InOrder(src, es, p)
  {
    if es == [] then src[..p]
    else
      var e := es[|es| - 1];
      Spliced(src, es[..|es| - 1], e.start) + e.text + src[e.end..p]
  }

  lemma SplicedFurther(src: string, es: seq<Edit>, p: nat, q: nat)
    requires InOrder(src, es, p) && p <= q <= |src|
    ensures InOrder(src, es, q) && Spliced(src, es, q) == Spliced(src, es, p) + src[p..q]
  {
    if es == [] {
      assert src[..q] == src[..p] + src[p..q];
    } else {
      var e := es[|es| - 1];
      assert src[e.end..q] == src[e.end..p] + src[p..q];
    }
  }

  /** One more edit after those carried out up to p. */
  lemma SplicedOneMore(src: string, es: seq<Edit>, p: nat, e: Edit)
    requires InOrder(src, es, p) && p <= e.start <= e.end <= |src|
    ensures InOrder(src, es + [e], e.end)
    ensures Spliced(src, es + [e], e.end) == Spliced(src, es, p) + src[p..e.start] + e.text
  {
    var all := es + [e];
    assert all[..|all| - 1] == es;
    SplicedFurther(src, es, p, e.start);
    assert src[e.end..e.end] == "";
  }

  lemma {:induction false} SplicedAgree(src: string, src': string, es: seq<Edit>, p: nat)
    requires InOrder(src, es, p) && p <= |src'| && src[..p] == src'[..p]
    ensures InOrder(src', es, p) && Spliced(src', es, p) == Spliced(src, es, p)
  {
    if es != [] {
      var e := es[|es| - 1];
      assert src[..e.start] == src[..p][..e.start] && src'[..e.start] == src'[..p][..e.start];
      SplicedAgree(src, src', es[..|es| - 1], e.start);
      assert src[e.end..p] == src[..p][e.end..] && src'[e.end..p] == src'[..p][e.end..];
    }
  }

  // ----- one after another

  function ApplyOne(s: string, e: Edit): string {
    Take(s, e.start) + e.text + Drop(s, e.end)
  }

  function ApplyEach(s: string, es: seq<Edit>): string
    decreases |es|
  {
    if es == [] then s else ApplyEach(ApplyOne(s, es[0]), es[1..])
  }

  function Reversed(es: seq<Edit>): seq<Edit> {
    if es == [] then [] else [es[|es| - 1]] + Reversed(es[..|es| - 1])
  }

  /** The last edit, carried out alone, leaves the others' part of the text as it was. */
  lemma LastFirst(src: string, es: seq<Edit>)
    requires InOrder(src, es, |src|) && es != []
    ensures var src', init := ApplyOne(src, es[|es| - 1]), es[..|es| - 1];
      InOrder(src', init, |src'|) && Spliced(src', init, |src'|) == Spliced(src, es, |src|)
  {
    var e, init := es[|es| - 1], es[..|es| - 1];
    var src' := ApplyOne(src, e);
    assert src' == src[..e.start] + (e.text + src[e.end..|src|]);
    assert src'[..e.start] == src[..e.start];
    SplicedAgree(src, src', init, e.start);
    SplicedFurther(src', init, e.start, |src'|);
    assert src'[e.start..|src'|] == e.text + src[e.end..|src|];
    var before := Spliced(src, init, e.start);
    assert before + (e.text + src[e.end..|src|]) == before + e.text + src[e.end..|src|];
  }

  /** From the back, no edit moves the range of one still to come. */
  lemma {:induction false} BackToFront(src: string, es: seq<Edit>)
    requires InOrder(src, es, |src|)
    ensures ApplyEach(src, Reversed(es)) == Spliced(src, es, |src|)
    decreases |es|
  {
    if es == [] {
      assert src[..|src|] == src;
    } else {
      LastFirst(src, es);
      BackToFront(ApplyOne(src, es[|es| - 1]), es[..|es| - 1]);
      assert Reversed(es)[1..] == Reversed(es[..|es| - 1]);
    }
  }

  // ----- the sort: later start first, and for one start later sequence number first

  predicate Sooner(x: Edit, y: Edit) {
    x.start > y.start || (x.start == y.start && x.num > y.num)
  }

  ghost predicate AllSooner(xs: seq<Edit>) {
    forall i, j :: 0 <= i < j < |xs| ==> Sooner(xs[i], xs[j])
  }

  lemma SameHead(xs: seq<Edit>, ys: seq<Edit>)
    requires AllSooner(xs) && AllSooner(ys) && multiset(xs) == multiset(ys) && xs != [] && ys != []
    ensures xs[0] == ys[0]
  {
    assert xs[0] in multiset(ys) && ys[0] in multiset(xs);
    var i :| 0 <= i < |ys| && ys[i] == xs[0];
    var j :| 0 <= j < |xs| && xs[j] == ys[0];
  }

  lemma SameRest(xs: seq<Edit>, ys: seq<Edit>)
    requires xs != [] && ys != [] && xs[0] == ys[0] && multiset(xs) == multiset(ys)
    ensures multiset(xs[1..]) == multiset(ys[1..])
  {
    assert xs == [xs[0]] + xs[1..] && ys == [ys[0]] + ys[1..];
    assert multiset(xs[1..]) == multiset(xs) - multiset{xs[0]};
    assert multiset(ys[1..]) == multiset(ys) - multiset{ys[0]};
  }

  /** A list sorted strictly by Sooner is determined by its elements. */
  lemma {:induction false} SortedOnce(xs: seq<Edit>, ys: seq<Edit>)
    requires AllSooner(xs) && AllSooner(ys) && multiset(xs) == multiset(ys)
    ensures xs == ys
  {
    if xs == [] || ys == [] {
      assert |multiset(xs)| == |multiset(ys)|;
    } else {
      hide Sooner;
      SameHead(xs, ys);
      SameRest(xs, ys);
      SortedOnce(xs[1..], ys[1..]);
      assert xs == [xs[0]] + xs[1..] && ys == [ys[0]] + ys[1..];
    }
  }

  lemma {:induction false} ReversedIs(es: seq<Edit>)
    ensures |Reversed(es)| == |es|
    ensures forall i :: 0 <= i < |es| ==> Reversed(es)[i] == es[|es| - 1 - i]
  {
    if es != [] {
      ReversedIs(es[..|es| - 1]);
    }
  }

  lemma {:induction false} ReversedKeeps(es: seq<Edit>)
    ensures multiset(Reversed(es)) == multiset(es)
  {
    if es != [] {
      var init, e := es[..|es| - 1], es[|es| - 1];
      ReversedKeeps(init);
      assert es == init + [e];
    }
  }

  function Insert(sorted: seq<Edit>, e: Edit): seq<Edit> {
    if sorted == [] || Sooner(e, sorted[0]) then [e] + sorted else [sorted[0]] + Insert(sorted[1..], e)
  }

  function Sorted(edits: seq<Edit>): seq<Edit> {
    if edits == [] then [] else Insert(Sorted(edits[1..]), edits[0])
  }

  ghost predicate DistinctNums(edits: seq<Edit>) {
    forall i, j :: 0 <= i < j < |edits| ==> edits[i].num != edits[j].num
  }

  /** In a sorted list the first comes before all the others, which are sorted. */
  lemma SoonerFirst(x: Edit, rest: seq<Edit>)
    ensures AllSooner([x] + rest) <==> AllSooner(rest) && forall y :: y in rest ==> Sooner(x, y)
  {
    hide Sooner;
    var all := [x] + rest;
    if AllSooner(all) {
      forall i, j | 0 <= i < j < |rest|
        ensures Sooner(rest[i], rest[j])
      {
        assert all[i + 1] == rest[i] && all[j + 1] == rest[j];
      }
      forall y | y in rest
        ensures Sooner(x, y)
      {
        var i :| 0 <= i < |rest| && rest[i] == y;
        assert all[0] == x && all[i + 1] == y;
      }
    }
  }

  lemma NoneSooner()
    ensures AllSooner([])
  {
  }

  lemma {:induction false} InsertSorts(sorted: seq<Edit>, e: Edit)
    requires AllSooner(sorted) && forall x :: x in sorted ==> x.num != e.num
    ensures AllSooner(Insert(sorted, e)) && multiset(Insert(sorted, e)) == multiset(sorted) + multiset{e}
    ensures forall x :: x in Insert(sorted, e) ==> x == e || x in sorted
  {
    hide AllSooner;
    if sorted == [] {
      SoonerFirst(e, []);
      NoneSooner();
    } else {
      var first, rest := sorted[0], sorted[1..];
      assert sorted == [first] + rest;
      SoonerFirst(first, rest);
      if Sooner(e, first) {
        SoonerFirst(e, sorted);
      } else {
        InsertSorts(rest, e);
        SoonerFirst(first, Insert(rest, e));
      }
    }
  }

  lemma InSame(x: Edit, a: seq<Edit>, b: seq<Edit>)
    requires multiset(a) == multiset(b) && x in a
    ensures x in b
  {
    assert x in multiset(a);
  }

  lemma {:induction false} SortSorts(edits: seq<Edit>)
    requires DistinctNums(edits)
    ensures AllSooner(Sorted(edits)) && multiset(Sorted(edits)) == multiset(edits)
  {
    hide AllSooner, Insert;
    if edits == [] {
      NoneSooner();
    } else {
      var first, rest := edits[0], edits[1..];
      SortSorts(rest);
      assert edits == [first] + rest;
      forall x | x in Sorted(rest)
        ensures x.num != first.num
      {
        InSame(x, Sorted(rest), rest);
      }
      InsertSorts(Sorted(rest), first);
    }
  }

  method ApplyEdits(src: string, edits: seq<Edit>) returns (out: string)
    ensures out == ApplyEach(src, Sorted(edits))
  {
    out := src;
    var sorted := Sorted(edits);
    for i := 0 to |sorted|
      invariant ApplyEach(out, sorted[i..]) == ApplyEach(src, sorted)
    {
      assert sorted[i..][1..] == sorted[i + 1..];
      out := ApplyOne(out, sorted[i]);
    }
  }

  /**
   Whatever order edits were recorded in: sorted and carried out one by one, they do what the ranges say,
   provided that in order of position (an insertion first where it meets a deletion) their sequence
   numbers break every tie the same way.
   */
  lemma AppliedIsSpliced(src: string, edits: seq<Edit>, es: seq<Edit>)
    requires DistinctNums(edits)
    requires InOrder(src, es, |src|) && multiset(es) == multiset(edits)
    requires forall i, j :: 0 <= i < j < |es| ==> Sooner(es[j], es[i])
    ensures ApplyEach(src, Sorted(edits)) == Spliced(src, es, |src|)
  {
    SortSorts(edits);
    ReversedIs(es);
    ReversedKeeps(es);
    SortedOnce(Sorted(edits), Reversed(es));
    BackToFront(src, es);
  }

  // ----- recording edits from front to back

  /** The edits so far, how far into the text they reach, and what they make of it up to there. */
  datatype Progress = Progress(edits: seq<Edit>, at: nat, text: string)

  /** Each edit bears the number of edits before it. */
  ghost predicate Numbered(es: seq<Edit>) {
    es != [] ==> es[|es| - 1].num == |es| - 1 && Numbered(es[..|es| - 1])
  }

  /** What the edits make of the text up to p, if they are numbered and can be carried out there. */
  ghost function Outcome(src: string, es: seq<Edit>, p: nat): Option<string> {
    if InOrder(src, es, p) && Numbered(es) then Some(Spliced(src, es, p)) else None
  }

  ghost predicate Good(src: string, pr: Progress) {
    Outcome(src, pr.edits, pr.at) == Some(pr.text)
  }

  /** Record e and go on to b, the text from here to there being `text` once e is carried out. */
  function Put(pr: Progress, e: Edit, b: nat, text: string): Progress {
    Progress(pr.edits + [e], b, pr.text + text)
  }

  /** Go on to b with no edit. */
  function Pass(pr: Progress, b: nat, text: string): Progress {
    Progress(pr.edits, b, pr.text + text)
  }

  lemma PutGood(src: string, pr: Progress, e: Edit, b: nat, text: string)
    requires Good(src, pr) && pr.at <= e.start <= e.end <= b <= |src| && e.num == |pr.edits|
    requires text == src[pr.at..e.start] + e.text + src[e.end..b]
    ensures Good(src, Put(pr, e, b, text))
  {
    assert (pr.edits + [e])[..|pr.edits|] == pr.edits;
    SplicedOneMore(src, pr.edits, pr.at, e);
    SplicedFurther(src, pr.edits + [e], e.end, b);
    assert pr.text + src[pr.at..e.start] + e.text + src[e.end..b] == pr.text + text;
  }

  lemma PassGood(src: string, pr: Progress, b: nat, text: string)
    requires Good(src, pr) && pr.at <= b <= |src| && text == src[pr.at..b]
    ensures Good(src, Pass(pr, b, text))
  {
    SplicedFurther(src, pr.edits, pr.at, b);
  }

  lemma {:induction false} InOrderMeans(src: string, es: seq<Edit>, p: nat)
    requires InOrder(src, es, p)
    ensures p <= |src|
    ensures forall i :: 0 <= i < |es| ==> es[i].start <= es[i].end <= p
    ensures forall i, j :: 0 <= i < j < |es| ==> es[i].end <= es[j].start
  {
    if es != [] {
      InOrderMeans(src, es[..|es| - 1], es[|es| - 1].start);
    }
  }

  lemma {:induction false} NumberedMeans(es: seq<Edit>)
    requires Numbered(es)
    ensures forall i :: 0 <= i < |es| ==> es[i].num == i
  {
    if es != [] {
      NumberedMeans(es[..|es| - 1]);
    }
  }

  /** The edits recorded front to back, sorted and applied: the recorded text, then the rest of the original. */
  lemma AppliedProgress(src: string, pr: Progress)
    requires Good(src, pr)
    ensures ApplyEach(src, Sorted(pr.edits)) == pr.text + src[pr.at..]
  {
    hide Spliced, Sorted, ApplyEach, Reversed, InOrder, Numbered;
    InOrderMeans(src, pr.edits, pr.at);
    NumberedMeans(pr.edits);
    SplicedFurther(src, pr.edits, pr.at, |src|);
    AppliedIsSpliced(src, pr.edits, pr.edits);
  }

  lemma OnlyAhead(src: string, first: Edit, es: seq<Edit>, p: nat)
    requires es == [] && first.start <= first.end <= p <= |src|
    ensures InOrder(src, [first] + es, p) && InOrder(src, es, p) && first.end <= |Spliced(src, es, p)|
    ensures Spliced(src, [first] + es, p) == src[..first.start] + first.text + Spliced(src, es, p)[first.end..]
    ensures Spliced(src, es, p)[..first.end] == src[..first.end]
  {
    assert [first] + es == [first] && [first][..0] == [];
    assert src[..p][first.end..] == src[first.end..p];
  }

  /** What one more edit asks for and adds. */
  lemma OneMoreInOrder(src: string, init: seq<Edit>, e: Edit, p: nat)
    ensures InOrder(src, init + [e], p) <==> p <= |src| && e.start <= e.end <= p && InOrder(src, init, e.start)
    ensures InOrder(src, init + [e], p) ==>
      Spliced(src, init + [e], p) == Spliced(src, init, e.start) + e.text + src[e.end..p]
  {
    assert (init + [e])[..|init|] == init;
  }

  lemma AheadText(head: string, before: string, at: nat, text: string, rest: string)
    requires at <= |before|
    ensures head + before[at..] + text + rest == head + (before + text + rest)[at..]
    ensures (before + text + rest)[..at] == before[..at]
  {
    assert (before + text + rest)[at..] == before[at..] + text + rest;
  }

  /** An edit ahead of all the others, wherever it was recorded. */
  lemma {:induction false} SplicedAhead(src: string, first: Edit, es: seq<Edit>, p: nat)
    requires InOrder(src, es, p) && first.start <= first.end <= p
    requires forall i :: 0 <= i < |es| ==> first.end <= es[i].start
    ensures InOrder(src, [first] + es, p)
    ensures first.end <= |Spliced(src, es, p)|
    ensures Spliced(src, [first] + es, p) == src[..first.start] + first.text + Spliced(src, es, p)[first.end..]
    ensures Spliced(src, es, p)[..first.end] == src[..first.end]
  {
    hide InOrder, Spliced;
    InOrderMeans(src, es, p);
    if es == [] {
      OnlyAhead(src, first, es, p);
    } else {
      var e, init := es[|es| - 1], es[..|es| - 1];
      assert es == init + [e];
      OneMoreInOrder(src, init, e, p);
      SplicedAhead(src, first, init, e.start);
      OneMoreInOrder(src, [first] + init, e, p);
      assert [first] + init + [e] == [first] + es;
      AheadText(src[..first.start] + first.text, Spliced(src, init, e.start), first.end, e.text, src[e.end..p]);
    }
  }

  lemma AheadSorted(src: string, first: Edit, es: seq<Edit>, p: nat)
    requires InOrder(src, es, p) && Numbered(es) && first.num == |es|
    requires forall i :: 0 <= i < |es| ==> first.start < es[i].start
    ensures DistinctNums(es + [first]) && multiset([first] + es) == multiset(es + [first])
    ensures forall i, j :: 0 <= i < j < |[first] + es| ==> Sooner(([first] + es)[j], ([first] + es)[i])
  {
    InOrderMeans(src, es, p);
    NumberedMeans(es);
  }

  lemma AppliedAhead(src: string, first: Edit, pr: Progress)
    requires Good(src, pr) && first.num == |pr.edits| && first.start <= first.end <= pr.at
    requires forall i :: 0 <= i < |pr.edits| ==> first.end <= pr.edits[i].start && first.start < pr.edits[i].start
    ensures first.end <= |pr.text|
    ensures ApplyEach(src, Sorted(pr.edits + [first])) ==
      src[..first.start] + first.text + pr.text[first.end..] + src[pr.at..]
  {
    AheadSorted(src, first, pr.edits, pr.at);
    SplicedAhead(src, first, pr.edits, pr.at);
    SplicedFurther(src, [first] + pr.edits, pr.at, |src|);
    AppliedIsSpliced(src, pr.edits + [first], [first] + pr.edits);
  }
}
