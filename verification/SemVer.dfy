/**
 Which of two launch pins is the older: `olderOrEqual` against precedence in section 11 of Semantic
 Versioning 2.0.0. Numeric identifiers are read as integers of any size.
 */
module SemVer {
  import opened Wrappers
  import opened Texts

  // ----- the text of a version

  predicate IsPreChar(c: char) {
    IsDigit(c) || 'A' <= c <= 'Z' || 'a' <= c <= 'z' || c == '.' || c == '-'
  }

  predicate AllDigits(s: string) {
    s != "" && forall i :: 0 <= i < |s| ==> IsDigit(s[i])
  }

  predicate AllPreChars(s: string) {
    s != "" && forall i :: 0 <= i < |s| ==> IsPreChar(s[i])
  }

  /** Digits without a leading zero, section 9 and section 2. */
  predicate IsNumber(s: string) {
    AllDigits(s) && (|s| == 1 || s[0] != '0')
  }

  /** Where c first stands in s, |s| if nowhere. */
  function IndexOf(s: string, c: char): (i: nat)
    ensures i <= |s| && c !in s[..i] && (i < |s| ==> s[i] == c)
  {
    if s == "" then 0
    else if s[0] == c then 0
    else
      assert s[..IndexOf(s[1..], c) + 1] == [s[0]] + s[1..][..IndexOf(s[1..], c)];
      IndexOf(s[1..], c) + 1
  }

  /** The pieces between the dots. */
  function Split(s: string): (ids: seq<string>)
    ensures ids != []
    decreases |s|
  {
    var i := IndexOf(s, '.');
    if i == |s| then [s] else [s[..i]] + Split(s[i + 1..])
  }

  function Join(ids: seq<string>): string
    requires ids != []
  {
    if |ids| == 1 then ids[0] else ids[0] + "." + Join(ids[1..])
  }

  lemma {:induction false} JoinUndoesSplit(s: string)
    ensures Join(Split(s)) == s
    decreases |s|
  {
    hide IndexOf;
    var i := IndexOf(s, '.');
    if i < |s| {
      var head, rest := s[..i], s[i + 1..];
      JoinUndoesSplit(rest);
      assert Split(s) == [head] + Split(rest);
      assert ([head] + Split(rest))[1..] == Split(rest);
      assert s == head + "." + rest;
    }
  }

  /** What the pattern keeps of a version: the three numbers and the text after the hyphen. */
  datatype Version = Version(parts: seq<nat>, pre: Option<string>)

  /** The pattern, piece by piece: build metadata after the first `+`, a prerelease after the first `-` before it. */
  function Parse(text: string): Option<Version> {
    var plus := IndexOf(text, '+');
    var head := text[..plus];
    var dash := IndexOf(head, '-');
    var core := Split(head[..dash]);
    if plus < |text| && !AllPreChars(text[plus + 1..]) then None
    else if dash < |head| && !AllPreChars(head[dash + 1..]) then None
    else if |core| == 3 && IsNumber(core[0]) && IsNumber(core[1]) && IsNumber(core[2]) then
      Some(Version([Value(core[0]), Value(core[1]), Value(core[2])],
                   if dash < |head| then Some(head[dash + 1..]) else None))
    else None
  }

  /** A text after its mark, if there is one. */
  function Marked(mark: char, text: Option<string>): string {
    if text.Some? then [mark] + text.value else ""
  }

  function Core(numbers: seq<string>): string
    requires |numbers| == 3
  {
    numbers[0] + "." + numbers[1] + "." + numbers[2]
  }

  function Print(numbers: seq<string>, pre: Option<string>, build: Option<string>): string
    requires |numbers| == 3
  {
    Core(numbers) + Marked('-', pre) + Marked('+', build)
  }

  /** The three numbers and the two texts of a version. */
  predicate Proper(numbers: seq<string>, pre: Option<string>, build: Option<string>) {
    && |numbers| == 3 && IsNumber(numbers[0]) && IsNumber(numbers[1]) && IsNumber(numbers[2])
    && (pre.Some? ==> AllPreChars(pre.value)) && (build.Some? ==> AllPreChars(build.value))
  }

  lemma IndexOfIs(s: string, c: char, i: nat)
    requires i <= |s| && c !in s[..i] && (i < |s| ==> s[i] == c)
    ensures IndexOf(s, c) == i
  {
    var j := IndexOf(s, c);
    forall k | 0 <= k < i
      ensures s[k] != c
    {
      assert s[..i][k] == s[k];
    }
    forall k | 0 <= k < j
      ensures s[k] != c
    {
      assert s[..j][k] == s[k];
    }
  }

  lemma NotIn(s: string, c: char)
    requires forall i :: 0 <= i < |s| ==> s[i] != c
    ensures c !in s
  {
  }

  lemma SplitDot(a: string, rest: string)
    requires '.' !in a
    ensures Split(a + "." + rest) == [a] + Split(rest)
  {
    var s := a + "." + rest;
    assert s[..|a|] == a;
    IndexOfIs(s, '.', |a|);
    assert s[|a| + 1..] == rest;
  }

  lemma SplitNoDot(a: string)
    requires '.' !in a
    ensures Split(a) == [a]
  {
    assert a[..|a|] == a;
    IndexOfIs(a, '.', |a|);
  }

  lemma SplitThree(a: string, b: string, c: string)
    requires AllDigits(a) && AllDigits(b) && AllDigits(c)
    ensures Split(a + "." + b + "." + c) == [a, b, c]
  {
    hide Split;
    NotIn(a, '.');
    NotIn(b, '.');
    NotIn(c, '.');
    assert a + "." + b + "." + c == a + "." + (b + "." + c);
    SplitDot(a, b + "." + c);
    SplitDot(b, c);
    SplitNoDot(c);
  }

  /** The text after the first mark, if there is one. */
  function After(s: string, mark: char): Option<string> {
    var i := IndexOf(s, mark);
    if i < |s| then Some(s[i + 1..]) else None
  }

  lemma CutMarked(head: string, mark: char, text: Option<string>)
    requires mark !in head
    ensures var s := head + Marked(mark, text);
      IndexOf(s, mark) == |head| && s[..|head|] == head && After(s, mark) == text
  {
    hide IndexOf;
    var s := head + Marked(mark, text);
    assert s[..|head|] == head;
    IndexOfIs(s, mark, |head|);
    if text.Some? {
      assert s[|head| + 1..] == text.value;
    }
  }

  lemma MarkedAgain(s: string, mark: char)
    ensures s == s[..IndexOf(s, mark)] + Marked(mark, After(s, mark))
  {
    hide IndexOf;
    var i := IndexOf(s, mark);
    if i < |s| {
      assert s == s[..i] + [s[i]] + s[i + 1..];
    }
  }

  lemma CoreChars(numbers: seq<string>)
    requires |numbers| == 3 && AllDigits(numbers[0]) && AllDigits(numbers[1]) && AllDigits(numbers[2])
    ensures '-' !in Core(numbers) && '+' !in Core(numbers)
  {
    NotIn(Core(numbers), '-');
    NotIn(Core(numbers), '+');
  }

  lemma PreChars(core: string, pre: Option<string>)
    requires '+' !in core && (pre.Some? ==> AllPreChars(pre.value))
    ensures '+' !in core + Marked('-', pre)
  {
    var s := core + Marked('-', pre);
    forall i | 0 <= i < |s|
      ensures s[i] != '+'
    {
      if i < |core| {
        assert core[i] in core;
      }
    }
  }

  lemma CoreSplits(numbers: seq<string>)
    requires |numbers| == 3 && AllDigits(numbers[0]) && AllDigits(numbers[1]) && AllDigits(numbers[2])
    ensures Split(Core(numbers)) == numbers
  {
    SplitThree(numbers[0], numbers[1], numbers[2]);
  }

  /** A printed version parses to what was printed; its build metadata is dropped. */
  lemma ParseUndoesPrint(numbers: seq<string>, pre: Option<string>, build: Option<string>)
    requires Proper(numbers, pre, build)
    ensures Parse(Print(numbers, pre, build))
      == Some(Version([Value(numbers[0]), Value(numbers[1]), Value(numbers[2])], pre))
  {
    hide Split, IndexOf, Value, AllPreChars, Core, Marked;
    var core := Core(numbers);
    var head := core + Marked('-', pre);
    CoreChars(numbers);
    PreChars(core, pre);
    CutMarked(head, '+', build);
    CutMarked(core, '-', pre);
    CoreSplits(numbers);
  }

  lemma JoinThree(ids: seq<string>)
    requires |ids| == 3
    ensures Join(ids) == Core(ids)
  {
    assert Join(ids[1..]) == ids[1] + "." + ids[2];
    assert ids[0] + "." + (ids[1] + "." + ids[2]) == ids[0] + "." + ids[1] + "." + ids[2];
  }

  /** Only printed versions parse. */
  lemma OnlyPrintedParse(text: string)
    requires Parse(text).Some?
    ensures exists numbers, pre, build :: Proper(numbers, pre, build) && text == Print(numbers, pre, build)
  {
    hide Split, IndexOf, Value, AllPreChars, IsNumber, Core, Marked;
    var head := text[..IndexOf(text, '+')];
    var core := head[..IndexOf(head, '-')];
    JoinUndoesSplit(core);
    JoinThree(Split(core));
    MarkedAgain(head, '-');
    MarkedAgain(text, '+');
    assert Proper(Split(core), After(head, '-'), After(text, '+'));
  }

  lemma DigitsAre(s: string)
    ensures AllDigits(s) <==> s != "" && forall c :: c in s ==> '0' <= c <= '9'
  {
    assert forall i :: 0 <= i < |s| ==> s[i] in s;
  }

  lemma NumberIs(s: string)
    ensures IsNumber(s) <==> s != "" && (forall c :: c in s ==> '0' <= c <= '9') && (s[0] == '0' ==> s == "0")
  {
    DigitsAre(s);
    assert s != "" && s[0] == '0' && |s| == 1 ==> s == "0";
  }

  lemma PreCharsAre(s: string)
    ensures AllPreChars(s) <==> s != "" && forall c :: c in s ==>
      '0' <= c <= '9' || 'A' <= c <= 'Z' || 'a' <= c <= 'z' || c == '.' || c == '-'
  {
    assert forall i :: 0 <= i < |s| ==> s[i] in s;
  }

  /** The form of a version: three numbers between dots, and after its mark a prerelease, and build metadata. */
  lemma FormIs(numbers: seq<string>, pre: Option<string>, build: Option<string>)
    ensures Proper(numbers, pre, build) <==>
      && |numbers| == 3
      && (forall i :: 0 <= i < 3 ==>
            var n := numbers[i]; n != "" && (forall c :: c in n ==> '0' <= c <= '9') && (n[0] == '0' ==> n == "0"))
      && (pre.Some? ==> pre.value != "" && forall c :: c in pre.value ==>
            '0' <= c <= '9' || 'A' <= c <= 'Z' || 'a' <= c <= 'z' || c == '.' || c == '-')
      && (build.Some? ==> build.value != "" && forall c :: c in build.value ==>
            '0' <= c <= '9' || 'A' <= c <= 'Z' || 'a' <= c <= 'z' || c == '.' || c == '-')
    ensures |numbers| == 3 ==>
      Print(numbers, pre, build) == numbers[0] + "." + numbers[1] + "." + numbers[2] +
        (if pre.Some? then "-" + pre.value else "") + (if build.Some? then "+" + build.value else "")
  {
    hide IsNumber, AllPreChars;
    if |numbers| == 3 {
      NumberIs(numbers[0]);
      NumberIs(numbers[1]);
      NumberIs(numbers[2]);
    }
    if pre.Some? {
      PreCharsAre(pre.value);
    }
    if build.Some? {
      PreCharsAre(build.value);
    }
  }

  // ----- precedence, section 11

  /** 11.4.1 to 11.4.3: numbers by value, texts in ASCII order, and numbers below texts. */
  predicate IdLower(p: string, q: string) {
    if AllDigits(p) then !AllDigits(q) || Value(p) < Value(q) else !AllDigits(q) && TextLower(p, q)
  }

  /** 11.4: from left to right until a difference, and 11.4.4: the longer of two that agree so far is the higher. */
  predicate IdsLower(x: seq<string>, y: seq<string>) {
    if y == [] then false else if x == [] then true
    else if x[0] == y[0] then IdsLower(x[1..], y[1..]) else IdLower(x[0], y[0])
  }

  predicate PartsLower(x: seq<nat>, y: seq<nat>)
    requires |x| == |y|
  {
    x != [] && (x[0] < y[0] || (x[0] == y[0] && PartsLower(x[1..], y[1..])))
  }

  /** 11.2 and 11.3: the numbers first; a version with a prerelease is below the one without. */
  predicate Lower(a: Version, b: Version)
    requires |a.parts| == |b.parts|
  {
    if a.parts != b.parts then PartsLower(a.parts, b.parts)
    else a.pre.Some? && (b.pre.None? || IdsLower(Split(a.pre.value), Split(b.pre.value)))
  }

  /** Section 9: no identifier is empty, and a number has no leading zero. */
  predicate ValidId(p: string) {
    p != "" && (AllDigits(p) ==> IsNumber(p))
  }

  predicate ValidIds(ids: seq<string>) {
    forall i :: 0 <= i < |ids| ==> ValidId(ids[i])
  }

  predicate Valid(v: Version) {
    |v.parts| == 3 && (v.pre.Some? ==> ValidIds(Split(v.pre.value)))
  }

  lemma ValidIdIs(p: string)
    ensures ValidId(p) <==> p != "" && ((forall c :: c in p ==> '0' <= c <= '9') ==> p[0] == '0' ==> p == "0")
  {
    NumberIs(p);
    DigitsAre(p);
  }

  /** Section 9 of a parsed version: no identifier of a prerelease is empty or a number with a needless zero. */
  lemma ValidIs(v: Version)
    ensures v.pre.None? ==> (Valid(v) <==> |v.parts| == 3)
    ensures v.pre.Some? && Valid(v) ==> |v.parts| == 3 && forall p :: p in Split(v.pre.value) ==>
      p != "" && (p[0] == '0' ==> p == "0" || exists c :: c in p && !('0' <= c <= '9'))
    ensures v.pre.Some? && |v.parts| == 3 && !Valid(v) ==>
      exists p :: p in Split(v.pre.value) &&
        (p == "" || (p[0] == '0' && p != "0" && forall c :: c in p ==> '0' <= c <= '9'))
  {
    hide Split, ValidId;
    if v.pre.Some? {
      var ids := Split(v.pre.value);
      forall p | p in ids
        ensures ValidId(p) <==> p != "" && (p[0] == '0' ==> p == "0" || exists c :: c in p && !('0' <= c <= '9'))
      {
        ValidIdIs(p);
      }
    }
  }

  // ----- numbers without leading zeros

  lemma FirstDigitCounts(s: string)
    requires AllDigits(s) && s[0] != '0'
    ensures Value(s) > 0
  {
    if |s| > 1 {
      FirstDigitCounts(s[..|s| - 1]);
    } else {
      assert s[..0] == "";
      assert IsDigit(s[0]);
    }
  }

  lemma OneDigit(s: string)
    requires AllDigits(s) && |s| == 1
    ensures Value(s) == s[0] as int - '0' as int < 10
  {
    assert s[..0] == "";
    assert IsDigit(s[0]);
  }

  /** Without leading zeros, one value is written in one way. */
  lemma {:induction false} NumbersByValue(s: string, t: string)
    requires IsNumber(s) && IsNumber(t) && Value(s) == Value(t)
    ensures s == t
  {
    if |s| == 1 {
      OneDigit(s);
    } else {
      FirstDigitCounts(s[..|s| - 1]);
    }
    if |t| == 1 {
      OneDigit(t);
    } else {
      FirstDigitCounts(t[..|t| - 1]);
    }
    assert IsDigit(s[|s| - 1]) && IsDigit(t[|t| - 1]);
    if |s| > 1 && |t| > 1 {
      NumbersByValue(s[..|s| - 1], t[..|t| - 1]);
      assert s == s[..|s| - 1] + [s[|s| - 1]] && t == t[..|t| - 1] + [t[|t| - 1]];
    }
  }

  // ----- precedence is a total order of valid versions

  lemma IdTotal(p: string, q: string)
    requires ValidId(p) && ValidId(q)
    ensures IdLower(p, q) || p == q || IdLower(q, p)
    ensures !(IdLower(p, q) && IdLower(q, p)) && !IdLower(p, p)
  {
    if AllDigits(p) && AllDigits(q) {
      if Value(p) == Value(q) {
        NumbersByValue(p, q);
      }
    } else {
      TextTotal(p, q);
      TextTotal(p, p);
    }
  }

  lemma IdTransitive(p: string, q: string, r: string)
    requires IdLower(p, q) && IdLower(q, r)
    ensures IdLower(p, r)
  {
    if !AllDigits(p) {
      TextTransitive(p, q, r);
    }
  }

  lemma {:induction false} IdsTotal(x: seq<string>, y: seq<string>)
    requires ValidIds(x) && ValidIds(y)
    ensures IdsLower(x, y) || x == y || IdsLower(y, x)
    ensures !(IdsLower(x, y) && IdsLower(y, x)) && !IdsLower(x, x)
  {
    hide IdLower, ValidId;
    if x != [] {
      IdsTotal(x[1..], x[1..]);
      if y != [] {
        if x[0] == y[0] {
          IdsTotal(x[1..], y[1..]);
          assert x == [x[0]] + x[1..] && y == [y[0]] + y[1..];
        } else {
          IdTotal(x[0], y[0]);
        }
      }
    }
  }

  lemma {:induction false} IdsTransitive(x: seq<string>, y: seq<string>, z: seq<string>)
    requires ValidIds(x) && ValidIds(y) && ValidIds(z) && IdsLower(x, y) && IdsLower(y, z)
    ensures IdsLower(x, z)
  {
    hide IdLower, ValidId;
    if x != [] {
      if x[0] == y[0] == z[0] {
        IdsTransitive(x[1..], y[1..], z[1..]);
      } else if x[0] != y[0] && y[0] != z[0] {
        IdTransitive(x[0], y[0], z[0]);
        IdTotal(x[0], y[0]);
      }
    }
  }

  lemma {:induction false} PartsTotal(x: seq<nat>, y: seq<nat>)
    requires |x| == |y|
    ensures PartsLower(x, y) || x == y || PartsLower(y, x)
    ensures !(PartsLower(x, y) && PartsLower(y, x)) && !PartsLower(x, x)
  {
    if x != [] {
      PartsTotal(x[1..], y[1..]);
      PartsTotal(x[1..], x[1..]);
      assert x == [x[0]] + x[1..] && y == [y[0]] + y[1..];
    }
  }

  lemma {:induction false} PartsTransitive(x: seq<nat>, y: seq<nat>, z: seq<nat>)
    requires |x| == |y| == |z| && PartsLower(x, y) && PartsLower(y, z)
    ensures PartsLower(x, z)
  {
    if x[0] == y[0] == z[0] {
      PartsTransitive(x[1..], y[1..], z[1..]);
    }
  }

  /** Of two valid versions exactly one is lower, unless they are the same up to build metadata. */
  lemma PrecedenceTotal(a: Version, b: Version)
    requires Valid(a) && Valid(b)
    ensures Lower(a, b) || a == b || Lower(b, a)
    ensures !(Lower(a, b) && Lower(b, a)) && !Lower(a, a)
  {
    hide PartsLower, IdsLower, Split, ValidIds;
    PartsTotal(a.parts, b.parts);
    PartsTotal(a.parts, a.parts);
    if a.pre.Some? {
      IdsTotal(Split(a.pre.value), Split(a.pre.value));
      if b.pre.Some? {
        IdsTotal(Split(a.pre.value), Split(b.pre.value));
        JoinUndoesSplit(a.pre.value);
        JoinUndoesSplit(b.pre.value);
      }
    }
  }

  lemma PrecedenceTransitive(a: Version, b: Version, c: Version)
    requires Valid(a) && Valid(b) && Valid(c) && Lower(a, b) && Lower(b, c)
    ensures Lower(a, c)
  {
    hide PartsLower, IdsLower, Split, ValidIds;
    if a.parts != b.parts && b.parts != c.parts {
      PartsTransitive(a.parts, b.parts, c.parts);
      PartsTotal(a.parts, b.parts);
    } else if a.parts == b.parts == c.parts && b.pre.Some? && c.pre.Some? {
      IdsTransitive(Split(a.pre.value), Split(b.pre.value), Split(c.pre.value));
    }
  }

  // ----- precedence, identifier by identifier

  lemma SameTo<T>(p: seq<T>, q: seq<T>, k: nat, n: nat)
    requires n == k + 1 <= |p| && n <= |q| && p[0] == q[0]
    ensures p[1..][..k] == q[1..][..k] <==> p[..n] == q[..n]
  {
    assert p[..n] == [p[0]] + p[1..][..k] && q[..n] == [q[0]] + q[1..][..k];
    assert p[1..][..k] == p[..n][1..] && q[1..][..k] == q[..n][1..];
  }

  /** A text is below another when it starts it, or has the smaller character where they first differ. */
  lemma {:induction false} TextLowerIs(p: string, q: string)
    ensures TextLower(p, q) <==>
      p < q || exists k :: 0 <= k < |p| && k < |q| && p[..k] == q[..k] && p[k] < q[k]
  {
    if p != "" && q != "" && p[0] == q[0] {
      TextLowerIs(p[1..], q[1..]);
      assert p == [p[0]] + p[1..] && q == [q[0]] + q[1..];
      if k :| 0 <= k < |p[1..]| && k < |q[1..]| && p[1..][..k] == q[1..][..k] && p[1..][k] < q[1..][k] {
        SameTo(p, q, k, k + 1);
      }
      if k :| 0 <= k < |p| && k < |q| && p[..k] == q[..k] && p[k] < q[k] {
        SameTo(p, q, k - 1, k);
      }
    } else if p != "" && q != "" {
      assert p[..0] == q[..0];
      assert forall k :: 0 < k <= |p| && k <= |q| ==> p[..k][0] == p[0] && q[..k][0] == q[0];
    }
  }

  /** A number is below a text, numbers go by value, texts in ASCII order. */
  lemma IdLowerIs(p: string, q: string)
    ensures IdLower(p, q) <==>
      || (AllDigits(p) && !AllDigits(q))
      || (AllDigits(p) && AllDigits(q) && Value(p) < Value(q))
      || (!AllDigits(p) && !AllDigits(q) &&
            (p < q || exists k :: 0 <= k < |p| && k < |q| && p[..k] == q[..k] && p[k] < q[k]))
  {
    TextLowerIs(p, q);
  }

  /** The lists agree up to place i and differ there. */
  predicate DifferAt<T(==)>(x: seq<T>, y: seq<T>, i: int) {
    0 <= i < |x| && i < |y| && x[..i] == y[..i] && x[i] != y[i]
  }

  lemma AgreeBefore<T>(x: seq<T>, y: seq<T>, i: int)
    requires DifferAt(x, y, i)
    ensures forall j :: 0 <= j < i ==> x[j] == y[j]
  {
    forall j | 0 <= j < i
      ensures x[j] == y[j]
    {
      assert x[..i][j] == y[..i][j];
    }
  }

  lemma OneDifference<T>(x: seq<T>, y: seq<T>, i: int, k: int)
    requires DifferAt(x, y, i) && DifferAt(y, x, k)
    ensures i == k
  {
    AgreeBefore(x, y, i);
    AgreeBefore(y, x, k);
  }

  lemma DifferFurther<T>(x: seq<T>, y: seq<T>, i: int, n: int)
    requires x != [] && y != [] && x[0] == y[0] && n == i + 1 && n > 0
    ensures DifferAt(x[1..], y[1..], i) <==> DifferAt(x, y, n)
  {
    if n < |x| && n < |y| {
      SameTo(x, y, i, n);
    }
  }

  /** The first identifiers that differ decide, and without any the shorter list is below. */
  lemma {:induction false} IdsLowerIs(x: seq<string>, y: seq<string>)
    ensures IdsLower(x, y) <==> x < y || exists i :: DifferAt(x, y, i) && IdLower(x[i], y[i])
  {
    hide IdLower;
    if x != [] && y != [] {
      if x[0] == y[0] {
        IdsLowerIs(x[1..], y[1..]);
        assert x == [x[0]] + x[1..] && y == [y[0]] + y[1..];
        forall i: nat
          ensures DifferAt(x[1..], y[1..], i) <==> DifferAt(x, y, i + 1)
        {
          DifferFurther(x, y, i, i + 1);
        }
        if i :| DifferAt(x[1..], y[1..], i) && IdLower(x[1..][i], y[1..][i]) {
          assert DifferAt(x, y, i + 1) && x[1..][i] == x[i + 1] && y[1..][i] == y[i + 1];
        }
        if n :| DifferAt(x, y, n) && IdLower(x[n], y[n]) {
          DifferFurther(x, y, n - 1, n);
        }
      } else {
        assert DifferAt(x, y, 0);
        forall n | DifferAt(x, y, n)
          ensures n == 0
        {
          AgreeBefore(x, y, n);
        }
      }
    }
  }

  lemma {:induction false} PartsLowerIs(x: seq<nat>, y: seq<nat>)
    requires |x| == |y|
    ensures PartsLower(x, y) <==> exists i :: 0 <= i < |x| && x[..i] == y[..i] && x[i] < y[i]
  {
    if x != [] && x[0] == y[0] {
      PartsLowerIs(x[1..], y[1..]);
      if i :| 0 <= i < |x[1..]| && x[1..][..i] == y[1..][..i] && x[1..][i] < y[1..][i] {
        SameTo(x, y, i, i + 1);
      }
      if i :| 0 <= i < |x| && x[..i] == y[..i] && x[i] < y[i] {
        SameTo(x, y, i - 1, i);
      }
    } else if x != [] {
      assert x[..0] == y[..0];
      assert forall i :: 0 < i <= |x| ==> x[..i][0] == x[0] && y[..i][0] == y[0];
    }
  }

  // ----- the code

  predicate AtMost(a: Version, b: Version)
    requires |a.parts| == |b.parts|
  {
    a == b || Lower(a, b)
  }

  lemma ParsedHasThree(text: string)
    requires Parse(text).Some?
    ensures |Parse(text).value.parts| == 3
  {
  }

  /** Whether a differs from b first in a number, and then in which direction. */
  method CompareParts(x: seq<nat>, y: seq<nat>) returns (decided: bool, older: bool)
    requires |x| == |y| == 3
    ensures decided <==> x != y
    ensures decided ==> (older <==> PartsLower(x, y))
  {
    assert x[0..] == x && y[0..] == y;
    for i := 0 to 3
      invariant x[..i] == y[..i] && (PartsLower(x, y) <==> PartsLower(x[i..], y[i..]))
    {
      if x[i] != y[i] {
        return true, x[i] < y[i];
      }
      assert x[i..][1..] == x[i + 1..] && y[i..][1..] == y[i + 1..];
      assert x[..i + 1] == x[..i] + [x[i]] && y[..i + 1] == y[..i] + [y[i]];
    }
    assert x[..3] == x && y[..3] == y;
    decided, older := false, false;
  }

  lemma IdsFrom(x: seq<string>, y: seq<string>, i: nat)
    requires i < |x| && i < |y|
    ensures x[i..][0] == x[i] && y[i..][0] == y[i] && x[i..][1..] == x[i + 1..] && y[i..][1..] == y[i + 1..]
  {
  }

  method CompareId(p: string, q: string) returns (r: bool)
    ensures r <==> IdLower(p, q)
  {
    var an, bn := AllDigits(p), AllDigits(q);
    if an && bn {
      r := Value(p) < Value(q);
    } else if an != bn {
      r := an;
    } else {
      r := TextLower(p, q);
    }
  }

  /** The loop over the identifiers of two prereleases. */
  method CompareIds(x: seq<string>, y: seq<string>) returns (r: bool)
    ensures r <==> x == y || IdsLower(x, y)
  {
    hide IdLower;
    var i := 0;
    assert x[0..] == x && y[0..] == y;
    while i < |x| || i < |y|
      invariant i <= |x| && i <= |y| && x[..i] == y[..i]
      invariant IdsLower(x, y) <==> IdsLower(x[i..], y[i..])
      decreases |x| + |y| - 2 * i
    {
      if i >= |x| {
        return true;
      }
      if i >= |y| {
        return false;
      }
      IdsFrom(x, y, i);
      if x[i] != y[i] {
        r := CompareId(x[i], y[i]);
        return;
      }
      assert x[..i + 1] == x[..i] + [x[i]] && y[..i + 1] == y[..i] + [y[i]];
      i := i + 1;
    }
    assert x[..i] == x && y[..i] == y;
    r := true;
  }

  /** On any two texts: both are versions, and they agree up to build metadata or the first is the lower. */
  method OlderOrEqual(a: string, b: string) returns (r: bool)
    ensures r <==> Parse(a).Some? && Parse(b).Some? && |Parse(a).value.parts| == |Parse(b).value.parts| &&
                   AtMost(Parse(a).value, Parse(b).value)
  {
    hide Parse, Split, IdsLower, PartsLower;
    var av, bv := Parse(a), Parse(b);
    if av.None? || bv.None? {
      return false;
    }
    ParsedHasThree(a);
    ParsedHasThree(b);
    var decided, older := CompareParts(av.value.parts, bv.value.parts);
    if decided {
      return older;
    }
    if av.value.pre == bv.value.pre {
      return true;
    }
    if av.value.pre.None? {
      return false;
    }
    if bv.value.pre.None? {
      return true;
    }
    JoinUndoesSplit(av.value.pre.value);
    JoinUndoesSplit(bv.value.pre.value);
    r := CompareIds(Split(av.value.pre.value), Split(bv.value.pre.value));
  }

  // ----- what the answer means

  /** On valid versions the answer is that b does not have the lower precedence. */
  lemma AtMostIsPrecedence(a: Version, b: Version)
    requires Valid(a) && Valid(b)
    ensures AtMost(a, b) <==> !Lower(b, a)
  {
    PrecedenceTotal(a, b);
  }

  /**
   On valid versions it is a total preorder, and both directions hold exactly when nothing but build metadata
   differs.
   */
  lemma TotalPreorder(a: Version, b: Version, c: Version)
    requires Valid(a) && Valid(b) && Valid(c)
    ensures AtMost(a, a) && (AtMost(a, b) || AtMost(b, a))
    ensures AtMost(a, b) && AtMost(b, c) ==> AtMost(a, c)
    ensures AtMost(a, b) && AtMost(b, a) <==> a == b
  {
    PrecedenceTotal(a, b);
    if AtMost(a, b) && AtMost(b, c) && a != b && b != c {
      PrecedenceTransitive(a, b, c);
    }
  }

  /** The first of the three numbers that differs decides, the smaller one being the older. */
  lemma NumbersDecide(a: Version, b: Version, i: nat)
    requires |a.parts| == |b.parts| && i < |a.parts| && a.parts[..i] == b.parts[..i] && a.parts[i] < b.parts[i]
    ensures AtMost(a, b) && !AtMost(b, a)
  {
    PartsLowerIs(a.parts, b.parts);
    PartsTotal(a.parts, b.parts);
  }

  /** A prerelease is older than its release. */
  lemma ReleaseIsNewer(a: Version, b: Version)
    requires a.parts == b.parts && a.pre.Some? && b.pre.None?
    ensures AtMost(a, b) && !AtMost(b, a)
  {
  }

  lemma IdLowerOneWay(p: string, q: string)
    requires IdLower(p, q)
    ensures !IdLower(q, p)
  {
    TextTotal(p, q);
  }

  lemma OneWay(x: seq<string>, y: seq<string>, i: nat)
    requires DifferAt(x, y, i) && IdLower(x[i], y[i])
    ensures !IdsLower(y, x)
  {
    hide IdLower;
    IdsLowerIs(y, x);
    forall k | DifferAt(y, x, k)
      ensures k == i
    {
      OneDifference(x, y, i, k);
    }
    IdLowerOneWay(x[i], y[i]);
  }

  /**
   Of two prereleases the first identifiers that differ decide: a number is older than a text, of two numbers the
   smaller and of two texts the one that comes first is the older.
   */
  lemma IdentifiersDecide(a: Version, b: Version, i: nat)
    requires a.parts == b.parts && a.pre.Some? && b.pre.Some?
    requires var x, y := Split(a.pre.value), Split(b.pre.value);
      && i < |x| && i < |y| && x[..i] == y[..i] && x[i] != y[i]
      && (|| (AllDigits(x[i]) && !AllDigits(y[i]))
          || (AllDigits(x[i]) && AllDigits(y[i]) && Value(x[i]) < Value(y[i]))
          || (!AllDigits(x[i]) && !AllDigits(y[i]) && (x[i] < y[i] ||
                exists k :: 0 <= k < |x[i]| && k < |y[i]| && x[i][..k] == y[i][..k] && x[i][k] < y[i][k])))
    ensures AtMost(a, b) && !AtMost(b, a)
  {
    hide Split, IdsLower;
    var x, y := Split(a.pre.value), Split(b.pre.value);
    IdLowerIs(x[i], y[i]);
    IdsLowerIs(x, y);
    assert DifferAt(x, y, i);
    OneWay(x, y, i);
  }

  lemma NeverDiffer(x: seq<string>, y: seq<string>)
    requires x <= y
    ensures forall k :: !DifferAt(y, x, k)
  {
  }

  /** Where they agree as far as the shorter goes, the longer prerelease is the newer. */
  lemma MoreIdentifiersAreNewer(a: Version, b: Version)
    requires a.parts == b.parts && a.pre.Some? && b.pre.Some? && Split(a.pre.value) < Split(b.pre.value)
    ensures AtMost(a, b) && !AtMost(b, a)
  {
    hide Split, IdsLower, IdLower;
    var x, y := Split(a.pre.value), Split(b.pre.value);
    IdsLowerIs(x, y);
    IdsLowerIs(y, x);
    NeverDiffer(x, y);
  }

  // ----- what the pattern lets through besides valid versions

  /** The first identifiers that differ are two numbers of one value. */
  predicate SameValueApart(x: seq<string>, y: seq<string>) {
    x != [] && y != [] &&
    if x[0] == y[0] then SameValueApart(x[1..], y[1..])
    else AllDigits(x[0]) && AllDigits(y[0]) && Value(x[0]) == Value(y[0])
  }

  lemma {:induction false} IdsComparable(x: seq<string>, y: seq<string>)
    ensures SameValueApart(x, y) <==> x != y && !IdsLower(x, y) && !IdsLower(y, x)
  {
    if x != [] && y != [] {
      if x[0] == y[0] {
        IdsComparable(x[1..], y[1..]);
        assert x == [x[0]] + x[1..] && y == [y[0]] + y[1..];
      } else {
        TextTotal(x[0], y[0]);
      }
    }
  }

  /**
   Neither of two versions is at most the other exactly when their prereleases first differ in a number's
   leading zeros.
   */
  lemma WhenNeitherIsAtMost(a: Version, b: Version)
    requires |a.parts| == |b.parts|
    ensures !AtMost(a, b) && !AtMost(b, a) <==>
      a.parts == b.parts && a.pre.Some? && b.pre.Some? && SameValueApart(Split(a.pre.value), Split(b.pre.value))
  {
    hide Split;
    PartsTotal(a.parts, b.parts);
    if a.pre.Some? && b.pre.Some? {
      IdsComparable(Split(a.pre.value), Split(b.pre.value));
      JoinUndoesSplit(a.pre.value);
      JoinUndoesSplit(b.pre.value);
    }
  }

  lemma ParseOneWithPre(pre: string)
    requires AllPreChars(pre)
    ensures Parse("1.0.0-" + pre) == Some(Version([1, 0, 0], Some(pre)))
  {
    hide Parse;
    ParseUndoesPrint(["1", "0", "0"], Some(pre), None);
    assert Print(["1", "0", "0"], Some(pre), None) == "1.0.0-" + pre;
    OneDigit("1");
    OneDigit("0");
  }

  lemma LeadingZeroValue()
    ensures SameValueApart(["01"], ["1"])
  {
    assert "01"[..1] == "0";
    OneDigit("0");
    OneDigit("1");
  }

  /** So it is with 1.0.0-01 and 1.0.0-1, which the pattern takes both. */
  lemma LeadingZerosAreNotCompared()
    ensures var a, b := Version([1, 0, 0], Some("01")), Version([1, 0, 0], Some("1"));
      && Parse("1.0.0-" + "01") == Some(a) && Parse("1.0.0-" + "1") == Some(b) && !AtMost(a, b) && !AtMost(b, a)
  {
    hide Parse, AtMost, Split, SameValueApart;
    ParseOneWithPre("01");
    ParseOneWithPre("1");
    SplitNoDot("01");
    SplitNoDot("1");
    LeadingZeroValue();
    WhenNeitherIsAtMost(Version([1, 0, 0], Some("01")), Version([1, 0, 0], Some("1")));
  }
}
