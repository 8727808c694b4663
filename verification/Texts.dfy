/**
 Digits, numbers in decimal, and the order in which texts compare.

 Dates and versions both rest on these: a date because its text is compared where its day is meant, a
 version because its identifiers are compared as numbers where they are digits and as texts otherwise.
 */
module Texts {

  predicate IsDigit(c: char) {
    '0' <= c <= '9'
  }

  function Value(s: string): nat
    requires forall i :: 0 <= i < |s| ==> IsDigit(s[i])
  {
    if s == "" then 0
    else
      assert IsDigit(s[|s| - 1]);
      10 * Value(s[..|s| - 1]) + (s[|s| - 1] as int - '0' as int)
  }

  function Decimal(n: nat): (s: string)
    ensures s != "" && forall i :: 0 <= i < |s| ==> IsDigit(s[i])
  {
    if n < 10 then [('0' as int + n) as char] else Decimal(n / 10) + [('0' as int + n % 10) as char]
  }

  lemma {:induction false} DecimalReadsBack(n: nat)
    ensures Value(Decimal(n)) == n
  {
    if n >= 10 {
      DecimalReadsBack(n / 10);
      assert Decimal(n)[..|Decimal(n)| - 1] == Decimal(n / 10);
    } else {
      assert Decimal(n)[..0] == "";
    }
  }

  /** `<` on texts: code unit by code unit, a text after those it continues. */
  predicate TextLower(p: string, q: string) {
    if q == "" then false else if p == "" then true
    else if p[0] == q[0] then TextLower(p[1..], q[1..]) else p[0] < q[0]
  }

  lemma {:induction false} TextTotal(p: string, q: string)
    ensures TextLower(p, q) || p == q || TextLower(q, p)
    ensures !(TextLower(p, q) && TextLower(q, p)) && !TextLower(p, p)
  {
    if p != "" && q != "" && p[0] == q[0] {
      TextTotal(p[1..], q[1..]);
      assert p == [p[0]] + p[1..] && q == [q[0]] + q[1..];
    } else if p != "" {
      TextTotal(p[1..], p[1..]);
    }
  }

  lemma {:induction false} TextTransitive(p: string, q: string, r: string)
    requires TextLower(p, q) && TextLower(q, r)
    ensures TextLower(p, r)
  {
    if p != "" && p[0] == q[0] == r[0] {
      TextTransitive(p[1..], q[1..], r[1..]);
    }
  }

  /** Where two texts start with as many characters, those decide unless they are the same. */
  lemma {:induction false} LowerAppend(p: string, q: string, a: string, b: string)
    requires |p| == |q|
    ensures TextLower(p + a, q + b) <==> TextLower(p, q) || (p == q && TextLower(a, b))
  {
    if p == "" {
      assert p + a == a && q + b == b;
    } else {
      LowerAppend(p[1..], q[1..], a, b);
      assert (p + a)[1..] == p[1..] + a && (q + b)[1..] == q[1..] + b;
      assert p == [p[0]] + p[1..] && q == [q[0]] + q[1..];
    }
  }

  /** Numbers written with as many digits compare as texts do. */
  lemma {:induction false} LowerIsLess(p: string, q: string)
    requires |p| == |q| && (forall i :: 0 <= i < |p| ==> IsDigit(p[i]) && IsDigit(q[i]))
    ensures TextLower(p, q) <==> Value(p) < Value(q)
    ensures p == q <==> Value(p) == Value(q)
  {
    if p != "" {
      var n := |p| - 1;
      assert IsDigit(p[n]) && IsDigit(q[n]);
      LowerIsLess(p[..n], q[..n]);
      LowerAppend(p[..n], q[..n], [p[n]], [q[n]]);
      assert p == p[..n] + [p[n]] && q == q[..n] + [q[n]];
      assert TextLower([p[n]], [q[n]]) <==> p[n] < q[n];
    }
  }
}
