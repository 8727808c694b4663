/**
 How strong a memory is: decay with time, feedback, and the confidence computed from it.

 Numbers are reals. `keep` is what one day leaves of the strength above the floor, for the exponential of
 the code, and days are counted in whole numbers, as the code rounds them down. `rise` is any curve that
 never falls, for the sigmoid of the code.

 An engram is an object that feedback updates in place; `Memory` holds the fields it touches, and `Judged`
 is one verdict on them, so that runs of verdicts can be reasoned about.
 */
module Strength {
  import opened Wrappers

  // ----- decay

  const FLOOR: real := 0.05

  /** What n days leave. */
  function Power(keep: real, n: nat): real {
    if n == 0 then 1.0 else keep * Power(keep, n - 1)
  }

  /** That share of what lies above the floor. */
  function Share(x: real, p: real): real {
    x * p
  }

  function DecayedStrength(keep: real, strength: real, days: nat): real {
    if strength <= FLOOR then strength else FLOOR + Share(strength - FLOOR, Power(keep, days))
  }

  lemma ShareBounds(x: real, p: real)
    requires x > 0.0 && 0.0 < p <= 1.0
    ensures 0.0 < Share(x, p) <= x
  {
  }

  lemma ShareOfShare(x: real, p: real, q: real, y: real, pq: real)
    requires y == Share(x, p) && pq == p * q
    ensures Share(y, q) == Share(x, pq)
  {
    assert x * p * q == x * (p * q);
  }

  lemma ShareMonotone(x: real, y: real, p: real)
    requires x <= y && p > 0.0
    ensures Share(x, p) <= Share(y, p)
  {
  }

  lemma {:induction false} PowerBounds(keep: real, n: nat)
    requires 0.0 < keep < 1.0
    ensures 0.0 < Power(keep, n) <= 1.0
  {
    if n > 0 {
      PowerBounds(keep, n - 1);
      ShareBounds(keep, Power(keep, n - 1));
    }
  }

  lemma {:induction false} PowerAdds(keep: real, m: nat, n: nat)
    ensures Power(keep, m) * Power(keep, n) == Power(keep, m + n)
  {
    if m > 0 {
      PowerAdds(keep, m - 1, n);
      assert keep * Power(keep, m - 1) * Power(keep, n) == keep * (Power(keep, m - 1) * Power(keep, n));
    }
  }

  /** Decay never raises a strength, and takes one above the floor down to no less than the floor. */
  lemma DecayOnlyTowardsFloor(keep: real, strength: real, days: nat)
    requires 0.0 < keep < 1.0
    ensures DecayedStrength(keep, strength, days) <= strength
    ensures DecayedStrength(keep, strength, days) > FLOOR <==> strength > FLOOR
    ensures strength <= FLOOR ==> DecayedStrength(keep, strength, days) == strength
  {
    hide Share, Power;
    if strength > FLOOR {
      PowerBounds(keep, days);
      var x, p := strength - FLOOR, Power(keep, days);
      ShareBounds(x, p);
      assert DecayedStrength(keep, strength, days) == FLOOR + Share(x, p);
    }
  }

  lemma ShareOfOne(x: real)
    ensures Share(x, 1.0) == x
  {
  }

  lemma ShareOfLess(x: real, keep: real, y: real)
    requires x > 0.0 && 0.0 < keep < 1.0 && y == Share(x, keep)
    ensures y == x * keep && 0.0 < y < x
  {
    var rest := 1.0 - keep;
    assert x * rest > 0.0;
    assert x * rest == x - y;
  }

  lemma AboveFloor(keep: real, strength: real, days: nat)
    requires strength > 0.05
    ensures DecayedStrength(keep, strength, days) == 0.05 + Share(strength - 0.05, Power(keep, days))
    ensures Power(keep, 0) == 1.0
  {
    hide Share;
  }

  lemma NextDay(keep: real, x: real, days: nat, next: nat)
    requires next == days + 1
    ensures Share(x, Power(keep, next)) == Share(Share(x, Power(keep, days)), keep)
  {
    hide Share;
    var p := Power(keep, days);
    assert Power(keep, next) == p * keep;
    ShareOfShare(x, p, keep, Share(x, p), p * keep);
  }

  lemma DecayedNext(keep: real, strength: real, days: nat, next: nat)
    requires 0.0 < keep < 1.0 && strength > 0.05 && next == days + 1
    ensures DecayedStrength(keep, strength, 0) == strength
    ensures DecayedStrength(keep, strength, next) - 0.05 == Share(DecayedStrength(keep, strength, days) - 0.05, keep)
    ensures DecayedStrength(keep, strength, days) > 0.05
  {
    hide Share, Power, DecayedStrength;
    var x := strength - 0.05;
    AboveFloor(keep, strength, 0);
    AboveFloor(keep, strength, days);
    AboveFloor(keep, strength, next);
    ShareOfOne(x);
    NextDay(keep, x, days, next);
    PowerBounds(keep, days);
    ShareBounds(x, Power(keep, days));
    assert DecayedStrength(keep, strength, days) - 0.05 == Share(x, Power(keep, days));
  }

  /** Every day takes its part of what a strength has above the floor, so it does fall. */
  lemma DecayByTheDay(keep: real, strength: real, days: nat, above: real, next: real)
    requires 0.0 < keep < 1.0 && strength > 0.05
    requires above == DecayedStrength(keep, strength, days) - 0.05
    requires next == DecayedStrength(keep, strength, days + 1) - 0.05
    ensures DecayedStrength(keep, strength, 0) == strength
    ensures next == above * keep && 0.0 < next < above
  {
    hide Power, DecayedStrength, Share;
    DecayedNext(keep, strength, days, days + 1);
    ShareOfLess(above, keep, next);
  }

  /** It does not matter how often the elapsed days are counted. */
  lemma DecayAdds(keep: real, strength: real, m: nat, n: nat)
    requires 0.0 < keep < 1.0
    ensures DecayedStrength(keep, DecayedStrength(keep, strength, m), n) == DecayedStrength(keep, strength, m + n)
  {
    hide Share, Power;
    if strength > FLOOR {
      var x, once := strength - FLOOR, DecayedStrength(keep, strength, m);
      DecayOnlyTowardsFloor(keep, strength, m);
      PowerAdds(keep, m, n);
      ShareOfShare(x, Power(keep, m), Power(keep, n), once - FLOOR, Power(keep, m + n));
      assert DecayedStrength(keep, once, n) == FLOOR + Share(once - FLOOR, Power(keep, n));
    }
  }

  /** Of two memories the stronger one stays the stronger. */
  lemma DecayKeepsOrder(keep: real, a: real, b: real, days: nat)
    requires 0.0 < keep < 1.0 && a <= b
    ensures DecayedStrength(keep, a, days) <= DecayedStrength(keep, b, days)
  {
    hide Share, Power;
    DecayOnlyTowardsFloor(keep, a, days);
    DecayOnlyTowardsFloor(keep, b, days);
    if a > FLOOR {
      PowerBounds(keep, days);
      ShareMonotone(a - FLOOR, b - FLOOR, Power(keep, days));
    }
  }

  // ----- feedback

  datatype Signal = Positive | Negative | Neutral

  datatype Counters = Counters(positive: nat, negative: nat, neutral: nat)

  const POSITIVE_STRENGTH_DELTA: real := 0.05
  const NEGATIVE_STRENGTH_DELTA: real := 0.1

  /** What feedback touches of an engram. */
  datatype Memory = Memory(feedback: Option<Counters>, strength: real, commitment: Option<string>, lastAccessed: string)

  /** A verdict, given deliberately or automatically, on a day. */
  datatype Verdict = Verdict(signal: Signal, auto: bool, today: string)

  function NextCommitment(current: Option<string>): Option<string> {
    match current
    case None => Some("leaning")
    case Some(level) =>
      if level == "exploring" then Some("leaning")
      else if level == "leaning" then Some("decided")
      else current
  }

  function Counted(feedback: Option<Counters>, signal: Signal): Counters {
    var c := if feedback.Some? then feedback.value else Counters(0, 0, 0);
    match signal
    case Positive => c.(positive := c.positive + 1)
    case Negative => c.(negative := c.negative + 1)
    case Neutral => c.(neutral := c.neutral + 1)
  }

  /** One verdict applied. */
  function Judged(m: Memory, v: Verdict): Memory {
    Memory(
      Some(Counted(m.feedback, v.signal)),
      match v.signal
        case Positive => if m.strength + POSITIVE_STRENGTH_DELTA < 1.0 then m.strength + POSITIVE_STRENGTH_DELTA
          else 1.0
        case Negative => if m.strength - NEGATIVE_STRENGTH_DELTA > 0.0 then m.strength - NEGATIVE_STRENGTH_DELTA
          else 0.0
        case Neutral => m.strength,
      if v.signal.Positive? && !v.auto then NextCommitment(m.commitment) else m.commitment,
      if v.signal.Neutral? then m.lastAccessed else v.today)
  }

  class Engram {
    var feedback: Option<Counters>
    var strength: real
    var commitment: Option<string>
    var lastAccessed: string

    function State(): Memory
      reads this
    {
      Memory(feedback, strength, commitment, lastAccessed)
    }

    /** `applyFeedbackSignal`, in place. */
    method ApplyFeedbackSignal(signal: Signal, today: string, auto: bool)
      modifies this
      ensures State() == Judged(old(State()), Verdict(signal, auto, today))
      ensures signal == Positive ==> strength == if old(strength) <= 0.95 then old(strength) + 0.05 else 1.0
      ensures signal == Negative ==> strength == if old(strength) >= 0.1 then old(strength) - 0.1 else 0.0
      ensures signal == Neutral ==> strength == old(strength)
    {
      if feedback.None? {
        feedback := Some(Counters(0, 0, 0));
      }
      var c := feedback.value;
      match signal {
        case Positive => feedback := Some(c.(positive := c.positive + 1));
        case Negative => feedback := Some(c.(negative := c.negative + 1));
        case Neutral => feedback := Some(c.(neutral := c.neutral + 1));
      }
      if signal == Positive {
        var raised := strength + POSITIVE_STRENGTH_DELTA;
        strength := if raised < 1.0 then raised else 1.0;
        if !auto {
          var next := NextCommitment(commitment);
          if next.Some? {
            commitment := next;
          }
        }
      } else if signal == Negative {
        var lowered := strength - NEGATIVE_STRENGTH_DELTA;
        strength := if lowered > 0.0 then lowered else 0.0;
      }
      if signal != Neutral {
        lastAccessed := today;
      }
    }
  }

  function Tally(feedback: Option<Counters>): Counters {
    if feedback.Some? then feedback.value else Counters(0, 0, 0)
  }

  /** What one verdict does to the strength and to the counters. */
  lemma OneVerdict(m: Memory, v: Verdict)
    ensures var after := Judged(m, v);
      && (v.signal.Positive? ==> after.strength == if m.strength <= 0.95 then m.strength + 0.05 else 1.0)
      && (v.signal.Negative? ==> after.strength == if m.strength >= 0.1 then m.strength - 0.1 else 0.0)
      && (v.signal.Neutral? ==> after.strength == m.strength)
    ensures var before, after := Tally(m.feedback), Tally(Judged(m, v).feedback);
      && after.positive == before.positive + (if v.signal.Positive? then 1 else 0)
      && after.negative == before.negative + (if v.signal.Negative? then 1 else 0)
      && after.neutral == before.neutral + (if v.signal.Neutral? then 1 else 0)
  {
  }

  /** What one verdict does to the commitment: a deliberate positive one takes it a step towards `decided`. */
  lemma OneStepOfCommitment(m: Memory, v: Verdict)
    ensures var after := Judged(m, v).commitment;
      if !(v.signal.Positive? && !v.auto) then after == m.commitment
      else if m.commitment in {None, Some("exploring")} then after == Some("leaning")
      else if m.commitment == Some("leaning") then after == Some("decided")
      else after == m.commitment
  {
  }

  // ----- a memory over any run of verdicts

  function After(m: Memory, run: seq<Verdict>): Memory {
    if run == [] then m else Judged(After(m, run[..|run| - 1]), run[|run| - 1])
  }

  function Count(run: seq<Verdict>, signal: Signal): nat {
    if run == [] then 0 else Count(run[..|run| - 1], signal) + if run[|run| - 1].signal == signal then 1 else 0
  }

  /** The deliberate positive verdicts. */
  function Endorsements(run: seq<Verdict>): nat {
    if run == [] then 0
    else
      var v := run[|run| - 1];
      Endorsements(run[..|run| - 1]) + if v.signal.Positive? && !v.auto then 1 else 0
  }

  /** The strength stays between 0 and 1, and each counter grows by exactly the verdicts of its kind. */
  lemma {:induction false} RunKeepsBounds(m: Memory, run: seq<Verdict>)
    requires 0.0 <= m.strength <= 1.0
    ensures 0.0 <= After(m, run).strength <= 1.0
    ensures var a, b := Tally(m.feedback), Tally(After(m, run).feedback);
      b == Counters(a.positive + Count(run, Positive), a.negative + Count(run, Negative),
                    a.neutral + Count(run, Neutral))
    ensures Count(run, Positive) + Count(run, Negative) + Count(run, Neutral) == |run|
  {
    if run != [] {
      RunKeepsBounds(m, run[..|run| - 1]);
    }
  }

  function Advanced(commitment: Option<string>, steps: nat): Option<string> {
    if steps == 0 then commitment else NextCommitment(Advanced(commitment, steps - 1))
  }

  /** The commitment moves by the deliberate positive verdicts and by nothing else. */
  lemma {:induction false} CommitmentCountsEndorsements(m: Memory, run: seq<Verdict>)
    ensures After(m, run).commitment == Advanced(m.commitment, Endorsements(run))
  {
    if run != [] {
      CommitmentCountsEndorsements(m, run[..|run| - 1]);
    }
  }

  /** The known levels from none to locked. */
  function Rank(commitment: Option<string>): int {
    match commitment
    case None => 0
    case Some(level) =>
      if level == "exploring" then 1 else if level == "leaning" then 2 else if level == "decided" then 3
      else if level == "locked" then 4 else -1
  }

  lemma {:induction false} AdvancedIs(c: Option<string>, steps: nat)
    ensures Rank(c) < 0 || Rank(c) == 4 ==> Advanced(c, steps) == c
    ensures 0 <= Rank(c) < 4 ==> Rank(c) <= Rank(Advanced(c, steps)) < 4
    ensures 0 <= Rank(c) < 4 && steps >= 2 ==> Advanced(c, steps) == Some("decided")
  {
    if steps > 0 {
      AdvancedIs(c, steps - 1);
    }
  }

  /** It never drops, never becomes locked, and stays what it is where the level is not one of the known ones. */
  lemma CommitmentNeverDrops(m: Memory, run: seq<Verdict>)
    ensures Rank(After(m, run).commitment) >= Rank(m.commitment)
    ensures After(m, run).commitment == Some("locked") ==> m.commitment == Some("locked")
    ensures Rank(m.commitment) < 0 ==> After(m, run).commitment == m.commitment
    ensures Endorsements(run) == 0 ==> After(m, run).commitment == m.commitment
  {
    CommitmentCountsEndorsements(m, run);
    AdvancedIs(m.commitment, Endorsements(run));
  }

  /** The anchor for decay is the day of the last verdict that was not neutral. */
  function Anchor(m: Memory, run: seq<Verdict>): string {
    if run == [] then m.lastAccessed
    else if run[|run| - 1].signal.Neutral? then Anchor(m, run[..|run| - 1])
    else run[|run| - 1].today
  }

  lemma {:induction false} AnchorIsLastVerdict(m: Memory, run: seq<Verdict>)
    ensures After(m, run).lastAccessed == Anchor(m, run)
  {
    if run != [] {
      AnchorIsLastVerdict(m, run[..|run| - 1]);
    }
  }

  // ----- confidence

  function Total(c: Counters): nat {
    c.positive + c.negative + c.neutral
  }

  /** The net ratio, dampened by how few verdicts there are. */
  function AdjustedRatio(c: Counters): real
    requires Total(c) > 0
  {
    var total := Total(c) as real;
    ((c.positive as real - c.negative as real) / total) * (1.0 - 1.0 / (total + 1.0))
  }

  function Clamped(raw: real): real {
    if raw < 0.0 then 0.0 else if raw > 1.0 then 1.0 else raw
  }

  function ComputeConfidence(rise: real -> real, feedback: Option<Counters>, consolidated: bool): real {
    var c := Tally(feedback);
    if Total(c) == 0 then 0.5
    else
      Clamped(rise(AdjustedRatio(c)) + if consolidated then 0.05 else 0.0)
  }

  lemma Dampened(net: real, total: real)
    requires total > 0.0
    ensures (net / total) * (1.0 - 1.0 / (total + 1.0)) == net / (total + 1.0)
  {
    var one := total + 1.0;
    assert 1.0 - 1.0 / one == total / one;
    assert (net / total) * (total / one) == net / one by {
      assert net / total * total == net;
    }
  }

  /** The dampened ratio is the net count over one more than all of them. */
  lemma RatioIs(c: Counters)
    requires Total(c) > 0
    ensures AdjustedRatio(c) == (c.positive as real - c.negative as real) / (Total(c) as real + 1.0)
  {
    Dampened(c.positive as real - c.negative as real, Total(c) as real);
  }

  lemma Grows(x: real, y: real, d: real)
    requires x > y && d > 0.0
    ensures x * d > y * d
  {
  }

  lemma Between(x: real, low: real, high: real, d: real)
    requires d > 0.0 && low <= x * d <= high
    ensures low / d <= x <= high / d
  {
    var l, h := low / d, high / d;
    assert l * d == low && h * d == high;
    if l > x {
      Grows(l, x, d);
    }
    if x > h {
      Grows(x, h, d);
    }
  }

  lemma OneMore(net: real, total: real)
    requires total > 0.0 && -total <= net <= total
    ensures (net - 1.0) / (total + 2.0) <= net / (total + 1.0) <= (net + 1.0) / (total + 2.0)
  {
    var x := net / (total + 1.0);
    assert x * (total + 1.0) == net;
    assert -1.0 <= x <= 1.0;
    assert x * (total + 2.0) == net + x;
    Between(x, net - 1.0, net + 1.0, total + 2.0);
  }

  ghost predicate NeverFalls(rise: real -> real) {
    forall x: real, y: real :: x <= y ==> rise(x) <= rise(y)
  }

  /** With feedback given before, a positive verdict never lowers the confidence and a negative one never raises it. */
  lemma ConfidenceFollowsVerdicts(rise: real -> real, c: Counters, consolidated: bool)
    requires NeverFalls(rise) && Total(c) > 0
    ensures ComputeConfidence(rise, Some(Counted(Some(c), Positive)), consolidated) >=
      ComputeConfidence(rise, Some(c), consolidated)
    ensures ComputeConfidence(rise, Some(Counted(Some(c), Negative)), consolidated) <=
      ComputeConfidence(rise, Some(c), consolidated)
  {
    var up, down := Counted(Some(c), Positive), Counted(Some(c), Negative);
    RatioIs(c);
    RatioIs(up);
    RatioIs(down);
    OneMore(c.positive as real - c.negative as real, Total(c) as real);
    assert AdjustedRatio(down) <= AdjustedRatio(c) <= AdjustedRatio(up);
  }

  /** The arithmetic of the first verdict, on what the curve gives. */
  lemma BonusOutweighs(up: real, down: real, consolidated: bool)
    requires up >= 0.5 >= down
    ensures Clamped(up + if consolidated then 0.05 else 0.0) >= 0.5
    ensures Clamped(down + if consolidated then 0.05 else 0.0) > 0.5 <==> consolidated && down + 0.05 > 0.5
  {
  }

  lemma HalfOfOne()
    ensures 0.5 * 2.0 == 1.0 && -0.5 * 2.0 == -1.0
  {
  }

  lemma Quotient(net: real, parts: real, ratio: real)
    requires parts > 0.0 && ratio * parts == net
    ensures net / parts == ratio
  {
  }

  /** What a ratio comes to, told by the product. */
  lemma RatioOf(c: Counters, net: real, parts: real, ratio: real)
    requires Total(c) > 0 && net == c.positive as real - c.negative as real && parts == Total(c) as real + 1.0
    requires ratio * parts == net
    ensures AdjustedRatio(c) == ratio
  {
    hide AdjustedRatio;
    RatioIs(c);
    Quotient(net, parts, ratio);
  }

  lemma FirstRatios()
    ensures AdjustedRatio(Counted(None, Positive)) == 0.5 && AdjustedRatio(Counted(None, Negative)) == -0.5
  {
    hide AdjustedRatio;
    HalfOfOne();
    RatioOf(Counters(1, 0, 0), 1.0, 2.0, 0.5);
    RatioOf(Counters(0, 1, 0), -1.0, 2.0, -0.5);
  }

  lemma Ordered(rise: real -> real, x: real, y: real)
    requires NeverFalls(rise) && x <= y
    ensures rise(x) <= rise(y)
  {
  }

  lemma ConfidenceAt(rise: real -> real, c: Counters, consolidated: bool, ratio: real)
    requires Total(c) > 0 && AdjustedRatio(c) == ratio
    ensures ComputeConfidence(rise, Some(c), consolidated) == Clamped(rise(ratio) + if consolidated then 0.05 else 0.0)
    ensures ComputeConfidence(rise, None, consolidated) == 0.5
  {
    hide AdjustedRatio, Clamped;
    assert Tally(Some(c)) == c;
  }

  lemma NoFeedback(rise: real -> real, c: Counters, consolidated: bool)
    ensures ComputeConfidence(rise, None, consolidated) == 0.5
    ensures c == Counters(0, 0, 0) ==> ComputeConfidence(rise, Some(c), consolidated) == 0.5
  {
    hide AdjustedRatio;
  }

  /**
   With feedback the confidence is the curve at the net count over one more than all of them, with the bonus, kept
   between 0 and 1.
   */
  lemma ConfidenceIs(rise: real -> real, c: Counters, consolidated: bool, net: real, parts: real, ratio: real)
    requires c.positive + c.negative + c.neutral > 0 && net == c.positive as real - c.negative as real
    requires parts == (c.positive + c.negative + c.neutral) as real + 1.0 && ratio * parts == net
    ensures var raw := rise(ratio) + if consolidated then 0.05 else 0.0;
      ComputeConfidence(rise, Some(c), consolidated) == if raw < 0.0 then 0.0 else if raw > 1.0 then 1.0 else raw
  {
    hide AdjustedRatio, ComputeConfidence;
    RatioOf(c, net, parts, ratio);
    ConfidenceAt(rise, c, consolidated, ratio);
  }

  /** Of curves in general the condition is exact. */
  lemma FirstVerdictOnCurves(rise: real -> real, consolidated: bool)
    requires NeverFalls(rise) && rise(0.0) == 0.5
    ensures ComputeConfidence(rise, Some(Counted(None, Positive)), consolidated) >=
      ComputeConfidence(rise, None, consolidated)
    ensures var before := ComputeConfidence(rise, None, consolidated);
      ComputeConfidence(rise, Some(Counted(None, Negative)), consolidated) > before <==>
        consolidated && rise(-0.5) + 0.05 > 0.5
  {
    hide AdjustedRatio, NeverFalls, ComputeConfidence;
    FirstRatios();
    ConfidenceAt(rise, Counted(None, Positive), consolidated, 0.5);
    ConfidenceAt(rise, Counted(None, Negative), consolidated, -0.5);
    Ordered(rise, 0.0, 0.5);
    Ordered(rise, -0.5, 0.0);
    BonusOutweighs(rise(0.5), rise(-0.5), consolidated);
  }

  /**
   The first verdict starts from the fixed 0.5, without the bonus of a consolidated memory. A positive one never
   lowers it; a negative one never raises it, on any curve where the bonus does not make up for what one negative
   verdict takes. The code's own curve is one: 1 / (1 + e) and the bonus are 0.32.
   */
  lemma FirstVerdict(rise: real -> real, consolidated: bool)
    requires NeverFalls(rise) && rise(0.0) == 0.5 && rise(-0.5) + 0.05 <= 0.5
    ensures ComputeConfidence(rise, Some(Counted(None, Positive)), consolidated) >=
      ComputeConfidence(rise, None, consolidated)
    ensures ComputeConfidence(rise, Some(Counted(None, Negative)), consolidated) <=
      ComputeConfidence(rise, None, consolidated)
  {
    hide ComputeConfidence;
    FirstVerdictOnCurves(rise, consolidated);
  }
}
