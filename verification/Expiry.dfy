/**
 Dates of validity: which are real, how they compare as texts, and the window a new memory gets.

 The calendar is that of RFC 3339. The built-in dates of the code are day numbers, made from a year, a month
 and a day that may lie past the month's end, and read back. What the pattern for expiry phrases finds in a
 statement is an input.
 */
module Expiry {
  import opened Wrappers
  import opened Texts

  // ----- the calendar, section 5.7 and Appendix C of RFC 3339

  datatype Date = Date(year: nat, month: nat, day: nat)

  predicate IsLeap(year: nat) {
    year % 4 == 0 && (year % 100 != 0 || year % 400 == 0)
  }

  function MonthLength(year: nat, month: nat): (n: nat)
    requires 1 <= month <= 12
    ensures 28 <= n <= 31
  {
    if month == 2 then if IsLeap(year) then 29 else 28
    else if month == 4 || month == 6 || month == 9 || month == 11 then 30 else 31
  }

  predicate IsGregorian(d: Date) {
    1 <= d.month <= 12 && 1 <= d.day <= MonthLength(d.year, d.month)
  }

  /** The days of the months before this one. */
  function DaysBeforeMonth(year: nat, month: nat): nat
    requires 1 <= month <= 13
  {
    if month == 1 then 0 else DaysBeforeMonth(year, month - 1) + MonthLength(year, month - 1)
  }

  function YearLength(year: nat): (n: nat)
    ensures n > 0
  {
    DaysBeforeMonth(year, 13)
  }

  function DaysBeforeYear(year: nat): nat {
    if year == 0 then 0 else DaysBeforeYear(year - 1) + YearLength(year - 1)
  }

  /** Days since the first day of year 0. */
  function DayNumber(d: Date): nat
    requires 1 <= d.month <= 12 && d.day >= 1
  {
    DaysBeforeYear(d.year) + DaysBeforeMonth(d.year, d.month) + d.day - 1
  }

  lemma {:induction false} MonthsGrow(year: nat, m: nat, n: nat)
    requires 1 <= m <= n <= 13
    ensures DaysBeforeMonth(year, m) <= DaysBeforeMonth(year, n)
    ensures m < n ==> DaysBeforeMonth(year, m) + MonthLength(year, m) <= DaysBeforeMonth(year, n)
  {
    if m < n {
      MonthsGrow(year, m, n - 1);
    }
  }

  lemma {:induction false} YearsGrow(m: nat, n: nat)
    requires m <= n
    ensures DaysBeforeYear(m) <= DaysBeforeYear(n)
    ensures m < n ==> DaysBeforeYear(m) + YearLength(m) <= DaysBeforeYear(n)
  {
    if m < n {
      YearsGrow(m, n - 1);
    }
  }

  predicate Earlier(a: Date, b: Date) {
    a.year < b.year || (a.year == b.year && (a.month < b.month || (a.month == b.month && a.day < b.day)))
  }

  lemma EarlierIsLess(a: Date, b: Date)
    requires IsGregorian(a) && IsGregorian(b) && Earlier(a, b)
    ensures DayNumber(a) < DayNumber(b)
  {
    if a.year < b.year {
      YearsGrow(a.year, b.year);
      MonthsGrow(a.year, a.month, 13);
    } else {
      MonthsGrow(a.year, a.month, b.month);
    }
  }

  /** Day numbers grow from date to date. */
  lemma DaysGrow(a: Date, b: Date)
    requires IsGregorian(a) && IsGregorian(b)
    ensures DayNumber(a) < DayNumber(b) <==> Earlier(a, b)
    ensures DayNumber(a) == DayNumber(b) <==> a == b
  {
    if Earlier(a, b) {
      EarlierIsLess(a, b);
    } else if a != b {
      EarlierIsLess(b, a);
    }
  }

  // ----- the built-in dates

  /** The date so many days into the year, and beyond it. */
  function FromMonth(days: nat, year: nat, month: nat): Date
    requires 1 <= month <= 12
    decreases 12 - month
  {
    if month == 12 || days < MonthLength(year, month) then Date(year, month, days + 1)
    else FromMonth(days - MonthLength(year, month), year, month + 1)
  }

  function FromYear(days: nat, year: nat): Date
    decreases days
  {
    if days < YearLength(year) then FromMonth(days, year, 1) else FromYear(days - YearLength(year), year + 1)
  }

  /**
   `Date.UTC` and the fields of its date: the years 0 to 99 count from 1900, and days past the month's end roll
   over.
   */
  function RolledOver(year: nat, month: nat, day: nat): Date
    requires 1 <= month <= 12 && day >= 1
  {
    FromYear(DayNumber(Date(if year < 100 then 1900 + year else year, month, day)), 0)
  }

  lemma NextMonth(year: nat, month: nat, next: nat)
    requires 1 <= month <= 12 && next == month + 1
    ensures DaysBeforeMonth(year, next) == DaysBeforeMonth(year, month) + MonthLength(year, month)
    ensures YearLength(year) == DaysBeforeMonth(year, 13)
  {
  }

  /** Reading days off from a month on gives a real date with that many days before it. */
  lemma {:induction false} FromMonthInverse(days: nat, year: nat, month: nat)
    requires 1 <= month <= 12 && DaysBeforeMonth(year, month) + days < YearLength(year)
    ensures var d := FromMonth(days, year, month);
      IsGregorian(d) && d.year == year && DaysBeforeMonth(year, d.month) + d.day - 1 ==
          DaysBeforeMonth(year, month) + days
    decreases 12 - month
  {
    hide MonthLength, DaysBeforeMonth;
    NextMonth(year, month, month + 1);
    if month < 12 && days >= MonthLength(year, month) {
      FromMonthInverse(days - MonthLength(year, month), year, month + 1);
    }
  }

  /** Whatever the day number, the date read off it is the real date with that number. */
  lemma {:induction false} FromYearInverse(days: nat, year: nat)
    ensures var d := FromYear(days, year); IsGregorian(d) && DayNumber(d) == DaysBeforeYear(year) + days
    decreases days
  {
    if days < YearLength(year) {
      FromMonthInverse(days, year, 1);
    } else {
      FromYearInverse(days - YearLength(year), year + 1);
    }
  }

  // ----- real dates

  predicate IsRealDate(year: nat, month: nat, day: nat) {
    1 <= month <= 12 && 1 <= day <= 31 && RolledOver(year, month, day) == Date(year, month, day)
  }

  lemma GregorianDays(d: Date)
    ensures var last := if d.month in {4, 6, 9, 11} then 30
                        else if d.month != 2 then 31
                        else if d.year % 400 == 0 || (d.year % 4 == 0 && d.year % 100 != 0) then 29 else 28;
      IsGregorian(d) <==> 1 <= d.month <= 12 && 1 <= d.day <= last
  {
  }

  /** The roll-over test accepts exactly the Gregorian dates of the years from 100 on. */
  lemma RealDates(year: nat, month: nat, day: nat)
    ensures IsRealDate(year, month, day) <==> year >= 100 && IsGregorian(Date(year, month, day))
    ensures var last := if month in {4, 6, 9, 11} then 30
                        else if month != 2 then 31
                        else if year % 400 == 0 || (year % 4 == 0 && year % 100 != 0) then 29 else 28;
      IsRealDate(year, month, day) <==> year >= 100 && 1 <= month <= 12 && 1 <= day <= last
  {
    GregorianDays(Date(year, month, day));
    hide FromYear, MonthLength;
    if 1 <= month <= 12 && 1 <= day <= 31 {
      var d, taken := Date(year, month, day), Date(if year < 100 then 1900 + year else year, month, day);
      var found := RolledOver(year, month, day);
      FromYearInverse(DayNumber(taken), 0);
      if IsGregorian(d) {
        DaysGrow(found, d);
        if year < 100 {
          YearsGrow(year, 1900 + year);
          MonthsGrow(year, month, 13);
        }
      }
    }
  }

  // ----- dates as texts

  /** Four digits, two and two, with hyphens between. */
  predicate IsIso(s: string) {
    && |s| == 10 && s[4] == '-' && s[7] == '-'
    && forall i :: 0 <= i < 10 && i != 4 && i != 7 ==> IsDigit(s[i])
  }

  function Fields(s: string): Date
    requires IsIso(s)
  {
    assert forall i :: 0 <= i < 4 ==> s[..4][i] == s[i];
    assert forall i :: 0 <= i < 2 ==> s[5..7][i] == s[5 + i] && s[8..][i] == s[8 + i];
    Date(Value(s[..4]), Value(s[5..7]), Value(s[8..]))
  }

  function NormalizeIsoDate(input: string): Option<string> {
    if IsIso(input) && var d := Fields(input); IsRealDate(d.year, d.month, d.day) then Some(input) else None
  }

  predicate Normal(s: string) {
    NormalizeIsoDate(s) == Some(s)
  }

  function DayOf(s: string): nat
    requires Normal(s)
  {
    DayNumber(Fields(s))
  }

  lemma DigitsIn(s: string)
    requires IsIso(s)
    ensures (forall i :: 0 <= i < 4 ==> IsDigit(s[..4][i])) && forall i :: 0 <= i < 2 ==>
      IsDigit(s[5..7][i]) && IsDigit(s[8..][i])
    ensures s == s[..4] + ("-" + (s[5..7] + ("-" + s[8..])))
  {
  }

  /** As texts, dates of four-digit years compare by year, month and day. */
  lemma IsoOrder(s: string, t: string)
    requires IsIso(s) && IsIso(t)
    ensures TextLower(s, t) <==> Earlier(Fields(s), Fields(t))
    ensures s == t <==> Fields(s) == Fields(t)
  {
    hide TextLower, Value;
    DigitsIn(s);
    DigitsIn(t);
    LowerIsLess(s[..4], t[..4]);
    LowerIsLess(s[5..7], t[5..7]);
    LowerIsLess(s[8..], t[8..]);
    LowerAppend(s[..4], t[..4], "-" + (s[5..7] + ("-" + s[8..])), "-" + (t[5..7] + ("-" + t[8..])));
    LowerAppend("-", "-", s[5..7] + ("-" + s[8..]), t[5..7] + ("-" + t[8..]));
    LowerAppend(s[5..7], t[5..7], "-" + s[8..], "-" + t[8..]);
    LowerAppend("-", "-", s[8..], t[8..]);
    TextTotal("-", "-");
  }

  /** A text is taken exactly when it is four digits, two and two, of a real date. */
  lemma NormalIs(s: string)
    ensures Normal(s) <==> IsIso(s) && Fields(s).year >= 100 && IsGregorian(Fields(s))
  {
    hide IsRealDate, IsIso, Fields, IsGregorian;
    if IsIso(s) {
      RealDates(Fields(s).year, Fields(s).month, Fields(s).day);
    }
  }

  /** The order of normalised dates as texts is the order of their days. */
  lemma TextOrderIsDayOrder(s: string, t: string)
    requires Normal(s) && Normal(t)
    ensures TextLower(s, t) <==> DayOf(s) < DayOf(t)
    ensures s == t <==> DayOf(s) == DayOf(t)
  {
    hide IsRealDate, DayNumber;
    IsoOrder(s, t);
    var a, b := Fields(s), Fields(t);
    RealDates(a.year, a.month, a.day);
    RealDates(b.year, b.month, b.day);
    DaysGrow(a, b);
  }

  // ----- the window

  /** What the pattern found in a statement: the numbers of a date, and the phrase it stands in. */
  datatype Hit = Hit(year: nat, month: nat, day: nat, phrase: string)

  /** A year the pattern finds has four digits. */
  predicate HitFits(hit: Option<Hit>) {
    hit.Some? ==> hit.value.year < 10000
  }

  datatype Extracted = Extracted(validUntil: string, phrase: string)

  function Pad(n: nat): string {
    var s := Decimal(n);
    if |s| < 2 then "0" + s else s
  }

  /** The date as `extractExpiry` writes it: the year as it comes, month and day in two digits. */
  function Written(year: nat, month: nat, day: nat): string {
    Decimal(year) + ("-" + (Pad(month) + ("-" + Pad(day))))
  }

  function ExtractExpiry(hit: Option<Hit>): Option<Extracted> {
    match hit
    case None => None
    case Some(h) => if IsRealDate(h.year, h.month, h.day)
      then Some(Extracted(Written(h.year, h.month, h.day), h.phrase)) else None
  }

  datatype Error = BadFrom | BadUntil | Inverted

  datatype Window = Window(from: Option<string>, until: Option<string>, extracted: Option<Extracted>)

  function ResolveValidity(hit: Option<Hit>, from: Option<string>, until: Option<string>): Result<Window, Error> {
    if from.Some? && NormalizeIsoDate(from.value).None? then Failure(BadFrom)
    else if until.Some? && NormalizeIsoDate(until.value).None? then Failure(BadUntil)
    else
      var extracted := if until.Some? then None else ExtractExpiry(hit);
      var validUntil := if until.Some? then until else if extracted.Some? then Some(extracted.value.validUntil)
        else None;
      if from.Some? && validUntil.Some? && TextLower(validUntil.value, from.value) then
        if extracted.Some? then Success(Window(from, None, None)) else Failure(Inverted)
      else Success(Window(from, validUntil, extracted))
  }

  /** What a caller gave is refused exactly when it is malformed, not a real date, or ends before it starts. */
  lemma RefusesOnlyTheCallersDates(hit: Option<Hit>, from: Option<string>, until: Option<string>)
    ensures ResolveValidity(hit, from, until).Failure? <==>
      (from.Some? && !Normal(from.value)) || (until.Some? && !Normal(until.value)) ||
      (from.Some? && until.Some? && DayOf(until.value) < DayOf(from.value))
    ensures ResolveValidity(hit, from, until) == Failure(BadFrom) <==> from.Some? && !Normal(from.value)
    ensures ResolveValidity(hit, from, until) == Failure(BadUntil) <==>
      (from.Some? ==> Normal(from.value)) && until.Some? && !Normal(until.value)
  {
    hide DayOf, TextLower, IsIso, IsRealDate, Fields;
    if from.Some? && until.Some? && Normal(from.value) && Normal(until.value) {
      TextOrderIsDayOrder(until.value, from.value);
    }
  }

  /** Nothing a statement says makes the call fail, or fail otherwise. */
  lemma ExtractionNeverFails(hit: Option<Hit>, from: Option<string>, until: Option<string>)
    ensures ResolveValidity(hit, from, until).Failure? <==> ResolveValidity(None, from, until).Failure?
    ensures ResolveValidity(hit, from, until).Failure? ==>
      ResolveValidity(hit, from, until) == ResolveValidity(None, from, until)
  {
    RefusesOnlyTheCallersDates(hit, from, until);
    RefusesOnlyTheCallersDates(None, from, until);
  }

  lemma FourDigits(n: nat)
    requires 1000 <= n < 10000
    ensures |Decimal(n)| == 4
  {
    assert |Decimal(n / 1000)| == 1;
    assert |Decimal(n / 100)| == 2 by {
      assert n / 100 / 10 == n / 1000;
    }
    assert |Decimal(n / 10)| == 3 by {
      assert n / 10 / 10 == n / 100;
    }
  }

  lemma TwoDigits(n: nat)
    requires n < 100
    ensures |Pad(n)| == 2 && (forall i :: 0 <= i < 2 ==> IsDigit(Pad(n)[i])) && Value(Pad(n)) == n
  {
    DecimalReadsBack(n);
    if n < 10 {
      assert Pad(n)[..1] == "0" && "0"[..0] == "";
    } else {
      assert |Decimal(n / 10)| == 1;
    }
  }

  lemma JoinedAt(y: string, m: string, d: string, s: string)
    requires |y| == 4 && |m| == 2 && |d| == 2 && s == y + ("-" + (m + ("-" + d)))
    ensures |s| == 10 && s[0] == y[0] && s[1] == y[1] && s[2] == y[2] && s[3] == y[3] && s[4] == '-'
    ensures s[5] == m[0] && s[6] == m[1] && s[7] == '-' && s[8] == d[0] && s[9] == d[1]
  {
  }

  lemma JoinedSlices(y: string, m: string, d: string, s: string)
    requires |y| == 4 && |m| == 2 && |d| == 2 && |s| == 10
    requires s[0] == y[0] && s[1] == y[1] && s[2] == y[2] && s[3] == y[3]
    requires s[5] == m[0] && s[6] == m[1] && s[8] == d[0] && s[9] == d[1]
    ensures s[..4] == y && s[5..7] == m && s[8..] == d
  {
  }

  lemma JoinedIsIso(y: string, m: string, d: string, s: string)
    requires |y| == 4 && |m| == 2 && |d| == 2 && |s| == 10 && s[4] == '-' && s[7] == '-'
    requires s[0] == y[0] && s[1] == y[1] && s[2] == y[2] && s[3] == y[3]
    requires s[5] == m[0] && s[6] == m[1] && s[8] == d[0] && s[9] == d[1]
    requires (forall i :: 0 <= i < 4 ==> IsDigit(y[i])) && forall i :: 0 <= i < 2 ==> IsDigit(m[i]) && IsDigit(d[i])
    ensures IsIso(s)
  {
  }

  /** Four digits, two and two make an ISO date of their numbers. */
  lemma FieldsOf(y: string, m: string, d: string)
    requires |y| == 4 && |m| == 2 && |d| == 2
    requires (forall i :: 0 <= i < 4 ==> IsDigit(y[i])) && forall i :: 0 <= i < 2 ==> IsDigit(m[i]) && IsDigit(d[i])
    ensures var s := y + ("-" + (m + ("-" + d))); IsIso(s) && Fields(s) == Date(Value(y), Value(m), Value(d))
  {
    hide Value;
    var s := y + ("-" + (m + ("-" + d)));
    JoinedAt(y, m, d, s);
    JoinedSlices(y, m, d, s);
    JoinedIsIso(y, m, d, s);
  }

  /** With a year of four digits what is written is a normalised date, of the day that was meant. */
  lemma WrittenIsNormal(year: nat, month: nat, day: nat)
    requires 1000 <= year < 10000 && IsRealDate(year, month, day)
    ensures Normal(Written(year, month, day)) && Fields(Written(year, month, day)) == Date(year, month, day)
  {
    hide IsRealDate, IsIso, Decimal, Pad, Value;
    RealDates(year, month, day);
    FourDigits(year);
    TwoDigits(month);
    TwoDigits(day);
    DecimalReadsBack(year);
    FieldsOf(Decimal(year), Pad(month), Pad(day));
  }

  /** Exactly the real dates of the years from 100 on are extracted, and with four digits for the year as that date. */
  lemma ExtractsRealDates(h: Hit)
    requires HitFits(Some(h))
    ensures ExtractExpiry(Some(h)).Some? <==> h.year >= 100 && IsGregorian(Date(h.year, h.month, h.day))
    ensures ExtractExpiry(Some(h)).Some? ==> ExtractExpiry(Some(h)).value.phrase == h.phrase
    ensures h.year >= 1000 && ExtractExpiry(Some(h)).Some? ==>
      var s := ExtractExpiry(Some(h)).value.validUntil;
      Normal(s) && Fields(s) == Date(h.year, h.month, h.day)
    ensures ExtractExpiry(None).None?
  {
    hide IsRealDate, IsIso, Normal, Fields, Written, IsGregorian;
    RealDates(h.year, h.month, h.day);
    if h.year >= 1000 && ExtractExpiry(Some(h)).Some? {
      WrittenIsNormal(h.year, h.month, h.day);
    }
  }

  /** The day a window ends on: that of the caller's date, or the one the statement meant. */
  function EndDay(w: Window, hit: Option<Hit>): nat
    requires w.until.Some? &&
      (if w.extracted.Some? then hit.Some? && ExtractExpiry(hit).Some? else Normal(w.until.value))
  {
    if w.extracted.Some? then DayNumber(Date(hit.value.year, hit.value.month, hit.value.day)) else DayOf(w.until.value)
  }

  /** Every window starts no later than it ends, if a year the statement gave has four digits. */
  lemma WindowsAreOrdered(hit: Option<Hit>, from: Option<string>, until: Option<string>)
    requires HitFits(hit) && ResolveValidity(hit, from, until).Success?
    requires var w := ResolveValidity(hit, from, until).value;
      w.from.Some? && w.until.Some? && (w.extracted.Some? ==> hit.Some? && hit.value.year >= 1000)
    ensures var w := ResolveValidity(hit, from, until).value;
      Normal(w.from.value) && Normal(w.until.value) && DayOf(w.from.value) <= DayOf(w.until.value)
  {
    hide TextLower, IsIso, IsRealDate, Fields, DayNumber;
    var w := ResolveValidity(hit, from, until).value;
    if w.extracted.Some? {
      WrittenIsNormal(hit.value.year, hit.value.month, hit.value.day);
    }
    TextOrderIsDayOrder(w.until.value, w.from.value);
  }

  lemma ThreeDigits(n: nat)
    requires 100 <= n < 1000
    ensures |Decimal(n)| == 3
  {
    assert |Decimal(n / 100)| == 1;
    assert |Decimal(n / 10)| == 2 by {
      assert n / 10 / 10 == n / 100;
    }
  }

  /** A year of three digits is not below a text whose first three digits are a smaller number. */
  lemma ShortYearNotLower(year: nat, rest: string, start: string, more: string)
    requires 100 <= year < 1000 && |start| == 3 && (forall i :: 0 <= i < 3 ==> IsDigit(start[i])) && Value(start) < year
    ensures !TextLower(Decimal(year) + rest, start + more)
  {
    hide TextLower, Decimal, Value;
    ThreeDigits(year);
    DecimalReadsBack(year);
    LowerIsLess(Decimal(year), start);
    LowerAppend(Decimal(year), start, rest, more);
  }

  /** 1 January 1000, and 31 December 999 for a statement that says the year 100. */
  function LateStart(year: nat): string {
    if year == 100 then "0999-12-31" else "1000-01-01"
  }

  lemma Numerals()
    ensures Value("0999") == 999 && Value("12") == 12 && Value("31") == 31 && Value("1000") == 1000 && Value("01") == 1
    ensures Value("099") == 99 && Value("100") == 100
  {
    assert ""[..0] == "";
    assert "0"[..0] == "" && "1"[..0] == "" && "3"[..0] == "";
    assert "12"[..1] == "1" && "31"[..1] == "3" && "01"[..1] == "0" && "09"[..1] == "0" && "10"[..1] == "1";
    assert "099"[..2] == "09" && "100"[..2] == "10";
    assert "0999"[..3] == "099" && "1000"[..3] == "100";
  }

  lemma LateStartIs(year: nat)
    ensures Normal(LateStart(year)) && Fields(LateStart(year)) == if year == 100 then Date(999, 12, 31)
      else Date(1000, 1, 1)
  {
    hide IsRealDate, IsIso, Value;
    RealDates(999, 12, 31);
    RealDates(1000, 1, 1);
    Numerals();
    FieldsOf("0999", "12", "31");
    FieldsOf("1000", "01", "01");
    assert "0999-12-31" == "0999" + ("-" + ("12" + ("-" + "31")));
    assert "1000-01-01" == "1000" + ("-" + ("01" + ("-" + "01")));
  }

  lemma LateStartText(year: nat)
    requires 100 <= year < 1000
    ensures |LateStart(year)| == 10 && (forall i :: 0 <= i < 3 ==> IsDigit(LateStart(year)[..3][i]))
    ensures Value(LateStart(year)[..3]) < year
  {
    assert "0999-12-31"[..3] == "099" && "1000-01-01"[..3] == "100";
    Numerals();
  }

  lemma ShortYearInverted(h: Hit)
    requires HitFits(Some(h)) && ExtractExpiry(Some(h)).Some? && h.year < 1000
    ensures Normal(LateStart(h.year))
    ensures var r := ResolveValidity(Some(h), Some(LateStart(h.year)), None);
      r.Success? && r.value.until.Some? && r.value.extracted.Some? &&
          EndDay(r.value, Some(h)) < DayOf(LateStart(h.year))
  {
    hide TextLower, IsIso, IsRealDate, Fields, DayNumber, Decimal, Pad, LateStart;
    var from := LateStart(h.year);
    RealDates(h.year, h.month, h.day);
    LateStartIs(h.year);
    LateStartText(h.year);
    ShortYearNotLower(h.year, "-" + (Pad(h.month) + ("-" + Pad(h.day))), from[..3], from[3..]);
    assert from == from[..3] + from[3..];
    DaysGrow(Date(h.year, h.month, h.day), if h.year == 100 then Date(999, 12, 31) else Date(1000, 1, 1));
  }

  /**
   What the caller gave is the window; an extracted end is used only without one, and kept unless it comes
   before the start.
   */
  lemma CallersDatesWin(hit: Option<Hit>, from: Option<string>, until: Option<string>)
    requires HitFits(hit) && ResolveValidity(hit, from, until).Success?
    ensures var w := ResolveValidity(hit, from, until).value;
      && w.from == from && (until.Some? ==> w.until == until && w.extracted.None?)
      && (until.None? ==>
            (w.until.Some? <==> w.extracted.Some?) && (w.extracted.Some? ==> w.extracted == ExtractExpiry(hit)))
      && (until.None? && hit.Some? && hit.value.year >= 1000 && ExtractExpiry(hit).Some? ==>
            (w.until.Some? <==>
               from.None? || DayOf(from.value) <= DayNumber(Date(hit.value.year, hit.value.month, hit.value.day))))
  {
    hide TextLower, IsIso, IsRealDate, Fields, DayNumber;
    if until.None? && hit.Some? && hit.value.year >= 1000 && ExtractExpiry(hit).Some? {
      WrittenIsNormal(hit.value.year, hit.value.month, hit.value.day);
      if from.Some? {
        TextOrderIsDayOrder(ExtractExpiry(hit).value.validUntil, from.value);
      }
    }
  }

  lemma FourDigitEnd(h: Hit, from: string)
    requires HitFits(Some(h)) && ExtractExpiry(Some(h)).Some? && h.year >= 1000 && Normal(from)
    ensures var r := ResolveValidity(Some(h), Some(from), None);
      r.Success? && (r.value.until.Some? ==> r.value.extracted.Some? && DayOf(from) <= EndDay(r.value, Some(h)))
  {
    hide TextLower, IsIso, IsRealDate, Fields, DayNumber;
    var r := ResolveValidity(Some(h), Some(from), None);
    WrittenIsNormal(h.year, h.month, h.day);
    if r.value.until.Some? {
      WindowsAreOrdered(Some(h), Some(from), None);
    }
  }

  /** A date the statement gave never starts a window after its end exactly when its year has four digits. */
  lemma OrderedIffFourDigits(h: Hit)
    requires HitFits(Some(h)) && ExtractExpiry(Some(h)).Some?
    ensures (forall from {:trigger Normal(from)} :: Normal(from) ==>
      var r := ResolveValidity(Some(h), Some(from), None);
      r.Success? && (r.value.until.Some? ==> r.value.extracted.Some? && DayOf(from) <= EndDay(r.value, Some(h)))) <==>
      h.year >= 1000
  {
    hide Normal, DayOf, ResolveValidity, LateStart, EndDay;
    if h.year < 1000 {
      ShortYearInverted(h);
    } else {
      forall from | Normal(from)
        ensures ResolveValidity(Some(h), Some(from), None).Success?
        ensures var w := ResolveValidity(Some(h), Some(from), None).value;
          w.until.Some? ==> w.extracted.Some? && DayOf(from) <= EndDay(w, Some(h))
      {
        FourDigitEnd(h, from);
      }
    }
  }
}
