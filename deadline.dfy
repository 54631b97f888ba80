/**
 * The deadline check of the relevance scorer (`checkIfExpired`): a free-text
 * deadline is matched against three date patterns in turn (ISO
 * `YYYY-MM-DD`, day-first `DD.MM.YYYY`, and `D <Polish month> YYYY`); the
 * first pattern that matches anywhere in the text builds the date, and only
 * when none matches is the text handed to the generic `Date` parser. The
 * deadline is expired when that date lies before 23:59:59.999 of today.
 *
 * Times are milliseconds of local time; the current time is a parameter, and
 * so is the value of the generic parser, which is not part of this model.
 */
module Deadline {
  import opened Wrappers
  import opened JsText

  // ---------------------------------------------------------------------
  // Dates as the ECMAScript `Date` builds them
  // ---------------------------------------------------------------------

  /** A `Date` object: a time value, or the invalid date whose time is NaN. */
  datatype JsDate = Valid(time: int) | InvalidDate

  const MsPerDay: int := 86400000

  /** The largest magnitude of a time value (`TimeClip`). */
  const MaxTime: int := 8640000000000000

  /** `DayFromYear`: the day number of January 1st of year `y`. */
  function DayFromYear(y: int): int {
    365 * (y - 1970) + (y - 1969) / 4 - (y - 1901) / 100 + (y - 1601) / 400
  }

  predicate InLeapYear(y: int) {
    y % 4 == 0 && (y % 100 != 0 || y % 400 == 0)
  }

  /** Days before month `m` (0 = January) in a year. */
  function MonthStart(m: int, leap: bool): int
    requires 0 <= m < 12
  {
    [0, 31, 59, 90, 120, 151, 181, 212, 243, 273, 304, 334][m] + (if leap && m >= 2 then 1 else 0)
  }

  function DaysInMonth(y: int, m: int): int
    requires 0 <= m < 12
  {
    if m == 1 then (if InLeapYear(y) then 29 else 28)
    else if m == 3 || m == 5 || m == 8 || m == 10 then 30
    else 31
  }

  /**
   * `MakeDay(year, month, date)`: month and date may lie outside their
   * ranges; a month past December moves into the next year and a date past
   * the end of the month into the next month.
   */
  function MakeDay(year: int, month: int, date: int): int {
    var ym := year + month / 12;
    var mn := month % 12;
    DayFromYear(ym) + MonthStart(mn, InLeapYear(ym)) + date - 1
  }

  /** `new Date(y, m, d)` maps the years 0 to 99 to 1900 to 1999. */
  function FullYear(y: int): int {
    if 0 <= y <= 99 then 1900 + y else y
  }

  /** `new Date(y, m, d)`: local midnight of that day, or the invalid date out of range. */
  function NewDate(y: int, m: int, d: int): (r: JsDate)
    ensures r.Valid? ==> r.time % MsPerDay == 0 && r.time / MsPerDay == MakeDay(FullYear(y), m, d)
  {
    var t := MakeDay(FullYear(y), m, d) * MsPerDay;
    if -MaxTime <= t <= MaxTime then Valid(t) else InvalidDate
  }

  /** The last millisecond of the local day of `now`. */
  function EndOfToday(now: int): int {
    (now / MsPerDay) * MsPerDay + MsPerDay - 1
  }

  // ---------------------------------------------------------------------
  // The three patterns
  // ---------------------------------------------------------------------

  /** The patterns of lines 112-116, in the order the loop tries them. */
  datatype DatePattern = IsoDate | DottedDate | PolishDate

  const Patterns: seq<DatePattern> := [IsoDate, DottedDate, PolishDate]

  /** The three capture groups of a successful match. */
  datatype Captures = Captures(first: string, second: string, third: string)

  /** The month names of the third pattern, in the order the alternation tries them. */
  const MonthNames: seq<string> := [
    "stycznia", "lutego", "marca", "kwietnia", "maja", "czerwca",
    "lipca", "sierpnia", "września", "października", "listopada", "grudnia"
  ]

  /** The `months` table of lines 118-121: a zero-based month for each name. */
  const Months: map<string, int> := map[
    "stycznia" := 0, "lutego" := 1, "marca" := 2, "kwietnia" := 3, "maja" := 4, "czerwca" := 5,
    "lipca" := 6, "sierpnia" := 7, "września" := 8, "października" := 9, "listopada" := 10, "grudnia" := 11
  ]

  /** `g` is a group of `lo` to `hi` digits. */
  ghost predicate DigitGroup(g: string, lo: nat, hi: nat) {
    lo <= |g| <= hi && forall k :: 0 <= k < |g| ==> IsDigit(g[k])
  }

  /** `g` is a month name, in any case. */
  ghost predicate MonthText(g: string) {
    exists k :: 0 <= k < |MonthNames| && |g| == |MonthNames[k]| && MatchesIgnoringCase(g, 0, MonthNames[k])
  }

  /** What the groups of a match of each pattern are made of. */
  ghost predicate Shaped(p: DatePattern, m: Captures) {
    match p
    case IsoDate => DigitGroup(m.first, 4, 4) && DigitGroup(m.second, 2, 2) && DigitGroup(m.third, 2, 2)
    case DottedDate => DigitGroup(m.first, 1, 2) && DigitGroup(m.second, 1, 2) && DigitGroup(m.third, 4, 4)
    case PolishDate => DigitGroup(m.first, 1, 2) && MonthText(m.second) && DigitGroup(m.third, 4, 4)
  }

  /** `\d{n}` at `i`. */
  function DigitRun(s: string, i: nat, n: nat): (b: bool)
    ensures b ==> i + n <= |s| && forall k :: i <= k < i + n ==> IsDigit(s[k])
    decreases n
  {
    if n == 0 then i <= |s| else i < |s| && IsDigit(s[i]) && DigitRun(s, i + 1, n - 1)
  }

  /** The first alternative that succeeds. */
  function OrElse(x: Option<Captures>, y: Option<Captures>): Option<Captures> {
    if x.Some? then x else y
  }

  /** `(\d{4})-(\d{2})-(\d{2})` at `i`. */
  function IsoAt(s: string, i: nat): (r: Option<Captures>)
    ensures r.Some? ==> i < |s| && IsDigit(s[i]) && Shaped(IsoDate, r.value)
  {
    if DigitRun(s, i, 4) && i + 4 < |s| && s[i + 4] == '-' && DigitRun(s, i + 5, 2)
      && i + 7 < |s| && s[i + 7] == '-' && DigitRun(s, i + 8, 2)
    then Some(Captures(s[i..i + 4], s[i + 5..i + 7], s[i + 8..i + 10]))
    else None
  }

  /** `(\d{1,2})\.(\d{1,2})\.(\d{4})` at `i` with the day taking `a` and the month `b` digits. */
  function DottedWith(s: string, i: nat, a: nat, b: nat): (r: Option<Captures>)
    requires 1 <= a
    ensures r.Some? ==> i < |s| && IsDigit(s[i])
    ensures r.Some? ==>
      DigitGroup(r.value.first, a, a) && DigitGroup(r.value.second, b, b) && DigitGroup(r.value.third, 4, 4)
  {
    var j := i + a;
    var k := j + 1 + b;
    if DigitRun(s, i, a) && j < |s| && s[j] == '.' && DigitRun(s, j + 1, b)
      && k < |s| && s[k] == '.' && DigitRun(s, k + 1, 4)
    then Some(Captures(s[i..j], s[j + 1..k], s[k + 1..k + 5]))
    else None
  }

  /** The second pattern at `i`, each `\d{1,2}` trying two digits before one. */
  function DottedAt(s: string, i: nat): (r: Option<Captures>)
    ensures r.Some? ==> i < |s| && IsDigit(s[i]) && Shaped(DottedDate, r.value)
  {
    OrElse(OrElse(DottedWith(s, i, 2, 2), DottedWith(s, i, 2, 1)),
           OrElse(DottedWith(s, i, 1, 2), DottedWith(s, i, 1, 1)))
  }

  /**
   * `(stycznia|…|grudnia)\s+(\d{4})` at `j`, trying the month names from
   * the `k`-th on, after a day of `a` digits at `i`. The `\s+` takes every
   * space: giving one back leaves a space where a digit must follow.
   */
  function MonthAlternatives(s: string, i: nat, a: nat, j: nat, k: nat): (r: Option<Captures>)
    requires i + a <= j <= |s| && k <= |MonthNames| && DigitRun(s, i, a)
    ensures r.Some? ==>
      DigitGroup(r.value.first, a, a) && MonthText(r.value.second) && DigitGroup(r.value.third, 4, 4)
    decreases |MonthNames| - k
  {
    if k == |MonthNames| then None
    else
      var name := MonthNames[k];
      var e := j + |name|;
      if MatchesIgnoringCase(s, j, name) then
        var f := SkipSpaces(s, e);
        if f > e && DigitRun(s, f, 4) then
          assert MatchesIgnoringCase(s[j..e], 0, name);
          Some(Captures(s[i..i + a], s[j..e], s[f..f + 4]))
        else MonthAlternatives(s, i, a, j, k + 1)
      else MonthAlternatives(s, i, a, j, k + 1)
  }

  /** `(\d{1,2})\s+(…)\s+(\d{4})` at `i` with a day of `a` digits. */
  function PolishWith(s: string, i: nat, a: nat): (r: Option<Captures>)
    requires 1 <= a <= 2
    ensures r.Some? ==> i < |s| && IsDigit(s[i]) && Shaped(PolishDate, r.value)
  {
    if !DigitRun(s, i, a) then None
    else
      var j := SkipSpaces(s, i + a);
      if j == i + a then None else MonthAlternatives(s, i, a, j, 0)
  }

  /** The third pattern at `i`, the day trying two digits before one. */
  function PolishAt(s: string, i: nat): (r: Option<Captures>)
    ensures r.Some? ==> i < |s| && IsDigit(s[i]) && Shaped(PolishDate, r.value)
  {
    OrElse(PolishWith(s, i, 2), PolishWith(s, i, 1))
  }

  function PatternAt(p: DatePattern, s: string, i: nat): (r: Option<Captures>)
    ensures r.Some? ==> i < |s| && IsDigit(s[i]) && Shaped(p, r.value)
  {
    match p
    case IsoDate => IsoAt(s, i)
    case DottedDate => DottedAt(s, i)
    case PolishDate => PolishAt(s, i)
  }

  /** `deadline.match(pattern)`: the match that starts leftmost at or after `i`. */
  function MatchFrom(p: DatePattern, s: string, i: nat): (r: Option<Captures>)
    ensures r.Some? ==> Shaped(p, r.value)
    decreases |s| - i
  {
    if i >= |s| then None
    else match PatternAt(p, s, i)
      case Some(m) => Some(m)
      case None => MatchFrom(p, s, i + 1)
  }

  /** The first pattern, from the `k`-th on, that matches `s`, with its match. */
  function FirstMatchingPattern(s: string, k: nat): (r: Option<(DatePattern, Captures)>)
    ensures r.Some? ==> Shaped(r.value.0, r.value.1)
    decreases |Patterns| - k
  {
    if k >= |Patterns| then None
    else match MatchFrom(Patterns[k], s, 0)
      case Some(m) => Some((Patterns[k], m))
      case None => FirstMatchingPattern(s, k + 1)
  }

  /**
   * The `Date` each pattern builds from its groups (lines 126-148): when it
   * is valid it is a local midnight, and a Polish date is valid only with a
   * month name of the table.
   */
  function DateFromMatch(p: DatePattern, m: Captures): (r: JsDate)
    ensures r.Valid? ==> r.time % MsPerDay == 0
    ensures p == PolishDate && r.Valid? ==> ToLower(m.second) in Months
  {
    match p
    case IsoDate =>
      NewDate(ParseIntPrefix(m.first), ParseIntPrefix(m.second) - 1, ParseIntPrefix(m.third))
    case DottedDate =>
      NewDate(ParseIntPrefix(m.third), ParseIntPrefix(m.second) - 1, ParseIntPrefix(m.first))
    case PolishDate =>
      var monthName := ToLower(m.second);
      // A name missing from the table makes the month `undefined` and the date invalid.
      if monthName in Months then NewDate(ParseIntPrefix(m.third), Months[monthName], ParseIntPrefix(m.first))
      else InvalidDate
  }

  /** The date the deadline text denotes; `fallback` is `new Date(deadline)`. */
  function ParsedDeadline(s: string, fallback: JsDate): JsDate {
    match FirstMatchingPattern(s, 0)
    case Some((p, m)) => DateFromMatch(p, m)
    case None => fallback
  }

  /**
   * `checkIfExpired(deadline)` at the local time `now` (lines 104-173): only
   * a non-empty deadline that denotes a valid date on today or an earlier
   * day can be expired.
   */
  function IsExpired(deadline: Option<string>, now: int, fallback: JsDate): (r: bool)
    ensures r ==> deadline.Some? && deadline.value != "" && ParsedDeadline(deadline.value, fallback).Valid?
    ensures r ==> ParsedDeadline(deadline.value, fallback).time / MsPerDay <= now / MsPerDay
  {
    match deadline
    case None => false
    case Some(s) =>
      if s == "" then false
      else match ParsedDeadline(s, fallback)
        case InvalidDate => false
        case Valid(t) =>
          BeforeEndOfTodayIsNoLaterDay(t, now);
          t < EndOfToday(now)
  }

  /** A time before the end of today lies on today or an earlier day. */
  lemma BeforeEndOfTodayIsNoLaterDay(t: int, now: int)
    ensures t < EndOfToday(now) ==> t / MsPerDay <= now / MsPerDay
  {
    var d := t / MsPerDay;
    var n := now / MsPerDay;
    if d > n {
      assert (n + 1) * MsPerDay <= d * MsPerDay;
      assert t >= EndOfToday(now);
    }
  }

  /**
   * `checkIfExpired` as the source writes it: a loop over the patterns that
   * builds the date from the first one that matches and leaves.
   */
  method CheckIfExpired(deadline: Option<string>, now: int, fallback: JsDate) returns (expired: bool)
    ensures expired == IsExpired(deadline, now, fallback)
  {
    if deadline.None? || deadline.value == "" {
      return false;
    }
    var s := deadline.value;
    var deadlineDate: Option<JsDate> := None;
    var k := 0;
    while k < |Patterns|
      invariant 0 <= k <= |Patterns|
      invariant deadlineDate.None? ==> FirstMatchingPattern(s, k) == FirstMatchingPattern(s, 0)
      invariant deadlineDate.Some? ==> deadlineDate.value == ParsedDeadline(s, fallback)
    {
      var m := MatchFrom(Patterns[k], s, 0);
      if m.Some? {
        deadlineDate := Some(DateFromMatch(Patterns[k], m.value));
        break;
      }
      k := k + 1;
    }
    if deadlineDate.None? {
      deadlineDate := Some(fallback);
    }
    match deadlineDate.value
    case InvalidDate => expired := false;
    case Valid(t) => expired := t < EndOfToday(now);
  }

  // ---------------------------------------------------------------------
  // Properties
  // ---------------------------------------------------------------------

  /** An absent or empty deadline is never expired. */
  lemma NoDeadlineNotExpired(now: int, fallback: JsDate)
    ensures !IsExpired(None, now, fallback) && !IsExpired(Some(""), now, fallback)
  {
  }

  /** The generic parser is consulted exactly when no pattern matches. */
  lemma FallbackOnlyWithoutMatch(s: string, fallback: JsDate, other: JsDate)
    ensures FirstMatchingPattern(s, 0).None? ==> ParsedDeadline(s, fallback) == fallback
    ensures FirstMatchingPattern(s, 0).Some? ==> ParsedDeadline(s, fallback) == ParsedDeadline(s, other)
  {
  }

  /** The first pattern in list order that matches decides the date, whatever follows it. */
  lemma {:induction false} FirstPatternWins(s: string, k: nat, m: Captures, fallback: JsDate)
    requires k < |Patterns| && MatchFrom(Patterns[k], s, 0) == Some(m)
    requires forall j :: 0 <= j < k ==> MatchFrom(Patterns[j], s, 0).None?
    ensures ParsedDeadline(s, fallback) == DateFromMatch(Patterns[k], m)
  {
    FirstPatternFrom(s, 0, k, m);
  }

  lemma {:induction false} FirstPatternFrom(s: string, i: nat, k: nat, m: Captures)
    requires i <= k < |Patterns| && MatchFrom(Patterns[k], s, 0) == Some(m)
    requires forall j :: i <= j < k ==> MatchFrom(Patterns[j], s, 0).None?
    ensures FirstMatchingPattern(s, i) == Some((Patterns[k], m))
    decreases k - i
  {
    if i < k {
      FirstPatternFrom(s, i + 1, k, m);
    }
  }

  /** A text without a digit matches no pattern: every pattern starts with `\d`. */
  lemma {:induction false} NoDigitNoMatch(p: DatePattern, s: string, i: nat)
    requires forall k :: 0 <= k < |s| ==> !IsDigit(s[k])
    ensures MatchFrom(p, s, i).None?
    decreases |s| - i
  {
    if i < |s| {
      NoDigitNoMatch(p, s, i + 1);
    }
  }

  /** So a deadline without a digit is judged by the generic parser alone. */
  lemma NoDigitUsesFallback(s: string, fallback: JsDate)
    requires forall k :: 0 <= k < |s| ==> !IsDigit(s[k])
    ensures ParsedDeadline(s, fallback) == fallback
  {
    NoDigitNoMatch(IsoDate, s, 0);
    NoDigitNoMatch(DottedDate, s, 0);
    NoDigitNoMatch(PolishDate, s, 0);
  }

  /** A midnight lies before the end of today exactly when its day is today or earlier. */
  lemma MidnightBeforeEndOfToday(t: int, now: int)
    requires t % MsPerDay == 0
    ensures t < EndOfToday(now) <==> t / MsPerDay <= now / MsPerDay
  {
    var d := t / MsPerDay;
    var n := now / MsPerDay;
    assert t == d * MsPerDay;
    if d <= n {
      assert d * MsPerDay <= n * MsPerDay;
    } else {
      assert (n + 1) * MsPerDay <= d * MsPerDay;
    }
  }

  /**
   * A deadline a pattern recognises is expired exactly when its day is not
   * after today's: a deadline dated today counts as expired, and one dated
   * after today never does.
   */
  lemma PatternDeadlineExpiry(s: string, now: int, fallback: JsDate)
    requires s != "" && FirstMatchingPattern(s, 0).Some?
    ensures ParsedDeadline(s, fallback).Valid?
    ensures IsExpired(Some(s), now, fallback) <==> ParsedDeadline(s, fallback).time / MsPerDay <= now / MsPerDay
  {
    var (p, m) := FirstMatchingPattern(s, 0).value;
    PatternDatesValid(s, p, m);
    MidnightBeforeEndOfToday(ParsedDeadline(s, fallback).time, now);
  }

  /** Unlike a boundary at the start of the day, a deadline dated today is already expired. */
  lemma DeadlineTodayExpired(s: string, now: int, fallback: JsDate)
    requires s != "" && FirstMatchingPattern(s, 0).Some?
    requires ParsedDeadline(s, fallback).Valid? && ParsedDeadline(s, fallback).time / MsPerDay == now / MsPerDay
    ensures IsExpired(Some(s), now, fallback)
  {
    PatternDeadlineExpiry(s, now, fallback);
  }

  /** Text the generic parser rejects and no pattern recognises is never expired. */
  lemma UnparseableNotExpired(s: string, now: int)
    requires FirstMatchingPattern(s, 0).None?
    ensures !IsExpired(Some(s), now, InvalidDate)
  {
  }

  /** So `"not a date"`, which has no digit, is not expired. */
  lemma NotADateNotExpired(now: int)
    ensures !IsExpired(Some("not a date"), now, InvalidDate)
  {
    NoDigitUsesFallback("not a date", InvalidDate);
  }

  /** A deadline that stays expired: expiry never reverts as time goes on. */
  lemma ExpiryIsMonotone(deadline: Option<string>, now: int, later: int, fallback: JsDate)
    requires now <= later && IsExpired(deadline, now, fallback)
    ensures IsExpired(deadline, later, fallback)
  {
    assert now / MsPerDay <= later / MsPerDay;
  }

  /** Every digit of an all-digit group counts in `parseInt`. */
  lemma {:induction false} ParseIntOfDigits(s: string)
    requires forall k :: 0 <= k < |s| ==> IsDigit(s[k])
    ensures ParseIntPrefix(s) == DigitsValue(s)
  {
    AllDigitsPrefix(s);
    assert s[..|s|] == s;
  }

  lemma {:induction false} AllDigitsPrefix(s: string)
    requires forall k :: 0 <= k < |s| ==> IsDigit(s[k])
    ensures DigitPrefixLength(s) == |s|
  {
    if |s| > 0 {
      AllDigitsPrefix(s[1..]);
    }
  }

  /** Ten to the power `n`. */
  function Pow10(n: nat): (r: nat)
    ensures r >= 1
  {
    if n == 0 then 1 else 10 * Pow10(n - 1)
  }

  lemma {:induction false} DigitsValueBelow(s: string)
    ensures DigitsValue(s) < Pow10(|s|)
  {
    if |s| > 0 {
      DigitsValueBelow(s[..|s| - 1]);
      assert DigitValue(s[|s| - 1]) <= 9;
    }
  }

  /** The value of an all-digit group of `n` digits, below `10^n`. */
  lemma GroupValue(s: string, n: nat)
    requires |s| == n && forall k :: 0 <= k < |s| ==> IsDigit(s[k])
    ensures ParseIntPrefix(s) == DigitsValue(s) < Pow10(n)
  {
    ParseIntOfDigits(s);
    DigitsValueBelow(s);
  }

  /** Day numbers of the years a four-digit group can give stay small. */
  lemma DayFromYearBounds(y: int)
    requires 0 <= y <= 10100
    ensures -800000 <= DayFromYear(y) <= 3000000
  {
  }

  /** `new Date(y, m, d)` for the fields a pattern can capture gives a valid date. */
  lemma SmallFieldsValid(y: int, m: int, d: int)
    requires 0 <= y < 10000 && -1 <= m < 100 && 0 <= d < 100
    ensures NewDate(y, m, d).Valid?
  {
    var ym := FullYear(y) + m / 12;
    assert -1 <= ym <= 10009;
    DayFromYearBounds(ym);
  }

  /** The month names are spelled in small letters. */
  lemma MonthNamesSmall(k: nat)
    requires k < |MonthNames|
    ensures forall c :: 0 <= c < |MonthNames[k]| ==> IsSmallLetter(MonthNames[k][c])
  {
  }

  /** Each month name is a key of the month table, mapped to its position. */
  lemma MonthTable(k: nat)
    requires k < |MonthNames|
    ensures MonthNames[k] in Months && Months[MonthNames[k]] == k
  {
  }

  /** The text a month alternative matched lower-cases to that month's name. */
  lemma MatchedMonthLowers(s: string, j: nat, k: nat)
    requires k < |MonthNames| && MatchesIgnoringCase(s, j, MonthNames[k])
    ensures ToLower(s[j..j + |MonthNames[k]|]) == MonthNames[k]
  {
    var name := MonthNames[k];
    var text := s[j..j + |name|];
    MonthNamesSmall(k);
    forall c | 0 <= c < |name| ensures ToLower(text)[c] == name[c] {
      assert SameIgnoringCase(s[j + c], name[c]);
      LowerOfFoldedLetter(text[c], name[c]);
    }
  }

  /**
   * A date built by a pattern is always valid and falls on a local
   * midnight: the month table lookup never fails and the captured numbers
   * are too small for the time value to leave its range. Only the generic
   * parser can produce the invalid date.
   */
  lemma PatternDatesValid(s: string, p: DatePattern, m: Captures)
    requires FirstMatchingPattern(s, 0) == Some((p, m))
    ensures DateFromMatch(p, m).Valid? && DateFromMatch(p, m).time % MsPerDay == 0
  {
    ShapedDateValid(p, m);
  }

  lemma ShapedDateValid(p: DatePattern, m: Captures)
    requires Shaped(p, m)
    ensures DateFromMatch(p, m).Valid?
  {
    match p
    case IsoDate => IsoDateValid(m);
    case DottedDate => DottedDateValid(m);
    case PolishDate => PolishDateValid(m);
  }

  lemma IsoDateValid(m: Captures)
    requires Shaped(IsoDate, m)
    ensures DateFromMatch(IsoDate, m).Valid?
  {
    GroupValue(m.first, 4);
    GroupValue(m.second, 2);
    GroupValue(m.third, 2);
    SmallFieldsValid(ParseIntPrefix(m.first), ParseIntPrefix(m.second) - 1, ParseIntPrefix(m.third));
  }

  lemma DottedDateValid(m: Captures)
    requires Shaped(DottedDate, m)
    ensures DateFromMatch(DottedDate, m).Valid?
  {
    GroupValue(m.first, |m.first|);
    GroupValue(m.second, |m.second|);
    GroupValue(m.third, 4);
    assert Pow10(|m.first|) <= 100 && Pow10(|m.second|) <= 100;
    SmallFieldsValid(ParseIntPrefix(m.third), ParseIntPrefix(m.second) - 1, ParseIntPrefix(m.first));
  }

  lemma PolishDateValid(m: Captures)
    requires Shaped(PolishDate, m)
    ensures DateFromMatch(PolishDate, m).Valid?
  {
    GroupValue(m.first, |m.first|);
    GroupValue(m.third, 4);
    assert Pow10(|m.first|) <= 100;
    var k :| 0 <= k < |MonthNames| && |m.second| == |MonthNames[k]| && MatchesIgnoringCase(m.second, 0, MonthNames[k]);
    assert ToLower(m.second) == MonthNames[k] by {
      MatchedMonthLowers(m.second, 0, k);
      assert m.second[0..|MonthNames[k]|] == m.second;
    }
    MonthTable(k);
    SmallFieldsValid(ParseIntPrefix(m.third), k, ParseIntPrefix(m.first));
  }

  /** A month past December is the same month of the next year. */
  lemma MonthOverflow(y: int, m: int, d: int)
    ensures MakeDay(y, m + 12, d) == MakeDay(y + 1, m, d)
  {
    assert (m + 12) / 12 == m / 12 + 1 && (m + 12) % 12 == m % 12;
  }

  /** The date counts days: one more date is one day later, past the month's end too. */
  lemma NextDate(y: int, m: int, d: int)
    ensures MakeDay(y, m, d + 1) == MakeDay(y, m, d) + 1
  {
  }

  /** A year has 366 days when it is a leap year and 365 otherwise. */
  lemma YearLength(y: int)
    ensures DayFromYear(y + 1) - DayFromYear(y) == if InLeapYear(y) then 366 else 365
  {
    CountStep(y, 4, 1969, 492);
    CountStep(y, 100, 1901, 19);
    CountStep(y, 400, 1601, 4);
  }

  /** Going from `y` to `y + 1`, the count of multiples of `d` passed grows by one exactly at a multiple. */
  lemma CountStep(y: int, d: int, base: int, k: int)
    requires d > 0 && base - 1 == k * d
    ensures (y + 1 - base) / d - (y - base) / d == if y % d == 0 then 1 else 0
  {
    var q, r := y / d, y % d;
    assert y == q * d + r && 0 <= r < d;
    assert y - base == (q - k - 1) * d + (r + d - 1);
    if r == 0 {
      DivUnique(y - base, d, q - k - 1, d - 1);
      DivUnique(y + 1 - base, d, q - k, 0);
    } else {
      DivUnique(y - base, d, q - k, r - 1);
      DivUnique(y + 1 - base, d, q - k, r);
    }
  }

  lemma DivUnique(x: int, d: int, q: int, r: int)
    requires d > 0 && x == q * d + r && 0 <= r < d
    ensures x / d == q
  {
    var q', r' := x / d, x % d;
    assert x == q' * d + r' && 0 <= r' < d;
    if q > q' {
      assert (q - q') * d == q * d - q' * d;
      MulAtLeast(q - q', d);
    } else if q < q' {
      assert (q' - q) * d == q' * d - q * d;
      MulAtLeast(q' - q, d);
    }
  }

  lemma {:induction false} MulAtLeast(e: int, d: int)
    requires e >= 1 && d > 0
    ensures e * d >= d
    decreases e
  {
    if e > 1 {
      MulAtLeast(e - 1, d);
      assert e * d == (e - 1) * d + d;
    }
  }


  /** Consecutive months of one year start a month's length apart. */
  lemma MonthStartSteps(y: int, m: int)
    requires 0 <= m < 11
    ensures MonthStart(m + 1, InLeapYear(y)) == MonthStart(m, InLeapYear(y)) + DaysInMonth(y, m)
  {
  }

  /** The day after the last of a month is the first of the next month (December into January). */
  lemma EndOfMonthRollsOver(y: int, m: int)
    requires 0 <= m < 12
    ensures MakeDay(y, m, DaysInMonth(y, m) + 1) == MakeDay(y, m + 1, 1)
  {
    assert m / 12 == 0 && m % 12 == m;
    if m == 11 {
      assert (m + 1) / 12 == 1 && (m + 1) % 12 == 0;
      YearLength(y);
    } else {
      assert (m + 1) / 12 == 0 && (m + 1) % 12 == m + 1;
      MonthStartSteps(y, m);
    }
  }

  lemma IsoExampleMatch()
    ensures FirstMatchingPattern("2024-01-01", 0) == Some((IsoDate, Captures("2024", "01", "01")))
  {
    var s := "2024-01-01";
    assert DigitRun(s, 0, 4) && DigitRun(s, 5, 2) && DigitRun(s, 8, 2);
    assert s[0..4] == "2024" && s[5..7] == "01" && s[8..10] == "01";
  }

  lemma ExampleNumbers()
    ensures ParseIntPrefix("2024") == 2024 && ParseIntPrefix("01") == 1
  {
    ParseIntOfDigits("2024");
    ParseIntOfDigits("01");
    assert DigitsValue("2024") == 2024 by {
      assert "2024"[..3] == "202" && "202"[..2] == "20" && "20"[..1] == "2" && "2"[..0] == "";
    }
    assert DigitsValue("01") == 1 by {
      assert "01"[..1] == "0" && "0"[..0] == "";
    }
  }

  /** An ISO deadline of a past year is expired. */
  lemma PastIsoDeadlineExpired(fallback: JsDate)
    ensures IsExpired(Some("2024-01-01"), MakeDay(2025, 0, 1) * MsPerDay, fallback)
  {
    IsoExampleMatch();
    ExampleNumbers();
    assert ParsedDeadline("2024-01-01", fallback) == NewDate(2024, 0, 1);
    ExampleDays();
  }

  /** The days of the example dates, counted from 1970-01-01. */
  lemma ExampleDays()
    ensures MakeDay(2024, 0, 1) == 19723 && NewDate(2024, 0, 1) == Valid(19723 * MsPerDay)
    ensures MakeDay(2025, 0, 1) == 20089
    ensures MakeDay(2099, 11, 31) == 47481 && NewDate(2099, 11, 31) == Valid(47481 * MsPerDay)
  {
  }

  /** A text without a dash has no match of the first pattern. */
  lemma {:induction false} NoDashNoIsoMatch(s: string, i: nat)
    requires forall k :: 0 <= k < |s| ==> s[k] != '-'
    ensures MatchFrom(IsoDate, s, i).None?
    decreases |s| - i
  {
    if i < |s| {
      assert IsoAt(s, i).None?;
      NoDashNoIsoMatch(s, i + 1);
    }
  }

  lemma DottedExampleMatch()
    ensures FirstMatchingPattern("31.12.2099", 0) == Some((DottedDate, Captures("31", "12", "2099")))
  {
    var s := "31.12.2099";
    NoDashNoIsoMatch(s, 0);
    assert DottedWith(s, 0, 2, 2) == Some(Captures("31", "12", "2099")) by {
      assert DigitRun(s, 0, 2) && DigitRun(s, 3, 2) && DigitRun(s, 6, 4);
      assert s[0..2] == "31" && s[3..5] == "12" && s[6..10] == "2099";
    }
  }

  lemma DottedExampleNumbers()
    ensures ParseIntPrefix("31") == 31 && ParseIntPrefix("12") == 12 && ParseIntPrefix("2099") == 2099
  {
    ParseIntOfDigits("31");
    ParseIntOfDigits("12");
    ParseIntOfDigits("2099");
    assert DigitsValue("31") == 31 by {
      assert "31"[..1] == "3" && "3"[..0] == "";
    }
    assert DigitsValue("12") == 12 by {
      assert "12"[..1] == "1" && "1"[..0] == "";
    }
    assert DigitsValue("2099") == 2099 by {
      assert "2099"[..3] == "209" && "209"[..2] == "20" && "20"[..1] == "2" && "2"[..0] == "";
    }
  }

  /** A day-first deadline far in the future is not expired. */
  lemma FutureDottedDeadlineNotExpired(fallback: JsDate)
    ensures !IsExpired(Some("31.12.2099"), MakeDay(2025, 0, 1) * MsPerDay, fallback)
  {
    DottedExampleMatch();
    DottedExampleNumbers();
    assert ParsedDeadline("31.12.2099", fallback) == NewDate(2099, 11, 31);
    ExampleDays();
  }
}
