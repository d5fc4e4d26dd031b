/**
 * Timestamps are stored and compared as the text of `Date.prototype.toISOString`: grant and session
 * expiry (packages/relay/src/control-plane.ts:543-547, 678) and reclamation
 * (packages/relay/src/registry.ts:122-129). The calendar is that of ECMAScript; the text is the
 * UTC profile of section 5.6 of RFC 3339, with a sign and six digits outside the years 0 to 9999.
 */
module Timestamps {
  import opened Sequences

  // ---------- the calendar ----------

  /** Days from 1970-01-01 to the first day of a year. */
  function DayFromYear(y: int): int {
    365 * (y - 1970) + (y - 1969) / 4 - (y - 1901) / 100 + (y - 1601) / 400
  }

  predicate IsLeap(y: int) {
    y % 4 == 0 && (y % 100 != 0 || y % 400 == 0)
  }

  function YearLength(y: int): int {
    if IsLeap(y) then 366 else 365
  }

  /** Days of the year before a month; month 13 is the end of the year. */
  function DaysBefore(month: int, leap: bool): int
    requires 1 <= month <= 13
  {
    var february := if leap then 29 else 28;
    match month
    case 1 => 0
    case 2 => 31
    case 3 => 31 + february
    case 4 => 62 + february
    case 5 => 92 + february
    case 6 => 123 + february
    case 7 => 153 + february
    case 8 => 184 + february
    case 9 => 215 + february
    case 10 => 245 + february
    case 11 => 276 + february
    case 12 => 306 + february
    case 13 => 337 + february
  }

  datatype Time = Time(hour: int, minute: int, second: int, ms: int)

  datatype Date = Date(year: int, month: int, day: int)

  const MS_PER_DAY := 86_400_000

  predicate IsTime(c: Time) {
    0 <= c.hour < 24 && 0 <= c.minute < 60 && 0 <= c.second < 60 && 0 <= c.ms < 1000
  }

  predicate IsDate(d: Date) {
    && 1 <= d.month <= 12
    && 1 <= d.day <= DaysBefore(d.month + 1, IsLeap(d.year)) - DaysBefore(d.month, IsLeap(d.year))
  }

  function MsOf(c: Time): int {
    ((c.hour * 60 + c.minute) * 60 + c.second) * 1000 + c.ms
  }

  function DayOf(d: Date): int
    requires IsDate(d)
  {
    DayFromYear(d.year) + DaysBefore(d.month, IsLeap(d.year)) + d.day - 1
  }

  function TimeOf(ms: int): (c: Time)
    requires 0 <= ms < MS_PER_DAY
    ensures IsTime(c)
  {
    Time(ms / 3_600_000, ms / 60_000 % 60, ms / 1000 % 60, ms % 1000)
  }

  lemma TimeOfInverts(ms: int)
    requires 0 <= ms < MS_PER_DAY
    ensures MsOf(TimeOf(ms)) == ms
  {
    assert ms / 60_000 == ms / 1000 / 60;
    assert ms / 3_600_000 == ms / 60_000 / 60;
  }

  lemma YearsFollow(y: int)
    ensures DayFromYear(y + 1) == DayFromYear(y) + YearLength(y)
  {
    QuarterStep(y);
    CenturyStep(y);
    FourCenturyStep(y);
  }

  lemma QuarterStep(y: int)
    ensures (y + 1 - 1969) / 4 - (y - 1969) / 4 == if y % 4 == 0 then 1 else 0
  {
  }

  lemma CenturyStep(y: int)
    ensures (y + 1 - 1901) / 100 - (y - 1901) / 100 == if y % 100 == 0 then 1 else 0
  {
  }

  lemma FourCenturyStep(y: int)
    ensures (y + 1 - 1601) / 400 - (y - 1601) / 400 == if y % 400 == 0 then 1 else 0
    ensures (y % 400 == 0 ==> y % 100 == 0) && (y % 100 == 0 ==> y % 4 == 0)
  {
  }

  lemma {:induction false} YearsGrow(y: int, z: int)
    requires y < z
    ensures DayFromYear(y + 1) <= DayFromYear(z)
    decreases z - y
  {
    if y + 1 < z {
      YearsGrow(y, z - 1);
      YearsFollow(z - 1);
    }
  }

  /** The year a day falls into, searching from `y` upwards or downwards. */
  function YearFrom(day: int, y: int): (r: int)
    ensures DayFromYear(r) <= day < DayFromYear(r + 1)
  {
    YearsFollow(y);
    YearsFollow(y - 1);
    if day < DayFromYear(y) then YearBelow(day, y - 1) else YearAbove(day, y)
  }

  function YearBelow(day: int, y: int): (r: int)
    requires day < DayFromYear(y + 1)
    ensures DayFromYear(r) <= day < DayFromYear(r + 1)
    decreases DayFromYear(y + 1) - day
  {
    YearsFollow(y);
    if DayFromYear(y) <= day then y else YearBelow(day, y - 1)
  }

  function YearAbove(day: int, y: int): (r: int)
    requires DayFromYear(y) <= day
    ensures DayFromYear(r) <= day < DayFromYear(r + 1)
    decreases day - DayFromYear(y)
  {
    YearsFollow(y);
    if day < DayFromYear(y + 1) then y else YearAbove(day, y + 1)
  }

  function MonthFrom(dayOfYear: int, leap: bool, month: int): (m: int)
    requires 1 <= month <= 12 && DaysBefore(month, leap) <= dayOfYear < DaysBefore(13, leap)
    ensures 1 <= m <= 12 && DaysBefore(m, leap) <= dayOfYear < DaysBefore(m + 1, leap)
    decreases 12 - month
  {
    if dayOfYear < DaysBefore(month + 1, leap) then month else MonthFrom(dayOfYear, leap, month + 1)
  }

  function DateIn(year: int, dayOfYear: int): (d: Date)
    requires 0 <= dayOfYear < YearLength(year)
    ensures IsDate(d) && d.year == year && DaysBefore(d.month, IsLeap(year)) + d.day - 1 == dayOfYear
  {
    var leap := IsLeap(year);
    assert DaysBefore(1, leap) == 0 && DaysBefore(13, leap) == YearLength(year);
    var month := MonthFrom(dayOfYear, leap, 1);
    Date(year, month, dayOfYear - DaysBefore(month, leap) + 1)
  }

  /** The date of a day, as `Date` computes it. */
  function DateOf(day: int): (d: Date)
    ensures IsDate(d) && DayOf(d) == day
  {
    var year := YearFrom(day, 1970);
    YearsFollow(year);
    DateIn(year, day - DayFromYear(year))
  }

  function YearOf(t: int): int {
    DateOf(t / MS_PER_DAY).year
  }

  // ---------- field order ----------

  predicate TimeBefore(a: Time, b: Time) {
    || a.hour < b.hour
    || (a.hour == b.hour && (a.minute < b.minute
       || (a.minute == b.minute && (a.second < b.second || (a.second == b.second && a.ms < b.ms)))))
  }

  predicate DateBefore(a: Date, b: Date) {
    a.year < b.year || (a.year == b.year && (a.month < b.month || (a.month == b.month && a.day < b.day)))
  }

  lemma TimeOrder(a: Time, b: Time)
    requires IsTime(a) && IsTime(b)
    ensures TimeBefore(a, b) <==> MsOf(a) < MsOf(b)
    ensures a == b <==> MsOf(a) == MsOf(b)
  {
  }

  lemma DayInYear(d: Date)
    requires IsDate(d)
    ensures DayFromYear(d.year) <= DayOf(d) < DayFromYear(d.year + 1)
  {
    YearsFollow(d.year);
    assert DaysBefore(13, IsLeap(d.year)) == YearLength(d.year);
    MonthsGrow(d.month + 1, 13, IsLeap(d.year));
  }

  lemma MonthsGrow(m: int, n: int, leap: bool)
    requires 1 <= m <= n <= 13
    ensures DaysBefore(m, leap) <= DaysBefore(n, leap)
  {
  }

  lemma DateBeforeMeans(a: Date, b: Date)
    requires IsDate(a) && IsDate(b) && DateBefore(a, b)
    ensures DayOf(a) < DayOf(b)
  {
    if a.year < b.year {
      DayInYear(a);
      DayInYear(b);
      YearsGrow(a.year, b.year);
    } else {
      SameYear(a, b);
    }
  }

  lemma SameYear(a: Date, b: Date)
    requires IsDate(a) && IsDate(b) && DateBefore(a, b) && a.year == b.year
    ensures DayOf(a) < DayOf(b)
  {
    if a.month < b.month {
      MonthsGrow(a.month + 1, b.month, IsLeap(a.year));
    }
  }

  lemma DateOrder(a: Date, b: Date)
    requires IsDate(a) && IsDate(b)
    ensures DateBefore(a, b) <==> DayOf(a) < DayOf(b)
    ensures a == b <==> DayOf(a) == DayOf(b)
  {
    if DateBefore(a, b) { DateBeforeMeans(a, b); }
    if DateBefore(b, a) { DateBeforeMeans(b, a); }
  }

  /** Instants are ordered as their dates, and on one date as their times. */
  lemma FieldOrder(t: int, u: int)
    requires t < u
    ensures var a, b := DateOf(t / MS_PER_DAY), DateOf(u / MS_PER_DAY);
            DateBefore(a, b) || (a == b && TimeBefore(TimeOf(t % MS_PER_DAY), TimeOf(u % MS_PER_DAY)))
  {
    DateOrder(DateOf(t / MS_PER_DAY), DateOf(u / MS_PER_DAY));
    TimeOfInverts(t % MS_PER_DAY);
    TimeOfInverts(u % MS_PER_DAY);
    TimeOrder(TimeOf(t % MS_PER_DAY), TimeOf(u % MS_PER_DAY));
  }

  // ---------- text ----------

  function Digits(v: nat, width: nat): (s: string)
    ensures |s| == width
    decreases width
  {
    if width == 0 then "" else Digits(v / 10, width - 1) + ['0' + (v % 10) as char]
  }

  function YearText(y: int): string {
    if 0 <= y <= 9999 then Digits(y, 4) else if y > 9999 then "+" + Digits(y, 6) else "-" + Digits(-y, 6)
  }

  function TimeText(c: Time): string
    requires IsTime(c)
  {
    Digits(c.hour, 2) + ([':'] + (Digits(c.minute, 2) + ([':'] + (Digits(c.second, 2) + (['.'] + (Digits(c.ms, 3) + "Z"))))))
  }

  /** `new Date(t).toISOString()`. */
  function IsoText(t: int): string {
    var d := DateOf(t / MS_PER_DAY);
    YearText(d.year)
    + (['-'] + (Digits(d.month, 2) + (['-'] + (Digits(d.day, 2) + (['T'] + TimeText(TimeOf(t % MS_PER_DAY)))))))
  }

  /** How strings compare in JavaScript and text columns in the database: by the first difference. */
  predicate Less(s: string, t: string) {
    t != "" && (s == "" || s[0] < t[0] || (s[0] == t[0] && Less(s[1..], t[1..])))
  }

  lemma {:induction false} LessIrreflexive(s: string)
    ensures !Less(s, s)
  {
    if s != "" { LessIrreflexive(s[1..]); }
  }

  /** Texts with heads of one length compare by their heads first. */
  lemma {:induction false} LessConcat(a: string, b: string, c: string, d: string)
    requires |a| == |b|
    ensures Less(a + c, b + d) <==> Less(a, b) || (a == b && Less(c, d))
    decreases |a|
  {
    if a == "" {
      assert a + c == c && b + d == d;
    } else {
      assert (a + c)[0] == a[0] && (b + d)[0] == b[0];
      assert (a + c)[1..] == a[1..] + c && (b + d)[1..] == b[1..] + d;
      LessConcat(a[1..], b[1..], c, d);
      assert a == [a[0]] + a[1..] && b == [b[0]] + b[1..];
    }
  }

  function Power(width: nat): (p: nat)
    ensures p >= 1
  {
    if width == 0 then 1 else 10 * Power(width - 1)
  }

  /** Padded numbers compare as numbers. */
  lemma {:induction false} DigitsOrder(v: nat, w: nat, width: nat)
    requires v < Power(width) && w < Power(width)
    ensures Less(Digits(v, width), Digits(w, width)) <==> v < w
    ensures Digits(v, width) == Digits(w, width) <==> v == w
    decreases width
  {
    if width > 0 {
      DigitsOrder(v / 10, w / 10, width - 1);
      var a, b := ['0' + (v % 10) as char], ['0' + (w % 10) as char];
      LessConcat(Digits(v / 10, width - 1), Digits(w / 10, width - 1), a, b);
      LastDigit(v, w);
      assert Less(a, b) <==> a[0] < b[0];
      SplitEqual(Digits(v / 10, width - 1), Digits(w / 10, width - 1), a, b);
    }
  }

  lemma LastDigit(v: nat, w: nat)
    ensures v < w <==> v / 10 < w / 10 || (v / 10 == w / 10 && v % 10 < w % 10)
    ensures '0' + (v % 10) as char < '0' + (w % 10) as char <==> v % 10 < w % 10
    ensures '0' + (v % 10) as char == '0' + (w % 10) as char <==> v % 10 == w % 10
  {
  }

  lemma SplitEqual(a: string, b: string, c: string, d: string)
    requires |a| == |b|
    ensures a + c == b + d <==> a == b && c == d
  {
    if a + c == b + d {
      assert a == (a + c)[..|a|] && b == (b + d)[..|b|];
      assert c == (a + c)[|a|..] && d == (b + d)[|b|..];
    }
  }

  /** One padded field in front of the rest of a text. */
  lemma FieldFirst(v: nat, w: nat, width: nat, c: string, d: string)
    requires v < Power(width) && w < Power(width)
    ensures Less(Digits(v, width) + c, Digits(w, width) + d) <==> v < w || (v == w && Less(c, d))
  {
    DigitsOrder(v, w, width);
    LessConcat(Digits(v, width), Digits(w, width), c, d);
  }

  lemma SeparatorFirst(x: char, c: string, d: string)
    ensures Less([x] + c, [x] + d) <==> Less(c, d)
  {
    assert ([x] + c)[1..] == c && ([x] + d)[1..] == d;
  }

  lemma Widths()
    ensures Power(2) == 100 && Power(3) == 1000 && Power(4) == 10_000 && Power(6) == 1_000_000
  {
    assert Power(3) == 10 * Power(2) && Power(4) == 10 * Power(3) && Power(5) == 10 * Power(4);
  }

  lemma SecondsText(a: Time, b: Time)
    requires IsTime(a) && IsTime(b)
    ensures Less(Digits(a.second, 2) + (['.'] + (Digits(a.ms, 3) + "Z")), Digits(b.second, 2) + (['.'] + (Digits(b.ms, 3) + "Z")))
            <==> a.second < b.second || (a.second == b.second && a.ms < b.ms)
  {
    Widths();
    LessIrreflexive("Z");
    FieldFirst(a.ms, b.ms, 3, "Z", "Z");
    SeparatorFirst('.', Digits(a.ms, 3) + "Z", Digits(b.ms, 3) + "Z");
    FieldFirst(a.second, b.second, 2, ['.'] + (Digits(a.ms, 3) + "Z"), ['.'] + (Digits(b.ms, 3) + "Z"));
  }

  lemma TimeTextOrder(a: Time, b: Time)
    requires IsTime(a) && IsTime(b)
    ensures Less(TimeText(a), TimeText(b)) <==> TimeBefore(a, b)
  {
    var s := Digits(a.second, 2) + (['.'] + (Digits(a.ms, 3) + "Z"));
    var t := Digits(b.second, 2) + (['.'] + (Digits(b.ms, 3) + "Z"));
    Widths();
    SecondsText(a, b);
    SeparatorFirst(':', s, t);
    FieldFirst(a.minute, b.minute, 2, [':'] + s, [':'] + t);
    SeparatorFirst(':', Digits(a.minute, 2) + ([':'] + s), Digits(b.minute, 2) + ([':'] + t));
    FieldFirst(a.hour, b.hour, 2, [':'] + (Digits(a.minute, 2) + ([':'] + s)), [':'] + (Digits(b.minute, 2) + ([':'] + t)));
  }

  /** Everything behind the year. */
  lemma DayTextOrder(a: Date, b: Date, s: string, t: string)
    requires IsDate(a) && IsDate(b)
    ensures Less(['-'] + (Digits(a.month, 2) + (['-'] + (Digits(a.day, 2) + (['T'] + s)))),
                 ['-'] + (Digits(b.month, 2) + (['-'] + (Digits(b.day, 2) + (['T'] + t)))))
            <==> a.month < b.month || (a.month == b.month && (a.day < b.day || (a.day == b.day && Less(s, t))))
  {
    Widths();
    SeparatorFirst('T', s, t);
    FieldFirst(a.day, b.day, 2, ['T'] + s, ['T'] + t);
    SeparatorFirst('-', Digits(a.day, 2) + (['T'] + s), Digits(b.day, 2) + (['T'] + t));
    FieldFirst(a.month, b.month, 2, ['-'] + (Digits(a.day, 2) + (['T'] + s)), ['-'] + (Digits(b.day, 2) + (['T'] + t)));
    SeparatorFirst('-', Digits(a.month, 2) + (['-'] + (Digits(a.day, 2) + (['T'] + s))),
                   Digits(b.month, 2) + (['-'] + (Digits(b.day, 2) + (['T'] + t))));
  }

  /** How years compare as text: wrongly from an ordinary year to a larger one, and among negative ones. */
  lemma YearTextOrder(y: int, z: int, c: string, d: string)
    requires -1_000_000 < y <= z < 1_000_000
    ensures Less(YearText(y) + c, YearText(z) + d)
            <==> (if y == z then Less(c, d) else 0 <= z <= 9999 || y > 9999)
  {
    Widths();
    if 0 <= y && z <= 9999 {
      FieldFirst(y, z, 4, c, d);
    } else if y > 9999 {
      Regroup("+", Digits(y, 6), c);
      Regroup("+", Digits(z, 6), d);
      FieldFirst(y, z, 6, c, d);
      SeparatorFirst('+', Digits(y, 6) + c, Digits(z, 6) + d);
    } else if z < 0 {
      Regroup("-", Digits(-y, 6), c);
      Regroup("-", Digits(-z, 6), d);
      FieldFirst(-y, -z, 6, c, d);
      SeparatorFirst('-', Digits(-y, 6) + c, Digits(-z, 6) + d);
    } else {
      FirstCharacter(y, c);
      FirstCharacter(z, d);
    }
  }

  lemma {:induction false} DigitsAreDigits(v: nat, width: nat)
    requires width > 0
    ensures '0' <= Digits(v, width)[0] <= '9'
    decreases width
  {
    if width > 1 { DigitsAreDigits(v / 10, width - 1); }
  }

  lemma FirstCharacter(y: int, c: string)
    ensures YearText(y) + c != ""
    ensures var x := (YearText(y) + c)[0]; if y < 0 then x == '-' else if y > 9999 then x == '+' else '0' <= x <= '9'
  {
    if 0 <= y <= 9999 { DigitsAreDigits(y, 4); }
  }

  // ---------- main results ----------

  /** The largest distance from 1970 that a `Date` can hold. */
  const MAX_TIME := 8_640_000_000_000_000

  predicate IsTimeValue(t: int) {
    -MAX_TIME <= t <= MAX_TIME
  }

  lemma YearsFit(t: int)
    requires IsTimeValue(t)
    ensures -1_000_000 < YearOf(t) < 1_000_000
  {
    var y := YearOf(t);
    DayInYear(DateOf(t / MS_PER_DAY));
    if y >= 1_000_000 {
      YearsGrow2(1_000_000, y);
    } else if y <= -1_000_000 {
      YearsGrow2(y + 1, -999_999);
    }
  }

  lemma YearsGrow2(y: int, z: int)
    requires y <= z
    ensures DayFromYear(y) <= DayFromYear(z)
  {
    if y < z {
      YearsGrow(y, z);
      YearsFollow(y);
    }
  }

  /**
   * Exactly when the text order is the time order, for all time values: the earlier text is smaller
   * if and only if both fall into one year, or the later one into the years 0 to 9999, or the earlier one
   * behind them.
   */
  lemma TextOrderAgreesIff(t: int, u: int)
    requires IsTimeValue(t) && IsTimeValue(u) && t < u
    ensures Less(IsoText(t), IsoText(u)) <==> YearOf(t) == YearOf(u) || 0 <= YearOf(u) <= 9999 || YearOf(t) > 9999
  {
    var a, b := DateOf(t / MS_PER_DAY), DateOf(u / MS_PER_DAY);
    var s, r := TimeText(TimeOf(t % MS_PER_DAY)), TimeText(TimeOf(u % MS_PER_DAY));
    FieldOrder(t, u);
    TimeTextOrder(TimeOf(t % MS_PER_DAY), TimeOf(u % MS_PER_DAY));
    DayTextOrder(a, b, s, r);
    YearsFit(t);
    YearsFit(u);
    YearTextOrder(a.year, b.year, ['-'] + (Digits(a.month, 2) + (['-'] + (Digits(a.day, 2) + (['T'] + s)))),
                  ['-'] + (Digits(b.month, 2) + (['-'] + (Digits(b.day, 2) + (['T'] + r)))));
  }

  predicate InFourDigitYears(t: int) {
    0 <= YearOf(t) <= 9999
  }

  /** In the years 0 to 9999 comparing texts is comparing instants: grants and sessions expire exactly on time. */
  lemma TextOrderIsTimeOrder(t: int, u: int)
    requires IsTimeValue(t) && IsTimeValue(u) && InFourDigitYears(t) && InFourDigitYears(u)
    ensures Less(IsoText(t), IsoText(u)) <==> t < u
    ensures IsoText(t) == IsoText(u) <==> t == u
  {
    LessIrreflexive(IsoText(t));
    if t < u {
      TextOrderAgreesIff(t, u);
    } else if u < t {
      TextOrderAgreesIff(u, t);
      LessAsymmetric(IsoText(u), IsoText(t));
    }
  }

  lemma {:induction false} LessAsymmetric(s: string, t: string)
    requires Less(s, t)
    ensures !Less(t, s)
  {
    if s != "" && s[0] == t[0] { LessAsymmetric(s[1..], t[1..]); }
  }

  // ---------- the calendar and the text, field by field ----------

  /** The calendar: 1970 begins on day 0, years have 365 or 366 days, and the months their usual lengths. */
  lemma CalendarIs(y: int, month: int)
    requires 1 <= month <= 12
    ensures DayFromYear(1970) == 0
    ensures DayFromYear(y + 1) - DayFromYear(y) == if y % 4 == 0 && (y % 100 != 0 || y % 400 == 0) then 366 else 365
    ensures DaysBefore(1, IsLeap(y)) == 0
    ensures DaysBefore(month + 1, IsLeap(y)) - DaysBefore(month, IsLeap(y))
         == if month == 2 then (if y % 4 == 0 && (y % 100 != 0 || y % 400 == 0) then 29 else 28)
            else if month == 4 || month == 6 || month == 9 || month == 11 then 30 else 31
  {
    YearsFollow(y);
  }

  /** The two digits from `i` on as a number. */
  function TwoDigits(s: string, i: nat): int
    requires i + 1 < |s|
  {
    (s[i] as int - '0' as int) * 10 + (s[i + 1] as int - '0' as int)
  }

  lemma TwoAre(v: nat)
    requires v < 100
    ensures |Digits(v, 2)| == 2 && TwoDigits(Digits(v, 2), 0) == v
  {
    assert Digits(v, 2) == Digits(v / 10, 1) + ['0' + (v % 10) as char];
    assert Digits(v / 10, 1) == Digits(v / 10 / 10, 0) + ['0' + (v / 10 % 10) as char];
  }

  lemma ThreeAre(v: nat)
    requires v < 1000
    ensures |Digits(v, 3)| == 3 && TwoDigits(Digits(v, 3), 0) * 10 + (Digits(v, 3)[2] as int - '0' as int) == v
  {
    TwoAre(v / 10);
    assert Digits(v, 3) == Digits(v / 10, 2) + ['0' + (v % 10) as char];
  }

  lemma FourAre(v: nat)
    requires v < 10_000
    ensures |Digits(v, 4)| == 4 && TwoDigits(Digits(v, 4), 0) * 100 + TwoDigits(Digits(v, 4), 2) == v
  {
    ThreeAre(v / 10);
    assert Digits(v, 4) == Digits(v / 10, 3) + ['0' + (v % 10) as char];
  }

  /** The time of day as text. */
  lemma TimeTextIs(c: Time)
    requires IsTime(c)
    ensures var s := TimeText(c);
            && |s| == 13 && s[2] == ':' && s[5] == ':' && s[8] == '.' && s[12] == 'Z'
            && TwoDigits(s, 0) == c.hour && TwoDigits(s, 3) == c.minute && TwoDigits(s, 6) == c.second
            && TwoDigits(s, 9) * 10 + (s[11] as int - '0' as int) == c.ms
  {
    TwoAre(c.hour);
    TwoAre(c.minute);
    TwoAre(c.second);
    ThreeAre(c.ms);
    var seconds := Digits(c.second, 2) + (['.'] + (Digits(c.ms, 3) + "Z"));
    var minutes := Digits(c.minute, 2) + ([':'] + seconds);
    assert |seconds| == 7 && seconds[0] == Digits(c.second, 2)[0] && seconds[1] == Digits(c.second, 2)[1] && seconds[2] == '.';
    assert seconds[3] == Digits(c.ms, 3)[0] && seconds[4] == Digits(c.ms, 3)[1] && seconds[5] == Digits(c.ms, 3)[2] && seconds[6] == 'Z';
    assert |minutes| == 10 && minutes[2] == ':' && forall k | 0 <= k < 7 :: minutes[3 + k] == seconds[k];
    var s := Digits(c.hour, 2) + ([':'] + minutes);
    assert s == TimeText(c) && s[2] == ':' && forall k | 0 <= k < 10 :: s[3 + k] == minutes[k];
  }

  /** Date and time of day together are the instant. */
  lemma InstantIs(t: int)
    ensures var d, c := DateOf(t / MS_PER_DAY), TimeOf(t % MS_PER_DAY);
            t == (DayFromYear(d.year) + DaysBefore(d.month, IsLeap(d.year)) + d.day - 1) * 86_400_000
                 + c.hour * 3_600_000 + c.minute * 60_000 + c.second * 1000 + c.ms
  {
    TimeOfInverts(t % MS_PER_DAY);
  }

  /** The fields of a timestamp as they stand in its text. */
  predicate Shows(s: string, d: Date, c: Time) {
    && |s| == 24 && s[4] == '-' && s[7] == '-' && s[10] == 'T' && s[13] == ':' && s[16] == ':' && s[19] == '.' && s[23] == 'Z'
    && TwoDigits(s, 0) * 100 + TwoDigits(s, 2) == d.year && TwoDigits(s, 5) == d.month && TwoDigits(s, 8) == d.day
    && TwoDigits(s, 11) == c.hour && TwoDigits(s, 14) == c.minute && TwoDigits(s, 17) == c.second
    && TwoDigits(s, 20) * 10 + (s[22] as int - '0' as int) == c.ms
  }

  lemma PiecesShow(year: string, month: string, day: string, time: string, d: Date, c: Time)
    requires |year| == 4 && |month| == 2 && |day| == 2 && |time| == 13
    requires TwoDigits(year, 0) * 100 + TwoDigits(year, 2) == d.year && TwoDigits(month, 0) == d.month && TwoDigits(day, 0) == d.day
    requires time[2] == ':' && time[5] == ':' && time[8] == '.' && time[12] == 'Z'
    requires TwoDigits(time, 0) == c.hour && TwoDigits(time, 3) == c.minute && TwoDigits(time, 6) == c.second
    requires TwoDigits(time, 9) * 10 + (time[11] as int - '0' as int) == c.ms
    ensures Shows(year + (['-'] + (month + (['-'] + (day + (['T'] + time))))), d, c)
  {
    IsoPieces(year, month, day, time);
  }

  lemma FieldsShow(d: Date, c: Time)
    requires IsDate(d) && IsTime(c) && 0 <= d.year <= 9999
    ensures Shows(YearText(d.year) + (['-'] + (Digits(d.month, 2) + (['-'] + (Digits(d.day, 2) + (['T'] + TimeText(c)))))), d, c)
  {
    FourAre(d.year);
    TwoAre(d.month);
    TwoAre(d.day);
    TimeTextIs(c);
    PiecesShow(Digits(d.year, 4), Digits(d.month, 2), Digits(d.day, 2), TimeText(c), d, c);
  }

  /**
   * A timestamp in the years 0 to 9999, character by character: year, month and day with hyphens, a `T`, the time of day
   * with colons and a point, and a `Z`.
   */
  lemma IsoTextIs(t: int)
    requires InFourDigitYears(t)
    ensures Shows(IsoText(t), DateOf(t / MS_PER_DAY), TimeOf(t % MS_PER_DAY))
  {
    FieldsShow(DateOf(t / MS_PER_DAY), TimeOf(t % MS_PER_DAY));
  }

  lemma IsoPieces(year: string, month: string, day: string, time: string)
    requires |year| == 4 && |month| == 2 && |day| == 2 && |time| == 13
    ensures var s := year + (['-'] + (month + (['-'] + (day + (['T'] + time)))));
            && |s| == 24 && s[4] == '-' && s[7] == '-' && s[10] == 'T'
            && (forall k | 0 <= k < 4 :: s[k] == year[k]) && s[5] == month[0] && s[6] == month[1] && s[8] == day[0] && s[9] == day[1]
            && forall k | 0 <= k < 13 :: s[11 + k] == time[k]
  {
  }
}
