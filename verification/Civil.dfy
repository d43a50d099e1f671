/**
 Timestamps as dates: the closed-form civil-from-days arithmetic against a calendar stepped one day at
 a time, and the printed form against the number of nanoseconds it came from.
 */
module Civil {
  import opened Bits

  datatype Date = Date(year: int, month: int, day: int)

  // ---- The Gregorian calendar, one day at a time ----

  predicate IsLeap(year: int) {
    year % 4 == 0 && (year % 100 != 0 || year % 400 == 0)
  }

  /** The day limits of section 5.7 of RFC 3339. */
  function MonthLength(year: int, month: int): int {
    if month == 2 then if IsLeap(year) then 29 else 28
    else if month in {4, 6, 9, 11} then 30
    else 31
  }

  predicate ValidDate(t: Date) {
    t.year >= 0 && 1 <= t.month <= 12 && 1 <= t.day <= MonthLength(t.year, t.month)
  }

  function NextDay(t: Date): Date {
    if t.day < MonthLength(t.year, t.month) then t.(day := t.day + 1)
    else if t.month < 12 then Date(t.year, t.month + 1, 1)
    else Date(t.year + 1, 1, 1)
  }

  /** The date reached `n` days after 1970-01-01. */
  function DateAfter(n: nat): Date {
    if n == 0 then Date(1970, 1, 1) else NextDay(DateAfter(n - 1))
  }

  // ---- The closed form ----

  /** Days from 0000-03-01 to 1970-01-01. */
  const EPOCH_SHIFT: nat := 719_468

  function YearOfEra(doe: nat): int {
    (doe - doe / 1_460 + doe / 36_524 - doe / 146_096) / 365
  }

  /** Month, day and calendar year from a March-based year and the day in it. */
  function FromMarch(y: int, doy: int): Date {
    var mp := (5 * doy + 2) / 153;
    var d := doy - (153 * mp + 2) / 5 + 1;
    var mo := if mp < 10 then mp + 3 else mp - 9;
    Date(if mo <= 2 then y + 1 else y, mo, d)
  }

  /** The date on a day of a 400-year era. */
  function FromEra(era: int, doe: nat): Date {
    var yoe := YearOfEra(doe);
    FromMarch(yoe + era * 400, doe - (365 * yoe + yoe / 4 - yoe / 100))
  }

  /** The date part of `unix_secs_to_ymd_hms`. The day number is unsigned, so `z` is never negative. */
  function FromDays(days: nat): Date {
    var z := days + EPOCH_SHIFT;
    var era := z / 146_097;
    FromEra(era, z - era * 146_097)
  }

  datatype Clock = Clock(date: Date, hour: nat, minute: nat, second: nat)

  function FromSeconds(secs: nat): Clock {
    var timeOfDay := secs % 86_400;
    Clock(FromDays(secs / 86_400), timeOfDay / 3_600, (timeOfDay % 3_600) / 60, timeOfDay % 60)
  }

  // ---- Day numbers, the inverse of the closed form ----

  /** Days from 1 March of year 0 to 1 March of year `y`. */
  function YearStart(y: int): int {
    365 * y + y / 4 - y / 100 + y / 400
  }

  /** Days from 1 March to the first of the month, counting March as month 0. */
  function MonthStart(mp: int): int {
    (153 * mp + 2) / 5
  }

  /** The March-based year and month of a date. */
  function MarchYear(t: Date): int {
    if t.month <= 2 then t.year - 1 else t.year
  }

  function MarchMonth(t: Date): int {
    if t.month <= 2 then t.month + 9 else t.month - 3
  }

  function DayOfYear(t: Date): int {
    MonthStart(MarchMonth(t)) + t.day - 1
  }

  function DayNumber(t: Date): int {
    YearStart(MarchYear(t)) + DayOfYear(t)
  }

  /** Counting up by one crosses a multiple of `k` exactly when it lands on one. */
  lemma DivStep(y: int, k: int)
    requires k > 1
    ensures (y + 1) / k - y / k == if (y + 1) % k == 0 then 1 else 0
  {
    var q, r := y / k, y % k;
    assert y + 1 == k * q + (r + 1);
    if r + 1 == k {
      assert y + 1 == (q + 1) * k;
      DivModUnique(y + 1, k, q + 1, 0);
    } else {
      DivModUnique(y + 1, k, q, r + 1);
    }
  }

  /** A multiple of a multiple of `k` is a multiple of `k`. */
  lemma LeapFractions(y: int)
    ensures y % 400 == 0 ==> y % 100 == 0
    ensures y % 100 == 0 ==> y % 4 == 0
  {
  }

  lemma YearLength(y: int)
    ensures YearStart(y + 1) - YearStart(y) == if IsLeap(y + 1) then 366 else 365
  {
    DivStep(y, 4);
    DivStep(y, 100);
    DivStep(y, 400);
    LeapFractions(y + 1);
  }

  /** Months other than February run up to the start of the next. */
  lemma MonthEnds(year: int, month: int)
    requires 1 <= month <= 12 && month != 2
    ensures var mp := MarchMonth(Date(year, month, 1));
            MonthStart(mp + 1) == MonthStart(mp) + MonthLength(year, month)
  {
  }

  /** Stepping one day raises the day number by one. */
  lemma NextDayNumber(t: Date)
    requires ValidDate(t)
    ensures ValidDate(NextDay(t)) && NextDay(t).year >= t.year && DayNumber(NextDay(t)) == DayNumber(t) + 1
  {
    if t.day < MonthLength(t.year, t.month) {
    } else if t.month == 2 {
      YearLength(t.year - 1);
    } else {
      MonthEnds(t.year, t.month);
      assert MarchYear(NextDay(t)) == MarchYear(t) && MarchMonth(NextDay(t)) == MarchMonth(t) + 1;
    }
  }

  /** A valid date lies within its March-based year; day 365 needs a leap day at the end. */
  lemma DayOfYearBound(t: Date)
    requires ValidDate(t)
    ensures 0 <= DayOfYear(t) <= if IsLeap(MarchYear(t) + 1) then 365 else 364
  {
  }

  /** A date is recovered from its March-based year and day. */
  lemma MonthRecovered(t: Date)
    requires ValidDate(t)
    ensures FromMarch(MarchYear(t), DayOfYear(t)) == t
  {
    assert (5 * DayOfYear(t) + 2) / 153 == MarchMonth(t);
  }

  /** The year of the era is recovered from its parts: `c` centuries, `q` groups of four, `r` years. */
  lemma YearFromParts(c: nat, q: nat, r: nat, doy: nat)
    requires c < 4 && q < 25 && r < 4
    requires doy <= 364 || (doy == 365 && r == 3 && (q < 24 || c == 3))
    ensures YearOfEra(36_524 * c + 1_461 * q + 365 * r + doy) == 100 * c + 4 * q + r
  {
    var doe := 36_524 * c + 1_461 * q + 365 * r + doy;
    var rest := 24 * c + q + 365 * r + doy;
    assert doe == 1_460 * (25 * c + q) + rest;
    var late := if rest >= 1_460 then 1 else 0;
    assert doe / 1_460 == 25 * c + q + late;
    var last := if doe == 146_096 then 1 else 0;
    assert doe / 36_524 == c + last && doe / 146_096 == last;
    assert doe - doe / 1_460 + doe / 36_524 - doe / 146_096 == 365 * (100 * c + 4 * q + r) + (doy - late);
  }

  lemma LeapInEra(era: nat, c: nat, q: nat, r: nat)
    requires c < 4 && q < 25 && r < 4
    ensures IsLeap(400 * era + 100 * c + 4 * q + r + 1) ==> r == 3 && (q < 24 || c == 3)
  {
    var y := 400 * era + 100 * c + 4 * q + r + 1;
    if y % 4 == 0 && q == 24 {
      assert y == 100 * (4 * era + c + 1);
    }
  }

  function DayOfEra(yoe: nat, doy: nat): nat {
    365 * yoe + yoe / 4 - yoe / 100 + doy
  }

  lemma YearRecovered(era: nat, yoe: nat, doy: nat)
    requires yoe < 400
    requires doy <= if IsLeap(400 * era + yoe + 1) then 365 else 364
    ensures DayOfEra(yoe, doy) < 146_097 && YearOfEra(DayOfEra(yoe, doy)) == yoe
  {
    var c, q, r := yoe / 100, yoe % 100 / 4, yoe % 100 % 4;
    assert yoe == 100 * c + 4 * q + r && yoe / 4 == 25 * c + q;
    LeapInEra(era, c, q, r);
    YearFromParts(c, q, r, doy);
  }

  lemma YearStartInEra(era: nat, yoe: nat, doy: nat)
    requires yoe < 400
    ensures YearStart(400 * era + yoe) + doy == 146_097 * era + DayOfEra(yoe, doy)
  {
    var y := 400 * era + yoe;
    assert y / 4 == 100 * era + yoe / 4 && y / 100 == 4 * era + yoe / 100 && y / 400 == era;
  }

  /** The year in the era is recovered from the day in the era. */
  lemma EraDayRecovered(era: nat, yoe: nat, doy: nat)
    requires yoe < 400 && doy <= if IsLeap(400 * era + yoe + 1) then 365 else 364
    ensures FromEra(era, DayOfEra(yoe, doy)) == FromMarch(400 * era + yoe, doy)
  {
    YearRecovered(era, yoe, doy);
  }

  lemma EraSplit(z: nat, era: nat, doe: nat)
    requires z == 146_097 * era + doe && doe < 146_097 && z >= EPOCH_SHIFT
    ensures FromDays(z - EPOCH_SHIFT) == FromEra(era, doe)
  {
    DivModUnique(z, 146_097, era, doe);
  }

  /** The era and the year in it are recovered from the day number. */
  lemma EraRecovered(era: nat, yoe: nat, doy: nat, z: nat)
    requires yoe < 400 && doy <= if IsLeap(400 * era + yoe + 1) then 365 else 364
    requires z == YearStart(400 * era + yoe) + doy && z >= EPOCH_SHIFT
    ensures FromDays(z - EPOCH_SHIFT) == FromMarch(400 * era + yoe, doy)
  {
    DayOfEraBound(era, yoe, doy);
    YearStartInEra(era, yoe, doy);
    EraSplit(z, era, DayOfEra(yoe, doy));
    EraDayRecovered(era, yoe, doy);
  }

  lemma DayOfEraBound(era: nat, yoe: nat, doy: nat)
    requires yoe < 400 && doy <= if IsLeap(400 * era + yoe + 1) then 365 else 364
    ensures DayOfEra(yoe, doy) < 146_097
  {
    YearRecovered(era, yoe, doy);
  }

  /** The closed form undoes the day number of every date since the epoch. */
  lemma FromDaysInvertsDayNumber(t: Date)
    requires ValidDate(t) && t.year >= 1 && DayNumber(t) >= EPOCH_SHIFT
    ensures FromDays(DayNumber(t) - EPOCH_SHIFT) == t
  {
    DayOfYearBound(t);
    var era, yoe := MarchYear(t) / 400, MarchYear(t) % 400;
    assert MarchYear(t) == 400 * era + yoe;
    EraRecovered(era, yoe, DayOfYear(t), DayNumber(t));
    MonthRecovered(t);
  }

  // ---- The theorems ----

  /** `t` is a date, `n` days after the epoch. */
  predicate OnDay(t: Date, n: nat) {
    ValidDate(t) && t.year >= 1970 && DayNumber(t) == n + EPOCH_SHIFT
  }

  lemma StepOnDay(t: Date, n: nat)
    requires OnDay(t, n)
    ensures OnDay(NextDay(t), n + 1)
  {
    NextDayNumber(t);
  }

  lemma {:induction false} SteppedOnDay(n: nat)
    ensures OnDay(DateAfter(n), n)
  {
    if n > 0 {
      SteppedOnDay(n - 1);
      StepOnDay(DateAfter(n - 1), n - 1);
    }
  }

  /** For every day number, the closed form is the date reached by stepping from 1970-01-01; it is a
      valid date and determines the day. */
  lemma ClosedFormIsCalendar(n: nat)
    ensures FromDays(n) == DateAfter(n) && OnDay(FromDays(n), n)
  {
    SteppedOnDay(n);
    FromDaysInvertsDayNumber(DateAfter(n));
  }

  /** Seconds of a broken-down time. */
  function ToSeconds(c: Clock): int {
    86_400 * (DayNumber(c.date) - EPOCH_SHIFT) + 3_600 * c.hour + 60 * c.minute + c.second
  }

  lemma ClockRecombines(t: nat)
    requires t < 86_400
    ensures t / 3_600 < 24 && 3_600 * (t / 3_600) + 60 * (t % 3_600 / 60) + t % 60 == t
  {
    var m := t % 3_600;
    assert t == 3_600 * (t / 3_600) + m;
    assert t % 60 == m % 60;
  }

  /** The broken-down time is in range and recombines to the number of seconds. */
  lemma SecondsRecombine(secs: nat)
    ensures var c := FromSeconds(secs);
            c.hour < 24 && c.minute < 60 && c.second < 60 && ValidDate(c.date) && ToSeconds(c) == secs
  {
    var days, t := secs / 86_400, secs % 86_400;
    assert secs == 86_400 * days + t;
    ClosedFormIsCalendar(days);
    ClockRecombines(t);
  }

  // ---- The printed form ----

  const NANOS_PER_SECOND: nat := 1_000_000_000

  lemma YearBound(t: Date, n: nat)
    requires OnDay(t, n) && n <= 213_503
    ensures t.year <= 2554
  {
    var y := MarchYear(t);
    assert y >= 2554 ==> YearStart(y) >= 365 * y + 617;
    assert YearStart(2554) == 932_829;
  }

  /** For every 64-bit count of nanoseconds the year has four digits, so no narrowing cast loses
      anything. */
  lemma YearHasFourDigits(nanos: nat)
    requires nanos < 0x1_0000_0000_0000_0000
    ensures 1970 <= FromSeconds(nanos / 1_000_000_000).date.year <= 2554
  {
    var days := nanos / NANOS_PER_SECOND / 86_400;
    ClosedFormIsCalendar(days);
    YearBound(FromDays(days), days);
  }

  function Digit(n: nat): char
    requires n < 10
  {
    "0123456789"[n]
  }

  /** Decimal with leading zeros to the given width, for numbers that fit. */
  function Padded(n: nat, width: nat): (s: string)
    ensures |s| == width
  {
    if width == 0 then "" else Padded(n / 10, width - 1) + [Digit(n % 10)]
  }

  function Pow10(k: nat): (r: nat)
    ensures r > 0
  {
    if k == 0 then 1 else 10 * Pow10(k - 1)
  }

  function DigitValue(c: char): nat {
    if '0' <= c <= '9' then (c - '0') as nat else 0
  }

  function Value(s: string): nat {
    if s == "" then 0 else 10 * Value(s[..|s| - 1]) + DigitValue(s[|s| - 1])
  }

  lemma DigitReadsBack(n: nat)
    requires n < 10
    ensures DigitValue(Digit(n)) == n
  {
  }

  predicate IsDigit(c: char) {
    '0' <= c <= '9'
  }

  lemma {:induction false} PaddedIsDigits(n: nat, width: nat)
    ensures forall i :: 0 <= i < width ==> IsDigit(Padded(n, width)[i])
  {
    if width > 0 {
      PaddedIsDigits(n / 10, width - 1);
    }
  }

  lemma {:induction false} PaddedReadsBack(n: nat, width: nat)
    requires n < Pow10(width)
    ensures Value(Padded(n, width)) == n
  {
    if width > 0 {
      assert n / 10 < Pow10(width - 1);
      PaddedReadsBack(n / 10, width - 1);
      DigitReadsBack(n % 10);
      var s := Padded(n, width);
      assert s[|s| - 1] == Digit(n % 10);
      assert s[..|s| - 1] == Padded(n / 10, width - 1);
    }
  }

  /** Digit `i` of the text is the decimal digit of that place. */
  lemma {:induction false} PaddedDigit(n: nat, width: nat, i: nat)
    requires i < width
    ensures Padded(n, width)[i] == "0123456789"[n / Pow10(width - 1 - i) % 10]
    decreases width
  {
    if i < width - 1 {
      PaddedDigit(n / 10, width - 1, i);
      assert Padded(n, width)[i] == Padded(n / 10, width - 1)[i];
      DigitPlace(n, width - 2 - i);
    }
  }

  lemma DigitPlace(n: nat, k: nat)
    ensures n / 10 / Pow10(k) == n / Pow10(k + 1)
  {
    DivDiv(n, 10, Pow10(k));
  }

  lemma DivDiv(n: nat, a: nat, b: nat)
    requires a > 0 && b > 0
    ensures n / a / b == n / (a * b)
  {
    var q := n / a / b;
    var m, r := n / a % b, n % a;
    assert n / a == q * b + m && n == (n / a) * a + r;
    assert n == q * (a * b) + (m * a + r) by {
      assert (q * b + m) * a == q * (a * b) + m * a;
    }
    MulMono(m, b - 1, a);
    MulDist(b, 1, a);
    assert (b - 1) * a == a * b - a;
    DivModUnique(n, a * b, q, m * a + r);
  }

  /** `Display`: the date and time of section 5.6 of RFC 3339 with nine fraction digits, in UTC. */
  function Print(c: Clock, fraction: nat): string
    requires ValidDate(c.date)
  {
    Padded(c.date.year, 4) + "-" + Padded(c.date.month, 2) + "-" + Padded(c.date.day, 2) + "T"
    + Padded(c.hour, 2) + ":" + Padded(c.minute, 2) + ":" + Padded(c.second, 2) + "." + Padded(fraction, 9) + "Z"
  }

  /** Reads the fixed fields back. */
  function Parse(s: string): (Clock, nat)
    requires |s| == 30
  {
    (Clock(Date(Value(s[0..4]), Value(s[5..7]), Value(s[8..10])),
           Value(s[11..13]), Value(s[14..16]), Value(s[17..19])), Value(s[20..29]))
  }

  lemma PrintedFields(c: Clock, fraction: nat)
    requires ValidDate(c.date)
    ensures var s := Print(c, fraction);
            && |s| == 30
            && s[0..4] == Padded(c.date.year, 4) && s[5..7] == Padded(c.date.month, 2)
            && s[8..10] == Padded(c.date.day, 2) && s[11..13] == Padded(c.hour, 2)
            && s[14..16] == Padded(c.minute, 2) && s[17..19] == Padded(c.second, 2)
            && s[20..29] == Padded(fraction, 9)
  {
  }

  /** The shape of a date and time of section 5.6 of RFC 3339 with nine fraction digits and zone Z. */
  predicate Rfc3339Shape(s: string) {
    && |s| == 30
    && s[4] == '-' && s[7] == '-' && s[10] == 'T' && s[13] == ':' && s[16] == ':' && s[19] == '.' && s[29] == 'Z'
    && forall i :: 0 <= i < 29 && i !in {4, 7, 10, 13, 16, 19} ==> IsDigit(s[i])
  }

  lemma DigitsInPlace(s: string, from: nat, to: nat)
    requires from <= to <= |s| && forall i :: 0 <= i < to - from ==> IsDigit(s[from..to][i])
    ensures forall i :: from <= i < to ==> IsDigit(s[i])
  {
    forall i | from <= i < to ensures IsDigit(s[i]) {
      assert s[from..to][i - from] == s[i];
    }
  }

  lemma PrintedShape(c: Clock, fraction: nat)
    requires ValidDate(c.date)
    ensures Rfc3339Shape(Print(c, fraction))
  {
    var s := Print(c, fraction);
    PrintedFields(c, fraction);
    PaddedIsDigits(c.date.year, 4);
    DigitsInPlace(s, 0, 4);
    PaddedIsDigits(c.date.month, 2);
    DigitsInPlace(s, 5, 7);
    PaddedIsDigits(c.date.day, 2);
    DigitsInPlace(s, 8, 10);
    PaddedIsDigits(c.hour, 2);
    DigitsInPlace(s, 11, 13);
    PaddedIsDigits(c.minute, 2);
    DigitsInPlace(s, 14, 16);
    PaddedIsDigits(c.second, 2);
    DigitsInPlace(s, 17, 19);
    PaddedIsDigits(fraction, 9);
    DigitsInPlace(s, 20, 29);
    PrintedSeparators(c, fraction);
  }

  lemma PrintedSeparators(c: Clock, fraction: nat)
    requires ValidDate(c.date)
    ensures var s := Print(c, fraction);
            |s| == 30 && s[4] == '-' && s[7] == '-' && s[10] == 'T' && s[13] == ':' && s[16] == ':' && s[19] == '.' && s[29] == 'Z'
  {}

  /** A printed timestamp has the standard shape and can be read back: the text determines every nanosecond. */
  lemma PrintReadsBack(nanos: nat)
    requires nanos < 0x1_0000_0000_0000_0000
    ensures var c := FromSeconds(nanos / NANOS_PER_SECOND);
            && ValidDate(c.date)
            && var s := Print(c, nanos % NANOS_PER_SECOND);
            && Rfc3339Shape(s)
            && Value(s[0..4]) == c.date.year && Value(s[5..7]) == c.date.month && Value(s[8..10]) == c.date.day
            && Value(s[11..13]) == c.hour && Value(s[14..16]) == c.minute && Value(s[17..19]) == c.second
            && Value(s[20..29]) == nanos % NANOS_PER_SECOND
            && Parse(s) == (c, nanos % NANOS_PER_SECOND)
            && ToSeconds(Parse(s).0) * NANOS_PER_SECOND + Parse(s).1 == nanos
  {
    var c, fraction := FromSeconds(nanos / NANOS_PER_SECOND), nanos % NANOS_PER_SECOND;
    SecondsRecombine(nanos / NANOS_PER_SECOND);
    YearHasFourDigits(nanos);
    PrintedShape(c, fraction);
    PrintedFields(c, fraction);
    Pow10Is();
    PaddedReadsBack(c.date.year, 4);
    PaddedReadsBack(c.date.month, 2);
    PaddedReadsBack(c.date.day, 2);
    PaddedReadsBack(c.hour, 2);
    PaddedReadsBack(c.minute, 2);
    PaddedReadsBack(c.second, 2);
    PaddedReadsBack(fraction, 9);
  }

  lemma Pow10Is()
    ensures Pow10(2) == 100 && Pow10(4) == 10_000 && Pow10(9) == 1_000_000_000
  {
    assert Pow10(6) == 1_000_000;
  }
}
