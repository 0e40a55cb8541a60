/** Artifact naming: the wall-clock layout `TIME_LAYOUT` ("2006-01-02 15_04_05"
    in Go's reference-time notation), its formatting and its parsing. */
module Timestamps {
  import opened Common
  import opened Strings

  /** A wall-clock reading to the second, in one frame (no time zone). */
  datatype WallClock = WallClock(year: int, month: int, day: int, hour: int, minute: int, second: int)

  predicate IsLeapYear(year: int) {
    year % 4 == 0 && (year % 100 != 0 || year % 400 == 0)
  }

  /** The number of days in a month of the proleptic Gregorian calendar. */
  function DaysIn(year: int, month: int): int {
    if month == 2 then (if IsLeapYear(year) then 29 else 28)
    else if month == 4 || month == 6 || month == 9 || month == 11 then 30
    else 31
  }

  /** The readings the layout can hold: a four-digit year and in-range fields,
      the day checked against its month as `time.Parse` does. */
  predicate Valid(t: WallClock) {
    && 0 <= t.year <= 9999
    && 1 <= t.month <= 12
    && 1 <= t.day <= DaysIn(t.year, t.month)
    && 0 <= t.hour < 24
    && 0 <= t.minute < 60
    && 0 <= t.second < 60
  }

  /** The width of a formatted reading: "YYYY-MM-DD HH_MM_SS". */
  const LayoutWidth: nat := 19

  /** The extension of a dump artifact. */
  const Extension: string := ".tar"

  predicate IsDigit(c: char) {
    '0' <= c <= '9'
  }

  function DigitChar(d: int): char
    requires 0 <= d < 10
  {
    ('0' as int + d) as char
  }

  function DigitValue(c: char): int
    requires IsDigit(c)
  {
    c as int - '0' as int
  }

  /** A number below 100 in two zero-padded digits. */
  function Pad2(n: int): string
    requires 0 <= n < 100
  {
    [DigitChar(n / 10), DigitChar(n % 10)]
  }

  /** A number below 10000 in four zero-padded digits. */
  function Pad4(n: int): string
    requires 0 <= n < 10000
  {
    [DigitChar(n / 1000), DigitChar(n / 100 % 10), DigitChar(n / 10 % 10), DigitChar(n % 10)]
  }

  /** `now.Format(TIME_LAYOUT)`. */
  function Format(t: WallClock): (s: string)
    requires Valid(t)
    ensures |s| == LayoutWidth
    ensures HasLayoutShape(s)
  {
    Pad4(t.year) + "-" + Pad2(t.month) + "-" + Pad2(t.day) + " "
      + Pad2(t.hour) + "_" + Pad2(t.minute) + "_" + Pad2(t.second)
  }

  /** The positions of the layout that hold a separator rather than a digit. */
  predicate IsSeparatorPosition(i: int) {
    i == 4 || i == 7 || i == 10 || i == 13 || i == 16
  }

  /** The canonical shape of a formatted reading: nineteen characters, digits
      everywhere except the separators '-', '-', ' ', '_', '_'. */
  predicate HasLayoutShape(s: string) {
    && |s| == LayoutWidth
    && s[4] == '-' && s[7] == '-' && s[10] == ' ' && s[13] == '_' && s[16] == '_'
    && forall i :: 0 <= i < |s| && !IsSeparatorPosition(i) ==> IsDigit(s[i])
  }

  /** The value of the two digits at `s[i]`, `s[i + 1]`. */
  function Num2(s: string, i: int): int
    requires 0 <= i && i + 2 <= |s| && IsDigit(s[i]) && IsDigit(s[i + 1])
  {
    10 * DigitValue(s[i]) + DigitValue(s[i + 1])
  }

  /** `time.Parse(TIME_LAYOUT, s)` on the canonical shape: the fields read
      back, then range-checked; any other text is rejected. */
  function Parse(s: string): (r: Option<WallClock>)
    ensures r.Some? ==> Valid(r.value)
  {
    if !HasLayoutShape(s) then None
    else
      var t := WallClock(100 * Num2(s, 0) + Num2(s, 2), Num2(s, 5), Num2(s, 8),
                         Num2(s, 11), Num2(s, 14), Num2(s, 17));
      if Valid(t) then Some(t) else None
  }

  /** The file name of a dump: `fmt.Sprintf("%s.tar", now.Format(TIME_LAYOUT))`. */
  function ArtifactName(t: WallClock): string
    requires Valid(t)
  {
    Format(t) + Extension
  }

  /** What the sweep hands to `time.Parse`: the name without its last four characters. */
  function Stem(name: string): string
    requires |name| >= |Extension|
  {
    name[..|name| - |Extension|]
  }

  lemma Pad2Digits(n: int)
    requires 0 <= n < 100
    ensures IsDigit(Pad2(n)[0]) && IsDigit(Pad2(n)[1])
    ensures Num2(Pad2(n), 0) == n
  {
  }

  lemma Pad4Digits(n: int)
    requires 0 <= n < 10000
    ensures forall i :: 0 <= i < 4 ==> IsDigit(Pad4(n)[i])
    ensures 100 * Num2(Pad4(n), 0) + Num2(Pad4(n), 2) == n
  {
    var q1, d := n / 10, n % 10;
    var q2, c := q1 / 10, q1 % 10;
    var a, b := q2 / 10, q2 % 10;
    DivMod(n, 100, q2, 10 * c + d);
    DivMod(n, 1000, a, 100 * b + 10 * c + d);
    assert Pad4(n) == [DigitChar(a), DigitChar(b), DigitChar(c), DigitChar(d)];
  }

  /** Formatting then parsing gives back the reading. */
  lemma ParseFormat(t: WallClock)
    requires Valid(t)
    ensures Parse(Format(t)) == Some(t)
  {
    var s := Format(t);
    FormatLayout(t);
    Pad4Digits(t.year);
    Pad2Digits(t.month);
    Pad2Digits(t.day);
    Pad2Digits(t.hour);
    Pad2Digits(t.minute);
    Pad2Digits(t.second);
    assert Num2(s, 0) == Num2(Pad4(t.year), 0) && Num2(s, 2) == Num2(Pad4(t.year), 2);
    assert Num2(s, 5) == t.month && Num2(s, 8) == t.day;
    assert Num2(s, 11) == t.hour && Num2(s, 14) == t.minute && Num2(s, 17) == t.second;
  }

  /** Where each field of a reading sits in its formatting, and that the
      formatting has the canonical shape. */
  lemma FormatLayout(t: WallClock)
    requires Valid(t)
    ensures var s := Format(t);
      && HasLayoutShape(s)
      && s[0..4] == Pad4(t.year)
      && s[5..7] == Pad2(t.month) && s[8..10] == Pad2(t.day)
      && s[11..13] == Pad2(t.hour) && s[14..16] == Pad2(t.minute) && s[17..19] == Pad2(t.second)
  {
    var s := Format(t);
    Pad4Digits(t.year);
    Pad2Digits(t.month);
    Pad2Digits(t.day);
    Pad2Digits(t.hour);
    Pad2Digits(t.minute);
    Pad2Digits(t.second);
    assert s[0..4] == Pad4(t.year);
    assert s[5..7] == Pad2(t.month);
    assert s[8..10] == Pad2(t.day);
    assert s[11..13] == Pad2(t.hour);
    assert s[14..16] == Pad2(t.minute);
    assert s[17..19] == Pad2(t.second);
  }

  lemma Num2Pad2(s: string, i: int)
    requires 0 <= i && i + 2 <= |s| && IsDigit(s[i]) && IsDigit(s[i + 1])
    ensures 0 <= Num2(s, i) < 100
    ensures Pad2(Num2(s, i)) == s[i..i + 2]
  {
  }

  lemma Num4Pad4(s: string)
    requires |s| >= 4 && forall i :: 0 <= i < 4 ==> IsDigit(s[i])
    ensures 0 <= 100 * Num2(s, 0) + Num2(s, 2) < 10000
    ensures Pad4(100 * Num2(s, 0) + Num2(s, 2)) == s[0..4]
  {
    var a, b, c, d := DigitValue(s[0]), DigitValue(s[1]), DigitValue(s[2]), DigitValue(s[3]);
    var n := 100 * Num2(s, 0) + Num2(s, 2);
    assert n == 1000 * a + (100 * b + 10 * c + d);
    DivMod(n, 1000, a, 100 * b + 10 * c + d);
    DivMod(n, 100, 10 * a + b, 10 * c + d);
    DivMod(10 * a + b, 10, a, b);
    DivMod(n, 10, 100 * a + 10 * b + c, d);
    DivMod(100 * a + 10 * b + c, 10, 10 * a + b, c);
  }

  /** Euclidean division by a power of ten is unique. */
  lemma DivMod(n: int, k: int, q: int, r: int)
    requires k == 10 || k == 100 || k == 1000
    requires n == k * q + r && 0 <= r < k
    ensures n / k == q && n % k == r
  {
    if k == 10 {
      assert n / 10 == q;
    } else if k == 100 {
      assert n / 100 == q;
    } else {
      assert n / 1000 == q;
    }
  }

  /** Every name the parser accepts is exactly the formatting of what it
      returns: the layout has one spelling per reading. */
  lemma FormatParse(s: string)
    requires Parse(s).Some?
    ensures Format(Parse(s).value) == s
  {
    var t := Parse(s).value;
    assert HasLayoutShape(s);
    Num4Pad4(s);
    Num2Pad2(s, 5);
    Num2Pad2(s, 8);
    Num2Pad2(s, 11);
    Num2Pad2(s, 14);
    Num2Pad2(s, 17);
    var f := Format(t);
    assert f == s[0..4] + "-" + s[5..7] + "-" + s[8..10] + " " + s[11..13] + "_" + s[14..16] + "_" + s[17..19];
    forall i | 0 <= i < 19 ensures f[i] == s[i] { }
  }

  /** A dump's name ends in ".tar", and stripping the four characters the
      sweep strips and parsing the rest gives back the reading it was made at. */
  lemma ArtifactNameRoundTrip(t: WallClock)
    requires Valid(t)
    ensures HasSuffix(ArtifactName(t), Extension)
    ensures Parse(Stem(ArtifactName(t))) == Some(t)
  {
    assert Stem(ArtifactName(t)) == Format(t);
    ParseFormat(t);
  }

  /** Days from 0000-01-01 to January 1 of `year`. */
  function DaysBeforeYear(year: int): int
    requires year >= 0
  {
    365 * year + (year + 3) / 4 - (year + 99) / 100 + (year + 399) / 400
  }

  /** Days from January 1 to the first of `month` in `year`. */
  function DaysBeforeMonth(year: int, month: int): int
    requires 1 <= month <= 12
  {
    var cumulative := [0, 31, 59, 90, 120, 151, 181, 212, 243, 273, 304, 334];
    cumulative[month - 1] + (if month > 2 && IsLeapYear(year) then 1 else 0)
  }

  /** The day a reading falls on, counted from 0000-01-01. */
  function DayNumber(t: WallClock): int
    requires Valid(t)
  {
    DaysBeforeYear(t.year) + DaysBeforeMonth(t.year, t.month) + t.day - 1
  }

  /** The instant a reading names, in seconds since 0000-01-01 00:00:00 of the same frame. */
  function Seconds(t: WallClock): int
    requires Valid(t)
  {
    ((DayNumber(t) * 24 + t.hour) * 60 + t.minute) * 60 + t.second
  }

  /** `a` comes strictly before `b` in calendar order: year, then month, day,
      hour, minute and second. */
  predicate Precedes(a: WallClock, b: WallClock) {
    || a.year < b.year
    || (a.year == b.year && a.month < b.month)
    || (a.year == b.year && a.month == b.month && a.day < b.day)
    || (a.year == b.year && a.month == b.month && a.day == b.day && a.hour < b.hour)
    || (a.year == b.year && a.month == b.month && a.day == b.day && a.hour == b.hour
        && a.minute < b.minute)
    || (a.year == b.year && a.month == b.month && a.day == b.day && a.hour == b.hour
        && a.minute == b.minute && a.second < b.second)
  }

  /** A year has 366 days if it is a leap year, else 365. */
  lemma YearLength(year: int)
    requires year >= 0
    ensures DaysBeforeYear(year + 1) - DaysBeforeYear(year) == if IsLeapYear(year) then 366 else 365
  {
    LeapCountStep(year);
    MultiplesNest(year);
    var c4 := (year + 4) / 4 - (year + 3) / 4;
    var c100 := (year + 100) / 100 - (year + 99) / 100;
    var c400 := (year + 400) / 400 - (year + 399) / 400;
    assert DaysBeforeYear(year + 1) - DaysBeforeYear(year) == 365 + c4 - c100 + c400;
    if year % 400 == 0 {
      assert IsLeapYear(year) && c4 == 1 && c100 == 1 && c400 == 1;
    } else if year % 100 == 0 {
      assert !IsLeapYear(year) && c4 == 1 && c100 == 1 && c400 == 0;
    } else if year % 4 == 0 {
      assert IsLeapYear(year) && c4 == 1 && c100 == 0 && c400 == 0;
    } else {
      assert !IsLeapYear(year) && c4 == 0 && c100 == 0 && c400 == 0;
    }
  }

  /** Multiples of 400 are multiples of 100, and those are multiples of 4. */
  lemma MultiplesNest(year: int)
    ensures year % 400 == 0 ==> year % 100 == 0
    ensures year % 100 == 0 ==> year % 4 == 0
  {
    var q100, r100 := year / 100, year % 100;
    assert year == 100 * q100 + r100 && 0 <= r100 < 100;
    var q400 := year / 400;
    if year % 400 == 0 {
      assert year == 100 * (4 * q400) + 0;
    }
    if r100 == 0 {
      assert year == 4 * (25 * q100) + 0;
    }
  }

  /** Going from `year` to `year + 1`, each of the three counts in
      `DaysBeforeYear` grows by one exactly when `year` is a multiple of its
      divisor. */
  lemma LeapCountStep(year: int)
    requires year >= 0
    ensures (year + 4) / 4 - (year + 3) / 4 == if year % 4 == 0 then 1 else 0
    ensures (year + 100) / 100 - (year + 99) / 100 == if year % 100 == 0 then 1 else 0
    ensures (year + 400) / 400 - (year + 399) / 400 == if year % 400 == 0 then 1 else 0
  {
    var q4, r4 := year / 4, year % 4;
    assert year == 4 * q4 + r4;
    if r4 == 0 {
      assert (year + 3) / 4 == q4 && (year + 4) / 4 == q4 + 1;
    } else {
      assert (year + 3) / 4 == q4 + 1 && (year + 4) / 4 == q4 + 1;
    }
    var q100, r100 := year / 100, year % 100;
    assert year == 100 * q100 + r100;
    if r100 == 0 {
      assert (year + 99) / 100 == q100 && (year + 100) / 100 == q100 + 1;
    } else {
      assert (year + 99) / 100 == q100 + 1 && (year + 100) / 100 == q100 + 1;
    }
    var q400, r400 := year / 400, year % 400;
    assert year == 400 * q400 + r400;
    if r400 == 0 {
      assert (year + 399) / 400 == q400 && (year + 400) / 400 == q400 + 1;
    } else {
      assert (year + 399) / 400 == q400 + 1 && (year + 400) / 400 == q400 + 1;
    }
  }

  /** A later year starts no earlier than the end of an earlier one. */
  lemma {:induction false} YearsIncrease(y1: int, y2: int)
    requires 0 <= y1 < y2
    ensures DaysBeforeYear(y1 + 1) <= DaysBeforeYear(y2)
    decreases y2 - y1
  {
    if y1 + 1 < y2 {
      YearsIncrease(y1 + 1, y2);
      YearLength(y1 + 1);
    }
  }

  /** The days before a month and within it stay inside the year. */
  lemma DayOfYearBound(t: WallClock)
    requires Valid(t)
    ensures 0 <= DaysBeforeMonth(t.year, t.month) + t.day - 1
    ensures DayNumber(t) < DaysBeforeYear(t.year + 1)
  {
    YearLength(t.year);
  }

  /** An earlier day of the same year has a smaller day number. */
  lemma DaysInYearIncrease(a: WallClock, b: WallClock)
    requires Valid(a) && Valid(b) && a.year == b.year
    requires a.month < b.month || (a.month == b.month && a.day < b.day)
    ensures DayNumber(a) < DayNumber(b)
  {
    if a.month < b.month {
      assert DaysBeforeMonth(a.year, a.month) + DaysIn(a.year, a.month)
          <= DaysBeforeMonth(b.year, b.month);
    }
  }

  /** An earlier date has a smaller day number. */
  lemma DayNumberIncreases(a: WallClock, b: WallClock)
    requires Valid(a) && Valid(b)
    requires a.year < b.year || (a.year == b.year && (a.month < b.month || (a.month == b.month && a.day < b.day)))
    ensures DayNumber(a) < DayNumber(b)
  {
    if a.year < b.year {
      DayOfYearBound(a);
      DayOfYearBound(b);
      YearsIncrease(a.year, b.year);
    } else {
      DaysInYearIncrease(a, b);
    }
  }

  /** `Seconds` measures readings in calendar order, as `time.Before` compares
      instants: a reading precedes another iff it names fewer seconds, and two
      readings name the same second only when they are equal. */
  lemma SecondsOrdersReadings(a: WallClock, b: WallClock)
    requires Valid(a) && Valid(b)
    ensures Precedes(a, b) <==> Seconds(a) < Seconds(b)
    ensures Seconds(a) == Seconds(b) <==> a == b
  {
    if Precedes(a, b) {
      SecondsIncrease(a, b);
    } else if Precedes(b, a) {
      SecondsIncrease(b, a);
    }
  }

  lemma SecondsIncrease(a: WallClock, b: WallClock)
    requires Valid(a) && Valid(b) && Precedes(a, b)
    ensures Seconds(a) < Seconds(b)
  {
    var sa := (a.hour * 60 + a.minute) * 60 + a.second;
    var sb := (b.hour * 60 + b.minute) * 60 + b.second;
    assert Seconds(a) == DayNumber(a) * 86400 + sa;
    assert Seconds(b) == DayNumber(b) * 86400 + sb;
    assert 0 <= sa < 86400 && 0 <= sb < 86400;
    if a.year < b.year || (a.year == b.year && (a.month < b.month || (a.month == b.month && a.day < b.day))) {
      DayNumberIncreases(a, b);
    }
  }
}
