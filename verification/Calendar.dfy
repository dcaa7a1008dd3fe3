/** Time stamps of the form `YYYY-MM-DD HH:MM:SS`, as `std::put_time` prints them for `%F %T`.
    An instant is a number of seconds since 1970-01-01 00:00:00 of local time at a fixed offset. */
module Calendar {
  import opened TextOrder

  datatype Date = Date(year: nat, month: nat, day: nat)

  predicate IsLeap(y: nat) {
    y % 4 == 0 && (y % 100 != 0 || y % 400 == 0)
  }

  function DaysInMonth(y: nat, m: nat): (d: nat)
    ensures 28 <= d <= 31
  {
    if m == 2 then (if IsLeap(y) then 29 else 28)
    else if m in {4, 6, 9, 11} then 30
    else 31
  }

  predicate IsDate(d: Date) {
    1970 <= d.year && 1 <= d.month <= 12 && 1 <= d.day <= DaysInMonth(d.year, d.month)
  }

  /** The calendar's rule for turning a page. */
  function NextDay(d: Date): (n: Date)
    requires IsDate(d)
    ensures IsDate(n)
  {
    if d.day < DaysInMonth(d.year, d.month) then d.(day := d.day + 1)
    else if d.month < 12 then Date(d.year, d.month + 1, 1)
    else Date(d.year + 1, 1, 1)
  }

  /** The date `n` days after 1970-01-01. */
  function DateOfDay(n: nat): (d: Date)
    ensures IsDate(d)
  {
    if n == 0 then Date(1970, 1, 1) else NextDay(DateOfDay(n - 1))
  }

  predicate Earlier(d: Date, e: Date) {
    d.year < e.year || (d.year == e.year && (d.month < e.month || (d.month == e.month && d.day < e.day)))
  }

  lemma {:induction false} LaterDaysHaveLaterDates(m: nat, n: nat)
    requires m < n
    ensures Earlier(DateOfDay(m), DateOfDay(n))
    decreases n
  {
    if m + 1 < n {
      LaterDaysHaveLaterDates(m, n - 1);
    }
  }

  // The closed form of the calendar, against the page-turning rule.

  function DaysBeforeYear(y: nat): int
    requires 1970 <= y
  {
    365 * (y - 1970) + (y - 1) / 4 - (y - 1) / 100 + (y - 1) / 400 - 477
  }

  function DaysBeforeMonth(y: nat, m: nat): (d: nat)
    requires 1 <= m <= 12
  {
    [0, 31, 59, 90, 120, 151, 181, 212, 243, 273, 304, 334][m - 1] + (if m > 2 && IsLeap(y) then 1 else 0)
  }

  function DayNumber(d: Date): int
    requires IsDate(d)
  {
    DaysBeforeYear(d.year) + DaysBeforeMonth(d.year, d.month) + d.day - 1
  }

  lemma MultipleApart(n: nat, d: int)
    ensures d >= 1 ==> n * d >= n
    ensures d <= -1 ==> n * d + n <= 0
  {
  }

  /** Euclidean division is the only way to write `y` as a multiple of `n` and a rest. */
  lemma Division(y: nat, n: nat, q: nat, r: nat)
    requires y == n * q + r && r < n
    ensures y / n == q && y % n == r
  {
    MultipleApart(n, y / n - q);
    assert n * (y / n - q) == r - y % n;
  }

  lemma MultiplesUpTo(y: nat, n: nat)
    requires y > 0 && n > 1
    ensures y / n == (y - 1) / n + if y % n == 0 then 1 else 0
  {
    var q, r := y / n, y % n;
    if r > 0 {
      Division(y - 1, n, q, r - 1);
    } else {
      assert y - 1 == n * (q - 1) + (n - 1);
      Division(y - 1, n, q - 1, n - 1);
    }
  }

  lemma CenturiesAreFourthYears(y: nat)
    ensures y % 100 == 0 ==> y % 4 == 0
    ensures y % 400 == 0 ==> y % 100 == 0
  {
    if y % 100 == 0 {
      Division(y, 4, 25 * (y / 100), 0);
    }
    if y % 400 == 0 {
      Division(y, 100, 4 * (y / 400), 0);
    }
  }

  lemma YearLength(y: nat)
    requires 1970 <= y
    ensures DaysBeforeYear(y + 1) == DaysBeforeYear(y) + (if IsLeap(y) then 366 else 365)
  {
    MultiplesUpTo(y, 4);
    MultiplesUpTo(y, 100);
    MultiplesUpTo(y, 400);
    CenturiesAreFourthYears(y);
  }

  lemma {:induction false} DaysBeforeYearGrow(y: nat, z: nat)
    requires 1970 <= y < z
    ensures DaysBeforeYear(y) + 365 <= DaysBeforeYear(z)
    ensures IsLeap(y) ==> DaysBeforeYear(y) + 366 <= DaysBeforeYear(z)
    decreases z
  {
    YearLength(z - 1);
    if y < z - 1 {
      DaysBeforeYearGrow(y, z - 1);
    }
  }

  lemma NextDayNumber(d: Date)
    requires IsDate(d)
    ensures DayNumber(NextDay(d)) == DayNumber(d) + 1
  {
    YearLength(d.year);
  }

  lemma {:induction false} DayNumberOfDateOfDay(n: nat)
    ensures DayNumber(DateOfDay(n)) == n
  {
    if n > 0 {
      DayNumberOfDateOfDay(n - 1);
      NextDayNumber(DateOfDay(n - 1));
    }
  }

  lemma EarlierDatesHaveSmallerNumbers(d: Date, e: Date)
    requires IsDate(d) && IsDate(e) && Earlier(d, e)
    ensures DayNumber(d) < DayNumber(e)
  {
    if d.year < e.year {
      DaysBeforeYearGrow(d.year, e.year);
    }
  }

  /** The other round trip: every date from 1970 on is the date of its day number. */
  lemma DateOfDayOfDayNumber(d: Date)
    requires IsDate(d)
    ensures DayNumber(d) >= 0 && DateOfDay(DayNumber(d)) == d
  {
    var e := Date(1970, 1, 1);
    if d != e {
      EarlierDatesHaveSmallerNumbers(e, d);
    }
    var c := DateOfDay(DayNumber(d));
    DayNumberOfDateOfDay(DayNumber(d));
    if Earlier(c, d) {
      EarlierDatesHaveSmallerNumbers(c, d);
    } else if Earlier(d, c) {
      EarlierDatesHaveSmallerNumbers(d, c);
    }
  }

  // Printing.

  const DAY := 86400

  /** The last second of the year 9999. */
  const MAX_INSTANT: nat := 253402300799

  function DateText(d: Date): string
    requires IsDate(d)
  {
    Decimal(d.year) + ("-" + (TwoDigits(d.month) + ("-" + TwoDigits(d.day))))
  }

  function ClockFace(h: nat, m: nat, s: nat): string
    requires h < 100 && m < 100 && s < 100
  {
    TwoDigits(h) + (":" + (TwoDigits(m) + (":" + TwoDigits(s))))
  }

  function ClockText(seconds: nat): string
    requires seconds < DAY
  {
    ClockFace(seconds / 3600, seconds % 3600 / 60, seconds % 60)
  }

  function Render(t: nat): string {
    DateText(DateOfDay(t / DAY)) + (" " + ClockText(t % DAY))
  }

  lemma PunctuatedOrder(a: string, b: string, sep: string, a': string, b': string)
    requires |a| == |a'|
    ensures Less(a + (sep + b), a' + (sep + b')) <==> Less(a, a') || (a == a' && Less(b, b'))
  {
    LessOfConcat(a, sep + b, a', sep + b');
    LessOfConcat(sep, b, sep, b');
    LessIrreflexive(sep);
  }

  lemma DateTextOrder(d: Date, e: Date)
    requires IsDate(d) && IsDate(e) && d.year <= 9999 && e.year <= 9999
    ensures Earlier(d, e) ==> Less(DateText(d), DateText(e))
    ensures |DateText(d)| == 10
  {
    FourDigitYears(d.year);
    FourDigitYears(e.year);
    DecimalOrder(d.year, e.year);
    TwoDigitsOrder(d.month, e.month);
    TwoDigitsOrder(d.day, e.day);
    var md, me := TwoDigits(d.month) + ("-" + TwoDigits(d.day)), TwoDigits(e.month) + ("-" + TwoDigits(e.day));
    PunctuatedOrder(Decimal(d.year), md, "-", Decimal(e.year), me);
    PunctuatedOrder(TwoDigits(d.month), TwoDigits(d.day), "-", TwoDigits(e.month), TwoDigits(e.day));
  }

  lemma ClockFaceOrder(h: nat, m: nat, s: nat, h': nat, m': nat, s': nat)
    requires h < 100 && m < 100 && s < 100 && h' < 100 && m' < 100 && s' < 100
    requires h < h' || (h == h' && (m < m' || (m == m' && s < s')))
    ensures Less(ClockFace(h, m, s), ClockFace(h', m', s'))
  {
    TwoDigitsOrder(h, h');
    TwoDigitsOrder(m, m');
    TwoDigitsOrder(s, s');
    PunctuatedOrder(TwoDigits(h), TwoDigits(m) + (":" + TwoDigits(s)), ":",
                    TwoDigits(h'), TwoDigits(m') + (":" + TwoDigits(s')));
    PunctuatedOrder(TwoDigits(m), TwoDigits(s), ":", TwoDigits(m'), TwoDigits(s'));
  }

  lemma ClockTextOrder(s: nat, t: nat)
    requires s < t < DAY
    ensures Less(ClockText(s), ClockText(t))
  {
    var h, m, h', m' := s / 3600, s % 3600 / 60, t / 3600, t % 3600 / 60;
    assert s == 3600 * h + s % 3600 && s % 3600 == 60 * m + s % 3600 % 60 && s % 3600 % 60 == s % 60;
    assert t == 3600 * h' + t % 3600 && t % 3600 == 60 * m' + t % 3600 % 60 && t % 3600 % 60 == t % 60;
    ClockFaceOrder(h, m, s % 60, h', m', t % 60);
  }

  lemma DayWithinYear(d: Date)
    requires IsDate(d)
    ensures DaysBeforeYear(d.year) <= DayNumber(d) < DaysBeforeYear(d.year + 1)
  {
    YearLength(d.year);
  }

  lemma YearsAndDays(d: Date, z: nat)
    requires IsDate(d) && 1970 <= z
    ensures d.year < z <==> DayNumber(d) < DaysBeforeYear(z)
  {
    DayWithinYear(d);
    if d.year + 1 < z {
      DaysBeforeYearGrow(d.year + 1, z);
    } else if z < d.year {
      DaysBeforeYearGrow(z, d.year);
    }
  }

  /** Exactly the instants up to the end of 9999 have a four-digit year. */
  lemma YearsUpTo9999(t: nat)
    ensures DateOfDay(t / DAY).year <= 9999 <==> t <= MAX_INSTANT
  {
    DayNumberOfDateOfDay(t / DAY);
    YearsAndDays(DateOfDay(t / DAY), 10000);
    FirstDayOf10000();
  }

  lemma FirstDayOf10000()
    ensures DaysBeforeYear(10000) == 2932897 && (MAX_INSTANT + 1) / DAY == 2932897 && (MAX_INSTANT + 1) % DAY == 0
  {
  }

  lemma StampOrder(d: Date, s: nat, e: Date, t: nat)
    requires IsDate(d) && IsDate(e) && d.year <= 9999 && e.year <= 9999 && s < DAY && t < DAY
    requires Earlier(d, e) || (d == e && s < t)
    ensures Less(DateText(d) + (" " + ClockText(s)), DateText(e) + (" " + ClockText(t)))
  {
    DateTextOrder(d, e);
    DateTextOrder(e, d);
    if d == e {
      ClockTextOrder(s, t);
    }
    PunctuatedOrder(DateText(d), ClockText(s), " ", DateText(e), ClockText(t));
  }

  lemma EarlierInstantsPrintSmaller(t: nat, u: nat)
    requires t < u <= MAX_INSTANT
    ensures Less(Render(t), Render(u))
  {
    YearsUpTo9999(t);
    YearsUpTo9999(u);
    if t / DAY < u / DAY {
      LaterDaysHaveLaterDates(t / DAY, u / DAY);
    }
    StampOrder(DateOfDay(t / DAY), t % DAY, DateOfDay(u / DAY), u % DAY);
  }

  /** The order of the printed stamps is the order of time, from 1970 to the end of 9999. */
  lemma RenderOrder(t: nat, u: nat)
    requires t <= MAX_INSTANT && u <= MAX_INSTANT
    ensures Less(Render(t), Render(u)) <==> t < u
    ensures Render(t) == Render(u) <==> t == u
  {
    if t < u {
      EarlierInstantsPrintSmaller(t, u);
      LessIrreflexive(Render(t));
    } else if u < t {
      EarlierInstantsPrintSmaller(u, t);
      LessAsymmetric(Render(u), Render(t));
      LessIrreflexive(Render(t));
    } else {
      LessIrreflexive(Render(t));
    }
  }

  // Reading a stamp.

  predicate AllDigits(s: string) {
    forall c | c in s :: '0' <= c <= '9'
  }

  /** The number that a decimal numeral stands for, digit by digit from the left. */
  function Number(s: string): int {
    if s == "" then 0 else 10 * Number(s[..|s| - 1]) + (s[|s| - 1] as int - '0' as int)
  }

  lemma {:induction false} NumberOfDecimal(n: nat)
    ensures Number(Decimal(n)) == n
  {
    if n < 10 {
      assert Decimal(n)[..0] == "";
    } else {
      NumberOfDecimal(n / 10);
      assert Decimal(n)[..|Decimal(n)| - 1] == Decimal(n / 10);
    }
  }

  lemma NumberOfTwoDigits(n: nat)
    requires n < 100
    ensures Number(TwoDigits(n)) == n
  {
    var s := TwoDigits(n);
    assert s[..1] == [Digit(n / 10)] && s[..1][..0] == "" && Number("") == 0;
    assert Number(s[..1]) == n / 10;
  }

  lemma DateFields(d: Date)
    requires IsDate(d) && d.year <= 9999
    ensures var s := DateText(d);
            && |s| == 10 && s[4] == '-' && s[7] == '-'
            && Number(s[0..4]) == d.year && Number(s[5..7]) == d.month && Number(s[8..10]) == d.day
            && AllDigits(s[0..4]) && AllDigits(s[5..7]) && AllDigits(s[8..10])
  {
    var s, y, m, day := DateText(d), Decimal(d.year), TwoDigits(d.month), TwoDigits(d.day);
    FourDigitYears(d.year);
    NumberOfDecimal(d.year);
    NumberOfTwoDigits(d.month);
    NumberOfTwoDigits(d.day);
    assert s[0..4] == y && s[5..7] == m && s[8..10] == day;
  }

  lemma ClockFields(t: nat)
    requires t < DAY
    ensures var s := ClockText(t);
            && |s| == 8 && s[2] == ':' && s[5] == ':'
            && Number(s[0..2]) == t / 3600 && Number(s[3..5]) == t % 3600 / 60 && Number(s[6..8]) == t % 60
            && AllDigits(s[0..2]) && AllDigits(s[3..5]) && AllDigits(s[6..8])
  {
    var s, h, m, sec := ClockText(t), TwoDigits(t / 3600), TwoDigits(t % 3600 / 60), TwoDigits(t % 60);
    NumberOfTwoDigits(t / 3600);
    NumberOfTwoDigits(t % 3600 / 60);
    NumberOfTwoDigits(t % 60);
    assert s[0..2] == h && s[3..5] == m && s[6..8] == sec;
  }

  /** The form of a stamp, and what its six fields stand for: the date and the time of day of the instant. */
  predicate Reads(s: string, t: nat) {
    && |s| == 19 && s[4] == '-' && s[7] == '-' && s[10] == ' ' && s[13] == ':' && s[16] == ':'
    && AllDigits(s[0..4]) && AllDigits(s[5..7]) && AllDigits(s[8..10])
    && AllDigits(s[11..13]) && AllDigits(s[14..16]) && AllDigits(s[17..19])
    && var y, m, d := Number(s[0..4]), Number(s[5..7]), Number(s[8..10]);
       var h, mi, sec := Number(s[11..13]), Number(s[14..16]), Number(s[17..19]);
       && y >= 1970 && 1 <= m <= 12 && 0 <= d && IsDate(Date(y, m, d)) && 0 <= h < 24 && 0 <= mi < 60 && 0 <= sec < 60
       && DayNumber(Date(y, m, d)) * 86400 + 3600 * h + 60 * mi + sec == t
  }

  lemma StampFields(date: string, clock: string)
    requires |date| == 10 && |clock| == 8
    ensures var s := date + (" " + clock);
            && |s| == 19 && s[10] == ' ' && s[4] == date[4] && s[7] == date[7] && s[13] == clock[2] && s[16] == clock[5]
            && s[0..4] == date[0..4] && s[5..7] == date[5..7] && s[8..10] == date[8..10]
            && s[11..13] == clock[0..2] && s[14..16] == clock[3..5] && s[17..19] == clock[6..8]
  {
  }

  lemma TimeOfDay(t: nat)
    requires t < DAY
    ensures t / 3600 < 24 && t % 3600 / 60 < 60 && t % 60 < 60
    ensures 3600 * (t / 3600) + 60 * (t % 3600 / 60) + t % 60 == t
  {
    assert t == 3600 * (t / 3600) + t % 3600 && t % 3600 == 60 * (t % 3600 / 60) + t % 3600 % 60;
    assert t % 3600 % 60 == t % 60;
  }

  /** Up to the end of 9999 every stamp reads back as its instant. */
  lemma RenderReadsBack(t: nat)
    requires t <= MAX_INSTANT
    ensures Reads(Render(t), t)
  {
    YearsUpTo9999(t);
    DateFields(DateOfDay(t / DAY));
    ClockFields(t % DAY);
    StampFields(DateText(DateOfDay(t / DAY)), ClockText(t % DAY));
    DayNumberOfDateOfDay(t / DAY);
    TimeOfDay(t % DAY);
  }

  /** Some known days: leap days in 1972 and 2000 and none in 2100, and the first of each month of a common year. */
  lemma KnownDays()
    ensures DayNumber(Date(1970, 1, 1)) == 0 && DayNumber(Date(1972, 2, 29)) == 789
    ensures DayNumber(Date(2000, 2, 29)) == 11016 && DayNumber(Date(2000, 3, 1)) == 11017
    ensures DayNumber(Date(2100, 2, 28)) == 47540 && DayNumber(Date(2100, 3, 1)) == 47541
    ensures DayNumber(Date(2025, 7, 27)) == 20296 && DayNumber(Date(9999, 12, 31)) == 2932896
    ensures DayNumber(Date(1970, 2, 1)) == 31 && DayNumber(Date(1970, 3, 1)) == 59 && DayNumber(Date(1970, 4, 1)) == 90
    ensures DayNumber(Date(1970, 5, 1)) == 120 && DayNumber(Date(1970, 6, 1)) == 151
    ensures DayNumber(Date(1970, 7, 1)) == 181 && DayNumber(Date(1970, 8, 1)) == 212
    ensures DayNumber(Date(1970, 9, 1)) == 243
    ensures DayNumber(Date(1970, 10, 1)) == 273 && DayNumber(Date(1970, 11, 1)) == 304
    ensures DayNumber(Date(1970, 12, 1)) == 334 && DayNumber(Date(1970, 12, 31)) == 364
  {
  }

  lemma LeadingDigitDecides(t: nat, d: Date, u: nat, e: Date)
    requires IsDate(d) && IsDate(e) && DayNumber(d) == t / DAY && DayNumber(e) == u / DAY
    requires Decimal(d.year)[0] < Decimal(e.year)[0]
    ensures Less(Render(t), Render(u))
  {
    DateOfDayOfDayNumber(d);
    DateOfDayOfDayNumber(e);
    assert Render(t)[0] == Decimal(d.year)[0] && Render(u)[0] == Decimal(e.year)[0];
  }

  /** The bound is needed: the first second of the year 10000 prints before the last one of 9999. */
  lemma OrderBreaksInYear10000()
    ensures Less(Render(MAX_INSTANT + 1), Render(MAX_INSTANT))
  {
    var last, first := Date(9999, 12, 31), Date(10000, 1, 1);
    FirstDayOf10000();
    assert DayNumber(first) == 2932897;
    NextDayNumber(last);
    DecimalHead(9999, 9);
    DecimalHead(10000, 1);
    assert MAX_INSTANT / DAY == 2932896;
    LeadingDigitDecides(MAX_INSTANT + 1, first, MAX_INSTANT, last);
  }

  /** Stamps sort like their instants up to a bound exactly when the bound is before the year 10000. */
  lemma OrderHoldsExactly(bound: nat)
    ensures OrderedUpTo(bound) <==> bound <= MAX_INSTANT
  {
    if bound <= MAX_INSTANT {
      forall t: nat, u: nat | t <= bound && u <= bound
        ensures Less(Render(t), Render(u)) <==> t < u
      {
        RenderOrder(t, u);
      }
    } else {
      OrderBreaksInYear10000();
    }
  }

  ghost predicate OrderedUpTo(bound: nat) {
    forall t: nat, u: nat | t <= bound && u <= bound :: Less(Render(t), Render(u)) <==> t < u
  }

  lemma HeadStep(n: nat)
    requires n >= 10
    ensures Decimal(n)[0] == Decimal(n / 10)[0]
  {
  }

  lemma DecimalHead(n: nat, lead: nat)
    requires lead < 10 && (n / 1000 == lead > 0 || n / 10000 == lead > 0)
    ensures Decimal(n)[0] == Digit(lead)
  {
    var a := n / 10;
    var b := a / 10;
    var c := b / 10;
    HeadStep(n);
    HeadStep(a);
    HeadStep(b);
    if c >= 10 {
      HeadStep(c);
    }
  }

  /** A stamp holds no character that the CDR file uses to separate. */
  lemma RenderHasNoSeparators(t: nat)
    ensures ',' !in Render(t) && '\n' !in Render(t)
  {
    var d := DateOfDay(t / DAY);
    assert forall c | c in DateText(d) :: c == '-' || '0' <= c <= '9';
    assert forall c | c in ClockText(t % DAY) :: c == ':' || '0' <= c <= '9';
  }
}
