/** UTC timestamps as FIX writes them: `YYYYMMDD-HH:MM:SS.mmm`. */
module Timestamps {
  import opened Decimal

  datatype Date = Date(year: nat, month: nat, day: nat)

  datatype Time = Time(hour: nat, minute: nat, second: nat, milli: nat)

  datatype Timestamp = Timestamp(date: Date, time: Time)

  const DASH: byte := 45
  const DOT: byte := 46
  const COLON: byte := 58

  /** `Date::new`: every month may have 31 days. */
  predicate LegalDate(d: Date) {
    d.year <= 9999 && 1 <= d.month <= 12 && 1 <= d.day <= 31
  }

  /** `Time::from_hmsm`: a minute may have a leap second. */
  predicate LegalTime(t: Time) {
    t.hour <= 23 && t.minute <= 59 && t.second <= 60 && t.milli <= 999
  }

  predicate Legal(t: Timestamp) {
    LegalDate(t.date) && LegalTime(t.time)
  }

  // ----- order -----

  /** The derived order: component by component. */
  predicate AtMost(a: Timestamp, b: Timestamp) {
    DateBefore(a.date, b.date) || (a.date == b.date && TimeAtMost(a.time, b.time))
  }

  predicate DateBefore(a: Date, b: Date) {
    a.year < b.year || (a.year == b.year && (a.month < b.month || (a.month == b.month && a.day < b.day)))
  }

  predicate TimeAtMost(a: Time, b: Time) {
    || a.hour < b.hour
    || (a.hour == b.hour && (
      || a.minute < b.minute
      || (a.minute == b.minute && (a.second < b.second || (a.second == b.second && a.milli <= b.milli)))))
  }

  lemma {:induction false} AtMostTransitive(a: Timestamp, b: Timestamp, c: Timestamp)
    requires AtMost(a, b) && AtMost(b, c)
    ensures AtMost(a, c)
  {}

  /** A legal timestamp as one number, in units of a millisecond, leap seconds and the longest
      months included. */
  function Rank(t: Timestamp): nat {
    DayRank(t.date) * 87_840_000 + ClockRank(t.time)
  }

  function DayRank(d: Date): nat {
    (d.year * 13 + d.month) * 32 + d.day
  }

  function ClockRank(t: Time): nat {
    ((t.hour * 60 + t.minute) * 61 + t.second) * 1000 + t.milli
  }

  /** The order of timestamps is that of their numbers, and no two share one. */
  lemma {:induction false} AtMostIsRank(a: Timestamp, b: Timestamp)
    requires Legal(a) && Legal(b)
    ensures AtMost(a, b) <==> Rank(a) <= Rank(b)
    ensures Rank(a) == Rank(b) <==> a == b
  {
    ClockOrder(a.time, b.time);
    DayOrder(a.date, b.date);
    hide ClockRank, DayRank, LegalDate, LegalTime, DateBefore, TimeAtMost;
  }

  lemma {:induction false} ClockOrder(a: Time, b: Time)
    requires LegalTime(a) && LegalTime(b)
    ensures ClockRank(a) < 87_840_000 && ClockRank(b) < 87_840_000
    ensures TimeAtMost(a, b) <==> ClockRank(a) <= ClockRank(b)
    ensures ClockRank(a) == ClockRank(b) <==> a == b
  {}

  lemma {:induction false} DayOrder(a: Date, b: Date)
    requires LegalDate(a) && LegalDate(b)
    ensures DateBefore(a, b) <==> DayRank(a) < DayRank(b)
    ensures DayRank(a) == DayRank(b) <==> a == b
  {}

  // ----- two digits -----

  function Tens(n: nat): byte
    requires n < 100
  {
    48 + n / 10
  }

  function Ones(n: nat): byte
    requires n < 100
  {
    48 + n % 10
  }

  function Weigh(tens: int, ones: int): int {
    (tens - 48) * 10 + (ones - 48)
  }

  lemma {:induction false} DigitsOf(n: nat)
    requires n < 100
    ensures IsDigit(Tens(n)) && IsDigit(Ones(n)) && Weigh(Tens(n), Ones(n)) == n
  {}

  lemma {:induction false} DigitsWeighed(t: byte, u: byte)
    requires IsDigit(t) && IsDigit(u)
    ensures 0 <= Weigh(t, u) < 100 && Tens(Weigh(t, u)) == t && Ones(Weigh(t, u)) == u
  {}

  // ----- dates -----

  function PrintDate(d: Date): (s: seq<byte>)
    requires LegalDate(d)
    ensures |s| == 8
  {
    [Tens(d.year / 100), Ones(d.year / 100), Tens(d.year % 100), Ones(d.year % 100),
     Tens(d.month), Ones(d.month), Tens(d.day), Ones(d.day)]
  }

  function ParseDate(s: seq<byte>): (r: Option<Date>)
    ensures r.Some? ==> LegalDate(r.value)
  {
    if |s| != 8 || !AllDigits(s) then None
    else
      DigitsWeighed(s[0], s[1]);
      DigitsWeighed(s[2], s[3]);
      DigitsWeighed(s[4], s[5]);
      DigitsWeighed(s[6], s[7]);
      var d := Date(Weigh(s[0], s[1]) * 100 + Weigh(s[2], s[3]), Weigh(s[4], s[5]), Weigh(s[6], s[7]));
      if LegalDate(d) then Some(d) else None
  }

  lemma {:induction false} YearSplit(year: nat)
    requires year <= 9999
    ensures year / 100 < 100 && year % 100 < 100 && year / 100 * 100 + year % 100 == year
  {}

  lemma {:induction false} YearJoined(high: nat, low: nat)
    requires high < 100 && low < 100
    ensures (high * 100 + low) / 100 == high && (high * 100 + low) % 100 == low
  {}

  /** What is printed, digit pair by digit pair. */
  lemma {:induction false} DatePairs(d: Date)
    requires LegalDate(d)
    ensures var s := PrintDate(d);
            && AllDigits(s)
            && Weigh(s[0], s[1]) == d.year / 100 && Weigh(s[2], s[3]) == d.year % 100
            && Weigh(s[4], s[5]) == d.month && Weigh(s[6], s[7]) == d.day
  {
    hide Tens, Ones, Weigh, IsDigit;
    YearSplit(d.year);
    DigitsOf(d.year / 100);
    DigitsOf(d.year % 100);
    DigitsOf(d.month);
    DigitsOf(d.day);
  }

  lemma {:induction false} DateRoundTrip(d: Date)
    requires LegalDate(d)
    ensures AllDigits(PrintDate(d)) && ParseDate(PrintDate(d)) == Some(d)
  {
    hide PrintDate, AllDigits, Weigh;
    DatePairs(d);
    YearSplit(d.year);
  }

  lemma {:induction false} DateReprinted(s: seq<byte>)
    requires ParseDate(s).Some?
    ensures PrintDate(ParseDate(s).value) == s
  {
    hide Tens, Ones, Weigh, IsDigit;
    DigitsWeighed(s[0], s[1]);
    DigitsWeighed(s[2], s[3]);
    DigitsWeighed(s[4], s[5]);
    DigitsWeighed(s[6], s[7]);
    YearJoined(Weigh(s[0], s[1]), Weigh(s[2], s[3]));
  }

  // ----- times -----

  function PrintClock(t: Time): (s: seq<byte>)
    requires LegalTime(t)
    ensures |s| == 12
  {
    [Tens(t.hour), Ones(t.hour), COLON, Tens(t.minute), Ones(t.minute), COLON, Tens(t.second), Ones(t.second), DOT]
    + PrintMillis(t.milli)
  }

  function PrintMillis(n: nat): (s: seq<byte>)
    requires n <= 999
    ensures |s| == 3
  {
    [Hundreds(n), Tens(n % 100), Ones(n % 100)]
  }

  function Hundreds(n: nat): byte
    requires n <= 999
  {
    48 + n / 100
  }

  lemma {:induction false} HundredsOf(n: nat)
    requires n <= 999
    ensures IsDigit(Hundreds(n)) && (Hundreds(n) as int - 48) * 100 + n % 100 == n
  {}

  lemma {:induction false} HundredsWeighed(h: byte, low: nat)
    requires IsDigit(h) && low < 100
    ensures var n := (h as int - 48) * 100 + low; 0 <= n <= 999 && Hundreds(n) == h && n % 100 == low
  {}

  /** The bytes of the milliseconds are not looked at: they are weighed with 32-bit
      wrap-around, whatever they are. */
  function ParseMillis(s: seq<byte>): nat
    requires |s| == 3
  {
    Wrap32((s[0] as int - 48) * 100 + Weigh(s[1], s[2]))
  }

  function Wrap32(n: int): nat {
    n % U32_LIMIT
  }

  lemma {:induction false} NoWrap(n: nat)
    requires n <= 999
    ensures Wrap32(n) == n
  {}

  predicate Punctuated(s: seq<byte>)
    requires |s| >= 8
  {
    && s[2] == COLON && s[5] == COLON
    && IsDigit(s[0]) && IsDigit(s[1]) && IsDigit(s[3]) && IsDigit(s[4]) && IsDigit(s[6]) && IsDigit(s[7])
  }

  /** `Time::deserialize`: with milliseconds or without. */
  function ParseClock(s: seq<byte>): (r: Option<Time>)
    ensures r.Some? ==> LegalTime(r.value)
  {
    if (|s| != 8 && |s| != 12) || (|s| == 12 && s[8] != DOT) || !Punctuated(s) then None
    else
      DigitsWeighed(s[0], s[1]);
      DigitsWeighed(s[3], s[4]);
      DigitsWeighed(s[6], s[7]);
      var t := Time(Weigh(s[0], s[1]), Weigh(s[3], s[4]), Weigh(s[6], s[7]), if |s| == 12 then ParseMillis(s[9..])
        else 0);
      if LegalTime(t) then Some(t) else None
  }

  lemma {:induction false} MillisRoundTrip(n: nat)
    requires n <= 999
    ensures AllDigits(PrintMillis(n)) && ParseMillis(PrintMillis(n)) == n
  {
    hide Tens, Ones, Weigh, Wrap32, Hundreds, IsDigit;
    NoWrap(n);
    HundredsOf(n);
    DigitsOf(n % 100);
  }

  lemma {:induction false} MillisReprinted(s: seq<byte>)
    requires |s| == 3 && AllDigits(s)
    ensures ParseMillis(s) <= 999 && PrintMillis(ParseMillis(s)) == s
  {
    hide Tens, Ones, Weigh, Wrap32, Hundreds, IsDigit;
    DigitsWeighed(s[1], s[2]);
    HundredsWeighed(s[0], Weigh(s[1], s[2]));
    NoWrap((s[0] as int - 48) * 100 + Weigh(s[1], s[2]));
  }

  lemma {:induction false} ClockRoundTrip(t: Time)
    requires LegalTime(t)
    ensures ParseClock(PrintClock(t)) == Some(t)
    ensures forall b :: b in PrintClock(t) ==> IsDigit(b) || b == COLON || b == DOT
  {
    var s := PrintClock(t);
    assert s[9..] == PrintMillis(t.milli);
    MillisRoundTrip(t.milli);
    DigitsOf(t.hour);
    DigitsOf(t.minute);
    DigitsOf(t.second);
    hide Tens, Ones, Weigh, PrintMillis, ParseMillis, IsDigit;
    assert forall i :: 9 <= i < 12 ==> s[i] == PrintMillis(t.milli)[i - 9];
  }

  lemma {:induction false} ClockReprinted(s: seq<byte>)
    requires ParseClock(s).Some?
    ensures PrintClock(ParseClock(s).value) == s <==> |s| == 12 && AllDigits(s[9..])
  {
    var t := ParseClock(s).value;
    var p := PrintClock(t);
    assert p[9..] == PrintMillis(t.milli);
    MillisRoundTrip(t.milli);
    DigitsWeighed(s[0], s[1]);
    DigitsWeighed(s[3], s[4]);
    DigitsWeighed(s[6], s[7]);
    if |s| == 12 && AllDigits(s[9..]) {
      MillisReprinted(s[9..]);
      assert PrintMillis(t.milli) == s[9..];
      hide Tens, Ones, Weigh, PrintMillis, ParseMillis, IsDigit;
      assert s == s[..9] + s[9..];
      assert p[..9] == s[..9];
    }
  }

  // ----- timestamps -----

  function PrintTime(t: Timestamp): (s: seq<byte>)
    requires Legal(t)
    ensures |s| == 21
  {
    PrintDate(t.date) + [DASH] + PrintClock(t.time)
  }

  /** `Timestamp::parse`. */
  function ParseTime(s: seq<byte>): (r: Option<Timestamp>)
    ensures r.Some? ==> Legal(r.value)
  {
    if |s| < 12 || s[8] != DASH then None
    else
      match ParseDate(s[..8])
      case None => None
      case Some(d) =>
        match ParseClock(s[9..])
        case None => None
        case Some(t) => Some(Timestamp(d, t))
  }

  lemma {:induction false} TimeRoundTrip(t: Timestamp)
    requires Legal(t)
    ensures ParseTime(PrintTime(t)) == Some(t)
  {
    var s := PrintTime(t);
    assert s[..8] == PrintDate(t.date) && s[9..] == PrintClock(t.time);
    hide PrintDate, PrintClock, ParseDate, ParseClock;
    DateRoundTrip(t.date);
    ClockRoundTrip(t.time);
  }

  /** Reading a timestamp and writing it again changes nothing exactly when its milliseconds
      were there and were digits. */
  lemma {:induction false} TimeReprinted(s: seq<byte>)
    requires ParseTime(s).Some?
    ensures PrintTime(ParseTime(s).value) == s <==> |s| == 21 && AllDigits(s[18..])
  {
    var t := ParseTime(s).value;
    var p := PrintTime(t);
    DateReprinted(s[..8]);
    ClockReprinted(s[9..]);
    hide PrintDate, PrintClock, ParseDate, ParseClock;
    assert p[9..] == PrintClock(t.time);
    assert |s| == 21 ==> s[9..][9..] == s[18..];
    assert s == s[..8] + [DASH] + s[9..];
  }

  const NEW_YEAR: seq<byte> := [50, 48, 50, 52, 48, 49, 48, 49]

  const LOOSE_CLOCK: seq<byte> := [48, 48, COLON, 48, 48, COLON, 48, 48, DOT, 48, COLON, 48]

  lemma {:induction false} NewYearRead()
    ensures ParseDate(NEW_YEAR) == Some(Date(2024, 1, 1))
  {}

  lemma {:induction false} LooseClockRead()
    ensures ParseClock(LOOSE_CLOCK) == Some(Time(0, 0, 0, 100))
  {
    var millis := LOOSE_CLOCK[9..];
    assert Weigh(COLON, 48) == 100;
    NoWrap(100);
    hide Wrap32, Weigh;
    assert millis[0] == 48 && millis[1] == COLON && millis[2] == 48;
    assert ParseMillis(millis) == 100;
    hide ParseMillis;
    assert Weigh(48, 48) == 0 by {
      ZeroPair();
    }
  }

  lemma ZeroPair()
    ensures Weigh(48, 48) == 0
  {}

  /** `20240101-00:00:00.0:0` is read as a tenth of a second past midnight, and is not printed
      that way. */
  lemma {:induction false} LooseMillis()
    ensures var s := NEW_YEAR + [DASH] + LOOSE_CLOCK;
            && ParseTime(s) == Some(Timestamp(Date(2024, 1, 1), Time(0, 0, 0, 100)))
            && PrintTime(ParseTime(s).value) != s
  {
    var s := NEW_YEAR + [DASH] + LOOSE_CLOCK;
    assert s[..8] == NEW_YEAR && s[9..] == LOOSE_CLOCK && s[18..] == LOOSE_CLOCK[9..];
    assert !AllDigits(LOOSE_CLOCK[9..]) by {
      assert LOOSE_CLOCK[9..][1] == COLON;
    }
    hide ParseDate, ParseClock, PrintTime, AllDigits;
    NewYearRead();
    LooseClockRead();
    TimeReprinted(s);
  }

  /** Milliseconds may be left out, and then are zero. */
  lemma {:induction false} ShortForm(s: seq<byte>)
    requires |s| == 17
    ensures ParseTime(s) == ParseTime(s + [DOT, 48, 48, 48])
  {
    var long := s + [DOT, 48, 48, 48];
    assert long[..8] == s[..8] && long[9..] == s[9..] + [DOT, 48, 48, 48];
    ShortClock(s[9..]);
    hide ParseDate, ParseClock;
  }

  lemma {:induction false} ShortClock(s: seq<byte>)
    requires |s| == 8
    ensures ParseClock(s) == ParseClock(s + [DOT, 48, 48, 48])
  {
    var long := s + [DOT, 48, 48, 48];
    assert long[9..] == [48, 48, 48];
    ZeroPair();
    NoWrap(0);
    hide Weigh, Wrap32;
    assert ParseMillis([48, 48, 48]) == 0;
    assert forall i :: 0 <= i < 8 ==> long[i] == s[i];
    hide ParseMillis;
  }

  /** Only lengths with and without milliseconds are read. */
  lemma {:induction false} OtherLengths(s: seq<byte>)
    requires |s| != 17 && |s| != 21
    ensures ParseTime(s) == None
  {
    hide ParseDate;
  }

  /** The first and the last legal moment, and the first values beyond each component. */
  lemma {:induction false} Extremes()
    ensures Legal(Timestamp(Date(0, 1, 1), Time(0, 0, 0, 0)))
            && Legal(Timestamp(Date(9999, 12, 31), Time(23, 59, 60, 999)))
    ensures !LegalDate(Date(10000, 1, 1)) && !LegalDate(Date(0, 13, 1)) && !LegalDate(Date(0, 1, 32))
    ensures !LegalDate(Date(0, 0, 1)) && !LegalDate(Date(0, 1, 0))
    ensures !LegalTime(Time(24, 0, 0, 0)) && !LegalTime(Time(0, 60, 0, 0))
    ensures !LegalTime(Time(0, 0, 61, 0)) && !LegalTime(Time(0, 0, 0, 1000))
  {}

  /** Bytes no timestamp contains, the field separator among them. */
  lemma {:induction false} TimeClean(t: Timestamp, b: byte)
    requires Legal(t) && !IsDigit(b) && b != DASH && b != COLON && b != DOT
    ensures b !in PrintTime(t)
  {
    DateRoundTrip(t.date);
    ClockRoundTrip(t.time);
    hide PrintDate, PrintClock, ParseDate, ParseClock;
  }

  // ----- the written form -----

  /** Padding to one more place leaves the last digit as it is. */
  lemma {:induction false} PadStep(n: nat, width: nat)
    requires width > 0
    ensures PrintPadded(n, width + 1) == PrintPadded(n / 10, width) + [48 + n % 10]
  {
    if n < 10 {
      assert Print(n) == [48 + n] && Print(n / 10) == [48];
    } else {
      assert Print(n) == Print(n / 10) + [48 + n % 10];
    }
  }

  lemma {:induction false} DigitPairs(n: nat)
    ensures n / 10 / 10 == n / 100 && n % 100 / 10 == n / 10 % 10 && n % 100 % 10 == n % 10
  {}

  lemma {:induction false} TwoDigits(n: nat)
    requires n < 100
    ensures PrintPadded(n, 2) == [Tens(n), Ones(n)]
  {
    PadStep(n, 1);
    assert Print(n / 10) == [48 + n / 10];
  }

  lemma {:induction false} ThreeDigits(n: nat)
    requires n <= 999
    ensures PrintPadded(n, 3) == PrintMillis(n)
  {
    hide PrintPadded, Print;
    PadStep(n, 2);
    TwoDigits(n / 10);
    DigitPairs(n);
  }

  lemma {:induction false} FourDigits(n: nat)
    requires n <= 9999
    ensures PrintPadded(n, 4) == PrintPadded(n / 100, 2) + PrintPadded(n % 100, 2)
  {
    hide PrintPadded, Print;
    PadStep(n, 3);
    PadStep(n / 10, 2);
    TwoDigits(n % 100);
    DigitPairs(n);
  }

  /** A timestamp is written as zero-padded numbers in the order of their weight. */
  lemma {:induction false} WrittenForm(t: Timestamp)
    requires Legal(t)
    ensures PrintTime(t) ==
            PrintPadded(t.date.year, 4) + PrintPadded(t.date.month, 2) + PrintPadded(t.date.day, 2)
            + [45] + PrintPadded(t.time.hour, 2) + [58] + PrintPadded(t.time.minute, 2)
            + [58] + PrintPadded(t.time.second, 2) + [46] + PrintPadded(t.time.milli, 3)
  {
    hide PrintPadded, Tens, Ones, PrintMillis;
    YearSplit(t.date.year);
    FourDigits(t.date.year);
    TwoDigits(t.date.year / 100);
    TwoDigits(t.date.year % 100);
    TwoDigits(t.date.month);
    TwoDigits(t.date.day);
    TwoDigits(t.time.hour);
    TwoDigits(t.time.minute);
    TwoDigits(t.time.second);
    ThreeDigits(t.time.milli);
  }
}
