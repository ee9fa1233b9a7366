/** Session schedules in a fixed-offset zone. Moments are nanoseconds since the epoch; two
    separate computations say whether a moment is in session and which session it is in. */
module Schedule {
  import opened Decimal

  const SECOND: int := 1_000_000_000
  const DAY: int := 86_400_000_000_000
  const WEEK: int := 604_800_000_000_000

  type TimeOfDay = n: int | 0 <= n < 86_400_000_000_000

  /** Days from Monday. */
  type Weekday = n: int | 0 <= n < 7

  datatype SessionSchedule =
    | NonStop
    | Daily(start: TimeOfDay, end: TimeOfDay, zone: int)
    | Weekdays(start: TimeOfDay, end: TimeOfDay, weekdays: seq<Weekday>, zone: int)
    | Weekly(startDay: Weekday, start: TimeOfDay, endDay: Weekday, end: TimeOfDay, zone: int)

  // ----- calendar -----

  function Date(local: int): int {
    local / DAY
  }

  function Time(local: int): TimeOfDay {
    local % DAY
  }

  /** Day 0, 1 January 1970, was a Thursday. */
  function WeekdayOf(date: int): Weekday {
    (date + 3) % 7
  }

  function Pred(day: Weekday): Weekday {
    (day + 6) % 7
  }

  function ConstructUtc(date: int, time: TimeOfDay, zone: int): int {
    date * DAY + time - zone
  }

  // ----- is the session on? -----

  predicate CheckDaily(local: int, start: TimeOfDay, end: TimeOfDay) {
    if start < end then Time(local) >= start && Time(local) < end
    else Time(local) >= start || Time(local) < end
  }

  predicate CheckWeekdays(local: int, weekdays: seq<Weekday>, start: TimeOfDay, end: TimeOfDay) {
    var time := Time(local);
    if start < end then
      WeekdayOf(Date(local)) in weekdays && time >= start && time < end
    else if time >= end && time < start then false
    else
      var target := if time >= start then WeekdayOf(Date(local)) else Pred(WeekdayOf(Date(local)));
      target in weekdays
  }

  /** Whole seconds since Monday midnight. */
  function WeeklySeconds(day: Weekday, time: TimeOfDay): int {
    day * 86_400 + time / SECOND
  }

  predicate CheckWeekly(local: int, startDay: Weekday, start: TimeOfDay, endDay: Weekday, end: TimeOfDay) {
    var startPos := WeeklySeconds(startDay, start);
    var endPos := WeeklySeconds(endDay, end);
    var nowPos := WeeklySeconds(WeekdayOf(Date(local)), Time(local));
    if startPos < endPos then startPos <= nowPos && nowPos < endPos
    else nowPos >= startPos || nowPos < endPos
  }

  predicate IsActiveAt(s: SessionSchedule, t: int) {
    match s
    case NonStop => true
    case Daily(start, end, zone) => CheckDaily(t + zone, start, end)
    case Weekdays(start, end, weekdays, zone) => CheckWeekdays(t + zone, weekdays, start, end)
    case Weekly(startDay, start, endDay, end, zone) => CheckWeekly(t + zone, startDay, start, endDay, end)
  }

  // ----- which session is it? -----

  function SingleDayBounds(t: int, start: TimeOfDay, end: TimeOfDay, zone: int): (int, int) {
    var local := t + zone;
    if Time(local) >= start then
      var endDate := if end < start then Date(local) + 1 else Date(local);
      (ConstructUtc(Date(local), start, zone), ConstructUtc(endDate, end, zone))
    else
      (ConstructUtc(Date(local) - 1, start, zone), ConstructUtc(Date(local), end, zone))
  }

  function WeeklyBounds(t: int, startDay: Weekday, start: TimeOfDay, endDay: Weekday, end: TimeOfDay, zone: int): (int,
                        int) {
    var local := t + zone;
    var diff := (WeekdayOf(Date(local)) - startDay) % 7;
    var daysBack := if diff == 0 && Time(local) < start then 7 else diff;
    var startDate := Date(local) - daysBack;
    var span := (endDay - startDay) % 7;
    var duration := if span == 0 && end <= start then 7 else span;
    (ConstructUtc(startDate, start, zone), ConstructUtc(startDate + duration, end, zone))
  }

  function SessionBounds(s: SessionSchedule, t: int): (int, int)
    requires !s.NonStop?
  {
    match s
    case Daily(start, end, zone) => SingleDayBounds(t, start, end, zone)
    case Weekdays(start, end, _, zone) => SingleDayBounds(t, start, end, zone)
    case Weekly(startDay, start, endDay, end, zone) => WeeklyBounds(t, startDay, start, endDay, end, zone)
  }

  datatype WhichTime = First | Second | Both

  datatype Comparison = SamePeriod | DifferentPeriod | OutsideSessionTime(which: WhichTime)

  function IsSameSessionPeriod(s: SessionSchedule, t1: int, t2: int): Comparison
    requires !s.NonStop?
  {
    var a1, a2 := IsActiveAt(s, t1), IsActiveAt(s, t2);
    if !a1 && !a2 then OutsideSessionTime(Both)
    else if !a1 then OutsideSessionTime(First)
    else if !a2 then OutsideSessionTime(Second)
    else
      var bounds := SessionBounds(s, t1);
      if bounds.0 <= t2 < bounds.1 then SamePeriod else DifferentPeriod
  }

  // ----- configuration -----

  datatype ScheduleConfig = ScheduleConfig(
    start: Option<TimeOfDay>, end: Option<TimeOfDay>,
    startDay: Option<Weekday>, endDay: Option<Weekday>,
    weekdays: seq<Weekday>, zone: Option<int>
  )

  datatype ConfigError = EqualTimesWithWeekdays | WeeklyWithWeekdays | SameDayForward | Incomplete

  function ZoneOrUtc(zone: Option<int>): int {
    if zone.Some? then zone.value else 0
  }

  function FromConfig(c: ScheduleConfig): (r: Result<SessionSchedule, ConfigError>)
    ensures r.Ok? ==> Producible(r.value)
  {
    if c.start.None? && c.end.None? && c.startDay.None? && c.endDay.None? && c.weekdays == [] && c.zone.None? then
      Ok(NonStop)
    else if c.start.Some? && c.end.Some? && c.startDay.None? && c.endDay.None? then
      if c.weekdays == [] then
        if c.start == c.end then Ok(NonStop)
        else Ok(Daily(c.start.value, c.end.value, ZoneOrUtc(c.zone)))
      else if c.start == c.end then Err(EqualTimesWithWeekdays)
      else Ok(Weekdays(c.start.value, c.end.value, c.weekdays, ZoneOrUtc(c.zone)))
    else if c.start.Some? && c.end.Some? && c.startDay.Some? && c.endDay.Some? then
      if c.weekdays != [] then Err(WeeklyWithWeekdays)
      else if c.startDay == c.endDay && c.start.value < c.end.value then Err(SameDayForward)
      else if c.startDay == c.endDay && c.start == c.end then Ok(NonStop)
      else Ok(Weekly(c.startDay.value, c.start.value, c.endDay.value, c.end.value, ZoneOrUtc(c.zone)))
    else Err(Incomplete)
  }

  /** Exactly the schedules some configuration turns into. */
  predicate Producible(s: SessionSchedule) {
    match s
    case NonStop => true
    case Daily(start, end, _) => start != end
    case Weekdays(start, end, weekdays, _) => start != end && weekdays != []
    case Weekly(startDay, start, endDay, end, _) => startDay != endDay || start > end
  }

  lemma EveryProducible(s: SessionSchedule) returns (c: ScheduleConfig)
    requires Producible(s)
    ensures FromConfig(c) == Ok(s)
  {
    match s
    case NonStop => c := ScheduleConfig(None, None, None, None, [], None);
    case Daily(start, end, zone) => c := ScheduleConfig(Some(start), Some(end), None, None, [], Some(zone));
    case Weekdays(start, end, weekdays, zone) => c := ScheduleConfig(Some(start), Some(end), None, None, weekdays,
      Some(zone));
    case Weekly(startDay, start, endDay, end, zone) => c := ScheduleConfig(Some(start), Some(end), Some(startDay),
      Some(endDay), [], Some(zone));
  }

  // ----- the sessions themselves -----

  /** Seconds only, as the weekly check sees it. */
  function Truncated(time: TimeOfDay): TimeOfDay {
    time - time % SECOND
  }

  /** How long one session lasts: the forward distance from start to end, within a day or a week. */
  function Duration(s: SessionSchedule): int
    requires !s.NonStop?
  {
    match s
    case Daily(start, end, _) => (end - start) % DAY
    case Weekdays(start, end, _, _) => (end - start) % DAY
    case Weekly(startDay, start, endDay, end, _) => (endDay * DAY + end - startDay * DAY - start) % WEEK
  }

  /** Session number `k`: the one starting on day `k`, or in the week of Monday `7 * k + 4`. */
  function Window(s: SessionSchedule, k: int): (int, int)
    requires !s.NonStop?
  {
    match s
    case Daily(start, _, zone) => var begin := ConstructUtc(k, start, zone); (begin, begin + Duration(s))
    case Weekdays(start, _, _, zone) => var begin := ConstructUtc(k, start, zone); (begin, begin + Duration(s))
    case Weekly(startDay, start, _, _, zone) =>
      var begin := ConstructUtc(7 * k + 4 + startDay, start, zone); (begin, begin + Duration(s))
  }

  /** Weekday schedules only have sessions starting on listed days. */
  predicate IsSession(s: SessionSchedule, k: int) {
    s.Weekdays? ==> WeekdayOf(k) in s.weekdays
  }

  predicate InWindow(s: SessionSchedule, k: int, t: int)
    requires !s.NonStop?
  {
    IsSession(s, k) && Window(s, k).0 <= t < Window(s, k).1
  }

  /** The session a moment would belong to, if it belongs to one. */
  function Index(s: SessionSchedule, t: int): int
    requires !s.NonStop?
  {
    match s
    case Daily(start, _, zone) => (t + zone - start) / DAY
    case Weekdays(start, _, _, zone) => (t + zone - start) / DAY
    case Weekly(startDay, start, _, _, zone) => (t + zone - start - (4 + startDay) * DAY) / WEEK
  }

  predicate WholeSeconds(s: SessionSchedule) {
    s.Weekly? ==> s.start % SECOND == 0 && s.end % SECOND == 0
  }

  predicate WholeStart(s: SessionSchedule) {
    s.Weekly? ==> s.start % SECOND == 0
  }

  /** Sessions do not overlap: a moment is in at most one. */
  lemma OneWindow(s: SessionSchedule, k: int, t: int)
    requires !s.NonStop? && InWindow(s, k, t)
    ensures k == Index(s, t)
  {}

  lemma DailyActive(t: int, start: TimeOfDay, end: TimeOfDay, zone: int)
    requires start != end
    ensures var s := Daily(start, end, zone);
            && (IsActiveAt(s, t) <==> InWindow(s, Index(s, t), t))
            && (IsActiveAt(s, t) ==> SessionBounds(s, t) == Window(s, Index(s, t)))
  {
    var s, local := Daily(start, end, zone), t + zone;
    DayIndex(local, start);
    DaySpan(start, end);
    assert local == Date(local) * DAY + Time(local);
    hide Date, Time;
  }

  lemma DayIndex(local: int, start: TimeOfDay)
    ensures (local - start) / DAY == if Time(local) >= start then Date(local) else Date(local) - 1
  {}

  lemma DaySpan(start: TimeOfDay, end: TimeOfDay)
    requires start != end
    ensures (end - start) % DAY == if start < end then end - start else end - start + DAY
  {}

  lemma WeekdaysActive(t: int, start: TimeOfDay, end: TimeOfDay, weekdays: seq<Weekday>, zone: int)
    requires start != end
    ensures var s := Weekdays(start, end, weekdays, zone);
            && (IsActiveAt(s, t) <==> InWindow(s, Index(s, t), t))
            && (IsActiveAt(s, t) ==> SessionBounds(s, t) == Window(s, Index(s, t)))
  {
    var s, local := Weekdays(start, end, weekdays, zone), t + zone;
    DayIndex(local, start);
    DaySpan(start, end);
    assert local == Date(local) * DAY + Time(local);
    assert WeekdayOf(Date(local) - 1) == Pred(WeekdayOf(Date(local)));
    hide Date, Time, WeekdayOf, Pred;
  }

  /** A week split at Monday midnight: the Monday before, and the position since. */
  lemma MondayBefore(local: int) returns (w: int)
    ensures Date(local) == 7 * w + 4 + WeekdayOf(Date(local))
    ensures local == (7 * w + 4) * DAY + WeekdayOf(Date(local)) * DAY + Time(local)
  {
    w := (Date(local) + 3) / 7 - 1;
  }

  lemma WeekIndex(local: int, w: int, pos: int, from: int)
    requires local == (7 * w + 4) * DAY + pos && 0 <= pos < WEEK && 0 <= from < WEEK
    ensures (local - from - 4 * DAY) / WEEK == if pos >= from then w else w - 1
  {}

  lemma WeekSpan(from: int, to: int)
    requires 0 <= from < WEEK && 0 <= to < WEEK && from != to
    ensures (to - from) % WEEK == if from < to then to - from else to - from + WEEK
  {}

  lemma SecondsOrder(day: Weekday, time: TimeOfDay, day': Weekday, time': TimeOfDay)
    requires time' % SECOND == 0
    ensures WeeklySeconds(day', time') <= WeeklySeconds(day, time) <==> day' * DAY + time' <= day * DAY + time
  {}

  /** Start, length and number of the weekly session a position falls into or after. */
  function WeekBegin(w: int, pos: int, from: int, zone: int): int {
    (7 * (if pos >= from then w else w - 1) + 4) * DAY + from - zone
  }

  lemma WeeklyWindow(s: SessionSchedule, t: int, w: int, pos: int, from: int, to: int)
    requires s.Weekly? && from == s.startDay * DAY + s.start && to == s.endDay * DAY + s.end && from != to
    requires t + s.zone == (7 * w + 4) * DAY + pos && 0 <= pos < WEEK
    ensures var begin := WeekBegin(w, pos, from, s.zone);
            Window(s, Index(s, t)) == (begin, begin + if from < to then to - from else to - from + WEEK)
  {
    WeekIndex(t + s.zone, w, pos, from);
    WeekSpan(from, to);
  }

  /** Whether a position in the week lies between two others, going forward. */
  predicate Between(pos: int, from: int, to: int) {
    if from < to then from <= pos < to else pos >= from || pos < to
  }

  lemma WeeklyCheck(s: SessionSchedule, t: int, pos: int, from: int, to: int)
    requires s.Weekly? && from == s.startDay * DAY + s.start && to == s.endDay * DAY + s.end
    requires s.start % SECOND == 0 && s.end % SECOND == 0
    requires pos == WeekdayOf(Date(t + s.zone)) * DAY + Time(t + s.zone)
    ensures IsActiveAt(s, t) <==> Between(pos, from, to)
  {
    var day, time := WeekdayOf(Date(t + s.zone)), Time(t + s.zone);
    SecondsOrder(day, time, s.startDay, s.start);
    SecondsOrder(day, time, s.endDay, s.end);
    SecondsOrder(s.startDay, s.start, s.endDay, s.end);
    hide WeekdayOf, Date, Time, WeeklySeconds;
  }

  /** A weekly schedule with its times cut to whole seconds. */
  function WholeWeekly(s: SessionSchedule): SessionSchedule
    requires s.Weekly?
  {
    Weekly(s.startDay, Truncated(s.start), s.endDay, Truncated(s.end), s.zone)
  }

  /** With fractions of a second in a weekly schedule, activity is decided by the truncated
      times. */
  lemma WeeklyTruncates(s: SessionSchedule, t: int)
    requires s.Weekly?
    ensures IsActiveAt(s, t) <==> IsActiveAt(WholeWeekly(s), t)
  {
    assert Truncated(s.start) / SECOND == s.start / SECOND;
    assert Truncated(s.end) / SECOND == s.end / SECOND;
  }

  /** Activity goes by the truncated times, membership by the exact ones. */
  lemma WeeklyPositions(s: SessionSchedule, t: int, w: int, pos: int, from: int, to: int)
    requires s.Weekly? && from == s.startDay * DAY + s.start && to == s.endDay * DAY + s.end && from != to
    requires t + s.zone == (7 * w + 4) * DAY + pos && pos == WeekdayOf(Date(t + s.zone)) * DAY + Time(t + s.zone)
    ensures IsActiveAt(s, t) <==> Between(pos, from - s.start % SECOND, to - s.end % SECOND)
    ensures InWindow(s, Index(s, t), t) <==> Between(pos, from, to)
  {
    hide IsActiveAt, WeekdayOf, Date, Time;
    WeeklyTruncates(s, t);
    WeeklyCheck(WholeWeekly(s), t, pos, from - s.start % SECOND, to - s.end % SECOND);
    WeeklyWindow(s, t, w, pos, from, to);
    hide Window, Index;
  }

  lemma WeeklyActive(s: SessionSchedule, t: int)
    requires s.Weekly? && (s.startDay != s.endDay || s.start > s.end)
    ensures WholeSeconds(s) ==> (IsActiveAt(s, t) <==> InWindow(s, Index(s, t), t))
    ensures WholeStart(s) && IsActiveAt(s, t) ==> InWindow(s, Index(s, t), t)
  {
    hide Window, Index, IsActiveAt, WeekdayOf, Date, Time;
    var local := t + s.zone;
    var w := MondayBefore(local);
    var pos, from, to := WeekdayOf(Date(local)) * DAY + Time(local), s.startDay * DAY + s.start, s.endDay * DAY + s.end;
    WeeklyPositions(s, t, w, pos, from, to);
    if WholeStart(s) {
      SecondsBetween(s, from, to);
    }
  }

  /** Two times of a producible schedule that start at a whole second are never in the same
      second in forward order. */
  lemma SecondsBetween(s: SessionSchedule, from: int, to: int)
    requires s.Weekly? && (s.startDay != s.endDay || s.start > s.end) && s.start % SECOND == 0
    requires from == s.startDay * DAY + s.start && to == s.endDay * DAY + s.end
    ensures from < to <==> from < to - s.end % SECOND
  {}

  // ----- moments the two computations disagree about -----

  /** The moment at a position of the week of day 4. */
  lemma MomentAt(pos: int, zone: int) returns (t: int)
    requires 0 <= pos < WEEK
    ensures t + zone == 4 * DAY + pos && pos == WeekdayOf(Date(t + zone)) * DAY + Time(t + zone)
  {
    t := 4 * DAY + pos - zone;
    assert Date(t + zone) == 4 + pos / DAY && Time(t + zone) == pos % DAY;
    assert 0 <= pos / DAY < 7;
    assert WeekdayOf(4 + pos / DAY) == pos / DAY;
  }

  /** If the start has a fraction of a second, some moment is active in no session. */
  lemma ActiveOutside(s: SessionSchedule) returns (t: int)
    requires Producible(s) && s.Weekly? && s.start % SECOND != 0
    ensures IsActiveAt(s, t) && !InWindow(s, Index(s, t), t)
  {
    hide Window, Index, IsActiveAt, WeekdayOf, Date, Time;
    var from, to := s.startDay * DAY + s.start, s.endDay * DAY + s.end;
    var pos := from - s.start % SECOND;
    if pos < to < from {
      pos := to;
    }
    InWeek(s.startDay, s.start);
    InWeek(s.endDay, s.end);
    t := MomentAt(pos, s.zone);
    FractionsApart(s, from, to);
    WeeklyPositions(s, t, 0, pos, from, to);
  }

  /** If only the end has one, some moment of a session is not active. */
  lemma InsideInactive(s: SessionSchedule) returns (t: int)
    requires Producible(s) && s.Weekly? && s.start % SECOND == 0 && s.end % SECOND != 0
    ensures !IsActiveAt(s, t) && InWindow(s, Index(s, t), t)
  {
    hide Window, Index, IsActiveAt, WeekdayOf, Date, Time;
    var from, to := s.startDay * DAY + s.start, s.endDay * DAY + s.end;
    var pos := to - s.end % SECOND;
    InWeek(s.endDay, s.end);
    t := MomentAt(pos, s.zone);
    SecondsBetween(s, from, to);
    WeeklyPositions(s, t, 0, pos, from, to);
  }

  lemma InWeek(day: Weekday, time: TimeOfDay)
    ensures 0 <= day * DAY + time - time % SECOND <= day * DAY + time < WEEK
  {}

  lemma FractionsApart(s: SessionSchedule, from: int, to: int)
    requires s.Weekly? && (s.startDay != s.endDay || s.start > s.end)
    requires from == s.startDay * DAY + s.start && to == s.endDay * DAY + s.end
    ensures from < to ==> from - s.start % SECOND < to - s.end % SECOND
    ensures from > to ==> from - s.start % SECOND >= to - s.end % SECOND
  {}

  lemma WeeklyBoundsExact(s: SessionSchedule, t: int)
    requires s.Weekly? && (s.startDay != s.endDay || s.start != s.end)
    ensures SessionBounds(s, t) == Window(s, Index(s, t))
  {
    hide Window, Index, WeekdayOf, Date, Time;
    var local := t + s.zone;
    var w := MondayBefore(local);
    var day, time, date := WeekdayOf(Date(local)), Time(local), Date(local);
    var pos, from, to := day * DAY + time, s.startDay * DAY + s.start, s.endDay * DAY + s.end;
    WeeklyWindow(s, t, w, pos, from, to);
    DaysBack(day, time, s.startDay, s.start);
    DaysOn(s.startDay, s.start, s.endDay, s.end);
  }

  lemma DaysBack(day: Weekday, time: TimeOfDay, startDay: Weekday, start: TimeOfDay)
    ensures var diff := (day - startDay) % 7;
            (if diff == 0 && time < start then 7 else diff)
            == day - startDay + if day * DAY + time >= startDay * DAY + start then 0 else 7
  {}

  lemma DaysOn(startDay: Weekday, start: TimeOfDay, endDay: Weekday, end: TimeOfDay)
    ensures var span := (endDay - startDay) % 7;
            (if span == 0 && end <= start then 7 else span)
            == endDay - startDay + if startDay * DAY + start < endDay * DAY + end then 0 else 7
  {}

  // ----- activity is membership -----

  /** A moment is active exactly when some session contains it, and the bounds computed for an
      active moment are that session's, across midnight and the end of the week. With fractions
      of a second in a weekly schedule, a whole start is enough for every active moment to be in
      a session. */
  lemma ActiveInWindow(s: SessionSchedule, t: int)
    requires Producible(s) && !s.NonStop?
    ensures WholeSeconds(s) ==> (IsActiveAt(s, t) <==> exists k :: InWindow(s, k, t))
    ensures WholeStart(s) && IsActiveAt(s, t) ==> InWindow(s, Index(s, t), t)
    ensures IsActiveAt(s, t) ==> SessionBounds(s, t) == Window(s, Index(s, t))
  {
    match s {
      case Daily(start, end, zone) => DailyActive(t, start, end, zone);
      case Weekdays(start, end, weekdays, zone) => WeekdaysActive(t, start, end, weekdays, zone);
      case Weekly(_, _, _, _, _) =>
        WeeklyActive(s, t);
        WeeklyBoundsExact(s, t);
    }
    hide *;
    if k :| InWindow(s, k, t) {
      OneWindow(s, k, t);
    }
  }

  ghost predicate ActiveIffInWindow(s: SessionSchedule)
    requires !s.NonStop?
  {
    forall t :: IsActiveAt(s, t) <==> exists k :: InWindow(s, k, t)
  }

  ghost predicate ActiveOnlyInWindow(s: SessionSchedule)
    requires !s.NonStop?
  {
    forall t :: IsActiveAt(s, t) ==> exists k :: InWindow(s, k, t)
  }

  /** Being active is being in a session, for all moments, exactly for schedules that are not
      weekly or have whole seconds; being active only in sessions takes a whole start. */
  lemma ActivityExact(s: SessionSchedule)
    requires Producible(s) && !s.NonStop?
    ensures ActiveIffInWindow(s) <==> WholeSeconds(s)
    ensures ActiveOnlyInWindow(s) <==> WholeStart(s)
  {
    hide IsActiveAt, InWindow, Index;
    forall t ensures WholeSeconds(s) ==> (IsActiveAt(s, t) <==> exists k :: InWindow(s, k, t))
             ensures WholeStart(s) && IsActiveAt(s, t) ==> InWindow(s, Index(s, t), t) {
      ActiveInWindow(s, t);
    }
    if !WholeStart(s) {
      var t := ActiveOutside(s);
      NoWindow(s, t);
    } else if !WholeSeconds(s) {
      var t := InsideInactive(s);
    }
  }

  lemma NoWindow(s: SessionSchedule, t: int)
    requires !s.NonStop? && !InWindow(s, Index(s, t), t)
    ensures forall k :: !InWindow(s, k, t)
  {
    hide Index, InWindow;
    forall k ensures !InWindow(s, k, t) {
      if InWindow(s, k, t) {
        OneWindow(s, k, t);
      }
    }
  }

  /** Half a second before a Monday session at 09:00:00.5 opens, the check says yes, and the
      bounds are last week's. */
  lemma SubSecondGap()
    ensures var s := Weekly(0, 32_400_500_000_000, 4, 61_200_000_000_000, 0);
            var t := 4 * DAY + 32_400_000_000_000;
            && Producible(s) && !WholeSeconds(s)
            && IsActiveAt(s, t) && !(exists k :: InWindow(s, k, t))
            && !(SessionBounds(s, t).0 <= t < SessionBounds(s, t).1)
  {
    var s := Weekly(0, 32_400_500_000_000, 4, 61_200_000_000_000, 0);
    var t := 4 * DAY + 32_400_000_000_000;
    if k :| InWindow(s, k, t) {
      OneWindow(s, k, t);
      assert false;
    }
  }

  // ----- what a configuration means -----

  const UNSCHEDULED := ScheduleConfig(None, None, None, None, [], None)

  /** Both times, and both days or neither. */
  predicate TimesGiven(c: ScheduleConfig) {
    c.start.Some? && c.end.Some? && (c.startDay.Some? <==> c.endDay.Some?)
  }

  /** The configured start of session `k` and its length: from start to end going forward, within
      a day without start and end days, within a week with them. */
  function ConfiguredWindow(c: ScheduleConfig, k: int): (int, int)
    requires TimesGiven(c)
  {
    var zone := if c.zone.None? then 0 else c.zone.value;
    if c.startDay.None? then
      var begin := k * DAY + c.start.value - zone;
      (begin,
       begin + if c.start.value < c.end.value then c.end.value - c.start.value
               else c.end.value - c.start.value + DAY)
    else
      var from, to := c.startDay.value * DAY + c.start.value, c.endDay.value * DAY + c.end.value;
      var begin := (7 * k + 4) * DAY + from - zone;
      (begin, begin + if from < to then to - from else to - from + WEEK)
  }

  /** A configuration of times, or of times and days, is accepted unless it lists weekdays beside
      days, or starts and ends at the same time on listed weekdays, or ends after it starts on the
      same day of the week. It then runs around the clock if start and end are the same, and
      otherwise has a session in exactly the configured windows, on the listed weekdays if any
      are listed. Nothing configured runs around the clock; anything else is refused. */
  lemma {:induction false} ConfigMeans(c: ScheduleConfig)
    ensures c == UNSCHEDULED ==> FromConfig(c) == Ok(NonStop)
    ensures c != UNSCHEDULED && !TimesGiven(c) ==> FromConfig(c).Err?
    ensures TimesGiven(c) ==>
              var refused := if c.startDay.None? then c.weekdays != [] && c.start == c.end
                             else c.weekdays != [] || (c.startDay == c.endDay && c.start.value < c.end.value);
              && (FromConfig(c).Err? <==> refused)
              && (FromConfig(c) == Ok(NonStop) <==> !refused && c.startDay == c.endDay && c.start == c.end)
              && (FromConfig(c).Ok? && !FromConfig(c).value.NonStop? ==>
                    forall k ::
                      && Window(FromConfig(c).value, k) == ConfiguredWindow(c, k)
                      && (IsSession(FromConfig(c).value, k) <==> c.weekdays == [] || WeekdayOf(k) in c.weekdays))
  {
    if TimesGiven(c) && FromConfig(c).Ok? && !FromConfig(c).value.NonStop? {
      forall k ensures Window(FromConfig(c).value, k) == ConfiguredWindow(c, k) {
        ConfiguredExactly(c, k);
      }
    }
    hide Window, ConfiguredWindow, WeekdayOf;
  }

  lemma {:induction false} ConfiguredExactly(c: ScheduleConfig, k: int)
    requires TimesGiven(c)
    requires FromConfig(c).Ok? && !FromConfig(c).value.NonStop?
    ensures Window(FromConfig(c).value, k) == ConfiguredWindow(c, k)
  {
    if c.startDay.None? {
      DaySpan(c.start.value, c.end.value);
    } else {
      var from, to := c.startDay.value * DAY + c.start.value, c.endDay.value * DAY + c.end.value;
      WeekSpan(from, to);
    }
  }

  /** Around the clock is always. */
  lemma AlwaysActive(t: int)
    ensures IsActiveAt(NonStop, t)
  {}

  // ----- same session period -----

  /** Two moments are compared only if both are in session; otherwise the answer says which of
      them is not. */
  lemma OutsideExactly(s: SessionSchedule, t1: int, t2: int)
    requires !s.NonStop?
    ensures var r := IsSameSessionPeriod(s, t1, t2);
            && (r == OutsideSessionTime(First) <==> !IsActiveAt(s, t1) && IsActiveAt(s, t2))
            && (r == OutsideSessionTime(Second) <==> IsActiveAt(s, t1) && !IsActiveAt(s, t2))
            && (r == OutsideSessionTime(Both) <==> !IsActiveAt(s, t1) && !IsActiveAt(s, t2))
            && (r == SamePeriod || r == DifferentPeriod <==> IsActiveAt(s, t1) && IsActiveAt(s, t2))
  {
    hide IsActiveAt, SessionBounds;
  }

  predicate Same(s: SessionSchedule, t1: int, t2: int)
    requires !s.NonStop?
  {
    IsSameSessionPeriod(s, t1, t2) == SamePeriod
  }

  /** Two active moments are in the same period exactly when their computed bounds are equal. */
  lemma SameIffBounds(s: SessionSchedule, t1: int, t2: int)
    requires Producible(s) && !s.NonStop? && WholeStart(s)
    ensures Same(s, t1, t2) <==> BothActiveSameBounds(s, t1, t2)
  {
    ActiveInWindow(s, t1);
    ActiveInWindow(s, t2);
    if IsActiveAt(s, t1) && IsActiveAt(s, t2) {
      var k1, k2 := Index(s, t1), Index(s, t2);
      assert SessionBounds(s, t1) == Window(s, k1) && SessionBounds(s, t2) == Window(s, k2);
      if Window(s, k1).0 <= t2 < Window(s, k1).1 {
        OneWindow(s, k1, t2);
      }
    }
  }

  predicate BothActiveSameBounds(s: SessionSchedule, t1: int, t2: int)
    requires !s.NonStop?
  {
    IsActiveAt(s, t1) && IsActiveAt(s, t2) && SessionBounds(s, t1) == SessionBounds(s, t2)
  }

  /** Sharing a session is an equivalence on the active moments, and only on those. */
  lemma SameIsEquivalence(s: SessionSchedule, t1: int, t2: int, t3: int)
    requires Producible(s) && !s.NonStop? && WholeStart(s)
    ensures Same(s, t1, t1) <==> IsActiveAt(s, t1)
    ensures Same(s, t1, t2) <==> Same(s, t2, t1)
    ensures Same(s, t1, t2) && Same(s, t2, t3) ==> Same(s, t1, t3)
  {
    SameIffBounds(s, t1, t1);
    SameIffBounds(s, t1, t2);
    SameIffBounds(s, t2, t1);
    SameIffBounds(s, t2, t3);
    SameIffBounds(s, t1, t3);
  }

  ghost predicate ReflexiveWhereActive(s: SessionSchedule)
    requires !s.NonStop?
  {
    forall t :: IsActiveAt(s, t) ==> Same(s, t, t)
  }

  ghost predicate SameMeansBounds(s: SessionSchedule)
    requires !s.NonStop?
  {
    forall t1, t2 :: Same(s, t1, t2) <==> BothActiveSameBounds(s, t1, t2)
  }

  /** Both hold for all moments exactly if a weekly start is a whole second: otherwise some
      active moment is not even in the same period as itself. */
  lemma SameExact(s: SessionSchedule)
    requires Producible(s) && !s.NonStop?
    ensures SameMeansBounds(s) <==> WholeStart(s)
    ensures ReflexiveWhereActive(s) <==> WholeStart(s)
  {
    if WholeStart(s) {
      hide IsActiveAt, Same, SessionBounds, BothActiveSameBounds;
      forall t1, t2 ensures Same(s, t1, t2) <==> BothActiveSameBounds(s, t1, t2) {
        SameIffBounds(s, t1, t2);
      }
      forall t | IsActiveAt(s, t) ensures Same(s, t, t) {
        SameIsEquivalence(s, t, t, t);
      }
    } else {
      var t := ActiveOutside(s);
      ActiveInWindow(s, t);
      NotSameAsItself(s, t);
      hide IsActiveAt, Same, SessionBounds;
      assert BothActiveSameBounds(s, t, t) && !Same(s, t, t);
    }
  }

  lemma NotSameAsItself(s: SessionSchedule, t: int)
    requires s.Weekly? && SessionBounds(s, t) == Window(s, Index(s, t)) && !InWindow(s, Index(s, t), t)
    ensures !Same(s, t, t)
  {
    hide SessionBounds, Window, Index, IsActiveAt;
  }
}
