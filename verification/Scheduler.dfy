/** The event scheduler: when a schedule next falls due, and the plan, fire,
    mark-ran cycle that sched_thread repeats for every event. */
module Scheduler {
  import opened CStrings
  import opened Calendar

  predicate HasPrefix(s: string, p: string) {
    p <= s
  }

  /** Equal but for upper and lower case, on the first three characters (strncasecmp). */
  predicate SameThree(s: string, name: string)
    requires |name| == 3
  {
    |s| >= 3 && Upper(s[..3]) == Upper(name)
  }

  /** parse_day_of_week; -1 when the name is not known */
  function ParseDayOfWeek(day: string): int {
    if SameThree(day, "Sun") then 0
    else if SameThree(day, "Mon") then 1
    else if SameThree(day, "Tue") then 2
    else if SameThree(day, "Wed") then 3
    else if SameThree(day, "Thu") then 4
    else if SameThree(day, "Fri") then 5
    else if SameThree(day, "Sat") then 6
    else -1
  }

  /** The index of the first `c`, |s| when there is none. */
  function IndexOf(s: string, c: char): (i: nat)
    ensures i <= |s| && (i < |s| ==> s[i] == c)
  {
    if s == "" || s[0] == c then 0 else 1 + IndexOf(s[1..], c)
  }

  function Hours(hhmm: string): int {
    Atoi(hhmm)
  }

  function Minutes(hhmm: string): int {
    var i := IndexOf(hhmm, ':');
    if i < |hhmm| then Atoi(hhmm[i + 1..]) else 0
  }

  /** A schedule as parse_schedule reads it: the kind, and the text after its name. */
  datatype Plan =
    | Daily(hh: int, mm: int)
    | Weekly(dow: int, hh: int, mm: int)
    | Monthly(day: int, hh: int, mm: int)
    | Every(sec: int)

  const HOURLY := Every(3600)

  /** At most seven characters of the name of a day are looked at. */
  function DayName(s: string): string {
    if |s| > 7 then s[..7] else s
  }

  function PlanOf(sched: string): Plan {
    if HasPrefix(sched, "daily@") then
      Daily(Hours(sched[6..]), Minutes(sched[6..]))
    else if HasPrefix(sched, "weekly:") then
      var rest := sched[7..];
      var i := IndexOf(rest, '@');
      if i == |rest| then HOURLY
      else
        var dow := ParseDayOfWeek(DayName(rest[..i]));
        if dow < 0 then HOURLY else Weekly(dow, Hours(rest[i + 1..]), Minutes(rest[i + 1..]))
    else if HasPrefix(sched, "monthly:") then
      var rest := sched[8..];
      var i := IndexOf(rest, '@');
      var day := Atoi(rest);
      if i == |rest| || day < 1 || day > 31 then HOURLY
      else Monthly(day, Hours(rest[i + 1..]), Minutes(rest[i + 1..]))
    else if HasPrefix(sched, "every:") then
      var sec := Atoi(sched[6..]);
      Every(if sec <= 0 then 300 else sec)
    else HOURLY
  }

  /** The local calendar fields of `now` with the time of day replaced. */
  function At(tm: Tm, hh: int, mm: int): Tm {
    tm.(hour := hh, min := mm, sec := 0)
  }

  /** The instant that a plan gives at `now`.  mktime also rewrites the fields it
      is given, as localtime_r would fill them for its result. */
  function NextInstant(p: Plan, now: int, offset: int): int {
    var tm := Localtime(now, offset);
    match p
    case Daily(hh, mm) =>
      var target := Mktime(At(tm, hh, mm), offset);
      if target - now < 0 then target + 86400 else target
    case Weekly(dow, hh, mm) =>
      var ahead := (dow - tm.wday + 7) % 7;
      var today := Mktime(At(tm, hh, mm), offset);
      var days := if ahead == 0 && today - now <= 0 then 7 else ahead;
      var from := if ahead == 0 then Localtime(today, offset) else tm;
      Mktime(At(from, hh, mm).(mday := from.mday + days), offset)
    case Monthly(day, hh, mm) =>
      var target := Mktime(At(tm, hh, mm).(mday := day), offset);
      if target - now <= 0 then
        var from := Localtime(target, offset);
        Mktime(from.(mon := from.mon + 1), offset)
      else target
    case Every(sec) => now + sec
  }

  /** parse_schedule */
  function ParseSchedule(sched: string, now: int, offset: int): int {
    NextInstant(PlanOf(sched), now, offset)
  }

  /* ---------- what a schedule asks for ---------- */

  predicate InRange(hh: int, mm: int) {
    0 <= hh < 24 && 0 <= mm < 60
  }

  /** The hour and minute of a schedule are a time of day. */
  predicate TimeOfDay(p: Plan) {
    p.Every? || InRange(p.hh, p.mm)
  }

  /** The instants that a schedule names: its time of day, on its days. */
  predicate Names(p: Plan, t: int, offset: int)
    requires !p.Every?
  {
    SecondOfDay(t, offset) == p.hh * 3600 + p.mm * 60 &&
    (p.Weekly? ==> Weekday(t, offset) == p.dow) &&
    (p.Monthly? ==> DayOfMonth(t, offset) == p.day)
  }

  /** mktime of the fields of `now` with the time of day replaced, `days` days on. */
  lemma AtInstant(now: int, offset: int, hh: int, mm: int, days: int)
    requires InRange(hh, mm)
    ensures var tm := Localtime(now, offset);
            Mktime(At(tm, hh, mm).(mday := tm.mday + days), offset) ==
            InstantOf(DayOf(now, offset) + days, hh * 3600 + mm * 60, offset)
    ensures Mktime(At(Localtime(now, offset), hh, mm), offset) ==
            InstantOf(DayOf(now, offset), hh * 3600 + mm * 60, offset)
  {
    hide MonthStart, MonthOf, MonthIndex, DayOf;
    var k := MonthIndex(now, offset);
    assert 12 * (k / 12) + k % 12 == k;
  }

  /** Of two instants at the same second of the day the later is at least a day later. */
  lemma SameSecond(s: int, t: int, offset: int)
    requires SecondOfDay(s, offset) == SecondOfDay(t, offset)
    ensures t - s == (DayOf(t, offset) - DayOf(s, offset)) * DAY
  {
  }

  /** "daily@HH:MM" is the first instant at or after now at that time of day. */
  lemma DailyIsNext(p: Plan, now: int, offset: int)
    requires p.Daily? && TimeOfDay(p)
    ensures var r := NextInstant(p, now, offset);
            now <= r && Names(p, r, offset) && forall t :: now <= t && Names(p, t, offset) ==> r <= t
  {
    hide MonthStart, MonthOf, MonthIndex, Localtime, Mktime, DayOfMonth;
    var sec := p.hh * 3600 + p.mm * 60;
    AtInstant(now, offset, p.hh, p.mm, 0);
    var day := DayOf(now, offset);
    InstantParts(day, sec, offset);
    InstantParts(day + 1, sec, offset);
    InstantAgain(now, offset);
    var r := NextInstant(p, now, offset);
    forall t | now <= t && Names(p, t, offset) ensures r <= t {
      SameSecond(r, t, offset);
      InstantAgain(t, offset);
    }
  }

  /** "weekly:Day@HH:MM" is the first instant after now at that time on that day. */
  lemma WeeklyIsNext(p: Plan, now: int, offset: int)
    requires p.Weekly? && TimeOfDay(p) && 0 <= p.dow < 7
    ensures var r := NextInstant(p, now, offset);
            now < r && Names(p, r, offset) && forall t :: now < t && Names(p, t, offset) ==> r <= t
  {
    hide MonthStart, MonthOf, MonthIndex, Mktime, DayOfMonth, At;
    var sec, day, tm := p.hh * 3600 + p.mm * 60, DayOf(now, offset), Localtime(now, offset);
    var ahead := (p.dow - tm.wday + 7) % 7;
    var today := InstantOf(day, sec, offset);
    AtInstant(now, offset, p.hh, p.mm, ahead);
    InstantParts(day, sec, offset);
    AtInstant(today, offset, p.hh, p.mm, 0);
    AtInstant(today, offset, p.hh, p.mm, 7);
    InstantParts(day + ahead, sec, offset);
    InstantParts(day + 7, sec, offset);
    InstantAgain(now, offset);
    var r := NextInstant(p, now, offset);
    WeekdayAhead(day, p.dow);
    forall t | now < t && Names(p, t, offset) ensures r <= t {
      SameSecond(r, t, offset);
      InstantAgain(t, offset);
      if DayOf(t, offset) < DayOf(r, offset) {
        SameWeekday(DayOf(r, offset), DayOf(t, offset));
      }
    }
  }

  lemma WeekdayAhead(day: int, dow: int)
    requires 0 <= dow < 7
    ensures var ahead := (dow - (day + 4) % 7 + 7) % 7;
            0 <= ahead < 7 && (day + ahead + 4) % 7 == dow
    ensures (day + 7 + 4) % 7 == (day + 4) % 7
  {
  }

  lemma SameWeekday(d: int, e: int)
    requires (d + 4) % 7 == (e + 4) % 7 && e < d
    ensures e <= d - 7
  {
  }

  /** The month whose day a monthly plan aims at: this one if that is still to come. */
  function AimedMonth(p: Plan, now: int, offset: int): int
    requires p.Monthly?
  {
    var k := MonthIndex(now, offset);
    if InstantOf(MonthStart(k) + p.day - 1, p.hh * 3600 + p.mm * 60, offset) > now then k else k + 1
  }

  /** mktime on a day of the month of `now`. */
  lemma MonthInstant(now: int, offset: int, p: Plan)
    requires p.Monthly?
    ensures var tm := Localtime(now, offset);
            Mktime(At(tm, p.hh, p.mm).(mday := p.day), offset) ==
            InstantOf(MonthStart(MonthIndex(now, offset)) + p.day - 1, p.hh * 3600 + p.mm * 60, offset)
  {
    hide MonthStart, MonthOf, MonthIndex, DayOf;
    var k := MonthIndex(now, offset);
    assert 12 * (k / 12) + k % 12 == k;
  }

  lemma MonthlyInstant(p: Plan, now: int, offset: int)
    requires p.Monthly? && TimeOfDay(p) && 1 <= p.day <= 31
    ensures NextInstant(p, now, offset) ==
            InstantOf(MonthStart(AimedMonth(p, now, offset)) + p.day - 1, p.hh * 3600 + p.mm * 60, offset)
  {
    hide MonthStart, MonthIndex, LengthOfMonth;
    var k := MonthIndex(now, offset);
    var sec := p.hh * 3600 + p.mm * 60;
    var target := InstantOf(MonthStart(k) + p.day - 1, sec, offset);
    MonthInstant(now, offset, p);
    if target <= now {
      InMonth(now, offset, p.day, sec);
      LocaltimeOn(k, p.day, p.hh, p.mm, offset);
      NextMonthInstant(k, p, Localtime(target, offset), offset);
    }
  }

  lemma NextMonthInstant(k: int, p: Plan, from: Tm, offset: int)
    requires p.Monthly? && from.year == k / 12 && from.mon == k % 12 && from.mday == p.day
    requires from.hour == p.hh && from.min == p.mm && from.sec == 0
    ensures Mktime(from.(mon := from.mon + 1), offset) ==
            InstantOf(MonthStart(k + 1) + p.day - 1, p.hh * 3600 + p.mm * 60, offset)
  {
    hide MonthStart;
    assert 12 * (k / 12) + k % 12 == k;
  }

  /** A day aimed at in this month that is not after now is a day of this month. */
  lemma InMonth(now: int, offset: int, day: int, sec: int)
    requires 0 <= sec < DAY && InstantOf(MonthStart(MonthIndex(now, offset)) + day - 1, sec, offset) <= now
    ensures day <= LengthOfMonth(MonthIndex(now, offset))
  {
    hide MonthStart, LengthOfMonth;
    NextMonth(MonthIndex(now, offset));
    InstantAgain(now, offset);
  }

  /** "monthly:DD@HH:MM" comes after now; it falls on day DD exactly when the month
      it aims at has that day, and then it is the first such instant after now.
      Otherwise it falls in the month after that, by as many days as are missing.
      Up to the 28th every month has it. */
  lemma MonthlyIsNext(p: Plan, now: int, offset: int)
    requires p.Monthly? && TimeOfDay(p) && 1 <= p.day <= 31
    ensures var r := NextInstant(p, now, offset);
            now < r && (Names(p, r, offset) <==> p.day <= LengthOfMonth(AimedMonth(p, now, offset)))
    ensures var r := NextInstant(p, now, offset);
            Names(p, r, offset) ==> forall t :: now < t && Names(p, t, offset) ==> r <= t
    ensures var r, m := NextInstant(p, now, offset), AimedMonth(p, now, offset);
            p.day > LengthOfMonth(m) ==>
              MonthIndex(r, offset) == m + 1 && DayOfMonth(r, offset) == p.day - LengthOfMonth(m)
    ensures p.day <= 28 ==> Names(p, NextInstant(p, now, offset), offset)
  {
    hide MonthStart, MonthIndex, LengthOfMonth, NextInstant, AimedMonth, DayOfMonth, SecondOfDay, InstantOf;
    MonthlyInstant(p, now, offset);
    var r, m := NextInstant(p, now, offset), AimedMonth(p, now, offset);
    AfterNow(p, now, offset);
    AimedNames(p, m, offset);
    if p.day > LengthOfMonth(m) {
      LandsNextMonth(p, m, offset);
    }
    forall t | now < t && Names(p, t, offset) ensures r <= t {
      NoEarlier(p, now, t, offset);
    }
  }

  /** The instant aimed at in month `m` is on the right day exactly when `m` has that day. */
  lemma AimedNames(p: Plan, m: int, offset: int)
    requires p.Monthly? && TimeOfDay(p) && 1 <= p.day <= 31
    ensures Names(p, InstantOf(MonthStart(m) + p.day - 1, p.hh * 3600 + p.mm * 60, offset), offset) <==>
            p.day <= LengthOfMonth(m)
  {
    hide MonthStart, LengthOfMonth, DayOfMonth;
    InstantParts(MonthStart(m) + p.day - 1, p.hh * 3600 + p.mm * 60, offset);
    if p.day <= LengthOfMonth(m) {
      LocaltimeOn(m, p.day, p.hh, p.mm, offset);
    } else {
      LandsNextMonth(p, m, offset);
    }
  }

  lemma AfterNow(p: Plan, now: int, offset: int)
    requires p.Monthly? && TimeOfDay(p) && p.day >= 1
    ensures now < InstantOf(MonthStart(AimedMonth(p, now, offset)) + p.day - 1, p.hh * 3600 + p.mm * 60, offset)
  {
    hide MonthStart;
    InstantAgain(now, offset);
  }

  /** A day that the month does not have is a day early in the next one. */
  lemma LandsNextMonth(p: Plan, m: int, offset: int)
    requires p.Monthly? && TimeOfDay(p) && LengthOfMonth(m) < p.day <= 31
    ensures var t := InstantOf(MonthStart(m) + p.day - 1, p.hh * 3600 + p.mm * 60, offset);
            MonthIndex(t, offset) == m + 1 && DayOfMonth(t, offset) == p.day - LengthOfMonth(m)
  {
    hide MonthStart, LengthOfMonth, DayOfMonth, MonthIndex;
    NextMonth(m);
    var over := p.day - LengthOfMonth(m);
    LocaltimeOn(m + 1, over, p.hh, p.mm, offset);
  }

  /** On 1 April 2023 at midnight "monthly:31@00:00" gives 1 May. */
  lemma AprilHasNo31st(offset: int)
    ensures var april, p := 2023 * 12 + 3, Monthly(31, 0, 0);
            var now := InstantOf(MonthStart(april), 0, offset);
            MonthIndex(now, offset) == april && DayOfMonth(now, offset) == 1 &&
            var r := NextInstant(p, now, offset); MonthIndex(r, offset) == april + 1 && DayOfMonth(r, offset) == 1
  {
    hide MonthStart, MonthIndex, DayOfMonth, NextInstant;
    var april, p := 2023 * 12 + 3, Monthly(31, 0, 0);
    LocaltimeOn(april, 1, 0, 0, offset);
    assert LengthOfMonth(april) == 30;
    MonthlyIsNext(p, InstantOf(MonthStart(april), 0, offset), offset);
  }

  lemma NoEarlier(p: Plan, now: int, t: int, offset: int)
    requires p.Monthly? && TimeOfDay(p) && p.day >= 1 && now < t && Names(p, t, offset)
    ensures InstantOf(MonthStart(AimedMonth(p, now, offset)) + p.day - 1, p.hh * 3600 + p.mm * 60, offset) <= t
  {
    hide MonthStart, MonthIndex, Names, SecondOfDay, DayOf;
    var j := MonthIndex(t, offset);
    NamedInstant(p, t, offset);
    MonthNotBefore(now, t, offset);
    var m := AimedMonth(p, now, offset);
    if m < j {
      MonthsIncrease(m, j);
    }
  }

  lemma NamedInstant(p: Plan, t: int, offset: int)
    requires p.Monthly? && Names(p, t, offset)
    ensures t == InstantOf(MonthStart(MonthIndex(t, offset)) + p.day - 1, p.hh * 3600 + p.mm * 60, offset)
  {
    hide MonthStart, MonthIndex;
    InstantAgain(t, offset);
  }

  lemma MonthNotBefore(now: int, t: int, offset: int)
    requires now < t
    ensures MonthIndex(now, offset) <= MonthIndex(t, offset)
  {
    hide MonthStart;
    var k, j := MonthIndex(now, offset), MonthIndex(t, offset);
    if j + 1 < k {
      MonthsIncrease(j + 1, k);
    }
  }

  /* ---------- the one instant that a schedule asks for ---------- */

  predicate Sane(p: Plan) {
    TimeOfDay(p) && (p.Weekly? ==> 0 <= p.dow < 7) && (p.Monthly? ==> 1 <= p.day <= 31) && (p.Every? ==> p.sec > 0)
  }

  /** The first instant that the schedule names, counted from now for a daily one and
      from the next second for the others; in the month after a month that lacks the
      day, as many days into it as are missing. */
  ghost predicate Falls(p: Plan, now: int, t: int, offset: int) {
    if p.Every? then t == now + p.sec
    else if p.Monthly? && p.day > LengthOfMonth(AimedMonth(p, now, offset)) then
      MonthIndex(t, offset) == AimedMonth(p, now, offset) + 1 &&
      DayOfMonth(t, offset) == p.day - LengthOfMonth(AimedMonth(p, now, offset)) &&
      SecondOfDay(t, offset) == p.hh * 3600 + p.mm * 60
    else
      var from := if p.Daily? then now else now + 1;
      from <= t && Names(p, t, offset) && forall u :: from <= u && Names(p, u, offset) ==> t <= u
  }

  /** parse_schedule gives that instant and no other. */
  lemma FallsIff(p: Plan, now: int, t: int, offset: int)
    requires Sane(p)
    ensures Falls(p, now, t, offset) <==> t == NextInstant(p, now, offset)
  {
    hide NextInstant, Names, AimedMonth, LengthOfMonth, MonthIndex, DayOfMonth, SecondOfDay;
    match p
    case Daily(_, _) => DailyIsNext(p, now, offset);
    case Weekly(_, _, _) => WeeklyIsNext(p, now, offset);
    case Monthly(_, _, _) =>
      MonthlyIsNext(p, now, offset);
      var r, m := NextInstant(p, now, offset), AimedMonth(p, now, offset);
      if p.day > LengthOfMonth(m) {
        AtItsTime(p, now, offset);
        if Falls(p, now, t, offset) {
          SameParts(t, r, offset);
        }
      }
    case Every(_) => EveryIsLater(p, now, offset);
  }

  lemma AtItsTime(p: Plan, now: int, offset: int)
    requires p.Monthly? && TimeOfDay(p) && 1 <= p.day <= 31
    ensures SecondOfDay(NextInstant(p, now, offset), offset) == p.hh * 3600 + p.mm * 60
  {
    hide NextInstant, AimedMonth, MonthStart;
    MonthlyInstant(p, now, offset);
    InstantParts(MonthStart(AimedMonth(p, now, offset)) + p.day - 1, p.hh * 3600 + p.mm * 60, offset);
  }

  /** An instant is known by its month, its day and its second. */
  lemma SameParts(s: int, t: int, offset: int)
    requires MonthIndex(s, offset) == MonthIndex(t, offset) && DayOfMonth(s, offset) == DayOfMonth(t, offset)
    requires SecondOfDay(s, offset) == SecondOfDay(t, offset)
    ensures s == t
  {
    hide MonthIndex;
    InstantAgain(s, offset);
    InstantAgain(t, offset);
  }

  /** Whatever its kind, a schedule with a time of day never gives an instant in
      the past, and only a daily one can give the present instant. */
  lemma NeverPast(sched: string, now: int, offset: int)
    requires TimeOfDay(PlanOf(sched))
    ensures now <= ParseSchedule(sched, now, offset)
    ensures !PlanOf(sched).Daily? ==> now < ParseSchedule(sched, now, offset)
  {
    PlanIsSane(sched);
    hide NextInstant, PlanOf;
    var p := PlanOf(sched);
    match p
    case Daily(_, _) => DailyIsNext(p, now, offset);
    case Weekly(_, _, _) => WeeklyIsNext(p, now, offset);
    case Monthly(_, _, _) => MonthlyIsNext(p, now, offset);
    case Every(_) => EveryIsLater(p, now, offset);
  }

  lemma PlanIsSane(sched: string)
    ensures var p := PlanOf(sched);
            (p.Weekly? ==> 0 <= p.dow < 7) && (p.Monthly? ==> 1 <= p.day <= 31) && (p.Every? ==> p.sec > 0)
  {
    hide SameThree, Atoi, IndexOf;
  }

  lemma EveryIsLater(p: Plan, now: int, offset: int)
    requires p.Every? && p.sec > 0
    ensures NextInstant(p, now, offset) == now + p.sec
  {
  }

  /* ---------- schedules as they are written ---------- */

  /** "HH:MM" */
  function Clock(hh: nat, mm: nat): string
    requires InRange(hh, mm)
  {
    [Digit(hh / 10), Digit(hh % 10), ':', Digit(mm / 10), Digit(mm % 10)]
  }

  lemma AtoiTwo(s: string)
    requires |s| >= 2 && IsDigit(s[0]) && IsDigit(s[1]) && (|s| > 2 ==> !IsDigit(s[2]))
    ensures Atoi(s) == 10 * DigitValue(s[0]) + DigitValue(s[1])
  {
    assert SkipSpaces(s, 0) == 0 && s[0..] == s;
    assert s[1..][0] == s[1] && s[1..][1..] == s[2..];
    assert DigitRun(s[2..]) == 0 && DigitRun(s[1..]) == 1 && DigitRun(s) == 2;
    var u := s[..2];
    assert u[..1] == [s[0]] && u[1] == s[1] && [s[0]][..0] == [];
    assert NumberOf([s[0]]) == DigitValue(s[0]);
  }

  lemma ClockReads(hh: nat, mm: nat)
    requires InRange(hh, mm)
    ensures Hours(Clock(hh, mm)) == hh && Minutes(Clock(hh, mm)) == mm
  {
    var c := Clock(hh, mm);
    AtoiTwo(c);
    AtoiTwo(c[3..]);
    assert IndexOf(c[2..], ':') == 0 && IndexOf(c[1..], ':') == 1 && IndexOf(c, ':') == 2;
  }

  lemma {:induction false} IndexAfter(a: string, c: char, b: string)
    requires forall i :: 0 <= i < |a| ==> a[i] != c
    ensures IndexOf(a + [c] + b, c) == |a|
  {
    if a != "" {
      assert (a + [c] + b)[1..] == a[1..] + [c] + b;
      IndexAfter(a[1..], c, b);
    }
  }

  lemma DailyReads(hh: nat, mm: nat)
    requires InRange(hh, mm)
    ensures PlanOf("daily@" + Clock(hh, mm)) == Daily(hh, mm)
  {
    hide Hours, Minutes;
    ClockReads(hh, mm);
    assert ("daily@" + Clock(hh, mm))[6..] == Clock(hh, mm);
  }

  /** The text begins with the three letters of a day, counted from Sunday, in upper or lower case. */
  predicate NamesDay(s: string, k: nat)
    requires k < 7
  {
    var day := [['S', 'U', 'N'], ['M', 'O', 'N'], ['T', 'U', 'E'], ['W', 'E', 'D'], ['T', 'H', 'U'], ['F', 'R', 'I'],
                ['S', 'A', 'T']][k];
    |s| >= 3 && ToUpper(s[0]) == day[0] && ToUpper(s[1]) == day[1] && ToUpper(s[2]) == day[2]
  }

  lemma UpperThree(s: string)
    requires |s| == 3
    ensures Upper(s) == [ToUpper(s[0]), ToUpper(s[1]), ToUpper(s[2])]
  {
    assert s[1..][0] == s[1] && s[1..][1..] == s[2..] && s[2..][0] == s[2] && s[2..][1..] == "";
    assert Upper(s[2..]) == [ToUpper(s[2])];
    assert Upper(s[1..]) == [ToUpper(s[1])] + Upper(s[2..]);
  }

  lemma SameThreeIff(s: string, name: string)
    requires |name| == 3
    ensures SameThree(s, name) <==>
            |s| >= 3 && ToUpper(s[0]) == ToUpper(name[0]) && ToUpper(s[1]) == ToUpper(name[1]) &&
            ToUpper(s[2]) == ToUpper(name[2])
  {
    UpperThree(name);
    if |s| >= 3 {
      var t := s[..3];
      UpperThree(t);
      assert t[0] == s[0] && t[1] == s[1] && t[2] == s[2];
      var a, b := Upper(t), Upper(name);
      assert a == b <==> a[0] == b[0] && a[1] == b[1] && a[2] == b[2];
    }
  }

  lemma EachDay(s: string)
    ensures SameThree(s, "Sun") == NamesDay(s, 0) && SameThree(s, "Mon") == NamesDay(s, 1)
    ensures SameThree(s, "Tue") == NamesDay(s, 2) && SameThree(s, "Wed") == NamesDay(s, 3)
    ensures SameThree(s, "Thu") == NamesDay(s, 4) && SameThree(s, "Fri") == NamesDay(s, 5)
    ensures SameThree(s, "Sat") == NamesDay(s, 6)
  {
    hide SameThree;
    SameThreeIff(s, "Sun");
    SameThreeIff(s, "Mon");
    SameThreeIff(s, "Tue");
    SameThreeIff(s, "Wed");
    SameThreeIff(s, "Thu");
    SameThreeIff(s, "Fri");
    SameThreeIff(s, "Sat");
  }

  lemma OneDay(s: string, j: nat, k: nat)
    requires j < 7 && k < 7 && NamesDay(s, j) && NamesDay(s, k)
    ensures j == k
  {
  }

  /** A day is known by its first three letters, and the name of no day gives -1. */
  lemma DayIsKnown(s: string, k: nat)
    requires k < 7
    ensures ParseDayOfWeek(s) == k <==> NamesDay(s, k)
    ensures -1 <= ParseDayOfWeek(s) < 7
  {
    hide SameThree, NamesDay;
    EachDay(s);
    var d := ParseDayOfWeek(s);
    if d >= 0 {
      assert NamesDay(s, d);
      if NamesDay(s, k) {
        OneDay(s, d, k);
      }
    }
  }

  lemma WeeklyReads(day: string, k: nat, hh: nat, mm: nat)
    requires InRange(hh, mm) && k < 7 && 3 <= |day| <= 7 && NamesDay(day, k)
    requires forall i :: 0 <= i < |day| ==> day[i] != '@'
    ensures PlanOf("weekly:" + (day + ['@'] + Clock(hh, mm))) == Weekly(k, hh, mm)
  {
    hide Hours, Minutes, ParseDayOfWeek, NamesDay;
    DayIsKnown(day, k);
    ClockReads(hh, mm);
    var rest := day + ['@'] + Clock(hh, mm);
    var s := "weekly:" + rest;
    IndexAfter(day, '@', Clock(hh, mm));
    assert s[7..] == rest && s[0] == 'w';
    assert rest[..|day|] == day && rest[|day| + 1..] == Clock(hh, mm);
  }

  lemma MonthlyReads(day: nat, hh: nat, mm: nat)
    requires InRange(hh, mm) && 1 <= day <= 31
    ensures PlanOf("monthly:" + (Decimal(day) + ['@'] + Clock(hh, mm))) == Monthly(day, hh, mm)
  {
    hide Hours, Minutes, Atoi, Decimal;
    ClockReads(hh, mm);
    var d := Decimal(day);
    var rest := d + ['@'] + Clock(hh, mm);
    var s := "monthly:" + rest;
    assert forall i :: 0 <= i < |d| ==> IsDigit(d[i]);
    IndexAfter(d, '@', Clock(hh, mm));
    AtoiDecimal(day, ['@'] + Clock(hh, mm));
    assert d + (['@'] + Clock(hh, mm)) == rest;
    assert s[8..] == rest && s[0] == 'm';
    assert rest[|d| + 1..] == Clock(hh, mm);
  }

  /** "every:N" is every N seconds; without a positive number, every five minutes. */
  lemma EveryReads(n: nat)
    ensures PlanOf("every:" + Decimal(n)) == Every(if n == 0 then 300 else n)
    ensures PlanOf("every:-" + Decimal(n)) == PlanOf("every:") == Every(300)
  {
    hide Atoi, Decimal;
    AtoiDecimal(n, "");
    MinusReads(n);
    NoNumber();
    assert Decimal(n) + "" == Decimal(n);
    var s, t := "every:" + Decimal(n), "every:-" + Decimal(n);
    assert s[6..] == Decimal(n) && t[6..] == "-" + Decimal(n) && "every:"[6..] == "";
    assert s[0] == t[0] == 'e';
  }

  lemma NoNumber()
    ensures Atoi("") == 0
  {
  }

  lemma MinusReads(n: nat)
    ensures Atoi("-" + Decimal(n)) <= 0
  {
    var s := "-" + Decimal(n);
    assert SkipSpaces(s, 0) == 0 && s[0..] == s;
  }

  /** Anything else is hourly: another word, a weekly or monthly schedule without '@',
      a day that is none. */
  lemma OtherwiseHourly(s: string)
    requires !("daily@" <= s) && !("every:" <= s)
    requires "weekly:" <= s ==>
               (forall i :: 7 <= i < |s| ==> s[i] != '@') ||
               forall k :: 0 <= k < 7 ==> !NamesDay(s[7..], k)
    requires "monthly:" <= s ==>
               (forall i :: 8 <= i < |s| ==> s[i] != '@') || Atoi(s[8..]) < 1 || Atoi(s[8..]) > 31
    ensures PlanOf(s) == Every(3600)
  {
    hide Atoi, Hours, Minutes, ParseDayOfWeek, NamesDay;
    if "weekly:" <= s {
      var rest := s[7..];
      var name := DayName(rest[..IndexOf(rest, '@')]);
      assert s[0] == 'w';
      if forall k :: 0 <= k < 7 ==> !NamesDay(rest, k) {
        NoDayInFront(rest, name);
      }
    } else if "monthly:" <= s {
      assert s[0] == 'm';
    }
  }

  lemma NoDayInFront(rest: string, name: string)
    requires name <= rest && forall k :: 0 <= k < 7 ==> !NamesDay(rest, k)
    ensures ParseDayOfWeek(name) == -1
  {
    hide ParseDayOfWeek;
    assert forall k :: 0 <= k < 7 ==> !NamesDay(name, k) by {
      assert forall k :: 0 <= k < 7 && NamesDay(name, k) ==> NamesDay(rest, k);
    }
    DayIsKnown(name, 0);
    if ParseDayOfWeek(name) >= 0 {
      DayIsKnown(name, ParseDayOfWeek(name));
    }
  }
}
