/** The schedule service: the stored list of schedules with add, update and
    delete by id, the "today" and "upcoming" views, and the parser that turns
    a spoken sentence into a schedule draft. The list that the service reads
    from and writes back to browser storage as a whole is the field
    `schedules`; a read that fails leaves it empty. The current instant is the
    parameter `nowMs` (milliseconds since the epoch, local time taken to be
    UTC). */
module ScheduleService {
  import opened Text
  import opened Calendar
  import opened Store
  import opened Collections
  import opened Patterns

  // ---------------------------------------------------------------------------
  // Selections used with the stored list

  function HasId(id: string): Schedule -> bool { (s: Schedule) => s.id == id }

  function OtherId(id: string): Schedule -> bool { (s: Schedule) => s.id != id }

  function OnDate(date: string): Schedule -> bool { (s: Schedule) => s.date == date }

  /** `new Date(s.date)` lies in [now, now + days days]. A date that does not
      parse is an invalid date, and every comparison with it is false. */
  predicate InWindow(nowMs: int, days: int, s: Schedule) {
    match ParseIsoDate(s.date)
    case None => false
    case Some(d) => nowMs <= d * MsPerDay <= nowMs + days * MsPerDay
  }

  function Within(nowMs: int, days: int): Schedule -> bool { (s: Schedule) => InWindow(nowMs, days, s) }

  /** Minutes past midnight of a time "HH:MM" as a date-time string accepts it. */
  function ClockMinutes(t: string): Option<int> {
    if |t| == 5 && t[2] == ':' && AllDigits(t[..2]) && AllDigits(t[3..]) then
      var h, m := DigitsValue(t[..2]), DigitsValue(t[3..]);
      if (h < 24 && m < 60) || (h == 24 && m == 0) then Some(h * 60 + m) else None
    else None
  }

  /** `new Date(`${date}T${time}`).getTime()`, the sort key of the upcoming
      view; an unreadable time counts as midnight of the day. */
  function StartKey(s: Schedule): int {
    match ParseIsoDate(s.date)
    case None => 0
    case Some(d) =>
      d * MsPerDay + (match ClockMinutes(s.time) case Some(m) => m * 60000 case None => 0)
  }

  // ---------------------------------------------------------------------------
  // The stored list

  class ScheduleStore {
    var schedules: seq<Schedule>

    /** The list as read from empty storage. */
    constructor ()
      ensures schedules == []
    {
      schedules := [];
    }

    /** `addSchedule`: the new record goes after all stored ones. */
    method AddSchedule(draft: ScheduleDraft, id: string, createdAt: int) returns (created: Schedule)
      modifies this
      ensures created.id == id && created.createdAt == createdAt
      ensures created.title == draft.title && created.description == draft.description
      ensures created.date == draft.date && created.time == draft.time
      ensures schedules == old(schedules) + [created]
    {
      created := NewSchedule(draft, id, createdAt);
      schedules := schedules + [created];
    }

    /** `updateSchedule`: the first record with the id gets the given fields;
        `None` (null) and no write when there is none. */
    method UpdateSchedule(id: string, updates: ScheduleChanges) returns (r: Option<Schedule>)
      modifies this
      ensures r.None? <==> forall j :: 0 <= j < |old(schedules)| ==> old(schedules)[j].id != id
      ensures r.None? ==> schedules == old(schedules)
      ensures r.Some? ==>
        exists i :: 0 <= i < |old(schedules)| && old(schedules)[i].id == id &&
          (forall j :: 0 <= j < i ==> old(schedules)[j].id != id) &&
          r.value == MergeSchedule(old(schedules)[i], updates) &&
          schedules == old(schedules)[i := r.value]
    {
      var index := FindIndex(schedules, HasId(id));
      if index.None? {
        return None;
      }
      var i := index.value;
      var updated := MergeSchedule(schedules[i], updates);
      schedules := schedules[i := updated];
      r := Some(updated);
    }

    /** `deleteSchedule`: every record with the id goes, the others keep their
        order; false, and no write, when no record has the id. */
    method DeleteSchedule(id: string) returns (deleted: bool)
      modifies this
      ensures deleted <==> exists j :: 0 <= j < |old(schedules)| && old(schedules)[j].id == id
      ensures schedules == if deleted then Filter(old(schedules), OtherId(id)) else old(schedules)
    {
      var filtered := Filter(schedules, OtherId(id));
      FilterKeepsAll(schedules, OtherId(id));
      if |filtered| == |schedules| {
        return false;
      }
      schedules := filtered;
      return true;
    }
  }

  /** `getTodaySchedules()` over the stored list: the records dated today,
      in stored order. */
  function TodaySchedules(schedules: seq<Schedule>, nowMs: int): (r: seq<Schedule>)
    ensures |r| <= |schedules|
    ensures forall i :: 0 <= i < |r| ==> r[i] in schedules && r[i].date == IsoDate(DayOf(nowMs))
    ensures forall j :: 0 <= j < |schedules| && schedules[j].date == IsoDate(DayOf(nowMs)) ==>
      schedules[j] in r
  {
    Filter(schedules, OnDate(IsoDate(DayOf(nowMs))))
  }

  /** The today view keeps the stored order: the view of a list split in two
      is the view of the first part followed by that of the second, and a
      single record shows exactly when it is dated today. */
  lemma TodaySchedulesConcat(a: seq<Schedule>, b: seq<Schedule>, nowMs: int)
    ensures TodaySchedules(a + b, nowMs) == TodaySchedules(a, nowMs) + TodaySchedules(b, nowMs)
  {
    FilterConcat(a, b, OnDate(IsoDate(DayOf(nowMs))));
  }

  lemma TodaySchedulesSingle(s: Schedule, nowMs: int)
    ensures TodaySchedules([s], nowMs) == if s.date == IsoDate(DayOf(nowMs)) then [s] else []
  {
    assert [s][1..] == [];
  }

  /** `getUpcomingSchedules(days)` over the stored list: the records whose
      date falls in the window, in ascending order of their start. */
  function UpcomingSchedules(schedules: seq<Schedule>, nowMs: int, days: int): (r: seq<Schedule>)
    ensures SortedBy(r, StartKey)
    ensures multiset(r) == multiset(Filter(schedules, Within(nowMs, days)))
    ensures multiset(r) <= multiset(schedules)
    ensures forall i :: 0 <= i < |r| ==> r[i] in schedules && InWindow(nowMs, days, r[i])
    ensures forall j :: 0 <= j < |schedules| && InWindow(nowMs, days, schedules[j]) ==>
      schedules[j] in r
  {
    var f := Filter(schedules, Within(nowMs, days));
    FilterSubMultiset(schedules, Within(nowMs, days));
    var r := SortBy(f, StartKey);
    PermutedFilter(r, schedules, Within(nowMs, days));
    r
  }

  /** A schedule dated today is not upcoming once the day has begun: the
      window starts at the current instant, the date at midnight. */
  lemma TodayMissesUpcoming(nowMs: int, days: int, s: Schedule)
    requires 0 <= CivilFromDays(DayOf(nowMs)).year <= 9999
    requires s.date == IsoDate(DayOf(nowMs))
    requires nowMs % MsPerDay != 0
    ensures !InWindow(nowMs, days, s)
  {
    IsoDateRoundTrip(DayOf(nowMs));
  }

  /** The one-day window holds tomorrow, and today only when it is exactly
      midnight. */
  lemma OneDayWindow(nowMs: int, s: Schedule)
    requires InWindow(nowMs, 1, s)
    ensures ParseIsoDate(s.date).Some?
    ensures var d := ParseIsoDate(s.date).value;
      d == DayOf(nowMs) + 1 || (d == DayOf(nowMs) && nowMs % MsPerDay == 0)
  {
    var d := ParseIsoDate(s.date).value;
    var t := DayOf(nowMs);
    assert nowMs == t * MsPerDay + nowMs % MsPerDay;
  }

  // ---------------------------------------------------------------------------
  // The natural-language parser

  /** The time patterns, in the order they are tried. */
  const TimePatterns: seq<Pattern> := [HourMinute, ColonTime, Meridiem("오전"), Meridiem("오후")]

  /** The date patterns, in the order they are tried. */
  const DatePatterns: seq<Pattern> :=
    [Literal("오늘"), Literal("내일"), Literal("모레"), MonthDay, SlashDate, WeekdayName]

  /** `['일', '월', '화', '수', '목', '금', '토']`, indexed by `getDay()`. */
  const DayNames: seq<string> := ["일", "월", "화", "수", "목", "금", "토"]

  /** "HH:MM": two digits, a colon, two digits. */
  predicate IsClockText(t: string) {
    |t| == 5 && t[2] == ':' && AllDigits(t[..2]) && AllDigits(t[3..])
  }

  /** `match[k] ? parseInt(match[k]) : 0`. */
  function GroupValue(g: Option<string>): (n: nat)
    requires NumberGroup(g)
    ensures n < 100
    ensures g.Some? ==> n == DigitsValue(g.value)
  {
    if g.Some? then DigitsValue(g.value) else 0
  }

  /** `${hh}:${mm}` with both parts padded to two digits. */
  function ClockText(hour: nat, minute: nat): (t: string)
    ensures hour < 100 && minute < 100 ==>
      IsClockText(t) && DigitsValue(t[..2]) == hour && DigitsValue(t[3..]) == minute
  {
    var hh, mm := Pad2(hour), Pad2(minute);
    if hour < 100 && minute < 100 then ClockShape(hh, mm); hh + ":" + mm
    else hh + ":" + mm
  }

  lemma ClockShape(hh: string, mm: string)
    requires |hh| == 2 && |mm| == 2 && AllDigits(hh) && AllDigits(mm)
    ensures IsClockText(hh + ":" + mm)
    ensures (hh + ":" + mm)[..2] == hh && (hh + ":" + mm)[3..] == mm
  {
    var t := hh + ":" + mm;
    assert t[..2] == hh && t[3..] == mm;
  }

  /** The hour after the AM/PM correction of the pattern that matched. */
  function CorrectedHour(p: Pattern, h: nat): nat {
    if p.Meridiem? && Contains(p.marker, "오후") then h + (if h == 12 then 0 else 12)
    else if p.Meridiem? && Contains(p.marker, "오전") then (if h == 12 then 0 else h)
    else h
  }

  /** The time text the time loop builds from a match of `p`. */
  function TimeText(p: Pattern, m: Match): (t: string)
    requires NumberGroup(m.group1) && NumberGroup(m.group2)
    ensures !p.Meridiem? ==> IsClockText(t)
    ensures !p.Meridiem? ==>
      DigitsValue(t[..2]) == GroupValue(m.group1) && DigitsValue(t[3..]) == GroupValue(m.group2)
  {
    ClockText(CorrectedHour(p, GroupValue(m.group1)), GroupValue(m.group2))
  }

  /** Days from the weekday `current` to the next `target`, counting a week
      when they are the same day. */
  function DaysUntil(current: int, target: int): int {
    var d := target - current;
    if d <= 0 then d + 7 else d
  }

  function IsName(x: string): string -> bool { (n: string) => n == x }

  /** `dayNames.indexOf(match[1])`, -1 when absent. */
  function DayIndex(g: Option<string>): int {
    if g.None? then -1
    else match FindIndex(DayNames, IsName(g.value))
      case None => -1
      case Some(i) => i
  }

  /** `setMonth(month - 1, day)` on today, then, if that lies before today,
      `setFullYear` of the following year. */
  function MonthDayTarget(today: int, month: int, day: int): int {
    MonthDayIn(today, CivilFromDays(today).year, month, day)
  }

  /** The same, with `y` the year of today. */
  function MonthDayIn(today: int, y: int, month: int, day: int): int {
    var t := MakeDay(y, month - 1, day);
    if t < today then NextYearOf(t, y) else t
  }

  /** `setFullYear(y + 1)` on the day t: its month and day in the year y + 1. */
  function NextYearOf(t: int, y: int): int {
    var tc := CivilFromDays(t);
    MakeDay(y + 1, tc.month - 1, tc.day)
  }

  /** The day a date match designates, or `None` where the date loop leaves
      `date` empty. */
  function TargetDay(m: Match, today: int): Option<int>
    requires NumberGroup(m.group2)
    requires m.group2.Some? ==> NumberGroup(m.group1)
  {
    if m.whole == "오늘" then Some(today)
    else if m.whole == "내일" then Some(today + 1)
    else if m.whole == "모레" then Some(today + 2)
    else if m.group1.Some? && m.group1.value != [] && m.group2.Some? && m.group2.value != [] then
      Some(MonthDayTarget(today, DigitsValue(m.group1.value), DigitsValue(m.group2.value)))
    else if Contains(m.whole, "요일") then
      Some(today + DaysUntil(Weekday(today), DayIndex(m.group1)))
    else None
  }

  /** A match found by one of the patterns has the groups its pattern declares. */
  lemma FirstMatchShaped(ps: seq<Pattern>, s: string)
    requires forall j :: 0 <= j < |ps| ==> !ps[j].WeekdayName? || ps[j] == WeekdayName
    ensures FirstMatch(ps, s, 0).Some? ==>
      var (k, m) := FirstMatch(ps, s, 0).value;
      Shaped(ps[k], s, m.start, m)
  {
  }

  lemma TimePatternsShaped(s: string)
    ensures FirstMatch(TimePatterns, s, 0).Some? ==>
      var m := FirstMatch(TimePatterns, s, 0).value.1;
      NumberGroup(m.group1) && NumberGroup(m.group2)
  {
    FirstMatchShaped(TimePatterns, s);
  }

  lemma DatePatternsShaped(s: string)
    ensures FirstMatch(DatePatterns, s, 0).Some? ==>
      var (k, m) := FirstMatch(DatePatterns, s, 0).value;
      NumberGroup(m.group2) && (m.group2.Some? ==> NumberGroup(m.group1)) &&
      (DatePatterns[k] == WeekdayName ==> m.group1.Some? && |m.group1.value| == 1 &&
                                          m.group1.value[0] in WeekdayChars)
  {
    FirstMatchShaped(DatePatterns, s);
  }

  /** The time the parser extracts, "" when no time pattern matches. */
  function ExtractedTime(text: string): string {
    TimePatternsShaped(text);
    match FirstMatch(TimePatterns, text, 0)
    case None => ""
    case Some((k, m)) => TimeText(TimePatterns[k], m)
  }

  /** The title once the matched time text is cut out. */
  function TitleAfterTime(text: string): string {
    match FirstMatch(TimePatterns, text, 0)
    case None => text
    case Some((_, m)) => Trim(RemoveFirst(text, m.whole))
  }

  /** The day the date loop designates, if any. */
  function ExtractedDay(text: string, today: int): Option<int> {
    DatePatternsShaped(text);
    match FirstMatch(DatePatterns, text, 0)
    case None => None
    case Some((_, m)) => TargetDay(m, today)
  }

  /** The title once the matched date text is cut out as well. */
  function TitleAfterDate(text: string, title: string): string {
    match FirstMatch(DatePatterns, text, 0)
    case None => title
    case Some((_, m)) => Trim(RemoveFirst(title, m.whole))
  }

  /** The day the parsed schedule is dated: the extracted one, else today. */
  function ParsedDay(text: string, today: int): int {
    match ExtractedDay(text, today)
    case None => today
    case Some(d) => d
  }

  /** The time of the parsed schedule: the extracted one, else "09:00". */
  function ParsedTime(text: string): string {
    var time := ExtractedTime(text);
    if time == "" then "09:00" else time
  }

  /** The title of the parsed schedule: what is left of the text with white
      space collapsed, else "새 일정". */
  function ParsedTitle(text: string): string {
    CleanTitle(TitleAfterDate(text, TitleAfterTime(text)))
  }

  /** The final clean-up of a title: white space collapsed and trimmed, and
      "새 일정" when nothing is left. */
  function CleanTitle(raw: string): string {
    var title := Trim(CollapseSpaces(raw));
    if title == "" then "새 일정" else title
  }

  /** The whole result of `parseNaturalLanguageSchedule(text)` at `nowMs`. */
  function ParsedSchedule(text: string, nowMs: int): ScheduleDraft {
    ScheduleDraft(ParsedTitle(text), "", IsoDate(ParsedDay(text, DayOf(nowMs))), ParsedTime(text))
  }

  /** The time loop of `parseNaturalLanguageSchedule`: the first time pattern
      that matches gives the time, and its whole match is cut from the title. */
  method TakeTime(text: string) returns (time: string, title: string)
    ensures time == ExtractedTime(text) && title == TitleAfterTime(text)
  {
    time := "";
    title := text;
    for k := 0 to |TimePatterns|
      invariant FirstMatch(TimePatterns, text, k) == FirstMatch(TimePatterns, text, 0)
      invariant time == "" && title == text
    {
      var found := Exec(TimePatterns[k], text);
      if found.Some? {
        var m := found.value;
        TimePatternsShaped(text);
        time := TimeText(TimePatterns[k], m);
        title := Trim(RemoveFirst(title, m.whole));
        break;
      }
    }
  }

  /** The date loop of `parseNaturalLanguageSchedule`: the first date pattern
      that matches gives the day, if it names one, and its whole match is cut
      from the title left by the time loop. */
  method TakeDate(text: string, afterTime: string, today: int) returns (date: string, title: string)
    ensures title == TitleAfterDate(text, afterTime)
    ensures date == match ExtractedDay(text, today) case None => "" case Some(d) => IsoDate(d)
  {
    date := "";
    title := afterTime;
    for k := 0 to |DatePatterns|
      invariant FirstMatch(DatePatterns, text, k) == FirstMatch(DatePatterns, text, 0)
      invariant date == "" && title == afterTime
    {
      var found := Exec(DatePatterns[k], text);
      if found.Some? {
        var m := found.value;
        DatePatternsShaped(text);
        var target := TargetDay(m, today);
        if target.Some? {
          date := IsoDate(target.value);
        }
        title := Trim(RemoveFirst(title, m.whole));
        break;
      }
    }
  }

  /** `parseNaturalLanguageSchedule`: the time loop, the date loop, the
      defaults and the title clean-up, in the source's order. */
  method ParseNaturalLanguageSchedule(text: string, nowMs: int) returns (r: ScheduleDraft)
    ensures r == ParsedSchedule(text, nowMs)
    ensures r.description == ""
    ensures r.title != [] && Normalized(r.title)
    ensures IsClockText(r.time)
  {
    var time, title := TakeTime(text);
    var today := DayOf(nowMs);
    var date;
    date, title := TakeDate(text, title, today);

    if date == "" {
      date := IsoDate(today);
    }
    if time == "" {
      time := "09:00";
    }
    title := Trim(CollapseSpaces(title));
    if title == "" {
      title := "새 일정";
    }
    assert title == ParsedTitle(text);
    ParsedTimeIsClock(text);
    ParsedTitleNormalized(text);
    r := ScheduleDraft(title, "", date, time);
  }

  // ---------------------------------------------------------------------------
  // What the parser promises

  /** The AM and PM patterns are never the first to match: whenever one of
      them matches, the bare hour pattern before them matches as well. */
  lemma {:induction false} MeridiemNeverFirst(text: string)
    ensures FirstMatch(TimePatterns, text, 0).Some? ==> FirstMatch(TimePatterns, text, 0).value.0 < 2
  {
    var r := FirstMatch(TimePatterns, text, 0);
    if r.Some? && r.value.0 >= 2 {
      MeridiemImpliesHourMinute(TimePatterns[r.value.0].marker, text);
    }
  }

  /** The extracted time is always "HH:MM" (the hour and minute are not
      range-checked), and "09:00" when the text names no time. */
  lemma ParsedTimeIsClock(text: string)
    ensures IsClockText(ParsedTime(text))
    ensures FirstMatch(TimePatterns, text, 0).None? ==> ParsedTime(text) == "09:00"
  {
    MeridiemNeverFirst(text);
    TimePatternsShaped(text);
    var r := FirstMatch(TimePatterns, text, 0);
    if r.Some? {
      var (k, m) := r.value;
      assert !TimePatterns[k].Meridiem?;
      assert ExtractedTime(text) == TimeText(TimePatterns[k], m);
    }
  }

  /** The hour and minute of the time are the numbers of the first bare-hour or
      colon match, never an AM/PM-adjusted hour. */
  lemma ParsedTimeDigits(text: string)
    requires FirstMatch(TimePatterns, text, 0).Some?
    ensures var (k, m) := FirstMatch(TimePatterns, text, 0).value;
      var t := ParsedTime(text);
      k < 2 && NumberGroup(m.group1) && NumberGroup(m.group2) &&
      DigitsValue(t[..2]) == GroupValue(m.group1) && DigitsValue(t[3..]) == GroupValue(m.group2)
  {
    MeridiemNeverFirst(text);
    TimePatternsShaped(text);
    var (k, m) := FirstMatch(TimePatterns, text, 0).value;
    assert !TimePatterns[k].Meridiem?;
    assert ExtractedTime(text) == TimeText(TimePatterns[k], m);
  }

  /** The title is never empty and carries no stray white space. */
  lemma ParsedTitleNormalized(text: string)
    ensures ParsedTitle(text) != []
    ensures Normalized(ParsedTitle(text))
  {
    CleanTitleNormalized(TitleAfterDate(text, TitleAfterTime(text)));
  }

  lemma CleanTitleNormalized(raw: string)
    ensures CleanTitle(raw) != [] && Normalized(CleanTitle(raw))
  {
    CollapseThenTrim(raw);
  }

  /** A weekday name designates a day one to seven days ahead that falls on
      that weekday: never today. */
  lemma {:induction false} WeekdayAhead(today: int, target: int)
    requires 0 <= target < 7
    ensures 1 <= DaysUntil(Weekday(today), target) <= 7
    ensures Weekday(today + DaysUntil(Weekday(today), target)) == target
  {
    var w := Weekday(today);
    var k := DaysUntil(w, target);
    assert today + 4 == 7 * ((today + 4) / 7) + w;
    assert today + k + 4 == 7 * ((today + 4) / 7) + (w + k);
    assert w + k == target || w + k == target + 7;
  }

  /** Each weekday character of the pattern is one of the day names. */
  lemma DayIndexOfWeekday(c: char)
    requires c in WeekdayChars
    ensures 0 <= DayIndex(Some([c])) < 7
    ensures DayNames[DayIndex(Some([c]))] == [c]
  {
    var j :| 0 <= j < |WeekdayChars| && WeekdayChars[j] == c;
    var k := if j == 6 then 0 else j + 1;
    assert DayNames[k] == [c];
    assert IsName([c])(DayNames[k]);
  }

  /** A month and day never designate a past day: a date before today is
      moved into the following year. */
  lemma MonthDayNotPast(today: int, month: int, day: int)
    ensures MonthDayTarget(today, month, day) >= today
  {
    MonthDayInNotPast(today, CivilFromDays(today).year, month, day);
  }

  lemma MonthDayInNotPast(today: int, y: int, month: int, day: int)
    requires y == CivilFromDays(today).year
    ensures MonthDayIn(today, y, month, day) >= today
  {
    var t := MakeDay(y, month - 1, day);
    if t < today {
      NewYearAfter(today);
      NextYearOfAfter(today, t, y);
    }
  }

  lemma NextYearOfAfter(today: int, t: int, y: int)
    requires DaysFromCivil(y + 1, 1, 1) > today
    ensures NextYearOf(t, y) > today
  {
    var tc := CivilFromDays(t);
    MakeDayInYear(y + 1, tc.month - 1, tc.day);
  }

  /** `setFullYear(y + 1)` on a valid date of year y keeps its month and day. */
  lemma NextYearOfDate(y: int, month: int, day: int)
    requires ValidCivil(Civil(y, month, day))
    ensures NextYearOf(DaysFromCivil(y, month, day), y) == MakeDay(y + 1, month - 1, day)
  {
    CivilOfDays(Civil(y, month, day));
  }

  /** "M월 D일" names that date of the year y of today unless it is already
      past, and then the same month and day of the following year (when that
      year has the day; a 29 February otherwise overflows into March as
      `setFullYear` does). */
  lemma MonthDayInDate(today: int, y: int, month: int, day: int)
    requires ValidCivil(Civil(y, month, day))
    ensures var t := DaysFromCivil(y, month, day);
      && (t >= today ==> MonthDayIn(today, y, month, day) == t)
      && (t < today && day <= DaysInMonth(y + 1, month) ==>
            MonthDayIn(today, y, month, day) == DaysFromCivil(y + 1, month, day))
  {
    MakeDayOfCivil(Civil(y, month, day));
    if DaysFromCivil(y, month, day) < today {
      NextYearOfDate(y, month, day);
      if day <= DaysInMonth(y + 1, month) {
        MakeDayOfCivil(Civil(y + 1, month, day));
      }
    }
  }

  /** The same for the current year: the date as given unless it is past,
      else that month and day a year later. */
  lemma MonthDayDate(today: int, month: int, day: int)
    requires 1 <= month <= 12
    requires 1 <= day <= DaysInMonth(CivilFromDays(today).year, month)
    ensures var y := CivilFromDays(today).year;
      var t := DaysFromCivil(y, month, day);
      && (t >= today ==> MonthDayTarget(today, month, day) == t)
      && (t < today && day <= DaysInMonth(y + 1, month) ==>
            MonthDayTarget(today, month, day) == DaysFromCivil(y + 1, month, day))
  {
    MonthDayInDate(today, CivilFromDays(today).year, month, day);
  }

  /** The day of a parsed schedule is never in the past: relative words,
      month-day dates and weekday names all point to today or later. */
  lemma ParsedDayNotPast(text: string, today: int)
    ensures ParsedDay(text, today) >= today
  {
    DatePatternsShaped(text);
    var r := FirstMatch(DatePatterns, text, 0);
    if r.Some? {
      var (k, m) := r.value;
      if m.whole != "오늘" && m.whole != "내일" && m.whole != "모레" {
        if m.group1.Some? && m.group1.value != [] && m.group2.Some? && m.group2.value != [] {
          MonthDayNotPast(today, DigitsValue(m.group1.value), DigitsValue(m.group2.value));
        } else if Contains(m.whole, "요일") {
          WeekdayMatchAhead(text, today);
        }
      }
    }
  }

  /** A fixed word is found by its pattern exactly when the text contains it. */
  lemma LiteralFound(w: string, s: string)
    requires w != []
    ensures Exec(Literal(w), s).Some? <==> Contains(s, w)
  {
    if Contains(s, w) {
      var i := IndexOf(s, w).value;
      assert MatchAt(Literal(w), s, i).Some?;
      SearchFinds(Literal(w), s, i);
    }
    if Exec(Literal(w), s).Some? {
      assert OccursAt(s, w, Exec(Literal(w), s).value.start);
      ContainsIff(s, w);
    }
  }

  /** "오늘", "내일" and "모레" (the date patterns 0, 1 and 2) date the
      schedule today, tomorrow and the day after, the first of them in that
      order that the text contains winning. */
  lemma RelativeWordDay(text: string, today: int, k: nat)
    requires k < 3
    requires Contains(text, DatePatterns[k].word)
    requires forall j :: 0 <= j < k ==> !Contains(text, DatePatterns[j].word)
    ensures ParsedDay(text, today) == today + k
  {
    forall j | 0 <= j < k ensures Exec(DatePatterns[j], text).None? {
      LiteralFound(DatePatterns[j].word, text);
    }
    LiteralFound(DatePatterns[k].word, text);
    FirstMatchShaped(DatePatterns, text);
    var (i, m) := FirstMatch(DatePatterns, text, 0).value;
    assert i == k;
    assert m.whole == DatePatterns[k].word;
  }

  /** A weekday-name match designates the next day after today that falls
      on the named weekday. */
  lemma WeekdayTarget(m: Match, today: int)
    requires m.group2.None? && m.group1.Some? && |m.group1.value| == 1 && m.group1.value[0] in WeekdayChars
    requires m.whole != "오늘" && m.whole != "내일" && m.whole != "모레" && Contains(m.whole, "요일")
    ensures TargetDay(m, today).Some?
    ensures today + 1 <= TargetDay(m, today).value <= today + 7
    ensures DayNames[Weekday(TargetDay(m, today).value)] == m.group1.value
  {
    var c := m.group1.value[0];
    assert m.group1.value == [c];
    DayIndexOfWeekday(c);
    WeekdayAhead(today, DayIndex(m.group1));
  }

  /** When the first date match is a weekday name, the day is the next such
      weekday after today. */
  lemma WeekdayMatchAhead(text: string, today: int)
    requires FirstMatch(DatePatterns, text, 0).Some?
    requires var m := FirstMatch(DatePatterns, text, 0).value.1;
      m.group2.None? && m.whole != "오늘" && m.whole != "내일" && m.whole != "모레" &&
      Contains(m.whole, "요일")
    ensures today + 1 <= ParsedDay(text, today) <= today + 7
    ensures DayNames[Weekday(ParsedDay(text, today))] ==
      FirstMatch(DatePatterns, text, 0).value.1.group1.value
  {
    var (k, m) := FirstMatch(DatePatterns, text, 0).value;
    assert m.group1.Some? && |m.group1.value| == 1 && m.group1.value[0] in WeekdayChars by {
      DatePatternsShaped(text);
      assert DatePatterns[k] == WeekdayName;
    }
    WeekdayTarget(m, today);
    assert ParsedDay(text, today) == TargetDay(m, today).value;
  }

  /** The bare hour pattern finds "3시" inside "오후 3시". */
  lemma AfternoonMatch()
    ensures FirstMatch(TimePatterns, "오후 3시", 0) == Some((0, Match(3, "3시", Some("3"), None)))
  {
    var s := "오후 3시";
    assert MatchAt(HourMinute, s, 0).None?;
    assert MatchAt(HourMinute, s, 1).None?;
    assert MatchAt(HourMinute, s, 2).None?;
    assert DigitsThen(s, 3, "시") == 1;
    assert SkipSpaces(s, 5) == 5;
    assert DigitsThen(s, 5, "분") == 0;
    assert s[3..4] == "3" && s[3..5] == "3시";
    assert HourAt(s, 3) == Some(HourPart(5, "3", None));
    var m := Match(3, "3시", Some("3"), None);
    assert MatchAt(HourMinute, s, 3) == Some(m);
    assert Exec(HourMinute, s) == Some(m);
  }

  /** When the bare hour pattern matches first without minutes, the time is
      that hour on two digits and ":00". */
  lemma BareHourFirst(text: string, m: Match)
    requires FirstMatch(TimePatterns, text, 0) == Some((0, m))
    requires NumberGroup(m.group1) && m.group1.Some? && m.group2.None?
    ensures ParsedTime(text) == ClockText(DigitsValue(m.group1.value), 0)
  {
    assert ExtractedTime(text) == TimeText(HourMinute, m);
    assert |Pad2(0)| == 2;
  }

  lemma ThreeOClock()
    ensures ClockText(DigitsValue("3"), 0) == "03:00"
  {
    assert DigitsValue("3") == 3;
    assert Pad2(0) == "00" && Pad2(3) == "03";
  }

  lemma TwentyFiveOClock()
    ensures ClockText(DigitsValue("25"), 0) == "25:00"
  {
    assert DigitsValue("25") == 25;
    assert NatToString(25) == "25";
    assert Pad2(0) == "00" && Pad2(25) == "25";
  }

  /** "오후 3시" is read by the bare hour pattern, so the afternoon is lost:
      the time is "03:00", not "15:00". */
  lemma AfternoonReadAsWritten(text: string)
    requires text == "오후 3시"
    ensures ParsedTime(text) == "03:00"
  {
    AfternoonMatch();
    BareHourFirst(text, Match(3, "3시", Some("3"), None));
    ThreeOClock();
  }

  lemma TwentyFiveMatch()
    ensures FirstMatch(TimePatterns, "25시", 0) == Some((0, Match(0, "25시", Some("25"), None)))
  {
    var s := "25시";
    assert DigitsThen(s, 0, "시") == 2;
    assert SkipSpaces(s, 3) == 3;
    assert DigitsThen(s, 3, "분") == 0;
    assert s[0..2] == "25" && s[0..3] == "25시";
    assert HourAt(s, 0) == Some(HourPart(3, "25", None));
    var m := Match(0, "25시", Some("25"), None);
    assert MatchAt(HourMinute, s, 0) == Some(m);
    assert Exec(HourMinute, s) == Some(m);
  }

  /** Hours are not range-checked: "25시" gives "25:00". */
  lemma HourNotRangeChecked(text: string)
    requires text == "25시"
    ensures ParsedTime(text) == "25:00"
  {
    TwentyFiveMatch();
    BareHourFirst(text, Match(0, "25시", Some("25"), None));
    TwentyFiveOClock();
  }
}
