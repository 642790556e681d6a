/** The voice assistant: it classifies a transcribed sentence by keywords,
    hands it to the schedule service, the memo service, a greeting, a clock
    reply or a fallback, and composes the morning briefing. What the browser
    supplies (the clock, the locale's date and time formatting, the random
    pick among canned replies, the new record's id) is the environment `Env`. */
module VoiceAssistant {
  import opened Text
  import opened Calendar
  import opened Store
  import opened Collections
  import opened ScheduleService
  import opened MemoService

  /** `nowMs` is `Date.now()`; `pick` is `Math.floor(Math.random() * 4)`;
      `newId` is the id the next stored record gets; `clockText` and
      `dateText` are the locale's "HH:MM" and long date of `nowMs`;
      `localeDate` is `new Date(date).toLocaleDateString('ko-KR')`. */
  datatype Env = Env(
    nowMs: int,
    pick: nat,
    newId: string,
    clockText: string,
    dateText: string,
    localeDate: string -> string)

  // ---------------------------------------------------------------------------
  // Classification

  const ScheduleKeywords: seq<string> :=
    ["일정", "스케줄", "약속", "미팅", "회의", "만남", "등록", "추가", "저장", "알려줘", "확인", "조회"]

  const MemoKeywords: seq<string> :=
    ["메모", "기록", "저장해줘", "적어줘", "기억해줘", "노트", "메모해줘", "기록해줘"]

  const GreetingKeywords: seq<string> := ["안녕", "하이", "헬로", "좋은", "반가워", "처음", "시작"]

  const TimeKeywords: seq<string> := ["시간", "몇시", "언제", "지금", "현재", "오늘", "날짜"]

  /** `keywords.some(k => text.includes(k))`. */
  function ContainsAny(text: string, keywords: seq<string>): (r: bool)
    ensures r <==> exists k :: 0 <= k < |keywords| && Contains(text, keywords[k])
  {
    if keywords == [] then false
    else if Contains(text, keywords[0]) then true
    else
      var rest := ContainsAny(text, keywords[1..]);
      assert forall k :: 1 <= k < |keywords| ==> keywords[k] == keywords[1..][k - 1];
      rest
  }

  /** Which handler `processCommand` hands a lower-cased, trimmed text to. */
  datatype Intent = ScheduleIntent | MemoIntent | GreetingIntent | TimeIntent | Fallback

  function Classify(t: string): Intent {
    if ContainsAny(t, ScheduleKeywords) then ScheduleIntent
    else if ContainsAny(t, MemoKeywords) then MemoIntent
    else if ContainsAny(t, GreetingKeywords) then GreetingIntent
    else if ContainsAny(t, TimeKeywords) then TimeIntent
    else Fallback
  }

  /** A text that contains `keywords[k]` contains one of `keywords`. */
  lemma KeywordFound(t: string, keywords: seq<string>, k: nat)
    requires k < |keywords| && Contains(t, keywords[k])
    ensures ContainsAny(t, keywords)
  {
  }

  /** The fallback is chosen exactly when no keyword of any list occurs. */
  lemma FallbackIffNoKeyword(t: string)
    ensures Classify(t) == Fallback <==>
      forall k :: 0 <= k < |ScheduleKeywords + MemoKeywords + GreetingKeywords + TimeKeywords| ==>
        !Contains(t, (ScheduleKeywords + MemoKeywords + GreetingKeywords + TimeKeywords)[k])
  {
    var all := ScheduleKeywords + MemoKeywords + GreetingKeywords + TimeKeywords;
    if Classify(t) != Fallback {
      if ContainsAny(t, ScheduleKeywords) {
        var k :| 0 <= k < |ScheduleKeywords| && Contains(t, ScheduleKeywords[k]);
        assert all[k] == ScheduleKeywords[k];
      } else if ContainsAny(t, MemoKeywords) {
        var k :| 0 <= k < |MemoKeywords| && Contains(t, MemoKeywords[k]);
        assert all[12 + k] == MemoKeywords[k];
      } else if ContainsAny(t, GreetingKeywords) {
        var k :| 0 <= k < |GreetingKeywords| && Contains(t, GreetingKeywords[k]);
        assert all[20 + k] == GreetingKeywords[k];
      } else {
        var k :| 0 <= k < |TimeKeywords| && Contains(t, TimeKeywords[k]);
        assert all[27 + k] == TimeKeywords[k];
      }
    } else {
      forall k | 0 <= k < |all| ensures !Contains(t, all[k]) {
        if k < 12 {
          assert all[k] == ScheduleKeywords[k];
        } else if k < 20 {
          assert all[k] == MemoKeywords[k - 12];
        } else if k < 27 {
          assert all[k] == GreetingKeywords[k - 20];
        } else {
          assert all[k] == TimeKeywords[k - 27];
        }
      }
    }
  }

  /** "저장" and "알려줘" are schedule keywords, so "메모 저장해줘" and
      "메모 알려줘" go to the schedule handler, never to the memo handler. */
  lemma SaveAndTellAreSchedule(t: string)
    requires Contains(t, "저장") || Contains(t, "알려줘")
    ensures Classify(t) == ScheduleIntent
  {
    if Contains(t, "저장") {
      KeywordFound(t, ScheduleKeywords, 8);
    } else {
      KeywordFound(t, ScheduleKeywords, 9);
    }
  }

  /** A text the memo handler receives contains neither "저장" nor the memo
      keyword "저장해줘", which would have made it a schedule command. */
  lemma MemoIntentHasNoSave(t: string)
    requires Classify(t) == MemoIntent
    ensures !Contains(t, "저장") && !Contains(t, "저장해줘")
  {
    if Contains(t, "저장해줘") {
      assert "저장해줘" == "저장" + "해줘";
      ContainsPrefixPart(t, "저장", "해줘");
    }
    if Contains(t, "저장") {
      SaveAndTellAreSchedule(t);
    }
  }

  // ---------------------------------------------------------------------------
  // Branch conditions inside the handlers

  predicate IsTodayQuery(t: string) {
    Contains(t, "오늘") && (Contains(t, "일정") || Contains(t, "스케줄"))
  }

  predicate IsRegisterCommand(t: string) {
    Contains(t, "등록") || Contains(t, "추가") || Contains(t, "저장")
  }

  predicate IsNextQuery(t: string) {
    Contains(t, "다음") || Contains(t, "다가오는")
  }

  predicate IsMemoSave(t: string) {
    Contains(t, "메모") || Contains(t, "기록") || Contains(t, "저장")
  }

  predicate IsRecentQuery(t: string) {
    Contains(t, "최근") || Contains(t, "마지막")
  }

  predicate IsClockQuery(t: string) {
    Contains(t, "시간") || Contains(t, "몇시")
  }

  predicate IsDateQuery(t: string) {
    Contains(t, "날짜") || Contains(t, "오늘")
  }

  /** In the memo handler the save branch is taken exactly for "메모" or
      "기록": its third test, for "저장", can never succeed there. */
  lemma MemoSaveNeedsMemoWord(t: string)
    requires Classify(t) == MemoIntent
    ensures IsMemoSave(t) <==> Contains(t, "메모") || Contains(t, "기록")
  {
    MemoIntentHasNoSave(t);
  }

  // ---------------------------------------------------------------------------
  // Removing the trigger phrases from a memo

  /** The alternatives of `/(메모해줘|기록해줘|저장해줘|적어줘|기억해줘)/gi`. */
  const Triggers: seq<string> := ["메모해줘", "기록해줘", "저장해줘", "적어줘", "기억해줘"]

  /** The length of the first alternative, from index k on, that occurs at
      the start of s; 0 when none does. */
  function TriggerFrom(s: string, k: nat): (n: nat)
    requires k <= |Triggers|
    ensures n <= |s|
    ensures n > 0 ==> exists j :: k <= j < |Triggers| && n == |Triggers[j]| && OccursAt(s, Triggers[j], 0)
    ensures n == 0 <==> forall j :: k <= j < |Triggers| ==> !OccursAt(s, Triggers[j], 0)
    decreases |Triggers| - k
  {
    if k == |Triggers| then 0
    else if OccursAt(s, Triggers[k], 0) then |Triggers[k]|
    else TriggerFrom(s, k + 1)
  }

  /** `s.replace(/(...)/gi, '')`: a left-to-right scan that cuts out every
      occurrence of an alternative and goes on after it, never looking again
      at text it has passed. The `i` flag changes nothing: Hangul has no case. */
  function RemoveTriggers(s: string): (r: string)
    ensures |r| <= |s|
    decreases |s|
  {
    if s == [] then []
    else
      var n := TriggerFrom(s, 0);
      if n > 0 then RemoveTriggers(s[n..]) else [s[0]] + RemoveTriggers(s[1..])
  }

  /** No alternative occurs anywhere in s. */
  predicate TriggerFree(s: string) {
    forall i, j :: 0 <= i <= |s| && 0 <= j < |Triggers| ==> !OccursAt(s, Triggers[j], i)
  }

  /** Text without a trigger phrase is left as it is. */
  lemma {:induction false} TriggerFreeKept(s: string)
    requires TriggerFree(s)
    ensures RemoveTriggers(s) == s
  {
    if s != [] {
      assert TriggerFrom(s, 0) == 0 by {
        forall j | 0 <= j < |Triggers| ensures !OccursAt(s, Triggers[j], 0) {
        }
      }
      forall i, j | 0 <= i <= |s[1..]| && 0 <= j < |Triggers|
        ensures !OccursAt(s[1..], Triggers[j], i)
      {
        assert !OccursAt(s, Triggers[j], i + 1);
        if i + |Triggers[j]| <= |s[1..]| {
          assert s[i + 1..i + 1 + |Triggers[j]|] == s[1..][i..i + |Triggers[j]|];
        }
      }
      TriggerFreeKept(s[1..]);
    }
  }

  /** At the start of `Triggers[k] + s` the only alternative that occurs is
      `Triggers[k]` itself: no two alternatives agree on their first two
      characters. */
  lemma TriggerAtStart(k: nat, s: string)
    requires k < |Triggers|
    ensures TriggerFrom(Triggers[k] + s, 0) == |Triggers[k]|
  {
    var x := Triggers[k] + s;
    assert OccursAt(x, Triggers[k], 0) by {
      assert x[..|Triggers[k]|] == Triggers[k];
    }
    forall j | 0 <= j < k ensures !OccursAt(x, Triggers[j], 0) {
      assert x[0] == Triggers[k][0] && x[1] == Triggers[k][1];
      assert Triggers[j][0] != Triggers[k][0] || Triggers[j][1] != Triggers[k][1];
    }
    assert TriggerFrom(x, k) == |Triggers[k]|;
    TriggerFromSkips(x, k);
  }

  /** Alternatives before k that do not occur are passed over. */
  lemma {:induction false} TriggerFromSkips(s: string, k: nat)
    requires k < |Triggers|
    requires forall j :: 0 <= j < k ==> !OccursAt(s, Triggers[j], 0)
    ensures TriggerFrom(s, 0) == TriggerFrom(s, k)
    decreases k
  {
    if k > 0 {
      TriggerFromSkips(s, k - 1);
    }
  }

  /** A trigger phrase at the start is cut out and the scan goes on after it. */
  lemma LeadingTriggerDropped(k: nat, s: string)
    requires k < |Triggers|
    ensures RemoveTriggers(Triggers[k] + s) == RemoveTriggers(s)
  {
    var x := Triggers[k] + s;
    TriggerAtStart(k, s);
    assert x[|Triggers[k]|..] == s;
  }

  /** The content of a memo spoken as a trigger phrase followed by text free
      of trigger phrases is that text, trimmed. */
  lemma TriggerThenContent(k: nat, c: string)
    requires k < |Triggers|
    requires TriggerFree(c)
    ensures MemoContent(Triggers[k] + c) == Trim(c)
  {
    LeadingTriggerDropped(k, c);
    TriggerFreeKept(c);
  }

  /** The content the memo handler stores. */
  function MemoContent(original: string): string {
    Trim(RemoveTriggers(original))
  }

  // ---------------------------------------------------------------------------
  // Replies

  const NoScheduleToday: string := "오늘은 등록된 일정이 없습니다."
  const NoUpcoming: string := "다가오는 일정이 없습니다."
  const ScheduleNotUnderstood: string :=
    "일정 관련 명령을 인식했지만 구체적인 내용을 파악하지 못했습니다. 다시 말씀해 주세요."
  const AskMemoContent: string := "메모할 내용을 말씀해 주세요."
  const NoMemos: string := "저장된 메모가 없습니다."
  const MemoNotUnderstood: string := "메모 관련 명령을 인식했지만 구체적인 내용을 파악하지 못했습니다."
  const AskTimeOrDate: string := "시간이나 날짜에 대한 질문이신가요? 구체적으로 말씀해 주세요."

  const Greetings: seq<string> := [
    "안녕하세요! 무엇을 도와드릴까요?",
    "안녕하세요! 일정 등록이나 메모 작성을 도와드릴 수 있어요.",
    "반갑습니다! 오늘 하루도 잘 도와드릴게요.",
    "안녕하세요! 음성으로 편리하게 이용해보세요."
  ]

  const Fallbacks: seq<string> := [
    "죄송합니다. 명령을 이해하지 못했습니다. 일정 등록이나 메모 작성을 도와드릴 수 있어요.",
    "잘 이해하지 못했어요. \"오늘 일정 알려줘\" 또는 \"메모해줘\"와 같이 말씀해 주세요.",
    "명령을 인식하지 못했습니다. 일정 관리나 메모 기능을 이용해 보세요.",
    "다시 한 번 말씀해 주세요. 일정이나 메모 관련 도움이 필요하시면 언제든 말씀하세요."
  ]

  /** `schedules.map(s => `${s.time}에 ${s.title}`).join(', ')`. */
  function ItemList(schedules: seq<Schedule>): string {
    Join(seq(|schedules|, i requires 0 <= i < |schedules| => schedules[i].time + "에 " + schedules[i].title), ", ")
  }

  function TodayReply(todays: seq<Schedule>): string {
    if todays == [] then NoScheduleToday else "오늘 일정은 " + ItemList(todays) + "입니다."
  }

  function RegisteredReply(d: ScheduleDraft): string {
    d.date + " " + d.time + "에 \"" + d.title + "\" 일정을 등록했습니다."
  }

  function NextReply(upcoming: seq<Schedule>, localeDate: string -> string): string {
    if upcoming == [] then NoUpcoming
    else
      "다음 일정은 " + localeDate(upcoming[0].date) + " " + upcoming[0].time + "에 " +
        upcoming[0].title + "입니다."
  }

  function SavedMemoReply(title: string): string {
    "\"" + title + "\" 메모를 저장했습니다."
  }

  function Titles(memos: seq<VoiceMemo>): (r: seq<string>)
    ensures |r| == |memos| && forall i :: 0 <= i < |r| ==> r[i] == memos[i].title
  {
    seq(|memos|, i requires 0 <= i < |memos| => memos[i].title)
  }

  function RecentReply(recent: seq<VoiceMemo>): string {
    if recent == [] then NoMemos else "최근 메모는 " + Join(Titles(recent), ", ") + "입니다."
  }

  /** `handleTimeQuery(t)` with the clock and the date as the locale prints them. */
  function TimeReply(t: string, env: Env): string {
    if IsClockQuery(t) then "현재 시간은 " + env.clockText + "입니다."
    else if IsDateQuery(t) then "오늘은 " + env.dateText + "입니다."
    else AskTimeOrDate
  }

  /** JavaScript's `a || b` on strings. */
  function OrElse(a: string, b: string): string {
    if a == "" then b else a
  }

  // ---------------------------------------------------------------------------
  // The schedule handler

  /** What `handleScheduleCommand(t, original)` may do to the stored list
      `before`, leaving `after`, and answer. */
  predicate ScheduleHandled(t: string, original: string, env: Env,
                            before: seq<Schedule>, after: seq<Schedule>, reply: string) {
    if IsTodayQuery(t) then
      after == before && reply == TodayReply(TodaySchedules(before, env.nowMs))
    else if IsRegisterCommand(t) then
      var d := ParsedSchedule(original, env.nowMs);
      after == before + [NewSchedule(d, env.newId, env.nowMs)] && reply == RegisteredReply(d)
    else if IsNextQuery(t) then
      after == before && reply == NextReply(UpcomingSchedules(before, env.nowMs, 7), env.localeDate)
    else
      after == before && reply == ScheduleNotUnderstood
  }

  method HandleScheduleCommand(t: string, original: string, env: Env, ss: ScheduleStore)
    returns (reply: string)
    modifies ss
    ensures ScheduleHandled(t, original, env, old(ss.schedules), ss.schedules, reply)
  {
    if Contains(t, "오늘") && (Contains(t, "일정") || Contains(t, "스케줄")) {
      var todays := TodaySchedules(ss.schedules, env.nowMs);
      if |todays| == 0 {
        return NoScheduleToday;
      }
      return "오늘 일정은 " + ItemList(todays) + "입니다.";
    }
    if Contains(t, "등록") || Contains(t, "추가") || Contains(t, "저장") {
      var data := ParseNaturalLanguageSchedule(original, env.nowMs);
      // The parser always returns a draft, so the test on it always succeeds;
      // its three fields are never empty, so the defaults are never used.
      ParsedDateNonEmpty(original, env.nowMs);
      var draft := ScheduleDraft(
        OrElse(data.title, "새 일정"),
        OrElse(data.description, ""),
        OrElse(data.date, IsoDate(DayOf(env.nowMs))),
        OrElse(data.time, "09:00"));
      var created := ss.AddSchedule(draft, env.newId, env.nowMs);
      return data.date + " " + data.time + "에 \"" + data.title + "\" 일정을 등록했습니다.";
    }
    if Contains(t, "다음") || Contains(t, "다가오는") {
      var upcoming := UpcomingSchedules(ss.schedules, env.nowMs, 7);
      if |upcoming| == 0 {
        return NoUpcoming;
      }
      var next := upcoming[0];
      return "다음 일정은 " + env.localeDate(next.date) + " " + next.time + "에 " + next.title + "입니다.";
    }
    return ScheduleNotUnderstood;
  }

  /** The parsed date is an ISO date, never empty. */
  lemma ParsedDateNonEmpty(text: string, nowMs: int)
    ensures ParsedSchedule(text, nowMs).date != ""
  {
    var z := ParsedDay(text, DayOf(nowMs));
    assert IsoDate(z)[|YearText(CivilFromDays(z).year)|] == '-';
  }

  /** A registration appends exactly one record, and the reply reports the
      date, time and title that record was stored with. */
  lemma RegisterAppendsParsed(t: string, original: string, env: Env,
                              before: seq<Schedule>, after: seq<Schedule>, reply: string)
    requires ScheduleHandled(t, original, env, before, after, reply)
    requires !IsTodayQuery(t) && IsRegisterCommand(t)
    ensures |after| == |before| + 1 && after[..|before|] == before
    ensures var s := after[|before|];
      && s.id == env.newId && s.createdAt == env.nowMs && s.description == ""
      && s.title != "" && Normalized(s.title) && IsClockText(s.time)
      && reply == s.date + " " + s.time + "에 \"" + s.title + "\" 일정을 등록했습니다."
  {
    ParsedTitleNormalized(original);
    ParsedTimeIsClock(original);
  }

  /** The list changes only by one appended record, and only on a
      registration. */
  lemma ScheduleListGrowsOnlyOnRegister(t: string, original: string, env: Env,
                                        before: seq<Schedule>, after: seq<Schedule>, reply: string)
    requires ScheduleHandled(t, original, env, before, after, reply)
    ensures after == before ||
      (!IsTodayQuery(t) && IsRegisterCommand(t) && |after| == |before| + 1 && after[..|before|] == before)
  {
    if !IsTodayQuery(t) && IsRegisterCommand(t) {
      RegisterAppendsParsed(t, original, env, before, after, reply);
    }
  }

  /** The "next schedule" reply names the stored schedule in the coming week
      that starts first, and says there is none exactly when the week is
      empty. */
  lemma NextNamesEarliest(before: seq<Schedule>, nowMs: int, localeDate: string -> string)
    ensures var up := UpcomingSchedules(before, nowMs, 7);
      && (NextReply(up, localeDate) == NoUpcoming <==>
            forall j :: 0 <= j < |before| ==> !InWindow(nowMs, 7, before[j]))
      && (up != [] ==>
            && up[0] in before && InWindow(nowMs, 7, up[0])
            && NextReply(up, localeDate) ==
                 "다음 일정은 " + localeDate(up[0].date) + " " + up[0].time + "에 " + up[0].title + "입니다."
            && forall j :: 0 <= j < |before| && InWindow(nowMs, 7, before[j]) ==>
                 StartKey(up[0]) <= StartKey(before[j]))
  {
    var up := UpcomingSchedules(before, nowMs, 7);
    NoUpcomingIffEmpty(up, localeDate);
    if up != [] {
      assert up[0] in before && InWindow(nowMs, 7, up[0]);
      var j :| 0 <= j < |before| && before[j] == up[0];
      assert InWindow(nowMs, 7, before[j]);
      SortedHeadIsLeast(up, before, nowMs, 7);
    }
  }

  /** The "next schedule" reply is the no-schedule sentence exactly for an
      empty list. */
  lemma NoUpcomingIffEmpty(up: seq<Schedule>, localeDate: string -> string)
    ensures NextReply(up, localeDate) == NoUpcoming <==> up == []
  {
    if up != [] {
      var r := NextReply(up, localeDate);
      assert r[0] == '다' && r[1] == '음';
      assert NoUpcoming[1] == '가';
    }
  }

  /** The head of a list sorted by start time starts no later than any
      window schedule the list holds. */
  lemma SortedHeadIsLeast(up: seq<Schedule>, before: seq<Schedule>, nowMs: int, days: int)
    requires up != [] && SortedBy(up, StartKey)
    requires forall j :: 0 <= j < |before| && InWindow(nowMs, days, before[j]) ==> before[j] in up
    ensures forall j :: 0 <= j < |before| && InWindow(nowMs, days, before[j]) ==>
      StartKey(up[0]) <= StartKey(before[j])
  {
    forall j | 0 <= j < |before| && InWindow(nowMs, days, before[j])
      ensures StartKey(up[0]) <= StartKey(before[j])
    {
      var i :| 0 <= i < |up| && up[i] == before[j];
    }
  }

  /** Whatever branch the schedule handler takes, it answers something. */
  lemma ScheduleReplyNonEmpty(t: string, original: string, env: Env,
                              before: seq<Schedule>, after: seq<Schedule>, reply: string)
    requires ScheduleHandled(t, original, env, before, after, reply)
    ensures reply != ""
  {
    if IsTodayQuery(t) {
      assert |TodayReply(TodaySchedules(before, env.nowMs))| > 0;
    } else if IsRegisterCommand(t) {
      assert |RegisteredReply(ParsedSchedule(original, env.nowMs))| > 0;
    } else if IsNextQuery(t) {
      assert |NextReply(UpcomingSchedules(before, env.nowMs, 7), env.localeDate)| > 0;
    }
  }

  // ---------------------------------------------------------------------------
  // The memo handler

  /** What `handleMemoCommand(t, original)` may do to the stored list. */
  ghost predicate MemoHandled(t: string, original: string, env: Env,
                        before: seq<VoiceMemo>, after: seq<VoiceMemo>, reply: string) {
    if IsMemoSave(t) then
      var content := MemoContent(original);
      if content == "" then after == before && reply == AskMemoContent
      else
        var title := MemoTitle(content, env.nowMs);
        after == before + [NewMemo(MemoDraft(title, content, None), env.newId, env.nowMs)] &&
        reply == SavedMemoReply(title)
    else if IsRecentQuery(t) then
      after == before && exists recent :: IsRecent(recent, before, 3) && reply == RecentReply(recent)
    else
      after == before && reply == MemoNotUnderstood
  }

  method HandleMemoCommand(t: string, original: string, env: Env, ms: MemoStore)
    returns (reply: string)
    modifies ms
    ensures MemoHandled(t, original, env, old(ms.memos), ms.memos, reply)
  {
    if Contains(t, "메모") || Contains(t, "기록") || Contains(t, "저장") {
      var content := Trim(RemoveTriggers(original));
      if content != "" {
        var title := GenerateMemoTitle(content, env.nowMs);
        var created := ms.AddMemo(MemoDraft(title, content, None), env.newId, env.nowMs);
        return "\"" + title + "\" 메모를 저장했습니다.";
      } else {
        return AskMemoContent;
      }
    }
    if Contains(t, "최근") || Contains(t, "마지막") {
      var recent := ms.GetRecentMemos(3);
      if |recent| == 0 {
        return NoMemos;
      }
      return "최근 메모는 " + Join(Titles(recent), ", ") + "입니다.";
    }
    return MemoNotUnderstood;
  }

  /** A memo is stored exactly when some text is left once the trigger
      phrases are cut out; it then has that trimmed text as content, no
      audio, and a title of 1 to 30 characters that the reply quotes. */
  lemma MemoSaveOutcome(t: string, original: string, env: Env,
                        before: seq<VoiceMemo>, after: seq<VoiceMemo>, reply: string)
    requires MemoHandled(t, original, env, before, after, reply)
    requires IsMemoSave(t)
    ensures after == before <==> AllSpace(RemoveTriggers(original))
    ensures AllSpace(RemoveTriggers(original)) ==> reply == AskMemoContent
    ensures !AllSpace(RemoveTriggers(original)) ==>
      && |after| == |before| + 1 && after[..|before|] == before
      && var m := after[|before|];
      && m.id == env.newId && m.createdAt == env.nowMs && m.audioUrl.None?
      && m.content == MemoContent(original) && m.content != ""
      && !IsSpace(m.content[0]) && !IsSpace(m.content[|m.content| - 1])
      && 1 <= |m.title| <= 30
      && reply == "\"" + m.title + "\" 메모를 저장했습니다."
  {
    MemoTitleBounds(MemoContent(original), env.nowMs);
    if !AllSpace(RemoveTriggers(original)) {
      assert |after| == |before| + 1;
    }
  }

  /** The recent-memo reply lists the titles of the (at most three) newest
      memos, newest first, and says there are none exactly when the list is
      empty. */
  lemma RecentListsNewest(t: string, original: string, env: Env,
                          before: seq<VoiceMemo>, after: seq<VoiceMemo>, reply: string)
    requires MemoHandled(t, original, env, before, after, reply)
    requires !IsMemoSave(t) && IsRecentQuery(t)
    ensures after == before
    ensures before == [] ==> reply == NoMemos
    ensures before != [] ==> exists recent ::
      && IsRecent(recent, before, 3)
      && 1 <= |recent| <= 3 && |recent| == (if |before| < 3 then |before| else 3)
      && NewestFirst(recent)
      && reply == "최근 메모는 " + Join(Titles(recent), ", ") + "입니다."
  {
  }

  /** Whatever branch the memo handler takes, it answers something. */
  lemma MemoReplyNonEmpty(t: string, original: string, env: Env,
                          before: seq<VoiceMemo>, after: seq<VoiceMemo>, reply: string)
    requires MemoHandled(t, original, env, before, after, reply)
    ensures reply != ""
  {
    if IsMemoSave(t) {
      if MemoContent(original) != "" {
        assert |SavedMemoReply(MemoTitle(MemoContent(original), env.nowMs))| > 0;
      }
    } else if IsRecentQuery(t) {
      var recent :| IsRecent(recent, before, 3) && reply == RecentReply(recent);
      assert |RecentReply(recent)| > 0;
    }
  }

  /** The greeting, the time or date answer and the fallback are never empty. */
  lemma FixedRepliesNonEmpty(t: string, env: Env)
    requires env.pick < 4
    ensures Greetings[env.pick] != "" && Fallbacks[env.pick] != "" && TimeReply(t, env) != ""
  {
    assert |Greetings[env.pick]| > 0 && |Fallbacks[env.pick]| > 0;
    assert |TimeReply(t, env)| > 0;
  }

  // ---------------------------------------------------------------------------
  // The dispatcher

  /** `processCommand(transcript)`: the handler is chosen on the lower-cased,
      trimmed text; the handlers get the original transcript as well. */
  method ProcessCommand(transcript: string, env: Env, ss: ScheduleStore, ms: MemoStore)
    returns (reply: string)
    requires env.pick < 4
    modifies ss, ms
    ensures reply != ""
    ensures var t := Trim(Lower(transcript));
      match Classify(t)
      case ScheduleIntent =>
        ScheduleHandled(t, transcript, env, old(ss.schedules), ss.schedules, reply) &&
        ms.memos == old(ms.memos)
      case MemoIntent =>
        MemoHandled(t, transcript, env, old(ms.memos), ms.memos, reply) &&
        ss.schedules == old(ss.schedules)
      case GreetingIntent =>
        reply == Greetings[env.pick] && ss.schedules == old(ss.schedules) && ms.memos == old(ms.memos)
      case TimeIntent =>
        reply == TimeReply(t, env) && ss.schedules == old(ss.schedules) && ms.memos == old(ms.memos)
      case Fallback =>
        reply == Fallbacks[env.pick] && ss.schedules == old(ss.schedules) && ms.memos == old(ms.memos)
  {
    var t := Trim(Lower(transcript));
    FixedRepliesNonEmpty(t, env);
    if ContainsAny(t, ScheduleKeywords) {
      reply := HandleScheduleCommand(t, transcript, env, ss);
      ScheduleReplyNonEmpty(t, transcript, env, old(ss.schedules), ss.schedules, reply);
    } else if ContainsAny(t, MemoKeywords) {
      reply := HandleMemoCommand(t, transcript, env, ms);
      MemoReplyNonEmpty(t, transcript, env, old(ms.memos), ms.memos, reply);
    } else if ContainsAny(t, GreetingKeywords) {
      reply := Greetings[env.pick];
    } else if ContainsAny(t, TimeKeywords) {
      reply := TimeReply(t, env);
    } else {
      reply := Fallbacks[env.pick];
    }
  }

  // ---------------------------------------------------------------------------
  // The morning briefing

  function DatedOn(day: int): Schedule -> bool {
    (s: Schedule) => ParseIsoDate(s.date) == Some(day)
  }

  /** The schedules of the one-day window whose date is tomorrow. */
  function TomorrowOnes(upcoming: seq<Schedule>, nowMs: int): seq<Schedule> {
    Filter(upcoming, DatedOn(DayOf(nowMs) + 1))
  }

  function TodayPart(todays: seq<Schedule>): string {
    if |todays| > 0 then "오늘 일정은 " + ItemList(todays) + "입니다. " else "오늘은 등록된 일정이 없습니다. "
  }

  /** The condition of the tomorrow sentence: the one-day window holds more
      schedules than today does and some of them are dated tomorrow. */
  predicate HasTomorrowSentence(todays: seq<Schedule>, upcoming: seq<Schedule>, nowMs: int) {
    |upcoming| > |todays| && |TomorrowOnes(upcoming, nowMs)| > 0
  }

  function TomorrowPart(todays: seq<Schedule>, upcoming: seq<Schedule>, nowMs: int): (r: string)
    ensures r != "" <==> HasTomorrowSentence(todays, upcoming, nowMs)
  {
    if HasTomorrowSentence(todays, upcoming, nowMs) then
      "내일은 " + NatToString(|TomorrowOnes(upcoming, nowMs)|) + "개의 일정이 있습니다. "
    else ""
  }

  const Opening: string := "좋은 아침입니다!"
  const Closing: string := "좋은 하루 되세요!"

  predicate StartsWith(s: string, p: string) {
    |p| <= |s| && s[..|p|] == p
  }

  predicate EndsWith(s: string, p: string) {
    |p| <= |s| && s[|s| - |p|..] == p
  }

  /** The greeting that opens the briefing, with the date. */
  function BriefingHead(dateText: string): (r: string)
    ensures StartsWith(r, Opening)
  {
    var r := "좋은 아침입니다! 오늘은 " + dateText + "입니다. ";
    assert r[..|Opening|] == Opening;
    r
  }

  /** `getBriefing()` over the stored list, with `dateText` the locale's
      month, day and weekday of `nowMs`: the greeting, the today part, the
      tomorrow sentence when there is one, and the closing wish. */
  function Briefing(schedules: seq<Schedule>, nowMs: int, dateText: string): (b: string)
    ensures StartsWith(b, Opening) && EndsWith(b, Closing)
  {
    var todays := TodaySchedules(schedules, nowMs);
    var upcoming := UpcomingSchedules(schedules, nowMs, 1);
    var today, tomorrow := TodayPart(todays), TomorrowPart(todays, upcoming, nowMs);
    Framed(BriefingHead(dateText), today, tomorrow, Closing);
    BriefingHead(dateText) + today + tomorrow + Closing
  }

  /** `getBriefing()`, building the text piece by piece as the source does;
      it is the briefing of the stored schedules, so it opens with the
      greeting and ends with the closing wish. */
  method GetBriefing(ss: ScheduleStore, nowMs: int, dateText: string) returns (briefing: string)
    ensures briefing == Briefing(ss.schedules, nowMs, dateText)
    ensures StartsWith(briefing, Opening) && EndsWith(briefing, Closing)
  {
    var todays := TodaySchedules(ss.schedules, nowMs);
    var upcoming := UpcomingSchedules(ss.schedules, nowMs, 1);
    briefing := BriefingHead(dateText);
    briefing := briefing + TodayPart(todays);
    briefing := briefing + TomorrowPart(todays, upcoming, nowMs);
    briefing := briefing + Closing;
  }

  /** A text that opens with a, then has two middle parts, and closes with b
      starts with what a starts with and ends with b. */
  lemma Framed(a: string, m1: string, m2: string, b: string)
    ensures StartsWith(a, Opening) ==> StartsWith(a + m1 + m2 + b, Opening)
    ensures EndsWith(a + m1 + m2 + b, b)
  {
    var r := a + m1 + m2 + b;
    if StartsWith(a, Opening) {
      assert r[..|Opening|] == a[..|Opening|];
    }
    assert r[|r| - |b|..] == b;
  }

  /** Every stored schedule dated tomorrow lies in the one-day window. */
  lemma TomorrowInWindow(nowMs: int, s: Schedule)
    requires ParseIsoDate(s.date) == Some(DayOf(nowMs) + 1)
    ensures InWindow(nowMs, 1, s)
  {
    var t := DayOf(nowMs);
    assert nowMs == t * MsPerDay + nowMs % MsPerDay;
  }

  /** `upcoming` holds the stored schedules of the one-day window, and only
      those. */
  predicate WindowOf(upcoming: seq<Schedule>, schedules: seq<Schedule>, nowMs: int) {
    && (forall i :: 0 <= i < |upcoming| ==> upcoming[i] in schedules && InWindow(nowMs, 1, upcoming[i]))
    && (forall j :: 0 <= j < |schedules| && InWindow(nowMs, 1, schedules[j]) ==> schedules[j] in upcoming)
  }

  /** The tomorrow sentence appears exactly when the one-day window holds
      more schedules than today and the store has a schedule dated tomorrow.
      So when today has at least as many schedules as the window, the
      sentence is left out even though tomorrow has schedules. */
  lemma TomorrowSentenceIff(schedules: seq<Schedule>, nowMs: int)
    ensures var todays := TodaySchedules(schedules, nowMs);
      var upcoming := UpcomingSchedules(schedules, nowMs, 1);
      HasTomorrowSentence(todays, upcoming, nowMs) <==>
        |upcoming| > |todays| &&
        exists j :: 0 <= j < |schedules| && ParseIsoDate(schedules[j].date) == Some(DayOf(nowMs) + 1)
  {
    var upcoming := UpcomingSchedules(schedules, nowMs, 1);
    WindowTomorrow(upcoming, schedules, nowMs);
  }

  /** Some schedule is counted exactly when some stored schedule is dated
      tomorrow. */
  lemma WindowTomorrow(upcoming: seq<Schedule>, schedules: seq<Schedule>, nowMs: int)
    requires WindowOf(upcoming, schedules, nowMs)
    ensures |TomorrowOnes(upcoming, nowMs)| > 0 <==>
      exists j :: 0 <= j < |schedules| && ParseIsoDate(schedules[j].date) == Some(DayOf(nowMs) + 1)
  {
    var tomorrow := TomorrowOnes(upcoming, nowMs);
    if |tomorrow| > 0 {
      CountedIsStored(upcoming, schedules, nowMs);
      var j :| 0 <= j < |schedules| && schedules[j] == tomorrow[0];
      assert ParseIsoDate(schedules[j].date) == Some(DayOf(nowMs) + 1);
    }
    if exists j :: 0 <= j < |schedules| && ParseIsoDate(schedules[j].date) == Some(DayOf(nowMs) + 1) {
      var j :| 0 <= j < |schedules| && ParseIsoDate(schedules[j].date) == Some(DayOf(nowMs) + 1);
      StoredIsCounted(upcoming, schedules, nowMs, j);
    }
  }

  /** Each schedule the tomorrow sentence counts is a stored one dated
      tomorrow. */
  lemma CountedIsStored(upcoming: seq<Schedule>, schedules: seq<Schedule>, nowMs: int)
    requires WindowOf(upcoming, schedules, nowMs)
    ensures var tomorrow := TomorrowOnes(upcoming, nowMs);
      forall i :: 0 <= i < |tomorrow| ==>
        tomorrow[i] in schedules && ParseIsoDate(tomorrow[i].date) == Some(DayOf(nowMs) + 1)
  {
    var tomorrow := TomorrowOnes(upcoming, nowMs);
    forall i | 0 <= i < |tomorrow|
      ensures tomorrow[i] in schedules && ParseIsoDate(tomorrow[i].date) == Some(DayOf(nowMs) + 1)
    {
      assert tomorrow[i] in upcoming && DatedOn(DayOf(nowMs) + 1)(tomorrow[i]);
      var k :| 0 <= k < |upcoming| && upcoming[k] == tomorrow[i];
    }
  }

  /** Each stored schedule dated tomorrow is counted. */
  lemma StoredIsCounted(upcoming: seq<Schedule>, schedules: seq<Schedule>, nowMs: int, j: nat)
    requires WindowOf(upcoming, schedules, nowMs)
    requires j < |schedules| && ParseIsoDate(schedules[j].date) == Some(DayOf(nowMs) + 1)
    ensures schedules[j] in TomorrowOnes(upcoming, nowMs)
  {
    TomorrowInWindow(nowMs, schedules[j]);
    var i :| 0 <= i < |upcoming| && upcoming[i] == schedules[j];
    assert DatedOn(DayOf(nowMs) + 1)(upcoming[i]);
  }

  /** Away from midnight the one-day window holds only tomorrow's schedules,
      so the sentence counts the whole window. */
  lemma TomorrowCountsWindow(schedules: seq<Schedule>, nowMs: int)
    requires nowMs % MsPerDay != 0
    ensures var upcoming := UpcomingSchedules(schedules, nowMs, 1);
      TomorrowOnes(upcoming, nowMs) == upcoming
  {
    var upcoming := UpcomingSchedules(schedules, nowMs, 1);
    OnlyTomorrowInWindow(upcoming, schedules, nowMs);
  }

  lemma OnlyTomorrowInWindow(upcoming: seq<Schedule>, schedules: seq<Schedule>, nowMs: int)
    requires WindowOf(upcoming, schedules, nowMs)
    requires nowMs % MsPerDay != 0
    ensures TomorrowOnes(upcoming, nowMs) == upcoming
  {
    var tomorrow := DatedOn(DayOf(nowMs) + 1);
    forall i | 0 <= i < |upcoming| ensures tomorrow(upcoming[i]) {
      OneDayWindow(nowMs, upcoming[i]);
    }
    FilterKeepsAll(upcoming, tomorrow);
  }
}
