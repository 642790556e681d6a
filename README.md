# Voice assistant command logic, modelled in Dafny

This project models the command logic of a Korean voice assistant that runs in
the browser. Its core is three modules.

- **The assistant** (`VoiceAssistant`, from `src/lib/voiceAssistant.ts`). It
  lower-cases and trims a transcribed sentence. It then sends the sentence to
  the first handler whose keyword list matches, in a fixed order: schedule,
  memo, greeting, time query, and otherwise a fallback reply. The schedule
  and memo handlers may append a record to their store before they reply. A
  separate entry point composes the morning briefing.
- **The schedule service** (`ScheduleService`, from `src/lib/scheduleService.ts`).
  It holds the stored list of schedules, with add, update and delete by id.
  It has the "today" and "upcoming" views. It also has the parser that turns
  a spoken sentence into a schedule draft. The parser tries time patterns and
  then date patterns, and the first match wins.
- **The memo service** (`MemoService`, from `src/lib/memoService.ts`). It holds
  the stored list of memos, with add, update and delete by id. It has the
  substring search, the "most recent N" view and the memo title generator.

Supporting modules:

| module | what it holds |
|---|---|
| `Text` | JavaScript string operations: `includes`, `replace` with a string, `trim`, `\s+` collapsing, `split(/\s+/)`/`join`, `padStart` |
| `Calendar` | The proleptic Gregorian calendar on a day count. It supplies the ISO `YYYY-MM-DD` text of a day and its parse back, `getDay()`, and `setMonth`/`setFullYear` |
| `Store` | The `Schedule` and `VoiceMemo` records of `src/lib/store/index.ts`, and the object-spread merge the update operations use |
| `Collections` | `filter`, `findIndex` and a stable ascending sort by a key |
| `Patterns` | Hand-written matchers for the regular expressions of the parser. They follow JavaScript's leftmost match and its greedy `\d{1,2}` |

Each service is a class whose `seq` field is the list that the source reads
from browser storage and writes back whole. The add, update and delete
methods reassign that field. `getRecentMemos` sorts a freshly loaded copy in
place, and the model does this in an `array`.

Everything the browser supplies becomes a parameter:
- the clock `nowMs`;
- the new record's id;
- the random pick among canned replies;
- the locale's time and date texts.

For the assistant, these parameters are gathered in `VoiceAssistant.Env`.

## Model

| member | source | states |
|---|---|---|
| `VoiceAssistant.ContainsAny` | src/lib/voiceAssistant.ts:32-60 | A keyword predicate holds exactly when some keyword of its list occurs in the text |
| `VoiceAssistant.FallbackIffNoKeyword` | src/lib/voiceAssistant.ts:9-29 | The fallback is chosen exactly when none of the 34 keywords of the four lists occurs |
| `VoiceAssistant.SaveAndTellAreSchedule` | src/lib/voiceAssistant.ts:32-38 | A text containing "저장" or "알려줘" always goes to the schedule handler, so "최근 메모 알려줘" never reaches the memos |
| `VoiceAssistant.MemoIntentHasNoSave` | src/lib/voiceAssistant.ts:9-16 | A text the memo handler receives contains neither "저장" nor "저장해줘" |
| `VoiceAssistant.MemoSaveNeedsMemoWord` | src/lib/voiceAssistant.ts:112-115 | Inside the memo handler, the save branch is taken exactly for "메모" or "기록"; its "저장" test can never succeed |
| `VoiceAssistant.ProcessCommand` | src/lib/voiceAssistant.ts:5-30 | Dispatch on the lower-cased, trimmed text in the fixed priority order. Each case gives its handler's outcome and leaves the other store unchanged. Greeting and fallback replies are entry `pick` (less than 4) of their four-entry tables, and the time query gives the clock or date reply. The reply is never empty |
| `VoiceAssistant.ScheduleReplyNonEmpty` | src/lib/voiceAssistant.ts:62-110 | Every branch of the schedule handler gives a non-empty reply |
| `VoiceAssistant.MemoReplyNonEmpty` | src/lib/voiceAssistant.ts:112-146 | Every branch of the memo handler gives a non-empty reply |
| `VoiceAssistant.FixedRepliesNonEmpty` | src/lib/voiceAssistant.ts:148-193 | The greetings, the fallbacks and the time or date answer are never empty |
| `VoiceAssistant.HandleScheduleCommand` | src/lib/voiceAssistant.ts:62-110 | The new list and the reply are those of the branch taken: today, register, next, or "not understood" |
| `VoiceAssistant.ParsedDateNonEmpty` | src/lib/voiceAssistant.ts:84-88 | The parsed date is never empty, so the `||` default for the date is never used |
| `VoiceAssistant.RegisterAppendsParsed` | src/lib/voiceAssistant.ts:79-92 | A registration appends exactly one record, keeping the old list as a prefix. The record has the supplied id and instant, an empty description, a non-empty single-spaced title and an "HH:MM" time. The reply quotes the stored date, time and title |
| `VoiceAssistant.ScheduleListGrowsOnlyOnRegister` | src/lib/voiceAssistant.ts:62-110 | The list is unchanged unless the register branch is taken, and then it grows by one appended record |
| `VoiceAssistant.NextNamesEarliest` | src/lib/voiceAssistant.ts:95-107 | The reply is "none" exactly when no stored schedule lies in the 7-day window. Otherwise it names a stored schedule of the window whose start is the earliest |
| `VoiceAssistant.SortedHeadIsLeast` | src/lib/voiceAssistant.ts:95-107 | The head of a list sorted by start time starts no later than any window schedule the list holds |
| `VoiceAssistant.TriggerFreeKept` | src/lib/voiceAssistant.ts:116-117 | Removing trigger phrases leaves a text without any of them unchanged |
| `VoiceAssistant.LeadingTriggerDropped` | src/lib/voiceAssistant.ts:116-117 | A trigger phrase at the front is removed and the rest is scanned as before |
| `VoiceAssistant.TriggerThenContent` | src/lib/voiceAssistant.ts:116-118 | A trigger phrase followed by trigger-free text yields that text, trimmed, as the memo content ("메모해줘 우체국 들르기" gives "우체국 들르기") |
| `VoiceAssistant.HandleMemoCommand` | src/lib/voiceAssistant.ts:112-146 | The new list and the reply are those of the branch taken: save, recent, or "not understood" |
| `VoiceAssistant.MemoSaveOutcome` | src/lib/voiceAssistant.ts:114-131 | A memo is stored exactly when something is left after the triggers are cut out; otherwise the reply asks for content. The stored memo has the trimmed content, no audio, the supplied id and instant, and a title of 1 to 30 characters that the reply quotes |
| `VoiceAssistant.RecentListsNewest` | src/lib/voiceAssistant.ts:134-143 | Nothing is stored. For an empty store the reply says there are no memos. Otherwise it lists the titles of min(3, n) memos, newest first, and no memo left out is newer |
| `VoiceAssistant.TomorrowPart` | src/lib/voiceAssistant.ts:215-226 | The tomorrow sentence is present exactly when the one-day window has more schedules than today and some of them are dated tomorrow |
| `VoiceAssistant.BriefingHead` | src/lib/voiceAssistant.ts:200-204 | The briefing's first sentence starts with "좋은 아침입니다!" |
| `VoiceAssistant.Briefing` | src/lib/voiceAssistant.ts:195-231 | The briefing always starts with "좋은 아침입니다!" and ends with "좋은 하루 되세요!" |
| `VoiceAssistant.GetBriefing` | src/lib/voiceAssistant.ts:195-231 | Building the briefing piece by piece over the stored list gives exactly the briefing, so it shares the briefing's opening and closing |
| `VoiceAssistant.TomorrowSentenceIff` | src/lib/voiceAssistant.ts:215-226 | The tomorrow sentence appears exactly when the window outnumbers today and the store holds a schedule dated tomorrow. So it is left out whenever today has at least as many schedules as the window |
| `VoiceAssistant.TomorrowCountsWindow` | src/lib/voiceAssistant.ts:215-224 | Away from midnight, every schedule of the one-day window is dated tomorrow, so the sentence counts the whole window |
| `ScheduleService.ScheduleStore.constructor` | src/lib/scheduleService.ts:7-22 | A store read from empty or unreadable storage holds no schedules |
| `ScheduleService.ScheduleStore.AddSchedule` | src/lib/scheduleService.ts:35-47 | The list becomes the old list followed by one record with the draft's fields, the given id and the given creation instant |
| `ScheduleService.ScheduleStore.UpdateSchedule` | src/lib/scheduleService.ts:49-60 | An unknown id returns null and writes nothing. Otherwise only the first record with the id is replaced by its merge with the updates, which is returned |
| `ScheduleService.ScheduleStore.DeleteSchedule` | src/lib/scheduleService.ts:62-70 | Returns false, writing nothing, exactly when no record has the id. Otherwise all records with the id are removed and the rest keep their order |
| `ScheduleService.TodaySchedules` | src/lib/scheduleService.ts:72-78 | Exactly the stored schedules dated today's ISO date, and never more than are stored |
| `ScheduleService.TodaySchedulesConcat` | src/lib/scheduleService.ts:72-78 | The today view of a list split in two is the view of the first part followed by that of the second, so the stored order is kept |
| `ScheduleService.TodaySchedulesSingle` | src/lib/scheduleService.ts:72-78 | A single record is in the today view exactly when it is dated today |
| `ScheduleService.UpcomingSchedules` | src/lib/scheduleService.ts:80-94 | Exactly the stored schedules whose date instant lies in [now, now + days], each as often as it is stored, in ascending order of date and time |
| `ScheduleService.TodayMissesUpcoming` | src/lib/scheduleService.ts:80-89 | Once the day has begun, a schedule dated today fails the window's lower bound |
| `ScheduleService.OneDayWindow` | src/lib/scheduleService.ts:80-89 | The one-day window holds tomorrow's schedules, and today's only at exactly midnight |
| `ScheduleService.ClockText` | src/lib/scheduleService.ts:134-136 | For numbers below 100 the time text is two digits, a colon and two digits, spelling the hour and the minute |
| `ScheduleService.TimeText` | src/lib/scheduleService.ts:125-137 | For the bare and colon patterns, the time is "HH:MM" with the matched hour and minute (0 when absent) |
| `ScheduleService.TakeTime` | src/lib/scheduleService.ts:122-141 | The time loop gives the time text of the first time pattern that matches, and the text with that match cut out and trimmed; with no match, no time and the text unchanged |
| `ScheduleService.TakeDate` | src/lib/scheduleService.ts:144-180 | The date loop gives the ISO date of the first date pattern that matches, when that pattern names a day, and the title with that match cut out and trimmed; with no match, no date and the title unchanged |
| `ScheduleService.ParseNaturalLanguageSchedule` | src/lib/scheduleService.ts:96-202 | Gives the result of both first-match loops, the defaults and the title clean-up. The result is never null, has an empty description and a non-empty single-spaced title, and its time is always "HH:MM" |
| `ScheduleService.MeridiemNeverFirst` | src/lib/scheduleService.ts:100-141 | The AM and PM patterns are never the first to match, because the bare hour pattern matches whenever they do |
| `ScheduleService.ParsedTimeIsClock` | src/lib/scheduleService.ts:122-188 | The parsed time is always "HH:MM", and "09:00" when no time pattern matches |
| `ScheduleService.ParsedTimeDigits` | src/lib/scheduleService.ts:122-141 | The parsed time spells the matched hour and minute of the bare or colon pattern, never an AM/PM-adjusted hour |
| `ScheduleService.AfternoonReadAsWritten` | src/lib/scheduleService.ts:125-128 | "오후 3시" is parsed as "03:00": the PM branch never runs |
| `ScheduleService.HourNotRangeChecked` | src/lib/scheduleService.ts:134-136 | Hours are not range-checked: "25시" is parsed as "25:00" |
| `ScheduleService.ParsedTitleNormalized` | src/lib/scheduleService.ts:191-194 | The title is never empty and has no leading, trailing or doubled white space |
| `ScheduleService.CleanTitleNormalized` | src/lib/scheduleService.ts:191-194 | The clean-up of any text gives a non-empty title with no leading, trailing or doubled white space |
| `ScheduleService.RelativeWordDay` | src/lib/scheduleService.ts:150-157 | "오늘", "내일" and "모레" date the schedule today, today+1 and today+2, the first found in that order winning |
| `ScheduleService.WeekdayAhead` | src/lib/scheduleService.ts:169-173 | The weekday offset is between 1 and 7 and lands on the named weekday |
| `ScheduleService.DayIndexOfWeekday` | src/lib/scheduleService.ts:167-168 | Every weekday character of the pattern is found among the day names |
| `ScheduleService.WeekdayTarget` | src/lib/scheduleService.ts:166-175 | A weekday-name match designates a day 1 to 7 days after today whose weekday has that name |
| `ScheduleService.WeekdayMatchAhead` | src/lib/scheduleService.ts:145-180 | When the first date match is a weekday name, the parsed day is the next such weekday after today, never today |
| `ScheduleService.MonthDayNotPast` | src/lib/scheduleService.ts:158-165 | A month and day before today move to the following year, so the day is never in the past |
| `ScheduleService.MonthDayDate` | src/lib/scheduleService.ts:158-165 | For a valid month and day of today's year Y, the day is that date of Y unless it is before today. Otherwise it is the same month and day of Y + 1 whenever Y + 1 has that day |
| `ScheduleService.MonthDayInDate` | src/lib/scheduleService.ts:161-165 | The same for any year y: day y-M-D unless it is before today, else (y+1)-M-D when that exists |
| `ScheduleService.NextYearOfDate` | src/lib/scheduleService.ts:163 | `setFullYear(y + 1)` on a valid date of year y keeps its month and day |
| `Calendar.CivilOfDays` | src/lib/scheduleService.ts:161-165 | Turning a valid date into a day number and back gives the same date |
| `Calendar.EarlierIsSmaller` | src/lib/scheduleService.ts:164 | A date earlier in the calendar has a smaller day number, so `targetDate < today` compares dates |
| `Calendar.NewYearAfter` | src/lib/scheduleService.ts:163-164 | The first of January after today's year is later than today |
| `ScheduleService.ParsedDayNotPast` | src/lib/scheduleService.ts:145-185 | The parsed day is never before today |
| `MemoService.MemoStore.constructor` | src/lib/memoService.ts:7-23 | A store read from empty or unreadable storage holds no memos |
| `MemoService.MemoStore.AddMemo` | src/lib/memoService.ts:35-47 | The list becomes the old list followed by one memo with the draft's fields, the given id and the given creation instant |
| `MemoService.MemoStore.UpdateMemo` | src/lib/memoService.ts:49-60 | An unknown id returns null and writes nothing. Otherwise only the first memo with the id is replaced by its merge with the updates, keeping its id and creation instant |
| `MemoService.MemoStore.DeleteMemo` | src/lib/memoService.ts:62-70 | Returns false, writing nothing, exactly when no memo has the id. Otherwise all memos with the id are removed and the rest keep their order |
| `MemoService.SearchMemos` | src/lib/memoService.ts:72-80 | Exactly the stored memos whose lower-cased title or content contains the lower-cased query, each as often as it is stored, newest first |
| `MemoService.SortNewestFirst` | src/lib/memoService.ts:85 | The array is sorted in place so that creation instants never increase, and it is a permutation of the input |
| `MemoService.SinkStep` | src/lib/memoService.ts:85 | Swapping the memo moving left with an older one before it keeps the sorting loop's invariant |
| `MemoService.SinkDone` | src/lib/memoService.ts:85 | When the moving memo stops, the first i + 1 memos are newest first |
| `MemoService.NewestPrefix` | src/lib/memoService.ts:84-86 | A prefix of a newest-first list is newest first, and nothing after it is newer than anything in it |
| `MemoService.MemoStore.GetRecentMemos` | src/lib/memoService.ts:82-87 | Returns min(count, n) stored memos, newest first, and no memo left out is newer than one returned |
| `MemoService.Placeholder` | src/lib/memoService.ts:97-100 | The placeholder title starts with "메모 " and is at most 14 characters long |
| `MemoService.GenerateMemoTitle` | src/lib/memoService.ts:89-103 | Computes the title by reassigning it as the source does. The title is never empty and at most 30 characters long |
| `MemoService.MemoTitleBounds` | src/lib/memoService.ts:89-103 | Every title has 1 to 30 characters |
| `MemoService.JoinEmptyIff` | src/lib/memoService.ts:90-100 | The word join is empty exactly for white-space-only content, which gets the placeholder |
| `MemoService.ShortTitleIsWords` | src/lib/memoService.ts:90-95 | A join of at most 30 characters is the title as it is, and it splits back into the content's first words, at most five |
| `MemoService.LongTitleIsCut` | src/lib/memoService.ts:93-95 | A longer join becomes its first 27 characters plus "...", exactly 30 characters |
| `Store.MergeSchedule` | src/lib/scheduleService.ts:55 | The merge keeps the id and the creation instant, and an empty update changes nothing |
| `Store.MergeMemo` | src/lib/memoService.ts:55 | The merge keeps the id and the creation instant, and an empty update changes nothing |
| `Collections.Filter` | src/lib/scheduleService.ts:64 | Keeps exactly the elements that pass, and no more elements than the input has |
| `Collections.FilterKeepsAll` | src/lib/scheduleService.ts:64-66 | The filtered list has the input's length exactly when every element passes, which is how delete detects a missing id |
| `Collections.FindIndex` | src/lib/scheduleService.ts:51-53 | The index of the first element that passes, or none exactly when no element passes |
| `Collections.SortBy` | src/lib/scheduleService.ts:89-93 | An ascending permutation of the input |
| `Collections.PermutedFilter` | src/lib/scheduleService.ts:86-93 | A sorted copy of `filter(p)` holds only elements that pass, and every element of the input that passes |
| `Collections.ConsSorted` | src/lib/scheduleService.ts:89-93 | A sorted list stays sorted behind a head whose key is not larger than that of its first element |
| `Patterns.Search` | src/lib/scheduleService.ts:123 | `text.match(re)` finds the leftmost position where the pattern matches |
| `Patterns.FirstMatch` | src/lib/scheduleService.ts:122-141 | The first pattern in list order that matches anywhere, with its match; none exactly when no pattern matches |
| `Patterns.MeridiemImpliesHourMinute` | src/lib/scheduleService.ts:101-104 | Wherever "오전/오후 H시" matches, the bare "H시" pattern matches too |
| `Text.RemoveFirst` | src/lib/scheduleService.ts:138 | `replace` with a string cuts out the leftmost place where the pattern occurs, one pattern length shorter, and leaves the text alone when the pattern occurs nowhere |
| `Text.WordsOfJoin` | src/lib/memoService.ts:90-91 | Joining words with single spaces and splitting again gives the same words |
| `Calendar.IsoDateRoundTrip` | src/lib/scheduleService.ts:75 | The ISO date text of a day in years 0 to 9999 parses back to that day |
| `Calendar.NextYearAfter` | src/lib/scheduleService.ts:162-164 | The same month and day in the next year lie after today |

## Left out

- React components, the speech-recognition and speech-synthesis hooks, the zustand store setters and the ambient type declarations are UI and browser glue. None of them is modelled.
- `localStorage`, `JSON.parse`/`stringify`, the `typeof window` guards and the try/catch logging are not modelled. Each service's list is a field, and a failed or absent read leaves it empty.
- `uuidv4`, `new Date()` and `Math.random` are not modelled. They become the id parameter, `nowMs` and `Env.pick`.
- Time zones are not modelled. Local time is taken to be UTC, so `toISOString()` gives the local date and `getDate()+1` is the next day.
- `toLocaleDateString`, `toLocaleTimeString` and the briefing's long date are locale formatting. They are passed in as texts and a text function.
- `Lower` folds only ASCII letters. Full Unicode `toLowerCase` is not modelled; Hangul text is unaffected either way.
- String lengths count characters, not UTF-16 units. The two agree for Hangul and ASCII.
- `new Date(s)` is modelled for `YYYY-MM-DD` texts only. Any other text counts as an invalid date, as do times outside `00:00`–`24:00`.
- `ScheduleService.UpcomingSchedules`: an invalid date-time compares as NaN in the source's comparator, which makes the sort order unspecified. In the model such a schedule sorts as midnight of its date, or as 0 when the date does not parse.
- `Collections.SortBy`, `MemoService.SortNewestFirst`: stability of the sorts is not stated; only ordering and being a permutation are.
- `MemoService.MemoStore.GetRecentMemos`: the default argument `count = 10` is not modelled. Callers pass the count, and the assistant passes 3.
- `ScheduleService.UpcomingSchedules`: the default argument `days = 7` is not modelled. Both callers pass the number of days: 7 at src/lib/voiceAssistant.ts:96 and 1 at src/lib/voiceAssistant.ts:198.
- `ScheduleService.UpcomingSchedules`, `MemoService.SliceEnd`: non-integer `days` and `count` are not modelled.
- `saveAudioBlob` and `createAudioFromDataUrl` are not modelled. They are `FileReader`/`Audio` calls with no logic of their own.
- The parser computes a lower-cased copy of the text and never uses it, so the model leaves it out.
- `MemoService.Placeholder`: the placeholder's exact text is written out, but the contract states only its "메모 " prefix and its length bound, not the digits that follow.
- `Store.MergeSchedule`, `Store.MergeMemo`: an update that sets a field explicitly to `undefined` makes that field `undefined` in the spread result. In the model a missing change (`None`) always means the key is absent, so that case is not modelled. No caller in the assistant passes such an update.
- `VoiceAssistant.GetBriefing` appends the today part and the tomorrow part as whole pieces. The source's `if` statements around each `+=` sit inside those two functions.

### Behaviour worth noting

- The parser cuts only the matched time text (src/lib/scheduleService.ts:138) and the matched date text (src/lib/scheduleService.ts:177) out of the title. The command words stay, so "내일 10시에 회의 등록해줘" is titled "에 회의 등록해줘".
- The memo handler saves only when the lower-cased text contains "메모", "기록" or "저장" (src/lib/voiceAssistant.ts:114). A text with "저장" has already gone to the schedule handler, so only "메모" and "기록" reach this branch (`MemoSaveNeedsMemoWord`). A sentence with only "적어줘" or "기억해줘" gets the "not understood" reply.
- The PM branch of the time loop (src/lib/scheduleService.ts:125-128) never runs. The bare-hour pattern comes first and matches whenever the PM pattern does, so "오후 3시" is kept as "03:00" (`MeridiemNeverFirst`, `AfternoonReadAsWritten`).
