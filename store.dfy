/** The two record types the assistant stores, as the application's state
    module declares them, with the partial-update records the services accept. */
module Store {
  import opened Text

  /** A calendar entry. `date` is an ISO date "YYYY-MM-DD", `time` is "HH:MM",
      `createdAt` is a time stamp in milliseconds since the epoch. */
  datatype Schedule = Schedule(
    id: string,
    title: string,
    description: string,
    date: string,
    time: string,
    createdAt: int)

  /** A memo; `audioUrl` is present only for recorded memos. */
  datatype VoiceMemo = VoiceMemo(
    id: string,
    title: string,
    content: string,
    audioUrl: Option<string>,
    createdAt: int)

  /** `Omit<Schedule, 'id' | 'createdAt'>`: the fields a caller supplies. */
  datatype ScheduleDraft = ScheduleDraft(title: string, description: string, date: string, time: string)

  /** `Omit<VoiceMemo, 'id' | 'createdAt'>`. */
  datatype MemoDraft = MemoDraft(title: string, content: string, audioUrl: Option<string>)

  /** `Partial<Omit<Schedule, 'id' | 'createdAt'>>`: `Some` for each key present. */
  datatype ScheduleChanges = ScheduleChanges(
    title: Option<string>,
    description: Option<string>,
    date: Option<string>,
    time: Option<string>)

  /** `Partial<Omit<VoiceMemo, 'id' | 'createdAt'>>`; for `audioUrl` a present key
      may carry `undefined`, written `Some(None)`. */
  datatype MemoChanges = MemoChanges(
    title: Option<string>,
    content: Option<string>,
    audioUrl: Option<Option<string>>)

  /** The value of one key after an object spread: the update's if present. */
  function Override<T>(current: T, update: Option<T>): T {
    match update
    case Some(v) => v
    case None => current
  }

  function NewSchedule(d: ScheduleDraft, id: string, createdAt: int): Schedule {
    Schedule(id, d.title, d.description, d.date, d.time, createdAt)
  }

  function NewMemo(d: MemoDraft, id: string, createdAt: int): VoiceMemo {
    VoiceMemo(id, d.title, d.content, d.audioUrl, createdAt)
  }

  /** `{ ...s, ...u }`. */
  function MergeSchedule(s: Schedule, u: ScheduleChanges): (r: Schedule)
    ensures r.id == s.id && r.createdAt == s.createdAt
    ensures u == ScheduleChanges(None, None, None, None) ==> r == s
  {
    s.(title := Override(s.title, u.title),
       description := Override(s.description, u.description),
       date := Override(s.date, u.date),
       time := Override(s.time, u.time))
  }

  /** `{ ...m, ...u }`. */
  function MergeMemo(m: VoiceMemo, u: MemoChanges): (r: VoiceMemo)
    ensures r.id == m.id && r.createdAt == m.createdAt
    ensures u == MemoChanges(None, None, None) ==> r == m
  {
    m.(title := Override(m.title, u.title),
       content := Override(m.content, u.content),
       audioUrl := Override(m.audioUrl, u.audioUrl))
  }
}
