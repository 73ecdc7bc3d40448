/** The shapes of the values the extension keeps in `chrome.storage.local`,
    keyed by `notes:<courseId>`, `progress:<courseId>`, `quizzes:<courseId>`,
    `planner:schedule` and `settings`. Instants (the source's ISO-8601
    strings and `Date` objects) are their millisecond time values. */
module Store {
  import opened Wrappers
  import opened Strings
  import opened JsObjects

  const NotesPrefix := "notes:"
  const ProgressPrefix := "progress:"
  const QuizzesPrefix := "quizzes:"

  /** No key carries two of the course-data prefixes. */
  lemma PrefixesExclusive(key: string)
    ensures !(StartsWith(key, NotesPrefix) && StartsWith(key, ProgressPrefix))
    ensures !(StartsWith(key, NotesPrefix) && StartsWith(key, QuizzesPrefix))
    ensures !(StartsWith(key, ProgressPrefix) && StartsWith(key, QuizzesPrefix))
  {
    if StartsWith(key, NotesPrefix) { assert key[0] == 'n'; }
    if StartsWith(key, ProgressPrefix) { assert key[0] == 'p'; }
  }

  /** A note as saved by the content script. */
  datatype Note = Note(id: string, timestamp: real, transcriptText: string, text: string, createdAt: int)

  /** One lecture's entry under `progress:<courseId>`; `otherFields` are any
      properties besides the four the tracker writes. */
  datatype LectureProgress = LectureProgress(
    watchedTime: Option<real>,
    duration: Option<real>,
    completed: bool,
    lastWatchedAt: int,
    otherFields: Obj<string>)

  datatype CourseProgress = CourseProgress(lectures: Obj<LectureProgress>)

  datatype QuizRecord = QuizRecord(results: Option<seq<real>>)

  /** A study session of the planner. */
  datatype Session = Session(
    sessionId: string,
    course: string,
    title: string,
    duration: Option<int>,
    deadline: int,
    status: string,
    url: Option<string>,
    lastUpdated: Option<int>)

  /** The stored settings; a `None` field is a missing value. */
  datatype Settings = Settings(
    maxPlaybackRate: Option<real>,
    completionThreshold: Option<real>,
    dailyBudgetMins: Option<int>,
    sessionLengthMins: Option<int>)

  datatype Stored =
    | NotesValue(byLecture: Obj<seq<Note>>)
    | ProgressValue(progress: CourseProgress)
    | QuizzesValue(quizzes: Obj<QuizRecord>)
    | ScheduleValue(sessions: seq<Session>)
    | SettingsValue(settings: Settings)

  /** The storage area as `chrome.storage.local.get(null)` returns it. */
  type Storage = Obj<Stored>
}
