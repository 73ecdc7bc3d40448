/** The options page: the study schedule built from an uploaded CSV file
    (earliest deadline first), its preview totals, the settings form's
    defaults, the dashboard totals and the backup export. */
module Options {
  import opened Wrappers
  import opened Strings
  import opened JsObjects
  import opened Store
  import opened StorageTotals
  import opened Sorting

  /** One parsed CSV row; a column the file lacks is `None`. */
  datatype CsvRow = CsvRow(course: Option<string>, title: Option<string>, estMinutes: Option<string>, deadline: Option<string>)

  /** A truthy text: present and not empty. */
  predicate Truthy(s: Option<string>) {
    s.Some? && s.value != ""
  }

  predicate Complete(row: CsvRow) {
    Truthy(row.course) && Truthy(row.title) && Truthy(row.estMinutes) && Truthy(row.deadline)
  }

  /** The session for the row at `index`; `parseDate` stands for
      `new Date(...)` and `now` for `Date.now()`. */
  function SessionFor(row: CsvRow, index: nat, now: int, parseDate: string -> int): (s: Session)
    requires Complete(row)
    ensures s.status == "scheduled"
    ensures s.course == row.course.value && s.title == row.title.value
    ensures s.duration == ParseInt(row.estMinutes.value) && s.deadline == parseDate(row.deadline.value)
  {
    Session("session-" + IntToString(now) + "-" + NatToString(index),
            row.course.value, row.title.value, ParseInt(row.estMinutes.value),
            parseDate(row.deadline.value), "scheduled", None, None)
  }

  /** The sessions of the complete rows, in row order. */
  function Sessions(rows: seq<CsvRow>, now: int, parseDate: string -> int): (r: seq<Session>)
    ensures |r| <= |rows|
    decreases |rows|
  {
    if rows == [] then []
    else
      var n := |rows| - 1;
      Sessions(rows[..n], now, parseDate) + (if Complete(rows[n]) then [SessionFor(rows[n], n, now, parseDate)] else [])
  }

  /** Each session is the one of a complete row. */
  lemma {:induction false} SessionsFromRows(rows: seq<CsvRow>, now: int, parseDate: string -> int, k: nat)
    requires k < |Sessions(rows, now, parseDate)|
    ensures exists i :: 0 <= i < |rows| && Complete(rows[i]) &&
              Sessions(rows, now, parseDate)[k] == SessionFor(rows[i], i, now, parseDate)
    decreases |rows|
  {
    var n := |rows| - 1;
    var front := rows[..n];
    var built := Sessions(front, now, parseDate);
    var tail := if Complete(rows[n]) then [SessionFor(rows[n], n, now, parseDate)] else [];
    assert Sessions(rows, now, parseDate) == built + tail;
    if k < |built| {
      SessionsFromRows(front, now, parseDate, k);
      var i :| 0 <= i < n && Complete(front[i]) && built[k] == SessionFor(front[i], i, now, parseDate);
      assert rows[i] == front[i];
    } else {
      assert Sessions(rows, now, parseDate)[k] == tail[0];
    }
  }

  /** Adding a row keeps the sessions built so far, and appends the new
      row's session when it is complete. */
  lemma SessionsStep(rows: seq<CsvRow>, now: int, parseDate: string -> int)
    requires rows != []
    ensures var built := Sessions(rows[..|rows| - 1], now, parseDate);
      |built| <= |Sessions(rows, now, parseDate)| &&
      Sessions(rows, now, parseDate)[..|built|] == built &&
      (Complete(rows[|rows| - 1]) ==>
         |Sessions(rows, now, parseDate)| == |built| + 1 &&
         Sessions(rows, now, parseDate)[|built|] == SessionFor(rows[|rows| - 1], |rows| - 1, now, parseDate))
  {
  }

  /** Every complete row has its session. */
  lemma {:induction false} RowsHaveSessions(rows: seq<CsvRow>, now: int, parseDate: string -> int, i: nat)
    requires i < |rows| && Complete(rows[i])
    ensures exists k :: 0 <= k < |Sessions(rows, now, parseDate)| &&
              Sessions(rows, now, parseDate)[k] == SessionFor(rows[i], i, now, parseDate)
    decreases |rows|
  {
    var n := |rows| - 1;
    var front := rows[..n];
    SessionsStep(rows, now, parseDate);
    var built := Sessions(front, now, parseDate);
    var all := Sessions(rows, now, parseDate);
    if i < n {
      assert front[i] == rows[i];
      RowsHaveSessions(front, now, parseDate, i);
      var k :| 0 <= k < |built| && built[k] == SessionFor(front[i], i, now, parseDate);
      assert all[..|built|][k] == all[k];
    } else {
      assert all[|built|] == SessionFor(rows[i], i, now, parseDate);
    }
  }

  /** The number of complete rows. */
  function CompleteCount(rows: seq<CsvRow>): nat
    decreases |rows|
  {
    if rows == [] then 0
    else CompleteCount(rows[..|rows| - 1]) + (if Complete(rows[|rows| - 1]) then 1 else 0)
  }

  lemma {:induction false} SessionsCount(rows: seq<CsvRow>, now: int, parseDate: string -> int)
    ensures |Sessions(rows, now, parseDate)| == CompleteCount(rows)
    decreases |rows|
  {
    if rows != [] {
      SessionsCount(rows[..|rows| - 1], now, parseDate);
    }
  }

  /** The comparator `a.deadline - b.deadline`. */
  function ByDeadline(s: Session): int {
    s.deadline
  }

  /** The sessions of the complete rows, reordered. */
  function Schedule(rows: seq<CsvRow>, now: int, parseDate: string -> int): (r: seq<Session>)
    ensures multiset(r) == multiset(Sessions(rows, now, parseDate))
  {
    SortBy(Sessions(rows, now, parseDate), ByDeadline)
  }

  /** The schedule holds exactly the complete rows' sessions, earliest
      deadline first. */
  lemma ScheduleIsEdf(rows: seq<CsvRow>, now: int, parseDate: string -> int)
    ensures |Schedule(rows, now, parseDate)| == CompleteCount(rows) <= |rows|
    ensures multiset(Schedule(rows, now, parseDate)) == multiset(Sessions(rows, now, parseDate))
    ensures forall i, j :: 0 <= i < j < |Schedule(rows, now, parseDate)| ==>
              Schedule(rows, now, parseDate)[i].deadline <= Schedule(rows, now, parseDate)[j].deadline
    ensures forall k :: 0 <= k < |Schedule(rows, now, parseDate)| ==>
              Schedule(rows, now, parseDate)[k].status == "scheduled"
  {
    var built := Sessions(rows, now, parseDate);
    var s := Schedule(rows, now, parseDate);
    SessionsCount(rows, now, parseDate);
    SortBySorted(built, ByDeadline);
    forall i, j | 0 <= i < j < |s| ensures s[i].deadline <= s[j].deadline {
      assert ByDeadline(s[i]) <= ByDeadline(s[j]);
    }
    AllScheduled(rows, now, parseDate);
    forall k | 0 <= k < |s| ensures s[k].status == "scheduled" {
      assert s[k] in multiset(built);
      assert s[k] in built;
    }
  }

  /** Every session the filter builds is scheduled. */
  lemma AllScheduled(rows: seq<CsvRow>, now: int, parseDate: string -> int)
    ensures forall m :: 0 <= m < |Sessions(rows, now, parseDate)| ==> Sessions(rows, now, parseDate)[m].status == "scheduled"
  {
    forall m | 0 <= m < |Sessions(rows, now, parseDate)|
      ensures Sessions(rows, now, parseDate)[m].status == "scheduled"
    {
      SessionsFromRows(rows, now, parseDate, m);
    }
  }

  /** `processScheduleData`: the filter loop, then the sort. */
  method ProcessScheduleData(rows: seq<CsvRow>, now: int, parseDate: string -> int) returns (sessions: seq<Session>)
    ensures sessions == Schedule(rows, now, parseDate)
  {
    sessions := [];
    var index := 0;
    while index < |rows|
      invariant 0 <= index <= |rows|
      invariant sessions == Sessions(rows[..index], now, parseDate)
    {
      assert rows[..index + 1][..index] == rows[..index];
      var row := rows[index];
      if Truthy(row.course) && Truthy(row.title) && Truthy(row.estMinutes) && Truthy(row.deadline) {
        sessions := sessions + [Session("session-" + IntToString(now) + "-" + NatToString(index),
                                        row.course.value, row.title.value, ParseInt(row.estMinutes.value),
                                        parseDate(row.deadline.value), "scheduled", None, None)];
      }
      index := index + 1;
    }
    assert rows[..index] == rows;
    sessions := SortBy(sessions, ByDeadline);
  }

  /** `sessions.reduce((sum, s) => sum + s.duration, 0)`; a `NaN` duration
      makes the sum `NaN` (`None`). */
  function DurationSum(sessions: seq<Session>): (r: Option<int>)
    ensures r.None? <==> exists i :: 0 <= i < |sessions| && sessions[i].duration.None?
    decreases |sessions|
  {
    if sessions == [] then Some(0)
    else
      var n := |sessions| - 1;
      var front := DurationSum(sessions[..n]);
      assert forall i :: 0 <= i < n ==> sessions[..n][i] == sessions[i];
      match (front, sessions[n].duration)
      case (Some(a), Some(b)) => Some(a + b)
      case _ => None
  }

  /** A sum of non-negative durations is at least each of them. */
  lemma {:induction false} DurationSumBounds(sessions: seq<Session>, k: nat)
    requires DurationSum(sessions).Some? && k < |sessions|
    requires forall i :: 0 <= i < |sessions| ==> sessions[i].duration.value >= 0
    ensures 0 <= sessions[k].duration.value <= DurationSum(sessions).value
    decreases |sessions|
  {
    var n := |sessions| - 1;
    var front := sessions[..n];
    assert forall i :: 0 <= i < n ==> front[i] == sessions[i];
    DurationSumNonNegative(front);
    if k < n {
      DurationSumBounds(front, k);
    }
  }

  lemma {:induction false} DurationSumNonNegative(sessions: seq<Session>)
    requires DurationSum(sessions).Some?
    requires forall i :: 0 <= i < |sessions| ==> sessions[i].duration.value >= 0
    ensures DurationSum(sessions).value >= 0
    decreases |sessions|
  {
    if sessions != [] {
      var n := |sessions| - 1;
      assert forall i :: 0 <= i < n ==> sessions[..n][i] == sessions[i];
      DurationSumNonNegative(sessions[..n]);
    }
  }

  /** `displaySchedulePreview`'s two figures. */
  datatype Preview = Preview(totalSessions: nat, totalHours: Option<real>)

  function SchedulePreview(sessions: seq<Session>): (p: Preview)
    ensures p.totalSessions == |sessions|
    ensures p.totalHours.Some? <==> forall i :: 0 <= i < |sessions| ==> sessions[i].duration.Some?
    ensures p.totalHours.Some? ==> p.totalHours.value * 60.0 == DurationSum(sessions).value as real
  {
    var sum := DurationSum(sessions);
    Preview(|sessions|, if sum.Some? then Some((sum.value as real) / 60.0) else None)
  }

  /** The values the settings form shows. */
  datatype SettingsForm = SettingsForm(maxPlaybackRate: real, completionThreshold: real, dailyBudget: int, sessionLength: int)

  const DefaultMaxPlaybackRate := 2.0
  const DefaultCompletionThreshold := 0.96
  const DefaultDailyBudget := 120
  const DefaultSessionLength := 30

  /** `value || fallback` for a number: a missing value and 0 both fall back. */
  function OrReal(v: Option<real>, fallback: real): (r: real)
    ensures (v.None? || v.value == 0.0) ==> r == fallback
    ensures v.Some? && v.value != 0.0 ==> r == v.value
  {
    if v.Some? && v.value != 0.0 then v.value else fallback
  }

  function OrInt(v: Option<int>, fallback: int): (r: int)
    ensures (v.None? || v.value == 0) ==> r == fallback
    ensures v.Some? && v.value != 0 ==> r == v.value
  {
    if v.Some? && v.value != 0 then v.value else fallback
  }

  /** `loadSettings`: the stored value under `settings`, each field falling
      back to its default when it is missing or zero. */
  function LoadSettings(stored: Option<Stored>): (f: SettingsForm)
    ensures (stored.None? || !stored.value.SettingsValue?) ==>
      f == SettingsForm(DefaultMaxPlaybackRate, DefaultCompletionThreshold, DefaultDailyBudget, DefaultSessionLength)
    ensures stored.Some? && stored.value.SettingsValue? ==>
      var s := stored.value.settings;
      f.maxPlaybackRate == OrReal(s.maxPlaybackRate, DefaultMaxPlaybackRate) &&
      f.completionThreshold == OrReal(s.completionThreshold, DefaultCompletionThreshold) &&
      f.dailyBudget == OrInt(s.dailyBudgetMins, DefaultDailyBudget) &&
      f.sessionLength == OrInt(s.sessionLengthMins, DefaultSessionLength)
    ensures f.maxPlaybackRate != 0.0 && f.completionThreshold != 0.0 && f.dailyBudget != 0 && f.sessionLength != 0
  {
    var s := if stored.Some? && stored.value.SettingsValue? then stored.value.settings else Settings(None, None, None, None);
    SettingsForm(OrReal(s.maxPlaybackRate, 2.0), OrReal(s.completionThreshold, 0.96),
                 OrInt(s.dailyBudgetMins, 120), OrInt(s.sessionLengthMins, 30))
  }

  /** `loadDashboardData`: one pass over the storage area. */
  method LoadDashboardData(storage: Storage) returns (totalTime: real, totalNotes: nat, totalCourses: nat)
    ensures totalTime == TotalWatchTime(storage)
    ensures totalNotes == TotalNotes(storage)
    ensures totalCourses == ProgressKeyCount(storage)
  {
    totalTime, totalNotes, totalCourses := 0.0, 0, 0;
    var i := 0;
    while i < |storage|
      invariant 0 <= i <= |storage|
      invariant totalTime == TotalWatchTime(storage[..i])
      invariant totalNotes == TotalNotes(storage[..i])
      invariant totalCourses == ProgressKeyCount(storage[..i])
    {
      assert storage[..i + 1][..i] == storage[..i];
      var key := storage[i].key;
      var value := storage[i].value;
      PrefixesExclusive(key);
      if StartsWith(key, ProgressPrefix) {
        totalCourses := totalCourses + 1;
        if value.ProgressValue? {
          var lectures := value.progress.lectures;
          var j := 0;
          while j < |lectures|
            invariant 0 <= j <= |lectures|
            invariant totalTime == TotalWatchTime(storage[..i]) + CourseWatchTime(lectures[..j])
          {
            assert lectures[..j + 1][..j] == lectures[..j];
            totalTime := totalTime + WatchedOrZero(lectures[j].value);
            j := j + 1;
          }
          assert lectures[..j] == lectures;
        }
      } else if StartsWith(key, NotesPrefix) {
        if value.NotesValue? {
          var notes := value.byLecture;
          var j := 0;
          while j < |notes|
            invariant 0 <= j <= |notes|
            invariant totalNotes == TotalNotes(storage[..i]) + CourseNoteCount(notes[..j])
          {
            assert notes[..j + 1][..j] == notes[..j];
            totalNotes := totalNotes + |notes[j].value|;
            j := j + 1;
          }
          assert notes[..j] == notes;
        }
      }
      i := i + 1;
    }
    assert storage[..i] == storage;
  }

  /** The course count is the number of `progress:` entries. */
  lemma {:induction false} CourseCountIsProgressKeys(storage: Storage)
    ensures ProgressKeyCount(storage) == |WithKeyPrefix(storage, ProgressPrefix)|
    decreases |storage|
  {
    if storage != [] {
      var front := storage[..|storage| - 1];
      CourseCountIsProgressKeys(front);
      var last := storage[|storage| - 1];
      assert storage == front + [last];
    }
  }

  /** The backup document; `settings` is `None` when nothing is stored. */
  datatype OptionsExport = OptionsExport(notes: Storage, progress: Storage, settings: Option<Stored>)

  /** `exportAllData`: the `notes:` and `progress:` entries into their
      buckets; every other key, `quizzes:` included, is left out. */
  method ExportAllData(storage: Storage) returns (e: OptionsExport)
    requires UniqueKeys(storage)
    ensures e.notes == WithKeyPrefix(storage, NotesPrefix)
    ensures e.progress == WithKeyPrefix(storage, ProgressPrefix)
    ensures e.settings == Get(storage, "settings")
  {
    var notes, progress := [], [];
    var i := 0;
    while i < |storage|
      invariant 0 <= i <= |storage|
      invariant notes == WithKeyPrefix(storage[..i], NotesPrefix)
      invariant progress == WithKeyPrefix(storage[..i], ProgressPrefix)
    {
      var key := storage[i].key;
      PrefixesExclusive(key);
      WithKeyPrefixStep(storage, NotesPrefix, i);
      WithKeyPrefixStep(storage, ProgressPrefix, i);
      if StartsWith(key, NotesPrefix) {
        PutNewFiltered(storage, NotesPrefix, i);
        notes := Put(notes, key, storage[i].value);
      } else if StartsWith(key, ProgressPrefix) {
        PutNewFiltered(storage, ProgressPrefix, i);
        progress := Put(progress, key, storage[i].value);
      }
      i := i + 1;
    }
    assert storage[..i] == storage;
    e := OptionsExport(notes, progress, Get(storage, "settings"));
  }

  /** The backup keeps every `notes:` and `progress:` entry as stored, and
      no quiz results. */
  lemma BackupKeepsCourseData(storage: Storage, k: string)
    ensures StartsWith(k, NotesPrefix) ==> Get(WithKeyPrefix(storage, NotesPrefix), k) == Get(storage, k)
    ensures StartsWith(k, ProgressPrefix) ==> Get(WithKeyPrefix(storage, ProgressPrefix), k) == Get(storage, k)
    ensures StartsWith(k, QuizzesPrefix) ==>
              Get(WithKeyPrefix(storage, NotesPrefix), k).None? && Get(WithKeyPrefix(storage, ProgressPrefix), k).None?
  {
    GetWithKeyPrefix(storage, NotesPrefix, k);
    GetWithKeyPrefix(storage, ProgressPrefix, k);
    PrefixesExclusive(k);
  }
}
