/** The toolbar popup: the supported-site test, its two text helpers, the
    statistics panel, the three most recent notes and the data export. */
module Popup {
  import opened Wrappers
  import opened Strings
  import opened JsObjects
  import opened Store
  import opened JsMath
  import opened StorageTotals
  import opened Sorting
  import ContentCommon
  import Background

  /** `isSupportedSite`, read as a condition (a missing or empty URL is
      falsy). */
  function IsSupportedSite(url: Option<string>): (b: bool)
    ensures b <==> url.Some? && (Includes(url.value, "coursera.org") || Includes(url.value, "linkedin.com/learning"))
  {
    url.Some? && url.value != "" && (Includes(url.value, "coursera.org") || Includes(url.value, "linkedin.com/learning"))
  }

  /** The popup offers its controls exactly on the pages whose progress
      the worker files under a known platform. */
  lemma SupportedIffKnownPlatform(url: string)
    ensures IsSupportedSite(Some(url)) <==> Background.ExtractCourseId(url) != "unknown"
  {
    var id := Background.ExtractCourseId(url);
    if Includes(url, "coursera.org") || Includes(url, "linkedin.com/learning") {
      assert id[0] == 'c' || id[0] == 'l';
    }
  }

  /** The popup's `formatTime`: `0:00` for a missing, zero or `NaN` time,
      otherwise the content script's `m:ss`. */
  function FormatTime(seconds: Option<real>): (r: string)
    ensures seconds.None? ==> r == "0:00"
    ensures seconds.Some? ==> r == ContentCommon.FormatTime(seconds.value)
  {
    if seconds.None? || seconds.value == 0.0 then
      ContentCommon.FormatTimeZero();
      "0:00"
    else
      ContentCommon.FormatTime(seconds.value)
  }

  /** `text.substring(0, n)`, where a negative `n` counts as 0. */
  function Prefix(text: string, n: int): (r: string)
    ensures |r| == if n <= 0 then 0 else if n <= |text| then n else |text|
    ensures r == text[..|r|]
  {
    if n <= 0 then "" else if n <= |text| then text[..n] else text
  }

  /** `truncateText`: a missing or empty text gives the empty text. */
  function TruncateText(text: Option<string>, maxLength: int): (r: string)
    ensures text.None? || text == Some("") ==> r == ""
    ensures text.Some? && |text.value| <= maxLength ==> r == text.value
    ensures text.Some? && text.value != "" && |text.value| > maxLength ==> r == Prefix(text.value, maxLength) + "..."
    ensures maxLength >= 0 ==> |r| <= maxLength + 3
  {
    if text.None? || text.value == "" then ""
    else if |text.value| > maxLength then Prefix(text.value, maxLength) + "..."
    else text.value
  }

  /** Truncating twice is truncating once. */
  lemma TruncateIdempotent(text: Option<string>, maxLength: nat)
    ensures TruncateText(Some(TruncateText(text, maxLength)), maxLength) == TruncateText(text, maxLength)
  {
    var r := TruncateText(text, maxLength);
    if text.Some? && |text.value| > maxLength {
      assert |r| == maxLength + 3;
      assert r[..maxLength] == text.value[..maxLength];
    }
  }

  /** The `reduce` sum of the scores. */
  function Sum(s: seq<real>): real
    decreases |s|
  {
    if s == [] then 0.0 else Sum(s[..|s| - 1]) + s[|s| - 1]
  }

  /** Scores all at least `m` sum to at least `m` times their number. */
  lemma {:induction false} SumAtLeast(s: seq<real>, m: real)
    requires forall i :: 0 <= i < |s| ==> s[i] >= m
    ensures Sum(s) >= |s| as real * m
    decreases |s|
  {
    if s != [] {
      var front := s[..|s| - 1];
      forall i | 0 <= i < |front| ensures front[i] >= m { assert front[i] == s[i]; }
      SumAtLeast(front, m);
    }
  }

  lemma {:induction false} SumAtMost(s: seq<real>, m: real)
    requires forall i :: 0 <= i < |s| ==> s[i] <= m
    ensures Sum(s) <= |s| as real * m
    decreases |s|
  {
    if s != [] {
      var front := s[..|s| - 1];
      forall i | 0 <= i < |front| ensures front[i] <= m { assert front[i] == s[i]; }
      SumAtMost(front, m);
    }
  }

  /** Scores all above `m` sum to more than `m` times their number. */
  lemma {:induction false} SumAbove(s: seq<real>, m: real)
    requires s != []
    requires forall i :: 0 <= i < |s| ==> s[i] > m
    ensures Sum(s) > |s| as real * m
    decreases |s|
  {
    var front := s[..|s| - 1];
    if front != [] {
      forall i | 0 <= i < |front| ensures front[i] > m { assert front[i] == s[i]; }
      SumAbove(front, m);
    }
  }

  lemma {:induction false} SumBelow(s: seq<real>, m: real)
    requires s != []
    requires forall i :: 0 <= i < |s| ==> s[i] < m
    ensures Sum(s) < |s| as real * m
    decreases |s|
  {
    var front := s[..|s| - 1];
    if front != [] {
      forall i | 0 <= i < |front| ensures front[i] < m { assert front[i] == s[i]; }
      SumBelow(front, m);
    }
  }

  /** The rounded mean of the quiz scores; none without scores. It is
      within half a point of the mean, so it is above some score less
      half a point and at most some score plus half a point; when every
      score is a whole number it lies between the least and the greatest. */
  function AverageScore(scores: seq<real>): (r: Option<int>)
    ensures r.None? <==> scores == []
    ensures r.Some? ==> Mean(scores) - 0.5 < r.value as real <= Mean(scores) + 0.5
    ensures r.Some? ==> exists i :: 0 <= i < |scores| && scores[i] - 0.5 < r.value as real
    ensures r.Some? ==> exists i :: 0 <= i < |scores| && r.value as real <= scores[i] + 0.5
    ensures r.Some? && WholeScores(scores) ==> exists i :: 0 <= i < |scores| && scores[i] <= r.value as real
    ensures r.Some? && WholeScores(scores) ==> exists i :: 0 <= i < |scores| && r.value as real <= scores[i]
  {
    if scores == [] then None
    else
      MeanBetween(scores);
      if WholeScores(scores) then MeanBounded(scores); Some(Round(Mean(scores)))
      else Some(Round(Mean(scores)))
  }

  function Mean(scores: seq<real>): real
    requires scores != []
  {
    Sum(scores) / (|scores| as real)
  }

  lemma MeanAtLeast(scores: seq<real>, m: real)
    requires scores != []
    requires forall i :: 0 <= i < |scores| ==> scores[i] >= m
    ensures Mean(scores) >= m
  {
    SumAtLeast(scores, m);
    var n := |scores| as real;
    assert Mean(scores) * n == Sum(scores);
    assert Mean(scores) * n >= m * n;
  }

  lemma MeanAtMost(scores: seq<real>, m: real)
    requires scores != []
    requires forall i :: 0 <= i < |scores| ==> scores[i] <= m
    ensures Mean(scores) <= m
  {
    SumAtMost(scores, m);
    var n := |scores| as real;
    assert Mean(scores) * n == Sum(scores);
    assert Mean(scores) * n <= m * n;
  }

  /** The mean of non-empty scores is at least one score and at most another. */
  lemma MeanBetween(scores: seq<real>)
    requires scores != []
    ensures exists i :: 0 <= i < |scores| && scores[i] <= Mean(scores)
    ensures exists i :: 0 <= i < |scores| && Mean(scores) <= scores[i]
  {
    var n := |scores| as real;
    assert Mean(scores) * n == Sum(scores);
    if forall i :: 0 <= i < |scores| ==> scores[i] > Mean(scores) {
      SumAbove(scores, Mean(scores));
      assert false;
    }
    if forall i :: 0 <= i < |scores| ==> scores[i] < Mean(scores) {
      SumBelow(scores, Mean(scores));
      assert false;
    }
  }

  /** Every score is a whole number. */
  predicate WholeScores(scores: seq<real>) {
    forall i :: 0 <= i < |scores| ==> scores[i] == scores[i].Floor as real
  }

  /** For whole-number scores, the rounded mean is at least one score and
      at most another. */
  lemma MeanBounded(scores: seq<real>)
    requires scores != [] && WholeScores(scores)
    ensures exists i :: 0 <= i < |scores| && scores[i] <= Round(Mean(scores)) as real
    ensures exists i :: 0 <= i < |scores| && Round(Mean(scores)) as real <= scores[i]
  {
    var r := Round(Mean(scores));
    if forall i :: 0 <= i < |scores| ==> scores[i] > r as real {
      forall i | 0 <= i < |scores| ensures scores[i] >= (r + 1) as real {
        assert scores[i].Floor > r;
      }
      MeanAtLeast(scores, (r + 1) as real);
      assert false;
    }
    if forall i :: 0 <= i < |scores| ==> scores[i] < r as real {
      forall i | 0 <= i < |scores| ensures scores[i] <= (r - 1) as real {
        assert scores[i].Floor < r;
      }
      MeanAtMost(scores, (r - 1) as real);
      assert false;
    }
  }

  /** Without whole-number scores the rounded mean can leave their range:
      a single 0.4 averages to 0, and two scores of 66.5 to 67. */
  lemma FractionalScoresRoundOutside()
    ensures !WholeScores([0.4]) && AverageScore([0.4]) == Some(0)
    ensures !WholeScores([66.5, 66.5]) && AverageScore([66.5, 66.5]) == Some(67)
  {
    var one: seq<real> := [0.4];
    assert one[0].Floor == 0;
    assert Mean(one) == 0.4;
    var two: seq<real> := [66.5, 66.5];
    assert two[0].Floor == 66;
    assert two[..1] == [66.5] && two[..1][..0] == [];
    assert Sum(two) == 133.0;
    assert Mean(two) == 66.5;
  }

  /** The three figures of the statistics panel. */
  datatype StatisticsView = StatisticsView(watchTime: string, notes: string, quizScore: string)

  /** `updateStatistics`: `<h>h <m>m`, the note count and `<avg>%` or `N/A`. */
  function UpdateStatistics(totalWatchTime: real, totalNotes: nat, quizScores: seq<real>): (v: StatisticsView)
    ensures v.notes == NatToString(totalNotes)
    ensures v.quizScore == "N/A" <==> quizScores == []
    ensures quizScores != [] ==> v.quizScore == IntToString(AverageScore(quizScores).value) + "%"
    ensures v.watchTime == IntToString(HoursMinutes(totalWatchTime).0) + "h " + IntToString(HoursMinutes(totalWatchTime).1) + "m"
  {
    var hm := HoursMinutes(totalWatchTime);
    var avg := AverageScore(quizScores);
    var scoreText := if avg.None? then "N/A" else IntToString(avg.value) + "%";
    assert avg.Some? ==> scoreText[|scoreText| - 1] == '%';
    StatisticsView(IntToString(hm.0) + "h " + IntToString(hm.1) + "m", NatToString(totalNotes), scoreText)
  }

  /** `loadStatistics`: one pass over the storage area summing the watch
      time and the note counts and collecting the quiz results. */
  method LoadStatistics(storage: Storage) returns (totalWatchTime: real, totalNotes: nat, quizScores: seq<real>)
    ensures totalWatchTime == TotalWatchTime(storage)
    ensures totalNotes == TotalNotes(storage)
    ensures quizScores == QuizScores(storage)
  {
    totalWatchTime, totalNotes, quizScores := 0.0, 0, [];
    var i := 0;
    while i < |storage|
      invariant 0 <= i <= |storage|
      invariant totalWatchTime == TotalWatchTime(storage[..i])
      invariant totalNotes == TotalNotes(storage[..i])
      invariant quizScores == QuizScores(storage[..i])
    {
      assert storage[..i + 1][..i] == storage[..i];
      totalWatchTime, totalNotes, quizScores := AddEntry(totalWatchTime, totalNotes, quizScores, storage[i]);
      i := i + 1;
    }
    assert storage[..|storage|] == storage;
  }

  /** One entry of the storage area, dispatched on its key's prefix. */
  method AddEntry(watchTime: real, notes: nat, scores: seq<real>, entry: Prop<Stored>)
    returns (watchTime': real, notes': nat, scores': seq<real>)
    ensures watchTime' == watchTime + EntryWatchTime(entry)
    ensures notes' == notes + EntryNoteCount(entry)
    ensures scores' == scores + EntryScores(entry)
  {
    watchTime', notes', scores' := watchTime, notes, scores;
    var key := entry.key;
    var value := entry.value;
    PrefixesExclusive(key);
    if StartsWith(key, ProgressPrefix) {
      if value.ProgressValue? {
        watchTime' := AddWatchTimes(watchTime, value.progress.lectures);
      }
    } else if StartsWith(key, NotesPrefix) {
      if value.NotesValue? {
        notes' := AddNoteCounts(notes, value.byLecture);
      }
    } else if StartsWith(key, QuizzesPrefix) {
      if value.QuizzesValue? {
        scores' := AddScores(scores, value.quizzes);
      }
    }
  }

  /** The inner `forEach` over a course's lectures. */
  method AddWatchTimes(total: real, lectures: Obj<LectureProgress>) returns (r: real)
    ensures r == total + CourseWatchTime(lectures)
  {
    r := total;
    var j := 0;
    while j < |lectures|
      invariant 0 <= j <= |lectures|
      invariant r == total + CourseWatchTime(lectures[..j])
    {
      assert lectures[..j + 1][..j] == lectures[..j];
      r := r + WatchedOrZero(lectures[j].value);
      j := j + 1;
    }
    assert lectures[..|lectures|] == lectures;
  }

  method AddNoteCounts(total: nat, byLecture: Obj<seq<Note>>) returns (r: nat)
    ensures r == total + CourseNoteCount(byLecture)
  {
    r := total;
    var j := 0;
    while j < |byLecture|
      invariant 0 <= j <= |byLecture|
      invariant r == total + CourseNoteCount(byLecture[..j])
    {
      assert byLecture[..j + 1][..j] == byLecture[..j];
      r := r + |byLecture[j].value|;
      j := j + 1;
    }
    assert byLecture[..|byLecture|] == byLecture;
  }

  method AddScores(scores: seq<real>, quizzes: Obj<QuizRecord>) returns (r: seq<real>)
    ensures r == scores + CourseScores(quizzes)
  {
    r := scores;
    var j := 0;
    while j < |quizzes|
      invariant 0 <= j <= |quizzes|
      invariant r == scores + CourseScores(quizzes[..j])
    {
      assert quizzes[..j + 1][..j] == quizzes[..j];
      var results := quizzes[j].value.results;
      if results.Some? {
        r := r + results.value;
      }
      j := j + 1;
    }
    assert quizzes[..|quizzes|] == quizzes;
  }

  /** A note as `loadRecentNotes` collects it, tagged with where it is kept. */
  datatype TaggedNote = TaggedNote(note: Note, courseId: string, lectureId: string)

  function Tag(courseId: string, lectureId: string, notes: seq<Note>): (r: seq<TaggedNote>)
    ensures |r| == |notes|
    ensures forall k :: 0 <= k < |r| ==> r[k] == TaggedNote(notes[k], courseId, lectureId)
    decreases |notes|
  {
    if notes == [] then []
    else Tag(courseId, lectureId, notes[..|notes| - 1]) + [TaggedNote(notes[|notes| - 1], courseId, lectureId)]
  }

  function CourseTagged(courseId: string, byLecture: Obj<seq<Note>>): seq<TaggedNote>
    decreases |byLecture|
  {
    if byLecture == [] then []
    else
      var last := byLecture[|byLecture| - 1];
      CourseTagged(courseId, byLecture[..|byLecture| - 1]) + Tag(courseId, last.key, last.value)
  }

  /** `key.replace('notes:', '')` for a key that starts with the prefix. */
  function CourseIdOf(key: string): string
    requires StartsWith(key, NotesPrefix)
  {
    key[|NotesPrefix|..]
  }

  function EntryTagged(p: Prop<Stored>): seq<TaggedNote> {
    if StartsWith(p.key, NotesPrefix) && p.value.NotesValue? then CourseTagged(CourseIdOf(p.key), p.value.byLecture) else []
  }

  /** Every note of every course, in storage order. */
  function AllNotes(storage: Storage): seq<TaggedNote>
    decreases |storage|
  {
    if storage == [] then []
    else AllNotes(storage[..|storage| - 1]) + EntryTagged(storage[|storage| - 1])
  }

  /** The comparator `new Date(b.createdAt) - new Date(a.createdAt)`. */
  function NewestFirst(t: TaggedNote): int {
    -t.note.createdAt
  }

  /** The first three of `notes` sorted newest first (all, if fewer). */
  function Newest(notes: seq<TaggedNote>): seq<TaggedNote> {
    var sorted := SortBy(notes, NewestFirst);
    sorted[..if |sorted| < 3 then |sorted| else 3]
  }

  /** At most three notes are shown, and three whenever there are that many. */
  function RecentNotes(storage: Storage): (r: seq<TaggedNote>)
    ensures |r| == if |AllNotes(storage)| < 3 then |AllNotes(storage)| else 3
  {
    Newest(AllNotes(storage))
  }

  /** `loadRecentNotes`: the notes shown, newest first. */
  method LoadRecentNotes(storage: Storage) returns (recent: seq<TaggedNote>)
    ensures recent == RecentNotes(storage)
  {
    var allNotes: seq<TaggedNote> := [];
    var i := 0;
    while i < |storage|
      invariant 0 <= i <= |storage|
      invariant allNotes == AllNotes(storage[..i])
    {
      assert storage[..i + 1][..i] == storage[..i];
      var key := storage[i].key;
      if StartsWith(key, NotesPrefix) && storage[i].value.NotesValue? {
        allNotes := CollectCourseNotes(allNotes, CourseIdOf(key), storage[i].value.byLecture);
      }
      i := i + 1;
    }
    assert storage[..i] == storage;
    allNotes := SortBy(allNotes, NewestFirst);
    recent := allNotes[..if |allNotes| < 3 then |allNotes| else 3];
  }

  /** The `forEach` over a course's lectures. */
  method CollectCourseNotes(allNotes: seq<TaggedNote>, courseId: string, courseNotes: Obj<seq<Note>>)
    returns (r: seq<TaggedNote>)
    ensures r == allNotes + CourseTagged(courseId, courseNotes)
  {
    r := allNotes;
    var j := 0;
    while j < |courseNotes|
      invariant 0 <= j <= |courseNotes|
      invariant r == allNotes + CourseTagged(courseId, courseNotes[..j])
    {
      assert courseNotes[..j + 1][..j] == courseNotes[..j];
      assert CourseTagged(courseId, courseNotes[..j + 1]) ==
             CourseTagged(courseId, courseNotes[..j]) + Tag(courseId, courseNotes[j].key, courseNotes[j].value);
      r := CollectLectureNotes(r, courseId, courseNotes[j].key, courseNotes[j].value);
      j := j + 1;
    }
    assert courseNotes[..j] == courseNotes;
  }

  /** The `forEach` over a lecture's notes. */
  method CollectLectureNotes(allNotes: seq<TaggedNote>, courseId: string, lectureId: string, lectureNotes: seq<Note>)
    returns (r: seq<TaggedNote>)
    ensures r == allNotes + Tag(courseId, lectureId, lectureNotes)
  {
    r := allNotes;
    var k := 0;
    while k < |lectureNotes|
      invariant 0 <= k <= |lectureNotes|
      invariant r == allNotes + Tag(courseId, lectureId, lectureNotes[..k])
    {
      assert lectureNotes[..k + 1][..k] == lectureNotes[..k];
      r := r + [TaggedNote(lectureNotes[k], courseId, lectureId)];
      k := k + 1;
    }
    assert lectureNotes[..k] == lectureNotes;
  }

  /** At most three notes are shown, newest first. */
  lemma NewestOrdered(notes: seq<TaggedNote>)
    ensures |Newest(notes)| == if |notes| < 3 then |notes| else 3
    ensures forall i, j :: 0 <= i < j < |Newest(notes)| ==>
              Newest(notes)[i].note.createdAt >= Newest(notes)[j].note.createdAt
  {
    var sorted := SortBy(notes, NewestFirst);
    SortBySorted(notes, NewestFirst);
    var r := Newest(notes);
    forall i, j | 0 <= i < j < |r| ensures r[i].note.createdAt >= r[j].note.createdAt {
      assert r[i] == sorted[i] && r[j] == sorted[j];
      assert NewestFirst(sorted[i]) <= NewestFirst(sorted[j]);
    }
  }

  /** The notes shown are collected notes, and no note left out is newer
      than a note shown. */
  lemma NewestKept(notes: seq<TaggedNote>)
    ensures multiset(Newest(notes)) <= multiset(notes)
    ensures forall t :: t in multiset(notes) - multiset(Newest(notes)) ==>
              forall i :: 0 <= i < |Newest(notes)| ==> Newest(notes)[i].note.createdAt >= t.note.createdAt
  {
    var n := if |notes| < 3 then |notes| else 3;
    assert Newest(notes) == SortBy(notes, NewestFirst)[..n];
    NewestPrefix(notes, n);
  }

  /** The first `n` notes by `NewestFirst` are notes of `notes`, and none
      left out is newer than one of them. */
  lemma NewestPrefix(notes: seq<TaggedNote>, n: nat)
    requires n <= |notes|
    ensures multiset(SortBy(notes, NewestFirst)[..n]) <= multiset(notes)
    ensures forall t :: t in multiset(notes) - multiset(SortBy(notes, NewestFirst)[..n]) ==>
              forall i :: 0 <= i < n ==> SortBy(notes, NewestFirst)[i].note.createdAt >= t.note.createdAt
  {
    var r := SortBy(notes, NewestFirst);
    SortByPrefix(notes, NewestFirst, n);
    forall t | t in multiset(notes) - multiset(r[..n])
      ensures forall i :: 0 <= i < n ==> r[i].note.createdAt >= t.note.createdAt
    {
      forall i | 0 <= i < n ensures r[i].note.createdAt >= t.note.createdAt {
        assert NewestFirst(r[i]) <= NewestFirst(t);
      }
    }
  }

  /** Every collected note carries the course id of the `notes:` key it was
      found under. */
  lemma {:induction false} AllNotesTagged(storage: Storage, k: nat)
    requires k < |AllNotes(storage)|
    ensures exists i :: 0 <= i < |storage| && StartsWith(storage[i].key, NotesPrefix) &&
              AllNotes(storage)[k].courseId == CourseIdOf(storage[i].key)
    decreases |storage|
  {
    var front := storage[..|storage| - 1];
    var last := storage[|storage| - 1];
    if k < |AllNotes(front)| {
      AllNotesTagged(front, k);
      var i :| 0 <= i < |front| && StartsWith(front[i].key, NotesPrefix) &&
               AllNotes(front)[k].courseId == CourseIdOf(front[i].key);
      assert storage[i] == front[i];
    } else {
      var e := EntryTagged(last);
      assert AllNotes(storage) == AllNotes(front) + e;
      assert e != [];
      CourseTaggedId(CourseIdOf(last.key), last.value.byLecture, k - |AllNotes(front)|);
      assert storage[|storage| - 1] == last;
    }
  }

  lemma {:induction false} CourseTaggedId(courseId: string, byLecture: Obj<seq<Note>>, k: nat)
    requires k < |CourseTagged(courseId, byLecture)|
    ensures CourseTagged(courseId, byLecture)[k].courseId == courseId
    decreases |byLecture|
  {
    var front := byLecture[..|byLecture| - 1];
    var last := byLecture[|byLecture| - 1];
    if k < |CourseTagged(courseId, front)| {
      CourseTaggedId(courseId, front, k);
    }
  }

  /** The exported document; `settings` is `None` when nothing is stored
      (exported as `{}`). */
  datatype PopupExport = PopupExport(notes: Storage, progress: Storage, quizzes: Storage, settings: Option<Stored>)

  /** `exportData`: every `notes:`, `progress:` and `quizzes:` entry into its
      bucket, in storage order, and the settings. */
  method ExportData(storage: Storage) returns (e: PopupExport)
    requires UniqueKeys(storage)
    ensures e.notes == WithKeyPrefix(storage, NotesPrefix)
    ensures e.progress == WithKeyPrefix(storage, ProgressPrefix)
    ensures e.quizzes == WithKeyPrefix(storage, QuizzesPrefix)
    ensures e.settings == Get(storage, "settings")
  {
    var notes, progress, quizzes := [], [], [];
    var i := 0;
    while i < |storage|
      invariant 0 <= i <= |storage|
      invariant notes == WithKeyPrefix(storage[..i], NotesPrefix)
      invariant progress == WithKeyPrefix(storage[..i], ProgressPrefix)
      invariant quizzes == WithKeyPrefix(storage[..i], QuizzesPrefix)
    {
      var key := storage[i].key;
      PrefixesExclusive(key);
      WithKeyPrefixStep(storage, NotesPrefix, i);
      WithKeyPrefixStep(storage, ProgressPrefix, i);
      WithKeyPrefixStep(storage, QuizzesPrefix, i);
      if StartsWith(key, NotesPrefix) {
        PutNewFiltered(storage, NotesPrefix, i);
        notes := Put(notes, key, storage[i].value);
      } else if StartsWith(key, ProgressPrefix) {
        PutNewFiltered(storage, ProgressPrefix, i);
        progress := Put(progress, key, storage[i].value);
      } else if StartsWith(key, QuizzesPrefix) {
        PutNewFiltered(storage, QuizzesPrefix, i);
        quizzes := Put(quizzes, key, storage[i].value);
      }
      i := i + 1;
    }
    assert storage[..i] == storage;
    e := PopupExport(notes, progress, quizzes, Get(storage, "settings"));
  }

  /** The export partitions the course data: each bucket answers for its
      own prefix exactly as the storage does, and for nothing else. */
  lemma ExportPartition(storage: Storage, k: string)
    ensures Get(WithKeyPrefix(storage, NotesPrefix), k) == if StartsWith(k, NotesPrefix) then Get(storage, k) else None
    ensures Get(WithKeyPrefix(storage, ProgressPrefix), k) == if StartsWith(k, ProgressPrefix) then Get(storage, k) else None
    ensures Get(WithKeyPrefix(storage, QuizzesPrefix), k) == if StartsWith(k, QuizzesPrefix) then Get(storage, k) else None
  {
    GetWithKeyPrefix(storage, NotesPrefix, k);
    GetWithKeyPrefix(storage, ProgressPrefix, k);
    GetWithKeyPrefix(storage, QuizzesPrefix, k);
  }
}
