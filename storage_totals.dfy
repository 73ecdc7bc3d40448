/** The totals that the popup's statistics and the options page's
    dashboard compute over the whole storage area, defined once. A stored
    value of another shape than its prefix promises contributes nothing. */
module StorageTotals {
  import opened Wrappers
  import opened Strings
  import opened JsObjects
  import opened Store

  /** `lecture.watchedTime || 0`. */
  function WatchedOrZero(l: LectureProgress): real {
    if l.watchedTime.Some? then l.watchedTime.value else 0.0
  }

  function CourseWatchTime(lectures: Obj<LectureProgress>): real
    decreases |lectures|
  {
    if lectures == [] then 0.0
    else CourseWatchTime(lectures[..|lectures| - 1]) + WatchedOrZero(lectures[|lectures| - 1].value)
  }

  function EntryWatchTime(p: Prop<Stored>): real {
    if StartsWith(p.key, ProgressPrefix) && p.value.ProgressValue? then CourseWatchTime(p.value.progress.lectures) else 0.0
  }

  /** Seconds watched over every lecture of every `progress:` record; a
      storage area without such a key has watched nothing. */
  function TotalWatchTime(storage: Storage): (r: real)
    ensures (forall i :: 0 <= i < |storage| ==> !StartsWith(storage[i].key, ProgressPrefix)) ==> r == 0.0
    decreases |storage|
  {
    if storage == [] then 0.0
    else
      var front := storage[..|storage| - 1];
      assert forall i :: 0 <= i < |front| ==> front[i] == storage[i];
      TotalWatchTime(front) + EntryWatchTime(storage[|storage| - 1])
  }

  function CourseNoteCount(byLecture: Obj<seq<Note>>): nat
    decreases |byLecture|
  {
    if byLecture == [] then 0
    else CourseNoteCount(byLecture[..|byLecture| - 1]) + |byLecture[|byLecture| - 1].value|
  }

  function EntryNoteCount(p: Prop<Stored>): nat {
    if StartsWith(p.key, NotesPrefix) && p.value.NotesValue? then CourseNoteCount(p.value.byLecture) else 0
  }

  /** Notes over every lecture of every `notes:` record. */
  function TotalNotes(storage: Storage): nat
    decreases |storage|
  {
    if storage == [] then 0
    else TotalNotes(storage[..|storage| - 1]) + EntryNoteCount(storage[|storage| - 1])
  }

  function CourseScores(quizzes: Obj<QuizRecord>): seq<real>
    decreases |quizzes|
  {
    if quizzes == [] then []
    else
      var q := quizzes[|quizzes| - 1].value;
      CourseScores(quizzes[..|quizzes| - 1]) + (if q.results.Some? then q.results.value else [])
  }

  function EntryScores(p: Prop<Stored>): seq<real> {
    if StartsWith(p.key, QuizzesPrefix) && p.value.QuizzesValue? then CourseScores(p.value.quizzes) else []
  }

  /** Every quiz result of every `quizzes:` record, in storage order. */
  function QuizScores(storage: Storage): seq<real>
    decreases |storage|
  {
    if storage == [] then []
    else QuizScores(storage[..|storage| - 1]) + EntryScores(storage[|storage| - 1])
  }

  /** The number of `progress:` keys, whatever their values. */
  function ProgressKeyCount(storage: Storage): nat
    decreases |storage|
  {
    if storage == [] then 0
    else ProgressKeyCount(storage[..|storage| - 1]) + (if StartsWith(storage[|storage| - 1].key, ProgressPrefix) then 1 else 0)
  }

  /** Watched times that are never negative add up to a non-negative total. */
  lemma {:induction false} TotalWatchTimeNonNegative(storage: Storage)
    requires forall i :: 0 <= i < |storage| && storage[i].value.ProgressValue? ==>
               forall j :: 0 <= j < |storage[i].value.progress.lectures| ==>
                 WatchedOrZero(storage[i].value.progress.lectures[j].value) >= 0.0
    ensures TotalWatchTime(storage) >= 0.0
    decreases |storage|
  {
    if storage != [] {
      var front := storage[..|storage| - 1];
      forall i | 0 <= i < |front| ensures front[i] == storage[i] { }
      TotalWatchTimeNonNegative(front);
      var last := storage[|storage| - 1];
      if last.value.ProgressValue? {
        CourseWatchTimeNonNegative(last.value.progress.lectures);
      }
    }
  }

  lemma {:induction false} CourseWatchTimeNonNegative(lectures: Obj<LectureProgress>)
    requires forall j :: 0 <= j < |lectures| ==> WatchedOrZero(lectures[j].value) >= 0.0
    ensures CourseWatchTime(lectures) >= 0.0
    decreases |lectures|
  {
    if lectures != [] {
      var front := lectures[..|lectures| - 1];
      forall j | 0 <= j < |front| ensures front[j] == lectures[j] { }
      CourseWatchTimeNonNegative(front);
    }
  }

  /** Keeping only the `progress:` keys keeps the watch time. */
  lemma {:induction false} WatchTimeOfPrefixed(storage: Storage)
    ensures TotalWatchTime(WithKeyPrefix(storage, ProgressPrefix)) == TotalWatchTime(storage)
    decreases |storage|
  {
    if storage != [] {
      var front := storage[..|storage| - 1];
      var last := storage[|storage| - 1];
      WatchTimeOfPrefixed(front);
      var p := WithKeyPrefix(front, ProgressPrefix);
      var kept := WithKeyPrefix(storage, ProgressPrefix);
      assert TotalWatchTime(storage) == TotalWatchTime(front) + EntryWatchTime(last);
      if StartsWith(last.key, ProgressPrefix) {
        assert kept == p + [last];
        WatchTimeSnoc(p, last);
      } else {
        assert kept == p;
        assert EntryWatchTime(last) == 0.0;
      }
    }
  }

  lemma WatchTimeSnoc(p: Storage, last: Prop<Stored>)
    ensures TotalWatchTime(p + [last]) == TotalWatchTime(p) + EntryWatchTime(last)
  {
    assert (p + [last])[..|p|] == p;
  }

  /** Keeping only the `notes:` keys keeps the note count. */
  lemma {:induction false} NotesOfPrefixed(storage: Storage)
    ensures TotalNotes(WithKeyPrefix(storage, NotesPrefix)) == TotalNotes(storage)
    decreases |storage|
  {
    if storage != [] {
      var front := storage[..|storage| - 1];
      var last := storage[|storage| - 1];
      NotesOfPrefixed(front);
      var n := WithKeyPrefix(front, NotesPrefix);
      var kept := WithKeyPrefix(storage, NotesPrefix);
      assert TotalNotes(storage) == TotalNotes(front) + EntryNoteCount(last);
      if StartsWith(last.key, NotesPrefix) {
        assert kept == n + [last];
        NotesSnoc(n, last);
      } else {
        assert kept == n;
        assert EntryNoteCount(last) == 0;
      }
    }
  }

  lemma NotesSnoc(p: Storage, last: Prop<Stored>)
    ensures TotalNotes(p + [last]) == TotalNotes(p) + EntryNoteCount(last)
  {
    assert (p + [last])[..|p|] == p;
  }
}
