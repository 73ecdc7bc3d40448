/** The platform-independent helpers of the content script: the time
    label, the seek clamp, the course and lecture identifiers derived from
    the page URL, and the note store update. */
module ContentCommon {
  import opened Wrappers
  import opened Strings
  import opened JsObjects
  import opened Store
  import opened JsMath

  /** `m:ss` for a whole number of seconds. */
  function Clock(n: nat): string {
    NatToString(n / 60) + ":" + PadStart2(NatToString(n % 60))
  }

  /** `formatTime`: minutes, a colon and the seconds padded to two digits.
      For a non-negative time this is the clock of its whole seconds. */
  function FormatTime(seconds: real): (r: string)
    ensures seconds >= 0.0 ==> r == Clock(seconds.Floor)
  {
    var mins := (seconds / 60.0).Floor;
    var secs := JsRem(seconds, 60.0).Floor;
    if seconds >= 0.0 then
      FloorParts(seconds);
      IntToString(mins) + ":" + PadStart2(IntToString(secs))
    else
      IntToString(mins) + ":" + PadStart2(IntToString(secs))
  }

  /** No time at all reads `0:00`. */
  lemma FormatTimeZero()
    ensures FormatTime(0.0) == "0:00"
  {
    assert (0.0).Floor == 0;
    assert NatToString(0) == "0";
    assert Clock(0) == "0" + ":" + "00";
  }

  /** The whole minutes and the whole seconds of the minute. */
  lemma FloorParts(seconds: real)
    requires seconds >= 0.0
    ensures (seconds / 60.0).Floor == seconds.Floor / 60
    ensures JsRem(seconds, 60.0).Floor == seconds.Floor % 60
  {
    var n := seconds.Floor;
    var q := n / 60;
    var m := n % 60;
    assert n == 60 * q + m;
    assert (n as real) <= seconds < (n as real) + 1.0;
    FloorUnique(seconds / 60.0, q);
    assert Trunc(seconds / 60.0) == q;
    calc {
      JsRem(seconds, 60.0);
      seconds - 60.0 * (q as real);
      (m as real) + (seconds - n as real);
    }
    FloorUnique(JsRem(seconds, 60.0), m);
  }

  lemma SplitTwo(a: string, b: string, c: char)
    requires c !in a && c !in b
    ensures Split(a + [c] + b, c) == [a, b]
  {
    var t := [c] + b;
    assert a + [c] + b == a + t;
    SplitConcat(a, t, c);
    assert t[0] == c && t[1..] == b;
    SplitNoSeparator(b, c);
    assert Split(t, c) == [""] + [b];
    assert a + "" == a;
  }

  lemma DigitsHaveNoColon(d: string)
    requires AllDigits(d)
    ensures ':' !in d
  {
  }

  /** The clock reads back the minutes and the seconds it was made from. */
  lemma ClockParts(n: nat)
    ensures var parts := Split(Clock(n), ':');
      |parts| == 2 && ParseInt(parts[0]) == Some(n / 60) &&
      AllDigits(parts[1]) && |parts[1]| == 2 && DigitsValue(parts[1]) == n % 60
  {
    var mins := NatToString(n / 60);
    var secs := PadStart2(NatToString(n % 60));
    PadStart2Value(n % 60);
    DigitsHaveNoColon(mins);
    DigitsHaveNoColon(secs);
    SplitTwo(mins, secs, ':');
    assert Clock(n) == mins + [':'] + secs;
    ParseIntOfNat(n / 60);
  }

  /** `seekVideo`: the new position, `None` when the duration is unknown
      (`Math.min` with `NaN` is `NaN`). */
  function SeekTarget(currentTime: real, duration: Option<real>, seconds: real): (r: Option<real>)
    ensures r.None? <==> duration.None?
    ensures duration.Some? && duration.value >= 0.0 ==> 0.0 <= r.value <= duration.value
    ensures duration.Some? && 0.0 <= currentTime + seconds <= duration.value ==> r.value == currentTime + seconds
    ensures duration.Some? && currentTime + seconds < 0.0 ==> r.value == 0.0
    ensures duration.Some? && 0.0 <= duration.value < currentTime + seconds ==> r.value == duration.value
  {
    match duration
    case None => None
    case Some(d) =>
      var t := currentTime + seconds;
      var inner := if d <= t then d else t;
      Some(if 0.0 >= inner then 0.0 else inner)
  }

  /** The `currentCourse` record. */
  datatype CourseInfo = CourseInfo(platform: string, id: string, title: string, url: string)

  function ExtractCourseraInfo(url: string, title: string): (r: CourseInfo)
    ensures r.platform == "coursera" && r.title == title && r.url == url
    ensures SegmentAfter(url, "/learn/").None? ==> r.id == "unknown"
    ensures SegmentAfter(url, "/learn/").Some? ==> r.id == SegmentAfter(url, "/learn/").value && '/' !in r.id && r.id != ""
  {
    var m := SegmentAfter(url, "/learn/");
    if m.Some? then SegmentShape(url, "/learn/"); CourseInfo("coursera", m.value, title, url)
    else CourseInfo("coursera", "unknown", title, url)
  }

  function ExtractLinkedInInfo(url: string, title: string): (r: CourseInfo)
    ensures r.platform == "linkedin" && r.title == title && r.url == url
    ensures SegmentAfter(url, "/learning/").None? ==> r.id == "unknown"
    ensures SegmentAfter(url, "/learning/").Some? ==> r.id == SegmentAfter(url, "/learning/").value && '/' !in r.id && r.id != ""
  {
    var m := SegmentAfter(url, "/learning/");
    if m.Some? then SegmentShape(url, "/learning/"); CourseInfo("linkedin", m.value, title, url)
    else CourseInfo("linkedin", "unknown", title, url)
  }

  /** `extractCourseInfo`: the new `currentCourse`; on an unsupported page
      the previous value is kept. */
  function ExtractCourseInfo(url: string, title: string, current: Option<CourseInfo>): (r: Option<CourseInfo>)
    ensures Includes(url, "coursera.org") ==> r == Some(ExtractCourseraInfo(url, title))
    ensures !Includes(url, "coursera.org") && Includes(url, "linkedin.com/learning") ==> r == Some(ExtractLinkedInInfo(url, title))
    ensures !Includes(url, "coursera.org") && !Includes(url, "linkedin.com/learning") ==> r == current
  {
    if Includes(url, "coursera.org") then Some(ExtractCourseraInfo(url, title))
    else if Includes(url, "linkedin.com/learning") then Some(ExtractLinkedInInfo(url, title))
    else current
  }

  /** `getCurrentCourseId`: `platform:id`, or `unknown` before any course
      was recognised. */
  function CurrentCourseId(current: Option<CourseInfo>): (r: string)
    ensures current.None? ==> r == "unknown"
    ensures current.Some? ==> r == current.value.platform + ":" + current.value.id
  {
    if current.Some? then current.value.platform + ":" + current.value.id else "unknown"
  }

  /** `getCurrentLectureId`: the URL hash, else the text after the last
      `/`, else (for an empty URL or one ending in `/`) `lecture-1`. */
  function LectureId(url: string, hash: string): (r: string)
    ensures r != ""
    ensures hash != "" ==> r == hash
    ensures hash == "" && (url == [] || url[|url| - 1] == '/') ==> r == "lecture-1"
    ensures hash == "" && url != [] && url[|url| - 1] != '/' ==>
      '/' !in r && |r| <= |url| && r == url[|url| - |r|..] && (|r| == |url| || url[|url| - |r| - 1] == '/')
  {
    SplitLast(url, '/');
    var parts := Split(url, '/');
    var last := parts[|parts| - 1];
    if hash != "" then hash
    else if last != "" then last
    else "lecture-1"
  }

  /** A URL made of slash-separated pieces is identified by its last piece. */
  lemma LectureIdOfPath(pieces: seq<string>)
    requires |pieces| >= 1 && pieces[|pieces| - 1] != ""
    requires forall k :: 0 <= k < |pieces| ==> '/' !in pieces[k]
    ensures LectureId(Join(pieces, "/"), "") == pieces[|pieces| - 1]
  {
    var url := Join(pieces, "/");
    assert "/" == ['/'];
    SplitJoin(pieces, '/');
    LectureIdOfSplit(url, pieces);
  }

  lemma LectureIdOfSplit(url: string, pieces: seq<string>)
    requires |pieces| >= 1 && pieces[|pieces| - 1] != ""
    requires Split(url, '/') == pieces
    ensures LectureId(url, "") == pieces[|pieces| - 1]
  {
    var parts := Split(url, '/');
    assert parts[|parts| - 1] == pieces[|pieces| - 1];
  }

  /** `saveNote`'s update of the storage area: with blank text nothing is
      stored; otherwise the note, its text trimmed, is appended to the
      lecture's list under `notes:<courseId>`, creating the list (and the
      course's object) when absent. Ids and `createdAt` come from `now`. */
  method SaveNote(storage: Storage, courseId: string, lectureId: string,
                  timestamp: real, transcriptText: string, noteText: string, now: int)
    returns (r: Storage)
    ensures Trim(noteText) == [] ==> r == storage
    ensures Trim(noteText) != [] ==>
      var key := NotesPrefix + courseId;
      var before := if Get(storage, key).Some? && Get(storage, key).value.NotesValue? then Get(storage, key).value.byLecture else [];
      var list := if Get(before, lectureId).Some? then Get(before, lectureId).value else [];
      Get(r, key).Some? && Get(r, key).value.NotesValue? &&
      var after := Get(r, key).value.byLecture;
      Get(after, lectureId) == Some(list + [Note(IntToString(now), timestamp, transcriptText, Trim(noteText), now)]) &&
      (forall l :: l != lectureId ==> Get(after, l) == Get(before, l)) &&
      (forall k :: k != key ==> Get(r, k) == Get(storage, k))
  {
    if Trim(noteText) == [] {
      return storage;
    }
    var note := Note(IntToString(now), timestamp, transcriptText, Trim(noteText), now);
    var key := NotesPrefix + courseId;
    var stored := Get(storage, key);
    var courseNotes: Obj<seq<Note>> := if stored.Some? && stored.value.NotesValue? then stored.value.byLecture else [];
    if Get(courseNotes, lectureId).None? {
      courseNotes := Put(courseNotes, lectureId, []);
    }
    courseNotes := Put(courseNotes, lectureId, Get(courseNotes, lectureId).value + [note]);
    r := Put(storage, key, NotesValue(courseNotes));
  }
}
