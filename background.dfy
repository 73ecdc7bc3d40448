/** The background service worker: course ids from tab URLs, the default
    course URL, alarm names, the schedule status update, the progress
    merge and the map of sessions whose notification is showing. */
module Background {
  import opened Wrappers
  import opened Strings
  import opened JsObjects
  import opened Store
  import ContentCommon

  const AlarmPrefix := "study:"
  const CourseraHome := "https://www.coursera.org/"
  const LinkedInHome := "https://www.linkedin.com/learning/"

  /** `extractCourseId`: `platform:slug` for a recognised course page, the
      Coursera test winning over the LinkedIn one; the slug is never empty
      and holds no '/'. */
  function ExtractCourseId(url: string): (r: string)
    ensures Includes(url, "coursera.org") ==> StartsWith(r, "coursera:") && r[9..] != [] && '/' !in r[9..]
    ensures !Includes(url, "coursera.org") && Includes(url, "linkedin.com/learning") ==>
              StartsWith(r, "linkedin:") && r[9..] != [] && '/' !in r[9..]
    ensures r == "unknown" <==> !Includes(url, "coursera.org") && !Includes(url, "linkedin.com/learning")
  {
    if Includes(url, "coursera.org") then
      var m := SegmentAfter(url, "/learn/");
      if m.Some? then
        SegmentShape(url, "/learn/");
        var r := "coursera:" + m.value;
        assert r[9..] == m.value;
        r
      else "coursera:unknown"
    else if Includes(url, "linkedin.com/learning") then
      var m := SegmentAfter(url, "/learning/");
      if m.Some? then
        SegmentShape(url, "/learning/");
        var r := "linkedin:" + m.value;
        assert r[9..] == m.value;
        r
      else "linkedin:unknown"
    else "unknown"
  }

  /** A Coursera course page yields its slug: the '/'-free text after the
      first `/learn/` that the pattern can match, up to the next '/' or the
      end of the URL. */
  lemma CourseraSlug(url: string, i: nat, slug: string)
    requires Includes(url, "coursera.org")
    requires slug != [] && '/' !in slug
    requires i + 7 + |slug| <= |url| && url[i..i + 7] == "/learn/" && url[i + 7..i + 7 + |slug|] == slug
    requires i + 7 + |slug| == |url| || url[i + 7 + |slug|] == '/'
    requires forall j :: 0 <= j < i ==> !SegmentAt(url, "/learn/", j)
    ensures ExtractCourseId(url) == "coursera:" + slug
  {
    SegmentOf(url, "/learn/", i, slug);
    CourseraIdOf(url, slug);
  }

  lemma CourseraIdOf(url: string, slug: string)
    requires Includes(url, "coursera.org")
    requires SegmentAfter(url, "/learn/") == Some(slug)
    ensures ExtractCourseId(url) == "coursera:" + slug
  {
  }

  /** A LinkedIn Learning page yields the '/'-free text after its first
      usable `/learning/`, unless the URL also mentions Coursera, which is
      tested first. */
  lemma LinkedInSlug(url: string, i: nat, slug: string)
    requires Includes(url, "linkedin.com/learning")
    requires slug != [] && '/' !in slug
    requires i + 10 + |slug| <= |url| && url[i..i + 10] == "/learning/" && url[i + 10..i + 10 + |slug|] == slug
    requires i + 10 + |slug| == |url| || url[i + 10 + |slug|] == '/'
    requires forall j :: 0 <= j < i ==> !SegmentAt(url, "/learning/", j)
    ensures !Includes(url, "coursera.org") ==> ExtractCourseId(url) == "linkedin:" + slug
  {
    SegmentOf(url, "/learning/", i, slug);
    if !Includes(url, "coursera.org") {
      LinkedInIdOf(url, slug);
    }
  }

  lemma LinkedInIdOf(url: string, slug: string)
    requires !Includes(url, "coursera.org") && Includes(url, "linkedin.com/learning")
    requires SegmentAfter(url, "/learning/") == Some(slug)
    ensures ExtractCourseId(url) == "linkedin:" + slug
  {
  }

  /** The content script's course id (from the `currentCourse` it
      recognises on a fresh page) is the id the worker files progress under. */
  lemma CourseIdsAgree(url: string, title: string)
    ensures ContentCommon.CurrentCourseId(ContentCommon.ExtractCourseInfo(url, title, None)) == ExtractCourseId(url)
  {
    if Includes(url, "coursera.org") {
      CourseraIdAgrees(url, title);
    } else if Includes(url, "linkedin.com/learning") {
      LinkedInIdAgrees(url, title);
    }
  }

  lemma CourseraIdAgrees(url: string, title: string)
    requires Includes(url, "coursera.org")
    ensures ContentCommon.CurrentCourseId(Some(ContentCommon.ExtractCourseraInfo(url, title))) == ExtractCourseId(url)
  {
    var c := ContentCommon.ExtractCourseraInfo(url, title);
    assert "coursera" + ":" + c.id == "coursera:" + c.id by {
      assert "coursera" + ":" == "coursera:";
    }
  }

  lemma LinkedInIdAgrees(url: string, title: string)
    requires !Includes(url, "coursera.org") && Includes(url, "linkedin.com/learning")
    ensures ContentCommon.CurrentCourseId(Some(ContentCommon.ExtractLinkedInInfo(url, title))) == ExtractCourseId(url)
  {
    var c := ContentCommon.ExtractLinkedInInfo(url, title);
    assert "linkedin" + ":" + c.id == "linkedin:" + c.id by {
      assert "linkedin" + ":" == "linkedin:";
    }
  }

  /** `getDefaultCourseUrl`. Coursera is tested first, so a name mentioning
      both platforms gets Coursera. */
  function DefaultCourseUrl(courseName: string): (r: string)
    ensures r == CourseraHome || r == LinkedInHome
    ensures r == LinkedInHome <==>
              !Includes(ToLower(courseName), "coursera") && Includes(ToLower(courseName), "linkedin")
  {
    var name := ToLower(courseName);
    if Includes(name, "coursera") then CourseraHome
    else if Includes(name, "linkedin") then LinkedInHome
    else CourseraHome
  }

  /** The alarm `scheduleStudySession` creates for a session. */
  function AlarmName(sessionId: string): string {
    AlarmPrefix + sessionId
  }

  /** Splitting a `study:` name at `:` has at least two pieces, the second
      being the text after the prefix up to the next `:`. */
  lemma AlarmSplit(name: string)
    requires StartsWith(name, AlarmPrefix)
    ensures |Split(name, ':')| >= 2
    ensures Split(name, ':')[1] == Split(name[|AlarmPrefix|..], ':')[0]
  {
    var t := name[5..];
    assert name == "study" + t;
    SplitConcat("study", t, ':');
    assert t[0] == ':' && t[1..] == name[|AlarmPrefix|..];
  }

  /** The session id the alarm handler reads off an alarm name,
      `name.split(':')[1]`; `None` for an alarm that is not a study alarm. */
  function AlarmSessionId(name: string): (r: Option<string>)
    ensures r.Some? <==> StartsWith(name, AlarmPrefix)
    ensures r.Some? ==> ':' !in r.value
  {
    if StartsWith(name, AlarmPrefix) then
      AlarmSplit(name);
      Some(Split(name, ':')[1])
    else None
  }

  /** The id survives the trip through the alarm name exactly when it has
      no colon. */
  lemma AlarmRoundTrip(sessionId: string)
    ensures AlarmSessionId(AlarmName(sessionId)) == Some(sessionId) <==> ':' !in sessionId
  {
    var name := AlarmName(sessionId);
    assert StartsWith(name, AlarmPrefix);
    AlarmSplit(name);
    assert name[|AlarmPrefix|..] == sessionId;
    if ':' !in sessionId {
      SplitNoSeparator(sessionId, ':');
    }
  }

  /** `schedule.find(s => s.sessionId === sessionId)`. */
  function FindSession(schedule: seq<Session>, sessionId: string): (r: Option<Session>)
    ensures r.None? <==> forall i :: 0 <= i < |schedule| ==> schedule[i].sessionId != sessionId
    ensures r.Some? ==> r.value.sessionId == sessionId
    ensures r.Some? ==> exists i :: 0 <= i < |schedule| && schedule[i] == r.value &&
                          forall j :: 0 <= j < i ==> schedule[j].sessionId != sessionId
    decreases |schedule|
  {
    if schedule == [] then None
    else if schedule[0].sessionId == sessionId then Some(schedule[0])
    else
      var r := FindSession(schedule[1..], sessionId);
      assert forall i :: 1 <= i < |schedule| ==> schedule[i] == schedule[1..][i - 1];
      if r.Some? then
        var i :| 0 <= i < |schedule[1..]| && schedule[1..][i] == r.value &&
                 forall j :: 0 <= j < i ==> schedule[1..][j].sessionId != sessionId;
        assert schedule[i + 1] == r.value;
        r
      else r
  }

  /** `schedule.findIndex(s => s.sessionId === sessionId)`. */
  function FindIndex(schedule: seq<Session>, sessionId: string): (r: int)
    ensures -1 <= r < |schedule|
    ensures r == -1 <==> forall i :: 0 <= i < |schedule| ==> schedule[i].sessionId != sessionId
    ensures r >= 0 ==> schedule[r].sessionId == sessionId && forall j :: 0 <= j < r ==> schedule[j].sessionId != sessionId
    decreases |schedule|
  {
    if schedule == [] then -1
    else if schedule[0].sessionId == sessionId then 0
    else
      var r := FindIndex(schedule[1..], sessionId);
      assert forall i :: 1 <= i < |schedule| ==> schedule[i] == schedule[1..][i - 1];
      if r == -1 then -1 else r + 1
  }

  /** `find` and `findIndex` agree. */
  lemma FindAgrees(schedule: seq<Session>, sessionId: string)
    ensures FindSession(schedule, sessionId) ==
            if FindIndex(schedule, sessionId) == -1 then None else Some(schedule[FindIndex(schedule, sessionId)])
  {
    var r := FindSession(schedule, sessionId);
    var k := FindIndex(schedule, sessionId);
    if r.Some? {
      var i :| 0 <= i < |schedule| && schedule[i] == r.value &&
               forall j :: 0 <= j < i ==> schedule[j].sessionId != sessionId;
      assert i == k;
    }
  }

  /** `updateSessionStatus` on the schedule read from storage: the first
      session with the id gets the status and the update time; the result
      says whether the schedule is written back. */
  method UpdateSessionStatus(schedule: array<Session>, sessionId: string, status: string, now: int)
    returns (written: bool)
    modifies schedule
    ensures var k := FindIndex(old(schedule[..]), sessionId);
      if k == -1 then !written && schedule[..] == old(schedule[..])
      else written && schedule[..] == old(schedule[..])[k := old(schedule[k]).(status := status, lastUpdated := Some(now))]
  {
    var sessionIndex := -1;
    var i := 0;
    while i < schedule.Length
      invariant 0 <= i <= schedule.Length
      invariant forall j :: 0 <= j < i ==> schedule[j].sessionId != sessionId
      decreases schedule.Length - i
    {
      if schedule[i].sessionId == sessionId {
        sessionIndex := i;
        break;
      }
      i := i + 1;
    }
    assert sessionIndex == FindIndex(schedule[..], sessionId);
    if sessionIndex != -1 {
      schedule[sessionIndex] := schedule[sessionIndex].(status := status);
      schedule[sessionIndex] := schedule[sessionIndex].(lastUpdated := Some(now));
      written := true;
    } else {
      written := false;
    }
  }

  /** The `TRACK_PROGRESS` message from a content script. */
  datatype ProgressData = ProgressData(lectureId: string, watchedTime: Option<real>, duration: Option<real>, completed: bool)

  /** `handleProgressTracking`: the lecture's entry under
      `progress:<courseId>` gets the reported fields and the update time,
      keeping its other fields; the course's record starts empty when
      absent. A tab without a URL, or a stored value without lectures,
      raises inside the handler's `try` and nothing is written. */
  method TrackProgress(storage: Storage, tabUrl: Option<string>, data: ProgressData, now: int)
    returns (r: Storage)
    ensures tabUrl.None? ==> r == storage
    ensures tabUrl.Some? ==>
      var key := ProgressPrefix + ExtractCourseId(tabUrl.value);
      var stored := Get(storage, key);
      if stored.Some? && !stored.value.ProgressValue? then r == storage
      else
        var before := if stored.Some? then stored.value.progress.lectures else [];
        var old_ := Get(before, data.lectureId);
        Get(r, key).Some? && Get(r, key).value.ProgressValue? &&
        var after := Get(r, key).value.progress.lectures;
        Get(after, data.lectureId) == Some(LectureProgress(data.watchedTime, data.duration, data.completed, now,
                                                           if old_.Some? then old_.value.otherFields else [])) &&
        (forall l :: l != data.lectureId ==> Get(after, l) == Get(before, l)) &&
        (forall k :: k != key ==> Get(r, k) == Get(storage, k))
  {
    if tabUrl.None? {
      return storage;
    }
    var courseId := ExtractCourseId(tabUrl.value);
    var key := ProgressPrefix + courseId;
    var stored := Get(storage, key);
    if stored.Some? && !stored.value.ProgressValue? {
      return storage;
    }
    var progress := if stored.Some? then stored.value.progress else CourseProgress([]);
    var previous := Get(progress.lectures, data.lectureId);
    var kept := if previous.Some? then previous.value.otherFields else [];
    var entry := LectureProgress(data.watchedTime, data.duration, data.completed, now, kept);
    progress := progress.(lectures := Put(progress.lectures, data.lectureId, entry));
    r := Put(storage, key, ProgressValue(progress));
  }

  /** What a notification click leads to: opening `url` and marking the
      session started, opening the options page, or nothing. */
  datatype Action = OpenCourse(url: string, sessionId: string) | OpenOptions | NoAction

  /** `session.url || getDefaultCourseUrl(session.course)`. */
  function CourseUrl(session: Session): (r: string)
    ensures session.url.Some? && session.url.value != "" ==> r == session.url.value
    ensures session.url.None? || session.url.value == "" ==> r == DefaultCourseUrl(session.course)
  {
    if session.url.Some? && session.url.value != "" then session.url.value else DefaultCourseUrl(session.course)
  }

  function ButtonAction(sessions: map<string, Session>, notificationId: string, buttonIndex: int): (a: Action)
    ensures notificationId !in sessions ==> a == NoAction
    ensures notificationId in sessions && buttonIndex == 0 ==>
              a == OpenCourse(CourseUrl(sessions[notificationId]), sessions[notificationId].sessionId)
    ensures notificationId in sessions && buttonIndex == 1 ==> a == OpenOptions
    ensures buttonIndex != 0 && buttonIndex != 1 ==> a == NoAction
  {
    if notificationId !in sessions then NoAction
    else if buttonIndex == 0 then
      var s := sessions[notificationId];
      OpenCourse(CourseUrl(s), s.sessionId)
    else if buttonIndex == 1 then OpenOptions
    else NoAction
  }

  function ClickAction(sessions: map<string, Session>, notificationId: string): (a: Action)
    ensures a == ButtonAction(sessions, notificationId, 0)
  {
    if notificationId in sessions then
      var s := sessions[notificationId];
      OpenCourse(CourseUrl(s), s.sessionId)
    else NoAction
  }

  /** The session a study alarm finds in the schedule, if any. */
  function AlarmSession(name: string, schedule: seq<Session>): (r: Option<Session>)
    ensures !StartsWith(name, AlarmPrefix) ==> r.None?
    ensures r.Some? ==> r.value in schedule && r.value.sessionId == AlarmSessionId(name).value
  {
    match AlarmSessionId(name)
    case None => None
    case Some(id) =>
      var r := FindSession(schedule, id);
      if r.Some? then
        var i :| 0 <= i < |schedule| && schedule[i] == r.value &&
                 forall j :: 0 <= j < i ==> schedule[j].sessionId != id;
        r
      else r
  }

  /** A session scheduled under an id without colons is found again when
      its alarm rings. */
  lemma ScheduledAlarmFindsSession(schedule: seq<Session>, i: nat)
    requires i < |schedule| && ':' !in schedule[i].sessionId
    ensures AlarmSession(AlarmName(schedule[i].sessionId), schedule) ==
            FindSession(schedule, schedule[i].sessionId)
    ensures AlarmSession(AlarmName(schedule[i].sessionId), schedule).Some?
  {
    AlarmRoundTrip(schedule[i].sessionId);
  }

  /** The worker's module-level `studySessions`: the sessions whose
      notification is showing, keyed by session id (= notification id).
      `Valid` says each session is stored under its own id, so a click
      opens the session whose notification was clicked. */
  class NotificationSessions {
    var sessions: map<string, Session>

    ghost predicate Valid()
      reads this
    {
      forall id :: id in sessions ==> sessions[id].sessionId == id
    }

    constructor ()
      ensures Valid() && sessions == map[]
    {
      sessions := map[];
    }

    /** The alarm handler: a study alarm whose session is in the schedule
        raises a notification and records the session. */
    method OnAlarm(name: string, schedule: seq<Session>) returns (notified: Option<Session>)
      requires Valid()
      modifies this
      ensures Valid()
      ensures notified == AlarmSession(name, schedule)
      ensures notified.None? ==> sessions == old(sessions)
      ensures notified.Some? ==> sessions == old(sessions)[notified.value.sessionId := notified.value]
    {
      notified := None;
      if StartsWith(name, AlarmPrefix) {
        AlarmSplit(name);
        var sessionId := Split(name, ':')[1];
        var session := FindSession(schedule, sessionId);
        if session.Some? {
          sessions := sessions[sessionId := session.value];
          notified := session;
        }
      }
    }

    /** A click on one of the notification's buttons. */
    method OnButtonClicked(notificationId: string, buttonIndex: int) returns (action: Action)
      requires Valid()
      modifies this
      ensures Valid()
      ensures action == ButtonAction(old(sessions), notificationId, buttonIndex)
      ensures action.OpenCourse? ==> action.sessionId == notificationId
      ensures sessions == old(sessions) - {notificationId}
    {
      action := NoAction;
      if notificationId in sessions {
        var session := sessions[notificationId];
        if buttonIndex == 0 {
          action := OpenCourse(CourseUrl(session), session.sessionId);
        } else if buttonIndex == 1 {
          action := OpenOptions;
        }
      }
      sessions := sessions - {notificationId};
    }

    /** A click on the notification's body. */
    method OnClicked(notificationId: string) returns (action: Action)
      requires Valid()
      modifies this
      ensures Valid()
      ensures action == ClickAction(old(sessions), notificationId)
      ensures action.OpenCourse? ==> action.sessionId == notificationId
      ensures sessions == old(sessions) - {notificationId}
    {
      action := NoAction;
      if notificationId in sessions {
        var session := sessions[notificationId];
        action := OpenCourse(CourseUrl(session), session.sessionId);
      }
      sessions := sessions - {notificationId};
    }
  }
}
