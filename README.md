# StudyForge learning assistant — a verified model

StudyForge is a browser extension for online courses on Coursera and
LinkedIn Learning. Its content script follows the lecture video and
decides when a lecture has really been watched. It also saves
time-stamped notes, highlights the transcript line being spoken and finds
the next lecture. A background worker turns study-session alarms into
notifications and records lecture progress. The popup and the options
page aggregate what is stored (watch time, notes, quiz scores), build an
earliest-deadline-first study schedule from a CSV file, and export
backups. A small generator turns a transcript into cloze questions.

This project models that logic in Dafny and proves what the code promises.

- **Watch tracker.** `WatchTracking.WatchTracker` is a class with the
  tracker's fields. Its methods are specified by the pure step function
  `WatchTracking.Step`. Lemmas over whole event sequences (`Run`) give
  monotone watched time, one-shot completion and gating.
- **Storage.** `chrome.storage.local` is an ordered JavaScript object,
  `JsObjects.Obj`: a sequence of key/value properties. `Get` reads it,
  `Put` writes it, and `WithKeyPrefix` filters it. Stored values have the
  shapes in `Store`.
- **Loops.** The `forEach` loops of the popup, the options page, the
  quiz generator and the transcript highlighter are `while` loops. Each
  is proved equal to a back-recursive specification function, and
  lemmas state the properties of those functions.
- **Host environment.** The DOM, the `chrome.*` APIs, the clock and
  `new Date(...)` become parameters and records. Instants are millisecond
  integers; seconds of video are reals.

One module per source file: `WatchTracking` and `ContentCommon`
(contentScripts/common.js), `Coursera`, `Background`, `Popup`, `Options`,
`QuizGenerator`. Shared modules:

- `Strings`: the `String.prototype` methods and the fixed regular expressions used. A string is a sequence of characters; only ASCII letters change case.
- `JsMath`: `Math.trunc`, `%` and `Math.round` over reals.
- `JsObjects`, `Store` and `StorageTotals`: the storage totals used by both
  the popup and the options page.
- `Sorting`: a stable insertion sort standing for `Array.prototype.sort`.
- `Wrappers`: `Option`.

## Model

| member | source | states |
|---|---|---|
| WatchTracking.Credit | contentScripts/common.js:799-800 | credit is dt·min(rate, 1); for dt > 0 and a non-negative rate it lies in [0, dt], and from rate 1 upward it is exactly dt, so the 2x cap never matters |
| WatchTracking.Step | contentScripts/common.js:793-821 | one `timeupdate`: `lastTime` becomes the current time; watched time grows by dt·min(rate,1) exactly when the gate passes (0<dt<5, visible, in viewport, unmuted, playing), else stays; a seek credits nothing; growth is bounded by the forward delta; completion fires exactly when not yet completed and a truthy duration's 96% is reached |
| WatchTracking.ShouldCountTime | contentScripts/common.js:813-821 | the gate: 0 < dt < 5, a visible tab, the video reported in the viewport, sound on and playing (its effect is stated by `Step`) |
| WatchTracking.Snapshot | contentScripts/common.js:823-830 | the progress report copies watched time, duration and completed; completion·duration = watched time for a truthy duration, else 0; a completed state whose watched time has reached 96% of a positive duration reports completion ≥ 0.96 |
| WatchTracking.CompletedIsPermanent | contentScripts/common.js:806-810 | once completed, no event sequence un-completes the tracker or fires the callback again |
| WatchTracking.FiresAtMostOnce | contentScripts/common.js:806-810 | over any event sequence the callback fires once if the tracker went from not completed to completed, otherwise never |
| WatchTracking.WatchedTimeMonotone | contentScripts/common.js:798-801 | with non-negative playback rates, watched time never decreases over any event sequence |
| WatchTracking.NoDurationNeverCompletes | contentScripts/common.js:806-807 | if no sample has a truthy duration, completion never happens and nothing fires |
| WatchTracking.CompletedMeansWatched | contentScripts/common.js:793-811 | for a fixed positive duration and non-negative rates, a tracker that starts with its completion backed by 96% watched ends every event sequence either not completed or with at least 96% of the duration watched |
| WatchTracking.CompletedReportsThreshold | contentScripts/common.js:764-830 | a tracker started fresh that is completed after any event sequence (fixed positive duration, non-negative rates) reports completion ≥ 0.96 |
| WatchTracking.UnwatchedCreditsNothing | contentScripts/common.js:813-821 | events whose samples are muted, paused or on a hidden tab leave watched time unchanged |
| WatchTracking.OffScreenCreditsNothing | contentScripts/common.js:777-779 | while the viewport flag was never set true and every intersection ratio is below 0.5, no time is credited and the flag stays not-true |
| WatchTracking.WatchTracker.constructor | contentScripts/common.js:764-773 | a new tracker has watched time 0, last time 0, not completed, viewport undefined, no completions |
| WatchTracking.WatchTracker.OnIntersection | contentScripts/common.js:777-779 | the viewport flag becomes ratio ≥ 0.5; nothing else changes |
| WatchTracking.WatchTracker.OnLoadedMetadata | contentScripts/common.js:788-790 | `lastTime` is reset to the current time; nothing else changes |
| WatchTracking.WatchTracker.UpdateWatchTime | contentScripts/common.js:793-811 | the new fields and the fired flag are those of `Step`; the completion count rises by one exactly when it fires |
| WatchTracking.WatchTracker.GetProgress | contentScripts/common.js:823-830 | reports `Snapshot` of the current fields and changes nothing |
| ContentCommon.FormatTime | contentScripts/common.js:656-660 | for a non-negative time the label is the `m:ss` clock of its whole seconds |
| ContentCommon.FloorParts | contentScripts/common.js:657-658 | floor(t/60) and floor(t % 60) are the whole seconds' quotient and remainder by 60 |
| ContentCommon.ClockParts | contentScripts/common.js:659 | the label splits at ':' into the minutes, which parse back to n div 60, and exactly two digits whose value is n mod 60 |
| ContentCommon.FormatTimeZero | contentScripts/common.js:656-660 | zero seconds reads `0:00` |
| ContentCommon.SeekTarget | contentScripts/common.js:297-303 | no duration gives no seek; the target is current+delta clamped to [0, duration], landing on 0 or the duration exactly when the sum falls outside |
| ContentCommon.ExtractCourseraInfo | contentScripts/common.js:729-737 | platform coursera, the page title and URL; the id is the non-empty slash-free segment after the first `/learn/`, or `unknown` without one |
| ContentCommon.ExtractLinkedInInfo | contentScripts/common.js:739-747 | the same for platform linkedin and `/learning/` |
| ContentCommon.ExtractCourseInfo | contentScripts/common.js:718-727 | Coursera is tried before LinkedIn; any other URL keeps the previous course |
| ContentCommon.CurrentCourseId | contentScripts/common.js:749-751 | `platform:id` of the current course, `unknown` without one |
| ContentCommon.LectureId | contentScripts/common.js:753-759 | the id is never empty; a non-empty hash wins; otherwise, for a URL not ending in '/', it is the text after the last '/' (the whole URL without one), and for an empty URL or one ending in '/' it is `lecture-1` |
| ContentCommon.LectureIdOfPath | contentScripts/common.js:758 | without a hash, a URL whose last path piece is non-empty yields exactly that piece |
| ContentCommon.SaveNote | contentScripts/common.js:556-586 | blank text stores nothing; otherwise the note with trimmed text is appended to that lecture's list under `notes:<course>`, created if absent, and every other lecture and key is unchanged |
| Background.ExtractCourseId | background/background.js:221-230 | for a coursera.org URL (tested first), `coursera:` plus a non-empty slash-free slug; for a linkedin.com/learning URL, `linkedin:` plus one; `unknown` exactly when the URL is neither |
| Background.CourseraSlug | background/background.js:221-224 | a coursera.org URL whose first `/learn/` is followed by slug, up to '/' or the end, maps to `coursera:slug` |
| Background.LinkedInSlug | background/background.js:225-227 | a LinkedIn Learning URL that is not coursera.org and whose first `/learning/` is followed by slug maps to `linkedin:slug` |
| Background.CourseIdsAgree | background/background.js:221-230 | the background's course id of a URL equals the content script's `platform:id` for that URL, including the `unknown` cases |
| Background.DefaultCourseUrl | background/background.js:128-136 | the result is one of the two home pages, and it is LinkedIn's exactly when the lowercased name contains `linkedin` and not `coursera` |
| Background.AlarmSplit | background/background.js:37-38 | after the `study:` prefix, `split(':')[1]` is the text up to the next ':' |
| Background.AlarmSessionId | background/background.js:37-38 | an id is recovered exactly for names starting with `study:`, and it never contains ':' |
| Background.AlarmRoundTrip | background/background.js:37-38 | parsing the alarm name (built as on line 207) of a session id gives that id back exactly when it has no ':' |
| Background.FindSession | background/background.js:44 | `find` gives nothing exactly when no entry has the id, and otherwise the first entry that has it |
| Background.FindIndex | background/background.js:144 | `findIndex` is -1 exactly when no entry matches, else the index of the first match |
| Background.FindAgrees | background/background.js:144 | `find` is the entry at `findIndex` |
| Background.UpdateSessionStatus | background/background.js:139-154 | only the first matching entry gets the new status and `lastUpdated`; with no match nothing is written and the schedule is unchanged |
| Background.TrackProgress | background/background.js:181-202 | the lecture's entry gets the new watched time, duration, completed and time, keeps its other fields, and starts from empty lectures when the key is absent; other lectures and keys are unchanged |
| Background.CourseUrl | background/background.js:78 | a non-empty session URL wins over the course's default URL |
| Background.ButtonAction | background/background.js:70-97 | unknown ids do nothing; button 0 opens the course and marks the session started, button 1 opens the options page, other buttons do nothing |
| Background.ClickAction | background/background.js:105-121 | a click on the notification body acts like button 0 |
| Background.AlarmSession | background/background.js:36-46 | a non-`study:` alarm finds nothing; a found session is in the schedule and carries the alarm's id |
| Background.ScheduledAlarmFindsSession | background/background.js:36-46 | the alarm of any scheduled session with a colon-free id finds a session |
| Background.NotificationSessions.constructor | background/background.js:5 | the session map starts empty |
| Background.NotificationSessions.OnAlarm | background/background.js:36-67 | the map gains the found session under its id, and is unchanged when none is found |
| Background.NotificationSessions.OnButtonClicked | background/background.js:70-102 | the action is `ButtonAction` of the old map, a course is opened only for the session whose notification was clicked, and the id is removed from the map |
| Background.NotificationSessions.OnClicked | background/background.js:105-125 | the action is `ClickAction` of the old map, a course is opened only for the session whose notification was clicked, and the id is removed from the map |
| Coursera.TimeAttribute | contentScripts/coursera.js:149-151 | `data-timestamp`, then `data-start`, then `data-time`, taking the first truthy one; none when all are falsy |
| Coursera.NumberPair | contentScripts/coursera.js:158-161 | a match never runs past the text |
| Coursera.NumberPairSpec | contentScripts/coursera.js:158-161 | a match is a whole digit run, ':', a whole digit run, with the two values read and the length spanned; there is no match exactly when no leading digit run is followed by ':' and a digit |
| Coursera.ColonEndsRun | contentScripts/coursera.js:158 | a digit run followed by ':' is the whole leading digit run, so the greedy `\d+` never has to back off |
| Coursera.FirstClockAt | contentScripts/coursera.js:158 | the search stops at the first position holding an `m:s` match and skips only positions without one |
| Coursera.ExtractTimestamp | contentScripts/coursera.js:147-177 | a line with a time attribute always gets a timestamp (possibly NaN); without one, a bracketed `[m:s]` gives a non-negative number of seconds |
| Coursera.TimestampSources | contentScripts/coursera.js:147-177 | an attribute is parsed as a float; failing that the first bracketed `[m:s]` gives m·60+s; no timestamp exactly when there is no attribute, no bracketed time and no timed child with text |
| Coursera.BracketedClockAtStart | contentScripts/coursera.js:158 | a text that starts with `[m:s]` matches those two numbers |
| Coursera.ChildTimestamp | contentScripts/coursera.js:167-172 | a non-empty child time always yields a number or NaN, never `null` |
| Coursera.ChildClockAtStart | contentScripts/coursera.js:164-171 | without an attribute or a bracketed time, a timed child whose time starts with `m:s` gives `m * 60 + s` seconds |
| Coursera.LeadingClock | contentScripts/coursera.js:168 | `(\d+):(\d+)` matches at the front of a text starting with `m:s` and reads m and s |
| Coursera.ChildNumber | contentScripts/coursera.js:164-173 | without an attribute or a bracketed time, a timed child whose time is a plain digit string has no `m:s` and is read by `parseFloat` as its value |
| Coursera.FormattedLabelReadsBack | contentScripts/coursera.js:158-161 | a line that starts with the bracketed `formatTime` label of n seconds reads back as n |
| Coursera.Timestamps | contentScripts/coursera.js:252 | one timestamp per transcript line |
| Coursera.FirstNear | contentScripts/coursera.js:256 | the first line within 2 seconds of the current time, and no earlier one is |
| Coursera.Highlighted | contentScripts/coursera.js:249-270 | lines without a timestamp keep their mark; every timed line is marked exactly when it is the first near line |
| Coursera.SingleActiveLine | contentScripts/coursera.js:249-270 | at most one timed line is active, an active line is within 2 seconds, and if any line is near one is active |
| Coursera.SyncTranscriptHighlight | contentScripts/coursera.js:242-272 | the lines' timestamps, then the loop, leave exactly the `Highlighted` marks |
| Coursera.HighlightLines | contentScripts/coursera.js:249-270 | the loop with its `activeFound` flag leaves exactly the `Highlighted` marks |
| Coursera.IsLectureLink | contentScripts/coursera.js:367-380 | the test itself (its meaning is stated by `LectureLinkSpec`) |
| Coursera.LectureLinkSpec | contentScripts/coursera.js:367-380 | a lecture link exactly when the href has `/lecture/` or `/learn/` at some index, the lower-cased text has `lecture` or `video`, the aria-label has `lecture`, or `data-lecture-id` is present; a missing attribute matches nothing |
| Coursera.LectureLinkIgnoresCase | contentScripts/coursera.js:371-376 | two elements whose texts differ only in case, and that agree otherwise, get the same verdict |
| Coursera.UpperCaseVideoIsLectureLink | contentScripts/coursera.js:371-376 | a bare text `VIDEO` already makes a lecture link |
| Coursera.NextInMenu | contentScripts/coursera.js:334-365 | the first following sibling that is a lecture link, or else whose first link is one; failing all siblings, the next section's first link if it is a lecture link; otherwise nothing |
| Coursera.FirstHit | contentScripts/coursera.js:338-350 | the sibling walk stops at the first hit and passes over only non-hits |
| Coursera.FindNextLectureInMenu | contentScripts/coursera.js:334-365 | the `while` walk returns `NextInMenu` |
| Coursera.ViaMenu | contentScripts/coursera.js:305-332 | the first outline that has a current lecture with a next one is clicked, with that pick; the guidance shows exactly when no outline leads anywhere |
| Coursera.NavigateViaMenu | contentScripts/coursera.js:305-332 | the selector loop returns `ViaMenu` |
| Coursera.MenuChoice | contentScripts/coursera.js:314-327 | the first outline that leads anywhere is the one used |
| Coursera.NextChoice | contentScripts/coursera.js:287-303 | the first present, enabled button in selector order is clicked; the menu is tried exactly when there is none |
| Coursera.NavigateToNext | contentScripts/coursera.js:287-303 | the selector loop returns `NextChoice` |
| Coursera.ButtonChoice | contentScripts/coursera.js:291-297 | the first clickable button wins whatever the later ones and the menus are |
| QuizGenerator.SplitSentences | lib/quizGenerator.js:7 | `split(/[.!?]+/)` gives at least one piece, and no piece contains a terminator |
| QuizGenerator.DropTerminators | lib/quizGenerator.js:7 | a run of terminators is one separator: it drops exactly the leading terminators |
| QuizGenerator.SplitSentencesOfPiece | lib/quizGenerator.js:7 | text without a terminator is one piece |
| QuizGenerator.SplitSentencesConcat | lib/quizGenerator.js:7 | a terminator-free prefix joins the first piece of the rest |
| QuizGenerator.SplitSentencesJoin | lib/quizGenerator.js:7 | pieces joined with a terminator run split back into the same pieces |
| QuizGenerator.Kept | lib/quizGenerator.js:7 | the filter keeps no more pieces than it gets |
| QuizGenerator.KeptSpec | lib/quizGenerator.js:7 | the kept sentences are exactly the pieces whose trimmed length exceeds 10 |
| QuizGenerator.KeptAppend | lib/quizGenerator.js:7 | the filter keeps order and repeats: filtering a concatenation gives the two filtered parts concatenated |
| QuizGenerator.Limit | lib/quizGenerator.js:4-10 | the loop bound is at most the sentence count and at most a given non-negative count; it defaults to 5; a count above the sentence count is cut to it |
| QuizGenerator.Cloze | lib/quizGenerator.js:12-25 | a question exactly for more than 5 words, with 4 options and answer 0 |
| QuizGenerator.ClozeShape | lib/quizGenerator.js:12-25 | no question for 5 words or fewer; otherwise 4 options, the middle word first then "Option B/C/D", answer 0, the explanation naming the word, a question ending in '?' |
| QuizGenerator.ClozeRoundTrip | lib/quizGenerator.js:16-21 | the question's middle word is the blank, and putting the answer back rebuilds the sentence |
| QuizGenerator.MakeQuestion | lib/quizGenerator.js:12-25 | the in-loop construction with `map` and `join` yields `Cloze` of the sentence |
| QuizGenerator.FilterMap | lib/quizGenerator.js:10-27 | the questions are never more than the sentences examined |
| QuizGenerator.FilterMapAppend | lib/quizGenerator.js:10-27 | examining two runs of sentences in turn gives their questions in the same order |
| QuizGenerator.FilterMapFrom | lib/quizGenerator.js:10-27 | every question comes from one of the examined sentences |
| QuizGenerator.ClozeAll | lib/quizGenerator.js:10-27 | no more questions than examined sentences |
| QuizGenerator.ClozeAllStep | lib/quizGenerator.js:10-26 | one more sentence adds its question at the end, or nothing when it is too short |
| QuizGenerator.ClozeAllAppend | lib/quizGenerator.js:10-27 | questions keep the order of their sentences |
| QuizGenerator.ClozeAllCount | lib/quizGenerator.js:14 | one question per examined sentence with more than 5 words; short ones are skipped, not replaced |
| QuizGenerator.ClozeAllFrom | lib/quizGenerator.js:10-25 | each question is the cloze of one examined, trimmed sentence |
| QuizGenerator.GenerateQuiz | lib/quizGenerator.js:3-30 | the loop returns the cloze questions of the first `Limit` kept sentences, so their number is at most min(numQuestions, sentences) |
| Popup.IsSupportedSite | ui/popup.js:43-48 | true exactly for a present URL containing `coursera.org` or `linkedin.com/learning` |
| Popup.SupportedIffKnownPlatform | ui/popup.js:43-48 | a URL is supported exactly when the background gives it a course id other than `unknown` |
| Popup.FormatTime | ui/popup.js:535-541 | a missing time reads `0:00`; otherwise the content script's label |
| Popup.Prefix | ui/popup.js:545 | `substring(0, n)` is the first min(max(n,0), length) characters |
| Popup.TruncateText | ui/popup.js:543-546 | empty or missing text gives ''; text within the limit is unchanged; longer text is its first max characters plus `...`, so never longer than max+3 |
| Popup.TruncateIdempotent | ui/popup.js:543-546 | truncating twice is truncating once |
| Popup.AverageScore | ui/popup.js:236-240 | none exactly for no scores; otherwise `Math.round` of the mean, within half a point of it, so above some score less ½ and at most some score plus ½; for whole-number scores it lies between the least and the greatest score |
| Popup.MeanBounded | ui/popup.js:238-239 | for whole-number scores, the rounded mean is at least one score and at most another |
| Popup.MeanBetween | ui/popup.js:238 | the mean of non-empty scores is at least one score and at most another |
| Popup.FractionalScoresRoundOutside | ui/popup.js:238-239 | with fractional scores the rounded mean can leave their range: `[0.4]` gives 0 and `[66.5, 66.5]` gives 67 |
| Popup.MeanAtLeast | ui/popup.js:238 | a mean of scores all ≥ m is ≥ m |
| Popup.MeanAtMost | ui/popup.js:238 | a mean of scores all ≤ m is ≤ m |
| Popup.SumAtLeast | ui/popup.js:238 | the `reduce` sum of values all ≥ m is at least count·m |
| Popup.SumAtMost | ui/popup.js:238 | the `reduce` sum of values all ≤ m is at most count·m |
| Popup.SumAbove | ui/popup.js:238 | the `reduce` sum of non-empty values all > m is more than count·m |
| Popup.SumBelow | ui/popup.js:238 | the `reduce` sum of non-empty values all < m is less than count·m |
| JsMath.HoursMinutes | ui/popup.js:228-229 | for t ≥ 0, hours ≥ 0, 0 ≤ minutes < 60, and t lies in the minute 3600·h+60·m |
| JsMath.JsRem | contentScripts/common.js:658 | for a positive divisor the remainder takes the dividend's sign: in [0, b) for a ≥ 0, in (-b, 0] for a < 0 |
| JsMath.Trunc | contentScripts/common.js:658 | truncation is floor on non-negatives and within 1 of the value |
| JsMath.Round | ui/popup.js:239 | `Math.round` lies within half a unit of its argument, halves going up |
| Popup.UpdateStatistics | ui/popup.js:226-242 | the watch label is `<h>h <m>m` of the seconds, the notes label the count, the quiz label `N/A` exactly for no scores and else the rounded mean with `%` |
| Popup.LoadStatistics | ui/popup.js:185-224 | the loop over storage keys computes the total watch time, total note count and the quiz results in storage order |
| Popup.AddEntry | ui/popup.js:196-215 | one key adds its watch time, note count and quiz results, by prefix; other keys add nothing |
| Popup.AddWatchTimes | ui/popup.js:198-200 | adds every lecture's watched time, missing counted as 0 |
| Popup.AddNoteCounts | ui/popup.js:205-207 | adds every lecture's note count |
| Popup.AddScores | ui/popup.js:210-214 | appends every lecture's result list, in order |
| Popup.Tag | ui/popup.js:313-319 | each note of a lecture, in order, tagged with its course and lecture |
| Popup.RecentNotes | ui/popup.js:325-327 | the notes shown are three, or all of them when there are fewer |
| Popup.LoadRecentNotes | ui/popup.js:302-332 | the collecting loop, the sort and the slice give `RecentNotes` of storage |
| Popup.CollectCourseNotes | ui/popup.js:310-320 | appends every note of a course, lecture by lecture |
| Popup.CollectLectureNotes | ui/popup.js:312-319 | appends every note of a lecture, tagged |
| Popup.NewestOrdered | ui/popup.js:325-327 | at most 3 notes, exactly min(3, all), newest first |
| Popup.NewestKept | ui/popup.js:325-327 | the shown notes are among the stored ones, and every note left out is no newer than every note shown |
| Popup.AllNotesTagged | ui/popup.js:308-316 | each collected note's course is the id of a `notes:` key with the prefix removed |
| Popup.CourseTaggedId | ui/popup.js:314-316 | every note of a course carries that course's id |
| Popup.ExportData | ui/popup.js:427-451 | the notes, progress and quizzes buckets are the storage filtered to their prefixes; the settings are the stored ones |
| Popup.ExportPartition | ui/popup.js:443-451 | each key is in its prefix's bucket with its stored value, and in no other bucket; keys without a prefix are dropped |
| Options.SessionFor | ui/options.js:83-90 | a complete row's session has its course, title, deadline and `parseInt(est_minutes)` duration, with status `scheduled` |
| Options.Sessions | ui/options.js:81-92 | no more sessions than rows |
| Options.SessionsFromRows | ui/options.js:81-92 | every session is the one of some complete row |
| Options.RowsHaveSessions | ui/options.js:81-92 | every complete row has its session |
| Options.SessionsCount | ui/options.js:81-92 | the count of sessions is the count of complete rows |
| Options.Schedule | ui/options.js:78-98 | the schedule holds the complete rows' sessions, each as often as it is built |
| Options.AllScheduled | ui/options.js:83-90 | every built session has status `scheduled` |
| Options.ScheduleIsEdf | ui/options.js:78-98 | the schedule is a permutation of the complete rows' sessions, sorted by non-decreasing deadline, all `scheduled` |
| Options.ProcessScheduleData | ui/options.js:78-98 | the filter loop and the sort give `Schedule` |
| Options.DurationSum | ui/options.js:103 | the `reduce` sum is NaN (none) exactly when some duration is NaN |
| Options.DurationSumBounds | ui/options.js:103 | with non-negative durations, each is at most the total |
| Options.DurationSumNonNegative | ui/options.js:103 | with non-negative durations the total is non-negative |
| Options.SchedulePreview | ui/options.js:100-109 | the session count, and the hours as total minutes / 60, NaN exactly when a duration is |
| Options.OrReal | ui/options.js:117-118 | a missing or zero setting falls back to the default |
| Options.OrInt | ui/options.js:119-120 | a missing or zero setting falls back to the default |
| Options.LoadSettings | ui/options.js:111-124 | without settings the form shows 2.0, 0.96, 120 and 30; otherwise each falsy value is replaced by its default; no field is ever 0 |
| Options.LoadDashboardData | ui/options.js:149-169 | the loop computes the total watch time, total notes and the number of `progress:` keys |
| Options.CourseCountIsProgressKeys | ui/options.js:154-156 | the course count is the number of `progress:` entries |
| Options.ExportAllData | ui/options.js:182-196 | the notes bucket is the `notes:` keys, the progress bucket the `progress:` keys; the settings are the stored ones |
| Options.BackupKeepsCourseData | ui/options.js:192-196 | every `notes:` and `progress:` key keeps its value in its bucket; `quizzes:` keys are in neither |
| StorageTotals.TotalWatchTime | ui/popup.js:195-201 | a storage area with no `progress:` key has watched nothing |
| StorageTotals.TotalWatchTimeNonNegative | ui/popup.js:195-201 | with non-negative lecture times the total is non-negative |
| StorageTotals.CourseWatchTimeNonNegative | ui/popup.js:198-200 | with non-negative lecture times a course's total is non-negative |
| StorageTotals.WatchTimeOfPrefixed | ui/popup.js:195-201 | only `progress:` entries contribute watch time |
| StorageTotals.NotesOfPrefixed | ui/popup.js:203-207 | only `notes:` entries contribute notes |
| Store.PrefixesExclusive | ui/popup.js:196-216 | no key has two of the `notes:`, `progress:`, `quizzes:` prefixes, so the `else if` chain loses nothing |
| JsObjects.GetSpec | ui/popup.js:188-216 | a key reads nothing exactly when no property has it, else a value stored under it |
| JsObjects.Put | background/background.js:190-196 | a write makes the key read the value, leaves other keys alone, keeps the size for a present key and appends a new one |
| JsObjects.WithKeyPrefix | ui/popup.js:443-451 | the bucket is no larger than the object |
| JsObjects.WithKeyPrefixMembers | ui/popup.js:443-451 | the bucket holds exactly the properties whose key has the prefix |
| JsObjects.GetWithKeyPrefix | ui/popup.js:443-451 | a bucket reads a prefixed key as the object does, and any other key as absent |
| JsObjects.PutNewFiltered | ui/popup.js:444-446 | writing one more prefixed property into the bucket is filtering one more property |
| Sorting.Insert | ui/options.js:95 | insertion adds exactly one element |
| Sorting.SortBy | ui/options.js:95 | the sort is a permutation |
| Sorting.SortBySorted | ui/options.js:95 | the result is ordered by the key |
| Sorting.SortByPrefix | ui/popup.js:325-327 | the first n elements come from the input, and none left out has a smaller key |
| Strings.IncludesSpec | background/background.js:222 | `includes` holds exactly when the substring occurs at some index |
| Strings.IncludesPrefix | background/background.js:225 | a substring of s is a substring of any extension of s |
| Strings.ToLower | background/background.js:130 | same length; each character is lowercased where it stands (ASCII capitals to small letters, everything else kept) |
| Strings.Trim | contentScripts/common.js:557 | trimmed is empty exactly for all-space text; otherwise it starts and ends with a non-space |
| Strings.TrimSpec | contentScripts/common.js:557 | the trimmed text is the piece of the text between white space at the front and white space at the back |
| Strings.TrimStart | lib/quizGenerator.js:7 | a suffix after leading spaces only |
| Strings.TrimEnd | lib/quizGenerator.js:7 | a prefix before trailing spaces only |
| Strings.SplitLast | contentScripts/common.js:758 | the last piece of a split is the text after the last separator, or the whole text when there is none |
| Strings.Split | lib/quizGenerator.js:12 | `split(c)` gives at least one piece, none containing c |
| Strings.SplitJoin | lib/quizGenerator.js:12-18 | joining c-free pieces with c and splitting at c gives the pieces back |
| Strings.JoinSplit | lib/quizGenerator.js:12-18 | splitting at c and joining with c gives the text back |
| Strings.SplitConcat | contentScripts/common.js:758 | a c-free prefix joins the first piece |
| Strings.SplitNoSeparator | contentScripts/common.js:758 | text without c is one piece |
| Strings.NatToString | ui/popup.js:233 | decimal digits, at least one, whose value is the number, with no leading zero |
| Strings.IntToString | ui/popup.js:233 | non-empty; the decimal digits for a non-negative number, and '-' before the digits of its magnitude for a negative one |
| Strings.PadStart2 | contentScripts/common.js:659 | `padStart(2, '0')` pads to two characters and keeps the text at the end |
| Strings.PadStart2Value | contentScripts/common.js:659 | a number below 100 pads to exactly two digits of the same value |
| Strings.DigitPrefix | ui/options.js:87 | the longest leading run of digits |
| Strings.DigitPrefixOf | ui/options.js:87 | digits followed by a non-digit are exactly that run |
| Strings.ParseInt | ui/options.js:87 | plain decimal digits read as their value |
| Strings.PlainDigits | ui/options.js:87 | plain digits have no white space to skip and are their own digit prefix |
| Strings.ParseIntNaN | ui/options.js:87 | `parseInt` is NaN exactly when no digit follows the leading spaces and optional sign |
| Strings.ParseIntOfInt | ui/popup.js:233 | `parseInt` of an integer's `toString` text gives the integer back, negative ones included |
| Strings.ParseNegative | ui/options.js:87 | a '-' before plain digits reads as the negated value of the digits |
| Strings.ParseIntOfNat | ui/options.js:87 | `parseInt` reads a number's decimal text back |
| Strings.ParseFloat | contentScripts/coursera.js:154 | plain decimal digits read as their value |
| Strings.ParseFloatDecimal | contentScripts/coursera.js:154 | `parseFloat` of `whole.frac` (two non-empty digit runs) is the whole value plus the fraction digits' value over ten to their count |
| Strings.FractionValue | contentScripts/coursera.js:154 | the digits after the point add a non-negative amount, nothing when there are none |
| Strings.ParseFloatOfNat | contentScripts/coursera.js:154 | `parseFloat` reads a number's decimal text back |
| Strings.TakeUntilSlash | background/background.js:223 | `[^\/]+` takes the longest slash-free prefix |
| Strings.SegmentIndex | background/background.js:223 | the first position where the marker is followed by a non-slash |
| Strings.SegmentAfterSpec | background/background.js:223 | the match exists exactly when the marker is followed by a non-slash somewhere, and is the slash-free run after the first such place |
| Strings.SegmentShape | background/background.js:223-224 | a matched segment is non-empty and slash-free |
| Strings.SegmentAfterAt | background/background.js:223 | the first matching place determines the segment |
| Strings.SegmentOf | background/background.js:223 | a slug after the first matching marker, ended by '/' or the end, is the segment |
| Strings.TakeUntilSlashOf | background/background.js:223 | a slash-free text ended by '/' or the end is taken whole |

## Left out

- DOM rendering, styles, modals, toasts, `scrollIntoView`, focus handling, hotkeys and the navigation guidance panel: nothing here computes a value.
- `MutationObserver`, `IntersectionObserver`, timers and event-listener wiring: the tracker's handlers are called directly, with the browser's signals as parameters.
- All `chrome.*` APIs (tabs, alarms, notifications, downloads, messaging): only the values read from and written to storage are modelled. The notification's title, text and buttons and the `GET_TAB_INFO` message are not modelled.
- `onInstalled` default settings, `scheduleStudySession`'s alarm creation beyond the alarm name, `loadStudyPlan` with its "today" filter, and displaying the first three sessions: these are date- and API-bound.
- `Papa.parse`: the CSV rows are given already parsed. `JSON.stringify`, `Blob` and the download file names: only the key partition of the export is modelled.
- `Date.now()`, `new Date(...)` and `toISOString()`: the current time is a parameter `now`, and date parsing is a parameter `parseDate`. Both are millisecond integers, so note ids and `lastUpdated` are these integers or their decimal text.
- Text length: a JavaScript `length` counts UTF-16 code units, while a Dafny string counts characters. For text outside the Basic Multilingual Plane the two differ, so `TruncateText`'s cut and the quiz filter's `length > 10` are modelled by characters.
- IEEE-754 arithmetic: numbers are exact reals or integers. NaN is `None`, and Infinity is not modelled.
- Popup.AverageScore: stored quiz results are taken to be numbers (reals). A non-number in a results list, which `reduce` would concatenate as text, is not modelled.
- Strings.ParseFloat: reads only an optional sign and decimal digits with an optional fraction. Exponents, `Infinity` and hexadecimal are not modelled.
- Strings.ParseInt: does not read the `0x` prefix.
- Strings.ToLower: lowercases only ASCII letters. Unicode case mapping is not modelled.
- Strings.Trim: treats the ASCII white space, no-break space, byte-order mark and line and paragraph separators as white space. The other Unicode space characters (U+1680, U+2000–U+200A, U+202F, U+205F, U+3000) are not.
- Sorting.SortBy: a stable insertion sort stands for `Array.prototype.sort`. Engines sort stably, but ties between equal deadlines or equal creation times, and comparators that return NaN, are not examined.
- JavaScript object key order: objects keep insertion order. The integer-like keys that engines list first are not special.
- Options.ProcessScheduleData: one `now` stands for all rows, while ui/options.js:84 calls `Date.now()` again for each row. So every id in the model carries the same time, while in the source a later row's id may carry a later one.
- `toFixed(1)` in the schedule preview: the model states the unrounded hours.
- QuizGenerator.Limit: `numQuestions` is an integer. A fractional or non-numeric count is not modelled.
- Coursera.SyncTranscriptHighlight: timestamps are computed for all lines before the loop instead of inside it. Extraction is pure, so the marks are the same.
- The `syncTranscriptHighlight` of contentScripts/common.js (lines 691-716) is not modelled; only the Coursera one is. Its rule differs: it reads `data-time`, then `data-start`, then `data-timestamp`, with no fallback to the text or a child; it marks every line within 2 seconds, not only the first; and it leaves lines without such an attribute untouched. The LinkedIn content script is not part of this model.
- Coursera.ViaMenu: a menu is given by what its queries return (a current lecture, and the outline around it), not by a DOM tree.
- WatchTracking.WatchTracker: the `onComplete` callback is the `fired` result, and the `video` element is the `Playback` parameter of each update.
- utils/storage.js (a thin wrapper over the storage API) and src/integrations/supabase/types.ts (generated type declarations) have no behaviour to model.
