/** The watch tracker of the content script: it accumulates the seconds of
    a lecture video actually watched, sampled on every `timeupdate`, and
    signals completion once, when the watched time reaches 96% of the
    video's duration. Seconds are reals. The browser's signals (tab
    visibility, the video's current time, duration, rate, paused and muted
    flags) are parameters of each update, and the completion callback is
    the update's `fired` result. */
module WatchTracking {
  import opened Wrappers

  /** Fraction of the duration that counts as watched. */
  const Threshold: real := 0.96
  /** A time delta of this many seconds or more is a seek, not playback. */
  const MaxDelta: real := 5.0
  /** Playback rate cap, and the cap on seconds credited per second played. */
  const PlaybackCap: real := 2.0
  const CreditCap: real := 1.0
  /** Intersection ratio from which the video is in the viewport. */
  const ViewportRatio: real := 0.5

  function Min(a: real, b: real): real {
    if a <= b then a else b
  }

  /** The video element as a `timeupdate` handler sees it. A duration of
      `None` is the `NaN` reported before the metadata has loaded. */
  datatype Playback = Playback(
    currentTime: real,
    duration: Option<real>,
    playbackRate: real,
    paused: bool,
    muted: bool)

  /** JavaScript truthiness of `video.duration`. */
  predicate HasDuration(d: Option<real>) {
    d.Some? && d.value != 0.0
  }

  /** The tracker's fields; `isInViewport` is `None` (undefined) until the
      intersection observer first reports. */
  datatype TrackerState = TrackerState(
    watchedTime: real,
    lastTime: real,
    completed: bool,
    isInViewport: Option<bool>)

  const Initial := TrackerState(0.0, 0.0, false, None)

  /** The counting gate: a small positive delta, a visible tab, the video
      in the viewport, sound on and playing. */
  predicate ShouldCountTime(dt: real, visible: bool, isInViewport: Option<bool>, p: Playback) {
    0.0 < dt < MaxDelta && visible && isInViewport == Some(true) && !p.muted && !p.paused
  }

  /** Seconds credited for `dt` seconds of playback at `rate`. The 2x cap
      is subsumed by the 1x cap. */
  function Credit(dt: real, rate: real): (c: real)
    ensures c == dt * Min(rate, 1.0)
    ensures dt > 0.0 && rate >= 0.0 ==> 0.0 <= c <= dt
    ensures dt > 0.0 && rate >= 1.0 ==> c == dt
  {
    dt * Min(Min(rate, PlaybackCap), CreditCap)
  }

  datatype StepResult = StepResult(state: TrackerState, fired: bool)

  /** One `timeupdate` sample: `fired` is the call of the completion callback. */
  function Step(s: TrackerState, p: Playback, visible: bool): (r: StepResult)
    ensures r.state.lastTime == p.currentTime
    ensures r.state.isInViewport == s.isInViewport
    // Credit is granted exactly when the gate passes, and is exactly dt * min(rate, 1).
    ensures ShouldCountTime(p.currentTime - s.lastTime, visible, s.isInViewport, p) ==>
              r.state.watchedTime == s.watchedTime + (p.currentTime - s.lastTime) * Min(p.playbackRate, 1.0)
    ensures !ShouldCountTime(p.currentTime - s.lastTime, visible, s.isInViewport, p) ==>
              r.state.watchedTime == s.watchedTime
    // A seek (a jump backwards or of 5 seconds or more) credits nothing.
    ensures !(0.0 < p.currentTime - s.lastTime < MaxDelta) ==> r.state.watchedTime == s.watchedTime
    ensures p.playbackRate >= 0.0 ==>
              s.watchedTime <= r.state.watchedTime <= s.watchedTime + (if p.currentTime > s.lastTime then p.currentTime - s.lastTime else 0.0)
    ensures p.playbackRate > 0.0 && ShouldCountTime(p.currentTime - s.lastTime, visible, s.isInViewport, p) ==>
              r.state.watchedTime > s.watchedTime
    // Completion is one-shot and happens exactly at the threshold.
    ensures r.fired <==> !s.completed && r.state.completed
    ensures r.state.completed <==>
              s.completed || (HasDuration(p.duration) && r.state.watchedTime >= Threshold * p.duration.value)
  {
    var dt := p.currentTime - s.lastTime;
    var w := if ShouldCountTime(dt, visible, s.isInViewport, p) then s.watchedTime + Credit(dt, p.playbackRate) else s.watchedTime;
    var fire := !s.completed && HasDuration(p.duration) && w >= Threshold * p.duration.value;
    StepResult(TrackerState(w, p.currentTime, s.completed || fire, s.isInViewport), fire)
  }

  /** What `getProgress` reports. */
  datatype Progress = Progress(watchedTime: real, duration: Option<real>, completion: real, completed: bool)

  function Snapshot(s: TrackerState, duration: Option<real>): (r: Progress)
    ensures r.watchedTime == s.watchedTime && r.duration == duration && r.completed == s.completed
    ensures HasDuration(duration) ==> r.completion * duration.value == s.watchedTime
    ensures !HasDuration(duration) ==> r.completion == 0.0
    ensures HasDuration(duration) && duration.value > 0.0 && s.completed && s.watchedTime >= Threshold * duration.value ==>
              r.completion >= Threshold
  {
    Progress(s.watchedTime, duration, if HasDuration(duration) then s.watchedTime / duration.value else 0.0, s.completed)
  }

  /** The events the tracker reacts to. */
  datatype Event =
    | TimeUpdate(p: Playback, visible: bool)
    | Intersection(ratio: real)
    | LoadedMetadata(currentTime: real)

  function Apply(s: TrackerState, e: Event): (r: StepResult)
    ensures e.TimeUpdate? ==> r == Step(s, e.p, e.visible)
    ensures e.Intersection? ==> !r.fired && r.state == s.(isInViewport := Some(e.ratio >= ViewportRatio))
    ensures e.LoadedMetadata? ==> !r.fired && r.state == s.(lastTime := e.currentTime)
  {
    match e
    case TimeUpdate(p, visible) => Step(s, p, visible)
    case Intersection(ratio) => StepResult(s.(isInViewport := Some(ratio >= ViewportRatio)), false)
    case LoadedMetadata(t) => StepResult(s.(lastTime := t), false)
  }

  datatype Trace = Trace(state: TrackerState, fires: nat)

  /** The state after a sequence of events, and how often the callback fired. */
  function Run(s: TrackerState, es: seq<Event>): Trace
    decreases |es|
  {
    if es == [] then Trace(s, 0)
    else
      var t := Run(s, es[..|es| - 1]);
      var r := Apply(t.state, es[|es| - 1]);
      Trace(r.state, t.fires + if r.fired then 1 else 0)
  }

  /** Once completed, a tracker stays completed and never fires again. */
  lemma {:induction false} CompletedIsPermanent(s: TrackerState, es: seq<Event>)
    requires s.completed
    ensures Run(s, es).state.completed && Run(s, es).fires == 0
    decreases |es|
  {
    if es != [] {
      CompletedIsPermanent(s, es[..|es| - 1]);
    }
  }

  /** The callback fires at most once over any run, and fires exactly when
      the run takes the tracker from not completed to completed. */
  lemma {:induction false} FiresAtMostOnce(s: TrackerState, es: seq<Event>)
    ensures Run(s, es).fires == if !s.completed && Run(s, es).state.completed then 1 else 0
    ensures s.completed ==> Run(s, es).state.completed
    decreases |es|
  {
    if es != [] {
      FiresAtMostOnce(s, es[..|es| - 1]);
    }
  }

  predicate NonNegativeRates(es: seq<Event>) {
    forall i :: 0 <= i < |es| && es[i].TimeUpdate? ==> es[i].p.playbackRate >= 0.0
  }

  /** With non-negative playback rates the watched time never decreases. */
  lemma {:induction false} WatchedTimeMonotone(s: TrackerState, es: seq<Event>)
    requires NonNegativeRates(es)
    ensures Run(s, es).state.watchedTime >= s.watchedTime
    decreases |es|
  {
    if es != [] {
      var front := es[..|es| - 1];
      assert NonNegativeRates(front) by {
        forall i | 0 <= i < |front| ensures front[i] == es[i] { }
      }
      WatchedTimeMonotone(s, front);
    }
  }

  /** Every `timeupdate` sample reports the same duration `d`. */
  predicate FixedDuration(es: seq<Event>, d: real) {
    forall i :: 0 <= i < |es| && es[i].TimeUpdate? ==> es[i].p.duration == Some(d)
  }

  /** For a video of fixed positive duration played at non-negative rates,
      completion is only ever reached with the threshold share watched, and
      it is kept: later samples never lower the watched time. */
  lemma {:induction false} CompletedMeansWatched(s: TrackerState, es: seq<Event>, d: real)
    requires d > 0.0
    requires s.completed ==> s.watchedTime >= Threshold * d
    requires FixedDuration(es, d) && NonNegativeRates(es)
    ensures Run(s, es).state.completed ==> Run(s, es).state.watchedTime >= Threshold * d
    decreases |es|
  {
    if es != [] {
      var front := es[..|es| - 1];
      forall i | 0 <= i < |front| ensures front[i] == es[i] { }
      CompletedMeansWatched(s, front, d);
    }
  }

  /** A tracker started fresh that reports completion reports at least the
      threshold share of a fixed positive duration. */
  lemma CompletedReportsThreshold(es: seq<Event>, d: real)
    requires d > 0.0
    requires FixedDuration(es, d) && NonNegativeRates(es)
    ensures Run(Initial, es).state.completed ==> Snapshot(Run(Initial, es).state, Some(d)).completion >= Threshold
  {
    CompletedMeansWatched(Initial, es, d);
  }

  /** A video whose duration is never truthy never completes. */
  lemma {:induction false} NoDurationNeverCompletes(s: TrackerState, es: seq<Event>)
    requires !s.completed
    requires forall i :: 0 <= i < |es| && es[i].TimeUpdate? ==> !HasDuration(es[i].p.duration)
    ensures !Run(s, es).state.completed && Run(s, es).fires == 0
    decreases |es|
  {
    if es != [] {
      var front := es[..|es| - 1];
      forall i | 0 <= i < |front| ensures front[i] == es[i] { }
      NoDurationNeverCompletes(s, front);
    }
  }

  /** A sample that fails the gate for its own reasons (hidden tab, paused
      or muted video) credits nothing. */
  predicate Unwatched(e: Event) {
    e.TimeUpdate? ==> !e.visible || e.p.paused || e.p.muted
  }

  lemma {:induction false} UnwatchedCreditsNothing(s: TrackerState, es: seq<Event>)
    requires forall i :: 0 <= i < |es| ==> Unwatched(es[i])
    ensures Run(s, es).state.watchedTime == s.watchedTime
    decreases |es|
  {
    if es != [] {
      var front := es[..|es| - 1];
      forall i | 0 <= i < |front| ensures front[i] == es[i] { }
      UnwatchedCreditsNothing(s, front);
    }
  }

  /** Until the observer reports the video at least half visible, nothing is
      credited, whatever the samples say. */
  lemma {:induction false} OffScreenCreditsNothing(s: TrackerState, es: seq<Event>)
    requires s.isInViewport != Some(true)
    requires forall i :: 0 <= i < |es| && es[i].Intersection? ==> es[i].ratio < ViewportRatio
    ensures Run(s, es).state.watchedTime == s.watchedTime
    ensures Run(s, es).state.isInViewport != Some(true)
    decreases |es|
  {
    if es != [] {
      var front := es[..|es| - 1];
      forall i | 0 <= i < |front| ensures front[i] == es[i] { }
      OffScreenCreditsNothing(s, front);
    }
  }

  /** The object itself: `onComplete` is the `fired` result of an update,
      and the ghost counter `completions` records how often it was called. */
  class WatchTracker {
    var watchedTime: real
    var lastTime: real
    var completed: bool
    var isInViewport: Option<bool>
    const threshold: real
    ghost var completions: nat

    function State(): TrackerState
      reads this
    {
      TrackerState(watchedTime, lastTime, completed, isInViewport)
    }

    /** The callback has been called once if the tracker is completed and
        never otherwise. */
    ghost predicate Valid()
      reads this
    {
      threshold == Threshold && completions == (if completed then 1 else 0)
    }

    constructor ()
      ensures Valid()
      ensures State() == Initial && completions == 0
    {
      watchedTime := 0.0;
      lastTime := 0.0;
      completed := false;
      threshold := 0.96;
      isInViewport := None;
      completions := 0;
    }

    /** The intersection observer's callback. */
    method OnIntersection(ratio: real)
      requires Valid()
      modifies this
      ensures Valid()
      ensures State() == Apply(old(State()), Intersection(ratio)).state
      ensures completions == old(completions)
    {
      isInViewport := Some(ratio >= 0.5);
    }

    /** The `loadedmetadata` listener. */
    method OnLoadedMetadata(currentTime: real)
      requires Valid()
      modifies this
      ensures Valid()
      ensures State() == Apply(old(State()), LoadedMetadata(currentTime)).state
      ensures completions == old(completions)
    {
      lastTime := currentTime;
    }

    /** `updateWatchTime`: returns whether `onComplete` was called. */
    method UpdateWatchTime(p: Playback, visible: bool) returns (fired: bool)
      requires Valid()
      modifies this
      ensures Valid()
      ensures StepResult(State(), fired) == Step(old(State()), p, visible)
      ensures completions == old(completions) + (if fired then 1 else 0)
    {
      var currentTime := p.currentTime;
      var dt := currentTime - lastTime;
      if ShouldCountTime(dt, visible, isInViewport, p) {
        var playbackRate := Min(p.playbackRate, 2.0);
        watchedTime := watchedTime + dt * Min(playbackRate, 1.0);
      }
      lastTime := currentTime;
      fired := false;
      if !completed && HasDuration(p.duration) && watchedTime >= threshold * p.duration.value {
        completed := true;
        completions := completions + 1;
        fired := true;
      }
    }

    method GetProgress(duration: Option<real>) returns (r: Progress)
      ensures r == Snapshot(State(), duration)
    {
      var completion := if HasDuration(duration) then watchedTime / duration.value else 0.0;
      r := Progress(watchedTime, duration, completion, completed);
    }
  }
}
