/** The Coursera adapter of the content script: reading a transcript
    line's time, highlighting the line being spoken, and finding the way to
    the next lecture. DOM elements are records of the attributes and texts
    the adapter reads, and each `querySelector` is the element it returns. */
module Coursera {
  import opened Wrappers
  import opened Strings
  import ContentCommon

  // ---------------------------------------------------------------------
  // Transcript timestamps

  /** The descendant `querySelector('[data-timestamp], .timestamp, .time')` finds. */
  datatype TimedChild = TimedChild(dataTimestamp: Option<string>, text: string)

  /** A transcript line. */
  datatype TranscriptElement = TranscriptElement(
    dataTimestamp: Option<string>,
    dataStart: Option<string>,
    dataTime: Option<string>,
    text: string,
    timedChild: Option<TimedChild>)

  /** What `extractTimestamp` returns: `null`, `NaN` or a number of seconds. */
  datatype Timestamp = NoTimestamp | NotANumber | Seconds(seconds: real)

  predicate Truthy(s: Option<string>) {
    s.Some? && s.value != ""
  }

  /** The `||` chain of the three attributes. */
  function TimeAttribute(e: TranscriptElement): (r: Option<string>)
    ensures r.Some? ==> r.value != ""
    ensures Truthy(e.dataTimestamp) ==> r == e.dataTimestamp
    ensures !Truthy(e.dataTimestamp) && Truthy(e.dataStart) ==> r == e.dataStart
    ensures !Truthy(e.dataTimestamp) && !Truthy(e.dataStart) && Truthy(e.dataTime) ==> r == e.dataTime
    ensures r.None? <==> !Truthy(e.dataTimestamp) && !Truthy(e.dataStart) && !Truthy(e.dataTime)
  {
    if Truthy(e.dataTimestamp) then e.dataTimestamp
    else if Truthy(e.dataStart) then e.dataStart
    else if Truthy(e.dataTime) then e.dataTime
    else None
  }

  /** `(\d+):(\d+)` at the front of `u`: the two numbers and the length
      matched. Digit runs are matched whole, since a shorter run is never
      followed by `:` or `]`. */
  function NumberPair(u: string): (r: Option<(nat, nat, nat)>)
    ensures r.Some? ==> r.value.2 <= |u|
  {
    var d1 := DigitPrefix(u);
    if d1 == [] || |d1| >= |u| || u[|d1|] != ':' then None
    else
      var d2 := DigitPrefix(u[|d1| + 1..]);
      if d2 == [] then None
      else Some((DigitsValue(d1), DigitsValue(d2), |d1| + 1 + |d2|))
  }

  /** What `NumberPair` reads: a match is two whole digit runs around a
      `:`, spanning the reported length; there is no match exactly when no
      digit run at the front is followed by `:` and a digit. */
  lemma NumberPairSpec(u: string)
    ensures var r := NumberPair(u);
      r.Some? ==>
        var n := r.value.2;
        n <= |u| && (n == |u| || !IsDigit(u[n])) &&
        exists j :: 0 < j < n - 1 && AllDigits(u[..j]) && u[j] == ':' && AllDigits(u[j + 1..n]) &&
                    DigitsValue(u[..j]) == r.value.0 && DigitsValue(u[j + 1..n]) == r.value.1
    ensures NumberPair(u).None? <==>
      forall j :: 0 < j < |u| - 1 && AllDigits(u[..j]) && u[j] == ':' ==> !IsDigit(u[j + 1])
  {
    ColonEndsRun(u);
    var d1 := DigitPrefix(u);
    if d1 == [] || |d1| >= |u| || u[|d1|] != ':' {
    } else {
      var j := |d1|;
      var d2 := DigitPrefix(u[j + 1..]);
      assert d2 == u[j + 1..j + 1 + |d2|];
      if d2 == [] {
        assert j + 1 < |u| ==> u[j + 1..][0] == u[j + 1];
      } else {
        assert u[..j] == d1;
      }
    }
  }

  /** A run of digits followed by `:` is the whole digit prefix. */
  lemma ColonEndsRun(u: string)
    ensures forall j :: 0 < j < |u| && AllDigits(u[..j]) && u[j] == ':' ==> DigitPrefix(u) == u[..j]
  {
    forall j | 0 < j < |u| && AllDigits(u[..j]) && u[j] == ':'
      ensures DigitPrefix(u) == u[..j]
    {
      assert u[..j] + u[j..] == u;
      DigitPrefixOf(u[..j], u[j..]);
    }
  }

  lemma NumberPairOf(m: string, sec: string, rest: string, u: string)
    requires m != [] && sec != [] && AllDigits(m) && AllDigits(sec)
    requires rest == [] || !IsDigit(rest[0])
    requires u == m + ([':'] + (sec + rest))
    ensures NumberPair(u).Some?
    ensures NumberPair(u).value.0 == DigitsValue(m)
    ensures NumberPair(u).value.1 == DigitsValue(sec)
    ensures NumberPair(u).value.2 == |m| + 1 + |sec|
  {
    var v := sec + rest;
    var t := [':'] + v;
    DigitPrefixOf(m, t);
    assert u[|m|] == ':';
    assert u[|m| + 1..] == v;
    DigitPrefixOf(sec, rest);
  }

  /** The pattern `(\d+):(\d+)` (or, `bracketed`, `\[(\d+):(\d+)\]`)
      starting at index `i`, giving its two numbers. */
  function ClockAt(s: string, i: nat, bracketed: bool): Option<(nat, nat)>
    requires i <= |s|
  {
    if !bracketed then
      var p := NumberPair(s[i..]);
      if p.Some? then Some((p.value.0, p.value.1)) else None
    else if i < |s| && s[i] == '[' then
      var p := NumberPair(s[i + 1..]);
      if p.Some? && i + 1 + p.value.2 < |s| && s[i + 1 + p.value.2] == ']' then Some((p.value.0, p.value.1))
      else None
    else None
  }

  /** Where the leftmost match of a clock pattern starts, or `|s|`. */
  function FirstClockAt(s: string, bracketed: bool, from: nat): (k: nat)
    requires from <= |s|
    ensures from <= k <= |s|
    ensures k < |s| ==> ClockAt(s, k, bracketed).Some?
    ensures forall j :: from <= j < k ==> ClockAt(s, j, bracketed).None?
    decreases |s| - from
  {
    if from == |s| then from
    else if ClockAt(s, from, bracketed).Some? then from
    else FirstClockAt(s, bracketed, from + 1)
  }

  /** `s.match(...)` for one of the two clock patterns: its two numbers. */
  function FirstClock(s: string, bracketed: bool): Option<(nat, nat)> {
    var k := FirstClockAt(s, bracketed, 0);
    if k < |s| then ClockAt(s, k, bracketed) else None
  }

  function Minutes(m: (nat, nat)): real {
    (m.0 * 60 + m.1) as real
  }

  function FromFloat(x: Option<real>): Timestamp {
    if x.Some? then Seconds(x.value) else NotANumber
  }

  /** `extractTimestamp`: an attribute first, then a bracketed `[m:s]` in
      the text, then the timed child's `m:s` or number, else none. A line
      with a time attribute always has a timestamp (possibly `NaN`), and a
      bracketed clock gives a non-negative time. */
  function ExtractTimestamp(e: TranscriptElement): (r: Timestamp)
    ensures TimeAttribute(e).Some? ==> r != NoTimestamp
    ensures TimeAttribute(e).None? && FirstClock(e.text, true).Some? ==> r.Seconds? && r.seconds >= 0.0
  {
    var attr := TimeAttribute(e);
    if attr.Some? then FromFloat(ParseFloat(attr.value))
    else
      var bracketed := FirstClock(e.text, true);
      if bracketed.Some? then Seconds(Minutes(bracketed.value))
      else if e.timedChild.Some? && ChildTime(e.timedChild.value) != "" then
        ChildTimestamp(ChildTime(e.timedChild.value))
      else NoTimestamp
  }

  /** The timed child's time: its first `m:s`, else `parseFloat` of it. */
  function ChildTimestamp(time: string): (r: Timestamp)
    ensures r != NoTimestamp
  {
    var clock := FirstClock(time, false);
    if clock.Some? then Seconds(Minutes(clock.value)) else FromFloat(ParseFloat(time))
  }

  /** Where a line's time comes from: a present attribute wins over the
      text, a bracketed time in the text over the timed child, and a line
      has no time exactly when none of the three sources gives one. */
  lemma TimestampSources(e: TranscriptElement)
    ensures TimeAttribute(e).Some? ==> ExtractTimestamp(e) == FromFloat(ParseFloat(TimeAttribute(e).value))
    ensures TimeAttribute(e).None? && FirstClock(e.text, true).Some? ==>
              ExtractTimestamp(e) == Seconds(Minutes(FirstClock(e.text, true).value))
    ensures ExtractTimestamp(e) == NoTimestamp <==>
              TimeAttribute(e).None? && FirstClock(e.text, true).None? &&
              (e.timedChild.None? || ChildTime(e.timedChild.value) == "")
  {
  }

  /** `timeElement.getAttribute('data-timestamp') || timeElement.textContent`. */
  function ChildTime(c: TimedChild): string {
    if Truthy(c.dataTimestamp) then c.dataTimestamp.value else c.text
  }

  /** `[m:s]` at the start of a line's text is read as `m * 60 + s` seconds. */
  lemma BracketedClockAtStart(m: string, sec: string, rest: string)
    requires m != [] && sec != [] && AllDigits(m) && AllDigits(sec)
    ensures FirstClock("[" + m + ":" + sec + "]" + rest, true) == Some((DigitsValue(m), DigitsValue(sec)))
  {
    var text := "[" + m + ":" + sec + "]" + rest;
    assert text[1..] == m + ([':'] + (sec + ("]" + rest)));
    NumberPairOf(m, sec, "]" + rest, text[1..]);
    assert text[1 + |m| + 1 + |sec|] == ']';
    assert ClockAt(text, 0, true) == Some((DigitsValue(m), DigitsValue(sec)));
  }

  /** Without an attribute or a bracketed time, a timed child whose time
      starts with `m:s` is read as `m * 60 + s` seconds. */
  lemma ChildClockAtStart(e: TranscriptElement, m: string, sec: string, rest: string)
    requires TimeAttribute(e).None? && FirstClock(e.text, true).None?
    requires m != [] && sec != [] && AllDigits(m) && AllDigits(sec)
    requires rest == [] || !IsDigit(rest[0])
    requires e.timedChild.Some? && ChildTime(e.timedChild.value) == m + ":" + sec + rest
    ensures ExtractTimestamp(e) == Seconds((DigitsValue(m) * 60 + DigitsValue(sec)) as real)
  {
    LeadingClock(m, sec, rest);
    assert ExtractTimestamp(e) == ChildTimestamp(m + ":" + sec + rest);
  }

  /** `(\d+):(\d+)` matches at the front of `m:s...`. */
  lemma LeadingClock(m: string, sec: string, rest: string)
    requires m != [] && sec != [] && AllDigits(m) && AllDigits(sec)
    requires rest == [] || !IsDigit(rest[0])
    ensures FirstClock(m + ":" + sec + rest, false) == Some((DigitsValue(m), DigitsValue(sec)))
  {
    var t := m + ":" + sec + rest;
    ClockText(m, sec, rest);
    NumberPairOf(m, sec, rest, t);
    assert ClockAt(t, 0, false) == Some((DigitsValue(m), DigitsValue(sec)));
  }

  lemma ClockText(m: string, sec: string, rest: string)
    ensures m + ":" + sec + rest == m + ([':'] + (sec + rest))
    ensures (m + ":" + sec + rest)[0..] == m + ":" + sec + rest
  {
  }

  /** Without an attribute or a bracketed time, a timed child whose time is
      a plain number has no `m:s` and is read by `parseFloat`. */
  lemma ChildNumber(e: TranscriptElement, w: string)
    requires TimeAttribute(e).None? && FirstClock(e.text, true).None?
    requires w != [] && AllDigits(w)
    requires e.timedChild.Some? && ChildTime(e.timedChild.value) == w
    ensures ExtractTimestamp(e) == Seconds(DigitsValue(w) as real)
  {
    forall k | 0 <= k <= |w| ensures ClockAt(w, k, false).None? {
      var u := w[k..];
      NumberPairSpec(u);
      assert forall j :: 0 <= j < |u| ==> IsDigit(u[j]) by {
        forall j | 0 <= j < |u| ensures IsDigit(u[j]) { assert u[j] == w[k + j]; }
      }
    }
    assert FirstClock(w, false).None?;
  }

  /** A line labelled with the content script's `m:ss` of a second count,
      in brackets, is read back as that second count. */
  lemma FormattedLabelReadsBack(n: nat, rest: string)
    ensures ExtractTimestamp(TranscriptElement(None, None, None, "[" + ContentCommon.Clock(n) + "]" + rest, None))
            == Seconds(n as real)
  {
    var mins := NatToString(n / 60);
    var secs := PadStart2(NatToString(n % 60));
    PadStart2Value(n % 60);
    var text := "[" + ContentCommon.Clock(n) + "]" + rest;
    assert text == "[" + mins + ":" + secs + "]" + rest;
    BracketedClockAtStart(mins, secs, rest);
    BracketedLineTime(text, (n / 60, n % 60));
    assert Minutes((n / 60, n % 60)) == n as real;
  }

  /** A line with nothing but its text takes the bracketed time in it. */
  lemma BracketedLineTime(text: string, clock: (nat, nat))
    requires FirstClock(text, true) == Some(clock)
    ensures ExtractTimestamp(TranscriptElement(None, None, None, text, None)) == Seconds(Minutes(clock))
  {
    assert TimeAttribute(TranscriptElement(None, None, None, text, None)).None?;
  }

  // ---------------------------------------------------------------------
  // Transcript highlight

  /** A line close enough to the playback position to be the spoken one. */
  predicate Near(t: Timestamp, currentTime: real) {
    t.Seconds? && (if t.seconds >= currentTime then t.seconds - currentTime else currentTime - t.seconds) < 2.0
  }

  /** Each line's `extractTimestamp`. */
  function Timestamps(lines: seq<TranscriptElement>): (times: seq<Timestamp>)
    ensures |times| == |lines|
  {
    seq(|lines|, i requires 0 <= i < |lines| => ExtractTimestamp(lines[i]))
  }

  /** The first time near the playback position, or `|times|`. */
  function FirstNear(times: seq<Timestamp>, currentTime: real): (k: nat)
    ensures k <= |times|
    ensures k < |times| ==> Near(times[k], currentTime)
    ensures forall j :: 0 <= j < k ==> !Near(times[j], currentTime)
    decreases |times|
  {
    if times == [] then 0
    else if Near(times[0], currentTime) then 0
    else
      var k := FirstNear(times[1..], currentTime);
      assert forall j :: 1 <= j < |times| ==> times[j] == times[1..][j - 1];
      1 + k
  }

  /** The highlight state after a sync: a line with no timestamp keeps its
      state; of the others, only the first near one is highlighted. */
  function Highlighted(before: seq<bool>, times: seq<Timestamp>, currentTime: real): (after: seq<bool>)
    requires |before| == |times|
    ensures |after| == |times|
    ensures forall i :: 0 <= i < |times| && times[i] == NoTimestamp ==> after[i] == before[i]
    ensures forall i :: 0 <= i < |times| && times[i] != NoTimestamp ==>
              (after[i] <==> i == FirstNear(times, currentTime))
  {
    seq(|times|, i requires 0 <= i < |times| =>
      if times[i] == NoTimestamp then before[i] else i == FirstNear(times, currentTime))
  }

  /** At most one timed line is highlighted, and it is near the playback
      position; if any line is near, one is highlighted. */
  lemma SingleActiveLine(before: seq<bool>, times: seq<Timestamp>, currentTime: real)
    requires |before| == |times|
    ensures var after := Highlighted(before, times, currentTime);
      (forall i, j :: 0 <= i < |times| && 0 <= j < |times| &&
         times[i] != NoTimestamp && times[j] != NoTimestamp && after[i] && after[j]
         ==> i == j) &&
      (forall i :: 0 <= i < |times| && times[i] != NoTimestamp && after[i] ==> Near(times[i], currentTime)) &&
      ((exists i :: 0 <= i < |times| && Near(times[i], currentTime)) ==>
         exists i :: 0 <= i < |times| && after[i] && Near(times[i], currentTime))
  {
    var k := FirstNear(times, currentTime);
    if exists i :: 0 <= i < |times| && Near(times[i], currentTime) {
      var i :| 0 <= i < |times| && Near(times[i], currentTime);
      assert k <= i;
      assert k < |times|;
    }
  }

  /** `syncTranscriptHighlight` over the lines' `la-active-transcript`
      class flags; each line's timestamp is read once, as the source's
      loop does, before the loop rather than inside it. */
  method SyncTranscriptHighlight(lines: seq<TranscriptElement>, active: array<bool>, currentTime: real)
    requires active.Length == |lines|
    modifies active
    ensures active[..] == Highlighted(old(active[..]), Timestamps(lines), currentTime)
  {
    HighlightLines(Timestamps(lines), active, currentTime);
  }

  /** The loop of `syncTranscriptHighlight`, given the lines' timestamps. */
  method HighlightLines(times: seq<Timestamp>, active: array<bool>, currentTime: real)
    requires active.Length == |times|
    modifies active
    ensures active[..] == Highlighted(old(active[..]), times, currentTime)
  {
    ghost var before := active[..];
    ghost var first := FirstNear(times, currentTime);
    var activeFound := false;
    var i := 0;
    while i < |times|
      invariant 0 <= i <= |times|
      invariant activeFound <==> first < i
      invariant forall j :: i <= j < |times| ==> active[j] == before[j]
      invariant forall j :: 0 <= j < i ==> active[j] == if times[j] == NoTimestamp then before[j] else j == first
    {
      var timestamp := times[i];
      if timestamp != NoTimestamp {
        var isActive := Near(timestamp, currentTime) && !activeFound;
        assert isActive <==> i == first;
        if isActive {
          active[i] := true;
          activeFound := true;
        } else {
          active[i] := false;
        }
      }
      i := i + 1;
    }
    assert active[..] == Highlighted(before, times, currentTime);
  }

  // ---------------------------------------------------------------------
  // Navigation

  /** An element as `isLectureLink` sees it; `href` and `aria-label` are
      `None` when absent. */
  datatype Element = Element(href: Option<string>, text: string, ariaLabel: Option<string>, hasLectureId: bool)

  /** `isLectureLink`. */
  predicate IsLectureLink(e: Element) {
    var href := if e.href.Some? then e.href.value else "";
    var text := ToLower(e.text);
    var ariaLabel := if e.ariaLabel.Some? then e.ariaLabel.value else "";
    Includes(href, "/lecture/") || Includes(href, "/learn/") ||
    Includes(text, "lecture") || Includes(text, "video") ||
    Includes(ariaLabel, "lecture") || e.hasLectureId
  }

  /** An element is a lecture link exactly when its `href` contains
      `/lecture/` or `/learn/`, its lower-cased text contains `lecture` or
      `video`, its `aria-label` contains `lecture`, or it carries
      `data-lecture-id`; a missing attribute matches nothing. */
  lemma LectureLinkSpec(e: Element)
    ensures IsLectureLink(e) <==>
      (e.href.Some? && ((exists i :: OccursAt(e.href.value, "/lecture/", i)) ||
                        (exists i :: OccursAt(e.href.value, "/learn/", i)))) ||
      (exists i :: OccursAt(ToLower(e.text), "lecture", i)) ||
      (exists i :: OccursAt(ToLower(e.text), "video", i)) ||
      (e.ariaLabel.Some? && exists i :: OccursAt(e.ariaLabel.value, "lecture", i)) ||
      e.hasLectureId
  {
    var href := if e.href.Some? then e.href.value else "";
    var ariaLabel := if e.ariaLabel.Some? then e.ariaLabel.value else "";
    IncludesSpec(href, "/lecture/");
    IncludesSpec(href, "/learn/");
    IncludesSpec(ToLower(e.text), "lecture");
    IncludesSpec(ToLower(e.text), "video");
    IncludesSpec(ariaLabel, "lecture");
  }

  /** The text test is case-insensitive: two elements that differ only in
      the case of their text get the same verdict. */
  lemma LectureLinkIgnoresCase(e1: Element, e2: Element)
    requires ToLower(e1.text) == ToLower(e2.text)
    requires e1.href == e2.href && e1.ariaLabel == e2.ariaLabel && e1.hasLectureId == e2.hasLectureId
    ensures IsLectureLink(e1) == IsLectureLink(e2)
  {
  }

  /** An upper-case "VIDEO" in the text is enough. */
  lemma UpperCaseVideoIsLectureLink()
    ensures IsLectureLink(Element(None, "VIDEO", None, false))
  {
    assert ToLower("VIDEO") == "video";
  }

  /** A sibling of the current lecture, and the first `a` or `button` in it. */
  datatype MenuNode = MenuNode(element: Element, firstLink: Option<Element>)

  /** Where the current lecture sits in the outline: its following
      siblings, and the section after its enclosing week, module or
      section (`None` when there is no such section). */
  datatype MenuContext = MenuContext(following: seq<MenuNode>, nextSection: Option<MenuNode>)

  /** What `findNextLectureInMenu` returns. */
  datatype Pick = Sibling(index: nat) | InsideSibling(index: nat) | NextSection | NoPick

  predicate FirstLinkIsLecture(n: MenuNode) {
    n.firstLink.Some? && IsLectureLink(n.firstLink.value)
  }

  predicate SiblingHit(n: MenuNode) {
    IsLectureLink(n.element) || FirstLinkIsLecture(n)
  }

  /** The first following sibling that is, or holds first, a lecture link;
      failing that, the next section's first link if it is one. */
  function NextInMenu(ctx: MenuContext): (p: Pick)
    ensures p.Sibling? ==> p.index < |ctx.following| && IsLectureLink(ctx.following[p.index].element)
    ensures p.InsideSibling? ==> p.index < |ctx.following| && !IsLectureLink(ctx.following[p.index].element) &&
                                 FirstLinkIsLecture(ctx.following[p.index])
    ensures (p.Sibling? || p.InsideSibling?) ==> forall j :: 0 <= j < p.index ==> !SiblingHit(ctx.following[j])
    ensures (p.NextSection? || p.NoPick?) ==> forall j :: 0 <= j < |ctx.following| ==> !SiblingHit(ctx.following[j])
    ensures p.NextSection? <==> (forall j :: 0 <= j < |ctx.following| ==> !SiblingHit(ctx.following[j])) &&
                                ctx.nextSection.Some? && FirstLinkIsLecture(ctx.nextSection.value)
  {
    var k := FirstHit(ctx.following, 0);
    if k < |ctx.following| then
      if IsLectureLink(ctx.following[k].element) then Sibling(k) else InsideSibling(k)
    else if ctx.nextSection.Some? && FirstLinkIsLecture(ctx.nextSection.value) then NextSection
    else NoPick
  }

  function FirstHit(nodes: seq<MenuNode>, from: nat): (k: nat)
    requires from <= |nodes|
    ensures from <= k <= |nodes|
    ensures k < |nodes| ==> SiblingHit(nodes[k])
    ensures forall j :: from <= j < k ==> !SiblingHit(nodes[j])
    decreases |nodes| - from
  {
    if from == |nodes| then from
    else if SiblingHit(nodes[from]) then from
    else FirstHit(nodes, from + 1)
  }

  /** `findNextLectureInMenu`: the `while` walk over the siblings, then the
      next section. */
  method FindNextLectureInMenu(ctx: MenuContext) returns (p: Pick)
    ensures p == NextInMenu(ctx)
  {
    var next := 0;
    while next < |ctx.following|
      invariant 0 <= next <= |ctx.following|
      invariant forall j :: 0 <= j < next ==> !SiblingHit(ctx.following[j])
      invariant FirstHit(ctx.following, 0) >= next
    {
      var node := ctx.following[next];
      if IsLectureLink(node.element) {
        return Sibling(next);
      }
      var lectureLink := node.firstLink;
      if lectureLink.Some? && IsLectureLink(lectureLink.value) {
        return InsideSibling(next);
      }
      next := next + 1;
    }
    if ctx.nextSection.Some? {
      var firstLecture := ctx.nextSection.value.firstLink;
      if firstLecture.Some? && IsLectureLink(firstLecture.value) {
        return NextSection;
      }
    }
    return NoPick;
  }

  /** What one menu selector finds: nothing, a menu without a current
      lecture, or the current lecture's place in the menu. */
  datatype MenuProbe = NoMenu | NoCurrentLecture | CurrentAt(ctx: MenuContext)

  predicate MenuLeads(m: MenuProbe) {
    m.CurrentAt? && NextInMenu(m.ctx) != NoPick
  }

  /** The outcome of the navigation. */
  datatype Nav = ClickButton(selector: nat) | ClickInMenu(menu: nat, pick: Pick) | ShowGuidance

  /** The first menu, in selector order, that leads to a next lecture. */
  function ViaMenu(menus: seq<MenuProbe>): (r: Nav)
    ensures r.ClickInMenu? ==> r.menu < |menus| && MenuLeads(menus[r.menu])
    ensures r.ClickInMenu? ==> r.pick == NextInMenu(menus[r.menu].ctx)
    ensures r.ClickInMenu? ==> forall j :: 0 <= j < r.menu ==> !MenuLeads(menus[j])
    ensures r == ShowGuidance <==> forall j :: 0 <= j < |menus| ==> !MenuLeads(menus[j])
    ensures !r.ClickButton?
    decreases |menus|
  {
    if menus == [] then ShowGuidance
    else if MenuLeads(menus[0]) then ClickInMenu(0, NextInMenu(menus[0].ctx))
    else
      var r := ViaMenu(menus[1..]);
      assert forall j :: 1 <= j < |menus| ==> menus[j] == menus[1..][j - 1];
      if r.ClickInMenu? then ClickInMenu(r.menu + 1, r.pick) else r
  }

  /** `navigateViaMenu` over what its four selectors find. */
  method NavigateViaMenu(menus: seq<MenuProbe>) returns (r: Nav)
    ensures r == ViaMenu(menus)
  {
    var i := 0;
    while i < |menus|
      invariant 0 <= i <= |menus|
      invariant forall j :: 0 <= j < i ==> !MenuLeads(menus[j])
    {
      var menu := menus[i];
      if menu.CurrentAt? {
        var nextLecture := FindNextLectureInMenu(menu.ctx);
        if nextLecture != NoPick {
          MenuChoice(menus, i);
          return ClickInMenu(i, nextLecture);
        }
      }
      i := i + 1;
    }
    return ShowGuidance;
  }

  /** The first leading menu is the one `ViaMenu` picks. */
  lemma {:induction false} MenuChoice(menus: seq<MenuProbe>, i: nat)
    requires i < |menus| && MenuLeads(menus[i])
    requires forall j :: 0 <= j < i ==> !MenuLeads(menus[j])
    ensures ViaMenu(menus) == ClickInMenu(i, NextInMenu(menus[i].ctx))
  {
    var r := ViaMenu(menus);
    assert r != ShowGuidance;
    assert r.ClickInMenu?;
    assert !(r.menu < i) && !(i < r.menu);
  }

  /** A button `querySelector` found: present and enabled or disabled. */
  datatype Button = Button(disabled: bool)

  predicate Clickable(b: Option<Button>) {
    b.Some? && !b.value.disabled
  }

  /** The enabled next button of the first selector that has one, else
      the menu. */
  function NextChoice(buttons: seq<Option<Button>>, menus: seq<MenuProbe>): (r: Nav)
    ensures r.ClickButton? ==> r.selector < |buttons| && Clickable(buttons[r.selector])
    ensures r.ClickButton? ==> forall j :: 0 <= j < r.selector ==> !Clickable(buttons[j])
    ensures !r.ClickButton? <==> forall j :: 0 <= j < |buttons| ==> !Clickable(buttons[j])
    ensures !r.ClickButton? ==> r == ViaMenu(menus)
    decreases |buttons|
  {
    if buttons == [] then ViaMenu(menus)
    else if Clickable(buttons[0]) then ClickButton(0)
    else
      var r := NextChoice(buttons[1..], menus);
      assert forall j :: 1 <= j < |buttons| ==> buttons[j] == buttons[1..][j - 1];
      if r.ClickButton? then ClickButton(r.selector + 1) else r
  }

  /** `navigateToNext`: what each of the next-lecture selectors finds, in
      order, and the menus for the fallback. */
  method NavigateToNext(buttons: seq<Option<Button>>, menus: seq<MenuProbe>) returns (r: Nav)
    ensures r == NextChoice(buttons, menus)
  {
    var i := 0;
    while i < |buttons|
      invariant 0 <= i <= |buttons|
      invariant forall j :: 0 <= j < i ==> !Clickable(buttons[j])
    {
      var button := buttons[i];
      if button.Some? && !button.value.disabled {
        ButtonChoice(buttons, menus, i);
        return ClickButton(i);
      }
      i := i + 1;
    }
    r := NavigateViaMenu(menus);
  }

  lemma ButtonChoice(buttons: seq<Option<Button>>, menus: seq<MenuProbe>, i: nat)
    requires i < |buttons| && Clickable(buttons[i])
    requires forall j :: 0 <= j < i ==> !Clickable(buttons[j])
    ensures NextChoice(buttons, menus) == ClickButton(i)
  {
    var r := NextChoice(buttons, menus);
    assert r.ClickButton?;
    assert !(r.selector < i) && !(i < r.selector);
  }
}
