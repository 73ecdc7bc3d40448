/** The quiz generator: it cuts a transcript into sentences at runs of
    `.`, `!` and `?`, keeps those longer than ten characters once trimmed,
    and turns each of the first `numQuestions` of them that has more than
    five words into a cloze question on its middle word. */
module QuizGenerator {
  import opened Wrappers
  import opened Strings

  const DefaultNumQuestions := 5
  const Blank := "____"

  predicate IsTerminator(c: char) {
    c == '.' || c == '!' || c == '?'
  }

  predicate NoTerminator(s: string) {
    forall i :: 0 <= i < |s| ==> !IsTerminator(s[i])
  }

  /** `s` without its leading run of terminators. */
  function DropTerminators(s: string): (r: string)
    ensures |r| <= |s| && r == s[|s| - |r|..]
    ensures r == [] || !IsTerminator(r[0])
    ensures forall i :: 0 <= i < |s| - |r| ==> IsTerminator(s[i])
    decreases |s|
  {
    if s != [] && IsTerminator(s[0]) then
      var r := DropTerminators(s[1..]);
      assert forall i :: 1 <= i < |s| - |r| ==> s[i] == s[1..][i - 1];
      r
    else s
  }

  /** `s.split(/[.!?]+/)`: the pieces between the runs of terminators,
      with an empty piece before a leading run and after a trailing one. */
  function SplitSentences(s: string): (parts: seq<string>)
    ensures |parts| >= 1
    ensures forall k :: 0 <= k < |parts| ==> NoTerminator(parts[k])
    decreases |s|
  {
    if s == [] then [""]
    else if IsTerminator(s[0]) then [""] + SplitSentences(DropTerminators(s))
    else
      var rest := SplitSentences(s[1..]);
      var first := [s[0]] + rest[0];
      assert NoTerminator(first) by {
        forall i | 1 <= i < |first| ensures first[i] == rest[0][i - 1] { }
      }
      [first] + rest[1..]
  }

  lemma {:induction false} SplitSentencesOfPiece(p: string)
    requires NoTerminator(p)
    ensures SplitSentences(p) == [p]
    decreases |p|
  {
    if p != [] {
      SplitSentencesOfPiece(p[1..]);
      assert [p[0]] + p[1..] == p;
    }
  }

  /** Splitting a text that starts with a terminator-free piece. */
  lemma {:induction false} SplitSentencesConcat(p: string, t: string)
    requires NoTerminator(p)
    ensures SplitSentences(p + t) ==
            [p + SplitSentences(t)[0]] + SplitSentences(t)[1..]
    decreases |p|
  {
    var q := SplitSentences(t);
    if p == [] {
      assert p + t == t;
      assert p + q[0] == q[0];
      assert q == [q[0]] + q[1..];
    } else {
      var s := p + t;
      assert s[0] == p[0] && !IsTerminator(s[0]);
      assert s[1..] == p[1..] + t;
      SplitSentencesConcat(p[1..], t);
      var rest := SplitSentences(s[1..]);
      assert rest == [p[1..] + q[0]] + q[1..];
      assert SplitSentences(s) == [[s[0]] + rest[0]] + rest[1..];
      assert [p[0]] + (p[1..] + q[0]) == p + q[0];
    }
  }

  function JoinWith(parts: seq<string>, sep: string): string
    decreases |parts|
  {
    if |parts| <= 1 then (if parts == [] then "" else parts[0])
    else parts[0] + sep + JoinWith(parts[1..], sep)
  }

  lemma JoinWithStep(parts: seq<string>, sep: string)
    requires |parts| >= 2
    ensures JoinWith(parts, sep) == parts[0] + (sep + JoinWith(parts[1..], sep))
  {
  }

  /** Pieces free of terminators, glued with any non-empty run of
      terminators, split back into the same pieces. */
  lemma {:induction false} SplitSentencesJoin(parts: seq<string>, sep: string)
    requires |parts| >= 1 && sep != [] && forall i :: 0 <= i < |sep| ==> IsTerminator(sep[i])
    requires forall k :: 0 <= k < |parts| ==> NoTerminator(parts[k])
    requires forall k :: 0 < k < |parts| - 1 ==> parts[k] != []
    ensures SplitSentences(JoinWith(parts, sep)) == parts
    decreases |parts|
  {
    if |parts| == 1 {
      SplitSentencesOfPiece(parts[0]);
    } else {
      var tail := JoinWith(parts[1..], sep);
      var t := sep + tail;
      JoinWithStep(parts, sep);
      SplitSentencesConcat(parts[0], t);
      SplitSentencesJoin(parts[1..], sep);
      assert tail == [] || !IsTerminator(tail[0]) by {
        if |parts| > 2 {
          JoinWithStep(parts[1..], sep);
          assert parts[1..][1..] == parts[2..];
          assert tail[0] == parts[1][0];
        }
      }
      SplitAfterRun(sep, tail);
      assert parts[0] + "" == parts[0];
      assert parts == [parts[0]] + parts[1..];
    }
  }

  /** A non-empty run of terminators in front of a text that does not start
      with one splits off one empty piece. */
  lemma SplitAfterRun(run: string, t: string)
    requires run != [] && forall i :: 0 <= i < |run| ==> IsTerminator(run[i])
    requires t == [] || !IsTerminator(t[0])
    ensures SplitSentences(run + t) == [""] + SplitSentences(t)
  {
    DropRunOf(run, t);
    assert (run + t)[0] == run[0];
  }

  /** Dropping a run of terminators in front of a text that does not start
      with one leaves that text. */
  lemma {:induction false} DropRunOf(run: string, t: string)
    requires forall i :: 0 <= i < |run| ==> IsTerminator(run[i])
    requires t == [] || !IsTerminator(t[0])
    ensures DropTerminators(run + t) == t
    decreases |run|
  {
    if run != [] {
      assert (run + t)[1..] == run[1..] + t;
      DropRunOf(run[1..], t);
    } else {
      assert run + t == t;
    }
  }

  /** The sentences the generator works from, untrimmed. */
  function Kept(parts: seq<string>): (r: seq<string>)
    ensures |r| <= |parts|
    decreases |parts|
  {
    if parts == [] then []
    else
      var last := parts[|parts| - 1];
      Kept(parts[..|parts| - 1]) + (if |Trim(last)| > 10 then [last] else [])
  }

  /** `filter(s => s.trim().length > 10)` keeps exactly the pieces longer
      than ten characters once trimmed. */
  lemma {:induction false} KeptSpec(parts: seq<string>)
    ensures forall k :: 0 <= k < |Kept(parts)| ==> |Trim(Kept(parts)[k])| > 10 && Kept(parts)[k] in parts
    ensures forall k :: 0 <= k < |parts| && |Trim(parts[k])| > 10 ==> parts[k] in Kept(parts)
    decreases |parts|
  {
    if parts != [] {
      var front := parts[..|parts| - 1];
      var last := parts[|parts| - 1];
      assert parts == front + [last];
      KeptSpec(front);
      var r := Kept(parts);
      var kf := Kept(front);
      assert r == kf + (if |Trim(last)| > 10 then [last] else []);
      forall k | 0 <= k < |r| ensures |Trim(r[k])| > 10 && r[k] in parts {
        if k < |kf| {
          assert r[k] == kf[k];
        }
      }
      forall k | 0 <= k < |parts| && |Trim(parts[k])| > 10 ensures parts[k] in r {
        if k < |front| {
          assert parts[k] == front[k];
        }
      }
    }
  }

  /** One more piece is kept exactly when its trimmed length exceeds 10. */
  lemma KeptSnoc(p: seq<string>, x: string)
    ensures Kept(p + [x]) == Kept(p) + (if |Trim(x)| > 10 then [x] else [])
  {
    var q := p + [x];
    assert q[..|q| - 1] == p;
    assert q[|q| - 1] == x;
  }

  lemma AppendEmpty<T>(a: seq<T>)
    ensures a + [] == a
  {
  }

  lemma FrontLast<T>(b: seq<T>)
    requires b != []
    ensures b[..|b| - 1] + [b[|b| - 1]] == b
  {
  }

  lemma Associative<T>(a: seq<T>, b: seq<T>, c: seq<T>)
    ensures a + (b + c) == (a + b) + c
  {
  }

  /** The filter keeps order and multiplicity: filtering a concatenation
      is concatenating the filtered parts. */
  lemma {:induction false} KeptAppend(a: seq<string>, b: seq<string>)
    ensures Kept(a + b) == Kept(a) + Kept(b)
    decreases |b|
  {
    if b == [] {
      AppendEmpty(a);
    } else {
      var front := b[..|b| - 1];
      KeptAppend(a, front);
      KeptAppendStep(a, front, b[|b| - 1]);
      FrontLast(b);
    }
  }

  /** The inductive step of `KeptAppend`: appending one piece to `b`. */
  lemma KeptAppendStep(a: seq<string>, b: seq<string>, x: string)
    requires Kept(a + b) == Kept(a) + Kept(b)
    ensures Kept(a + (b + [x])) == Kept(a) + Kept(b + [x])
  {
    var tail := if |Trim(x)| > 10 then [x] else [];
    Associative(a, b, [x]);
    KeptSnoc(a + b, x);
    KeptSnoc(b, x);
    Associative(Kept(a), Kept(b), tail);
  }

  function Sentences(transcript: string): seq<string> {
    Kept(SplitSentences(transcript))
  }

  /** How many sentences the loop examines: `min(numQuestions, n)`, and
      none for a non-positive count. */
  function Limit(numQuestions: Option<int>, n: nat): (l: nat)
    ensures l <= n
    ensures numQuestions.None? ==> l == if n < DefaultNumQuestions then n else DefaultNumQuestions
    ensures numQuestions.Some? ==> l <= if numQuestions.value < 0 then 0 else numQuestions.value
    ensures numQuestions.Some? && 0 <= numQuestions.value <= n ==> l == numQuestions.value
    ensures numQuestions.Some? && numQuestions.value > n ==> l == n
  {
    var q := if numQuestions.Some? then numQuestions.value else DefaultNumQuestions;
    var m := if q <= n then q else n;
    if m < 0 then 0 else m
  }

  datatype Question = Question(question: string, options: seq<string>, correct: int, explanation: string)

  /** The question made from one trimmed sentence, if it has more than five
      words (words are what `split(' ')` yields, empty ones included). */
  function Cloze(sentence: string): (r: Option<Question>)
    ensures r.Some? <==> |Split(sentence, ' ')| > 5
    ensures r.Some? ==> |r.value.options| == 4 && r.value.correct == 0
  {
    var words := Split(sentence, ' ');
    if |words| > 5 then
      var k := |words| / 2;
      var keyWord := words[k];
      Some(Question(Join(words[k := Blank], " ") + "?",
                    [keyWord, "Option B", "Option C", "Option D"], 0,
                    "The correct answer is \"" + keyWord + "\""))
    else None
  }

  /** A sentence of more than five words, and only such a one, gives a
      four-option question whose first, correct option is its middle word. */
  lemma ClozeShape(sentence: string)
    ensures Cloze(sentence).None? <==> |Split(sentence, ' ')| <= 5
    ensures Cloze(sentence).Some? ==>
      var r := Cloze(sentence).value;
      var words := Split(sentence, ' ');
      |r.options| == 4 && r.correct == 0 &&
      r.options[0] == words[|words| / 2] &&
      r.options[1..] == ["Option B", "Option C", "Option D"] &&
      r.explanation == "The correct answer is \"" + words[|words| / 2] + "\"" &&
      r.question != [] && r.question[|r.question| - 1] == '?'
  {
  }

  /** The values `f` gives for the elements of `xs` that have one, in
      order. */
  function FilterMap<A, B>(f: A -> Option<B>, xs: seq<A>): (ys: seq<B>)
    ensures |ys| <= |xs|
    decreases |xs|
  {
    if xs == [] then []
    else
      var y := f(xs[|xs| - 1]);
      FilterMap(f, xs[..|xs| - 1]) + (if y.Some? then [y.value] else [])
  }

  lemma FilterMapStep<A, B>(f: A -> Option<B>, xs: seq<A>, i: nat)
    requires i < |xs|
    ensures FilterMap(f, xs[..i + 1]) ==
            FilterMap(f, xs[..i]) + (if f(xs[i]).Some? then [f(xs[i]).value] else [])
  {
    assert xs[..i + 1][..i] == xs[..i];
  }

  lemma {:induction false} FilterMapAppend<A, B>(f: A -> Option<B>, a: seq<A>, b: seq<A>)
    ensures FilterMap(f, a + b) == FilterMap(f, a) + FilterMap(f, b)
    decreases |b|
  {
    if b == [] {
      assert a + b == a;
    } else {
      var fb := b[..|b| - 1];
      assert (a + b)[..|a + b| - 1] == a + fb;
      assert (a + b)[|a + b| - 1] == b[|b| - 1];
      FilterMapAppend(f, a, fb);
    }
  }

  lemma {:induction false} FilterMapFrom<A, B>(f: A -> Option<B>, xs: seq<A>, k: nat)
    requires k < |FilterMap(f, xs)|
    ensures exists i :: 0 <= i < |xs| && f(xs[i]) == Some(FilterMap(f, xs)[k])
    decreases |xs|
  {
    var last := |xs| - 1;
    var front := xs[..last];
    var built := FilterMap(f, front);
    if k < |built| {
      FilterMapFrom(f, front, k);
      var i :| 0 <= i < |front| && f(front[i]) == Some(built[k]);
      assert xs[i] == front[i];
    }
  }

  /** `sentences[i].trim()`, then the question made from it. */
  function Examine(sentence: string): Option<Question> {
    Cloze(Trim(sentence))
  }

  /** The questions for a run of examined sentences, in order. */
  function ClozeAll(sentences: seq<string>): (qs: seq<Question>)
    ensures |qs| <= |sentences|
  {
    FilterMap(Examine, sentences)
  }

  function Quiz(transcript: string, numQuestions: Option<int>): seq<Question> {
    var s := Sentences(transcript);
    ClozeAll(s[..Limit(numQuestions, |s|)])
  }

  /** `QuizGenerator.generateQuiz`; `numQuestions` is `None` when the
      option is not given. */
  method GenerateQuiz(transcript: string, numQuestions: Option<int>) returns (questions: seq<Question>)
    ensures questions == Quiz(transcript, numQuestions)
    ensures |questions| <= Limit(numQuestions, |Sentences(transcript)|) <= |Sentences(transcript)|
  {
    var sentences := Sentences(transcript);
    var limit := Limit(numQuestions, |sentences|);
    questions := [];
    var i := 0;
    while i < limit
      invariant 0 <= i <= limit
      invariant questions == ClozeAll(sentences[..i])
    {
      ClozeAllStep(sentences, i);
      var q := MakeQuestion(Trim(sentences[i]));
      if q.Some? {
        questions := questions + [q.value];
      }
      i := i + 1;
    }
  }

  /** One pass of the loop: the cloze question for a trimmed sentence of
      more than five words. */
  method MakeQuestion(sentence: string) returns (q: Option<Question>)
    ensures q == Cloze(sentence)
  {
    var words := Split(sentence, ' ');
    if |words| > 5 {
      var keyWordIndex := |words| / 2;
      var keyWord := words[keyWordIndex];
      var question := Join(words[keyWordIndex := Blank], " ");
      q := Some(Question(question + "?", [keyWord, "Option B", "Option C", "Option D"], 0,
                         "The correct answer is \"" + keyWord + "\""));
    } else {
      q := None;
    }
  }

  /** Examining one more sentence appends its question, if it has one. */
  lemma ClozeAllStep(sentences: seq<string>, i: nat)
    requires i < |sentences|
    ensures var c := Cloze(Trim(sentences[i]));
      ClozeAll(sentences[..i + 1]) == ClozeAll(sentences[..i]) + (if c.Some? then [c.value] else [])
  {
    FilterMapStep(Examine, sentences, i);
  }

  /** Questions keep the order of their sentences. */
  lemma ClozeAllAppend(a: seq<string>, b: seq<string>)
    ensures ClozeAll(a + b) == ClozeAll(a) + ClozeAll(b)
  {
    FilterMapAppend(Examine, a, b);
  }

  /** A sentence of at most five words contributes no question: it is
      skipped, not replaced by a later one. */
  lemma {:induction false} ClozeAllCount(sentences: seq<string>)
    ensures |ClozeAll(sentences)| == |Wordy(sentences)|
    decreases |sentences|
  {
    if sentences != [] {
      ClozeAllCount(sentences[..|sentences| - 1]);
    }
  }

  /** Every question comes from one examined sentence. */
  lemma ClozeAllFrom(sentences: seq<string>, k: nat)
    requires k < |ClozeAll(sentences)|
    ensures exists i :: 0 <= i < |sentences| && Cloze(Trim(sentences[i])) == Some(ClozeAll(sentences)[k])
  {
    FilterMapFrom(Examine, sentences, k);
    var i :| 0 <= i < |sentences| && Examine(sentences[i]) == Some(ClozeAll(sentences)[k]);
  }

  /** The examined sentences that have more than five words. */
  function Wordy(sentences: seq<string>): seq<string>
    decreases |sentences|
  {
    if sentences == [] then []
    else
      var front := sentences[..|sentences| - 1];
      var last := sentences[|sentences| - 1];
      Wordy(front) + (if |Split(Trim(last), ' ')| > 5 then [last] else [])
  }

  /** Putting the answer back in the blank restores the sentence. */
  lemma ClozeRoundTrip(sentence: string)
    requires Cloze(sentence).Some?
    ensures var q := Cloze(sentence).value;
      var masked := Split(q.question[..|q.question| - 1], ' ');
      masked[|masked| / 2] == Blank &&
      Join(masked[|masked| / 2 := q.options[0]], " ") == sentence
  {
    var words := Split(sentence, ' ');
    var k := |words| / 2;
    var maskedWords := words[k := Blank];
    var q := Cloze(sentence).value;
    var text := Join(maskedWords, " ");
    assert q.question == text + "?";
    assert q.question[..|q.question| - 1] == text;
    assert forall j :: 0 <= j < |maskedWords| ==> ' ' !in maskedWords[j];
    assert " " == [' '];
    SplitJoin(maskedWords, ' ');
    assert maskedWords[k := q.options[0]] == words;
    JoinSplit(sentence, ' ');
  }
}
