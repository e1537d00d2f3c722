/**
 * The quiz session controller (src/pages/index.tsx): the `QuizState` record,
 * one update per handler, the scoring done at submission, the feedback
 * request built from the wrong answers, and the invariant every reachable
 * state keeps.
 *
 * Each `setState(prev => ...)` is a function from the previous state to the
 * next one; each asynchronous completion (quiz loaded, feedback arrived) is
 * one atomic update applied later. Timestamps are parameters.
 */
module Session {
  import opened Wrappers
  import opened QuizTypes
  import Api

  datatype QuizState = QuizState(
    screen: Screen,
    topic: string,
    questions: seq<Question>,
    currentIndex: int,
    answers: seq<Option<int>>,   // None is an unanswered (null) slot
    startTime: int,
    result: Option<QuizResult>,
    error: Option<string>,
    timerEnabled: bool,
    isLoadingFeedback: bool)

  /** initialState */
  const Initial: QuizState := QuizState(Topic, "", [], 0, [], 0, None, None, true, false)

  const GenericLoadError: string := "Failed to generate quiz. Please try again."
  const FeedbackFallback: string := "Unable to generate feedback. Great effort completing the quiz!"
  const NotAnswered: string := "Not answered"

  // ---------------------------------------------------------------------------
  // Loading a quiz

  /** The first update of handleSelectTopic: show the loading screen. Questions and any old result stay. */
  function SelectTopic(s: QuizState, topic: string, timerEnabled: bool): (r: QuizState)
    ensures r.screen == Loading && r.topic == topic && r.timerEnabled == timerEnabled && r.error == None
    ensures r.questions == s.questions && r.answers == s.answers && r.currentIndex == s.currentIndex
    ensures r.startTime == s.startTime && r.result == s.result && r.isLoadingFeedback == s.isLoadingFeedback
  {
    s.(screen := Loading, topic := topic, timerEnabled := timerEnabled, error := None)
  }

  /** handleSelectTopic after generateQuiz returned `questions`. */
  function LoadSuccess(s: QuizState, questions: seq<Question>, now: int): (r: QuizState)
    ensures r.screen == Quiz && r.questions == questions && r.currentIndex == 0 && r.startTime == now
    ensures |r.answers| == |questions| && forall k :: 0 <= k < |r.answers| ==> r.answers[k].None?
    ensures r.topic == s.topic && r.timerEnabled == s.timerEnabled && r.error == s.error
    ensures r.result == s.result && r.isLoadingFeedback == s.isLoadingFeedback
  {
    s.(screen := Quiz, questions := questions, answers := seq(|questions|, _ => None),
       startTime := now, currentIndex := 0)
  }

  /** handleSelectTopic after generateQuiz threw `e`: back to the topic screen with a message. */
  function LoadFailure(s: QuizState, e: Api.Thrown): (r: QuizState)
    ensures r.screen == Topic
    ensures Api.IsAPIError(e) ==> r.error == Some(e.message)
    ensures !Api.IsAPIError(e) ==> r.error == Some(GenericLoadError)
    ensures r == s.(screen := Topic, error := r.error)
  {
    var message := if Api.IsAPIError(e) then e.message else GenericLoadError;
    s.(screen := Topic, error := Some(message))
  }

  /** handleRetry: select the same topic with the same timer setting again. */
  function Retry(s: QuizState): (r: QuizState)
    ensures r.screen == Loading && r.topic == s.topic && r.timerEnabled == s.timerEnabled
    ensures r.result == s.result && r.questions == s.questions
    // the error is cleared; answers, cursor, start time and the feedback flag stay
    ensures r == s.(screen := Loading, error := None)
  {
    SelectTopic(s, s.topic, s.timerEnabled)
  }

  // ---------------------------------------------------------------------------
  // Answering and moving between questions

  /** handleSelectAnswer: record `index` for the current question; the cursor does not move. */
  function SelectAnswer(s: QuizState, index: int): (r: QuizState)
    requires 0 <= s.currentIndex < |s.answers|
    ensures |r.answers| == |s.answers| && r.answers[s.currentIndex] == Some(index)
    ensures forall k :: 0 <= k < |s.answers| && k != s.currentIndex ==> r.answers[k] == s.answers[k]
    ensures r == s.(answers := r.answers)
  {
    s.(answers := s.answers[s.currentIndex := Some(index)])
  }

  /** Choosing again replaces the earlier choice. */
  lemma SelectAnswerOverwrites(s: QuizState, first: int, second: int)
    requires 0 <= s.currentIndex < |s.answers|
    ensures SelectAnswer(SelectAnswer(s, first), second) == SelectAnswer(s, second)
  {
    var a := SelectAnswer(SelectAnswer(s, first), second).answers;
    assert a == SelectAnswer(s, second).answers;
  }

  /** handleNext: `min(currentIndex + 1, length - 1)`. */
  function Next(s: QuizState): (r: QuizState)
    ensures r == s.(currentIndex := r.currentIndex)
    ensures s.currentIndex < |s.questions| - 1 ==> r.currentIndex == s.currentIndex + 1
    ensures s.currentIndex >= |s.questions| - 1 ==> r.currentIndex == |s.questions| - 1
    ensures 0 <= s.currentIndex < |s.questions| ==> 0 <= r.currentIndex < |s.questions|
  {
    s.(currentIndex := Min(s.currentIndex + 1, |s.questions| - 1))
  }

  /** handlePrev: `max(currentIndex - 1, 0)`. */
  function Prev(s: QuizState): (r: QuizState)
    ensures r == s.(currentIndex := r.currentIndex)
    ensures s.currentIndex > 0 ==> r.currentIndex == s.currentIndex - 1
    ensures s.currentIndex <= 0 ==> r.currentIndex == 0
    ensures 0 <= s.currentIndex < |s.questions| ==> 0 <= r.currentIndex < |s.questions|
  {
    s.(currentIndex := Max(s.currentIndex - 1, 0))
  }

  /** handleTimeUp: advance by one, except on the last question, where nothing happens (no submit). */
  function TimeUp(s: QuizState): (r: QuizState)
    ensures s.currentIndex < |s.questions| - 1 ==> r == s.(currentIndex := s.currentIndex + 1)
    ensures s.currentIndex >= |s.questions| - 1 ==> r == s
  {
    if s.currentIndex < |s.questions| - 1 then s.(currentIndex := s.currentIndex + 1) else s
  }

  /** Inside the bounds, the timer running out moves exactly as the Next button does. */
  lemma TimeUpMovesLikeNext(s: QuizState)
    requires 0 <= s.currentIndex < |s.questions|
    ensures TimeUp(s) == Next(s)
  {
  }

  /** Running out of time on the last question leaves the quiz open: same screen, no result. */
  lemma TimeUpOnLastQuestionKeepsQuizOpen(s: QuizState)
    requires s.screen == Quiz && s.result.None? && s.currentIndex == |s.questions| - 1
    ensures TimeUp(s).screen == Quiz && TimeUp(s).result.None? && TimeUp(s) == s
  {
  }

  function Min(a: int, b: int): int { if a < b then a else b }
  function Max(a: int, b: int): int { if a < b then b else a }

  // ---------------------------------------------------------------------------
  // Scoring

  /** The AnswerDetail built for question `q` with selection `a`. */
  function DetailOf(q: Question, a: Option<int>): (d: AnswerDetail)
    // `answers[i] === q.correctIndex`: an unanswered (null) slot is never correct
    ensures d.isCorrect <==> a.Some? && a.value == q.correctIndex
    ensures d.questionId == q.id && d.question == q.question && d.selectedIndex == a
    ensures d.correctIndex == q.correctIndex && d.explanation == q.explanation
  {
    AnswerDetail(q.id, q.question, a, q.correctIndex, a == Some(q.correctIndex), q.explanation)
  }

  /** `questions.map((q, i) => ...)`: one detail per question, in order. */
  function Details(qs: seq<Question>, answers: seq<Option<int>>): seq<AnswerDetail>
    requires |answers| == |qs|
  {
    seq(|qs|, k requires 0 <= k < |qs| => DetailOf(qs[k], answers[k]))
  }

  /** Whether slot `k` holds the correct index. */
  predicate Matches(qs: seq<Question>, answers: seq<Option<int>>, k: int)
    requires |answers| == |qs| && 0 <= k < |qs|
  {
    answers[k] == Some(qs[k].correctIndex)
  }

  /** The count the scoring loop accumulates, question by question. */
  function Score(qs: seq<Question>, answers: seq<Option<int>>): (n: nat)
    requires |answers| == |qs|
    ensures n <= |qs|
    decreases |qs|
  {
    if qs == [] then 0
    else
      var last := |qs| - 1;
      Score(qs[..last], answers[..last]) + (if Matches(qs, answers, last) then 1 else 0)
  }

  /** The slots whose selection is the correct index. */
  function MatchingSlots(qs: seq<Question>, answers: seq<Option<int>>): set<int>
    requires |answers| == |qs|
  {
    set k | 0 <= k < |qs| && Matches(qs, answers, k)
  }

  /** The score is exactly the number of slots that hold the correct index. */
  lemma {:induction false} ScoreCountsMatches(qs: seq<Question>, answers: seq<Option<int>>)
    requires |answers| == |qs|
    ensures Score(qs, answers) == |MatchingSlots(qs, answers)|
    decreases |qs|
  {
    if qs != [] {
      var last := |qs| - 1;
      var pq, pa := qs[..last], answers[..last];
      ScoreCountsMatches(pq, pa);
      var before := MatchingSlots(pq, pa);
      assert forall k :: 0 <= k < last ==> (Matches(pq, pa, k) <==> Matches(qs, answers, k));
      if Matches(qs, answers, last) {
        assert MatchingSlots(qs, answers) == before + {last};
      } else {
        assert MatchingSlots(qs, answers) == before;
      }
    }
  }

  /** `Math.round(n / d)` for `d > 0`: the integer nearest to n/d, halves rounded up. */
  function RoundHalfUp(n: int, d: int): int
    requires d > 0
  {
    (2 * n + d) / (2 * d)
  }

  lemma MulCancel(a: int, b: int, d: int)
    requires d > 0
    ensures a * d < b * d ==> a < b
  {
    if a >= b {
      assert a * d - b * d == (a - b) * d;
    }
  }

  /** RoundHalfUp picks the one integer r with r - 1/2 <= n/d < r + 1/2. */
  lemma RoundHalfUpNearest(n: int, d: int, r: int)
    requires d > 0
    ensures r == RoundHalfUp(n, d) <==> (2 * r - 1) * d <= 2 * n < (2 * r + 1) * d
  {
    var q := RoundHalfUp(n, d);
    var m := (2 * n + d) % (2 * d);
    assert 2 * n + d == (2 * d) * q + m && 0 <= m < 2 * d;
    assert (2 * q - 1) * d == 2 * d * q - d;
    assert (2 * q + 1) * d == 2 * d * q + d;
    // two such integers would have overlapping half-open intervals
    MulCancel(2 * q - 1, 2 * r + 1, d);
    MulCancel(2 * r - 1, 2 * q + 1, d);
  }

  /** `Math.round((score / total) * 100)`, computed exactly. */
  function Percentage(score: int, total: int): int
    requires total > 0
  {
    RoundHalfUp(100 * score, total)
  }

  /** A score between 0 and the total gives a percentage between 0 and 100; all correct gives 100. */
  lemma PercentageBounds(score: int, total: int)
    requires 0 <= score <= total && total > 0
    ensures 0 <= Percentage(score, total) <= 100
    ensures score == total ==> Percentage(score, total) == 100
    ensures score == 0 ==> Percentage(score, total) == 0
  {
    var p := Percentage(score, total);
    RoundHalfUpNearest(100 * score, total, p);
    assert 2 * (100 * score) <= 200 * total;
    assert 200 * total < 201 * total;
    MulCancel(0, 2 * p + 1, total);
    MulCancel(2 * p - 1, 201, total);
    RoundHalfUpNearest(100 * score, total, 100);
    RoundHalfUpNearest(100 * score, total, 0);
  }

  /** `Math.round((endTime - startTime) / 1000)`: seconds, rounded. */
  function TimeTaken(startTime: int, endTime: int): int {
    RoundHalfUp(endTime - startTime, 1000)
  }

  /** The state handleSubmit shows: the result screen with the computed result and feedback pending. */
  function Submitted(s: QuizState, endTime: int): (r: QuizState)
    requires s.questions != [] && |s.answers| == |s.questions|
    ensures r.screen == Result && r.isLoadingFeedback && r.result.Some?
    ensures var res := r.result.value;
      && res.total == |s.questions|
      && res.score == |MatchingSlots(s.questions, s.answers)|
      && 0 <= res.score <= res.total
      && res.percentage == Percentage(res.score, res.total)
      && 0 <= res.percentage <= 100
      && res.feedback == ""
      && res.answers == Details(s.questions, s.answers)
      && res.timeTaken == TimeTaken(s.startTime, endTime)
    ensures r == s.(screen := Result, isLoadingFeedback := true, result := r.result)
  {
    var qs, answers := s.questions, s.answers;
    var score := Score(qs, answers);
    ScoreCountsMatches(qs, answers);
    PercentageBounds(score, |qs|);
    s.(screen := Result, isLoadingFeedback := true,
       result := Some(QuizResult(score, |qs|, Percentage(score, |qs|), "",
                                 Details(qs, answers), TimeTaken(s.startTime, endTime))))
  }

  /** The worked example: answers [0, 2, unanswered, 1] against [0, 1, 2, 1] score 2 of 4, 50%. */
  lemma SubmitExample(q0: Question, q1: Question, q2: Question, q3: Question)
    requires q0.correctIndex == 0 && q1.correctIndex == 1 && q2.correctIndex == 2 && q3.correctIndex == 1
    ensures var qs, answers := [q0, q1, q2, q3], [Some(0), Some(2), None, Some(1)];
      Score(qs, answers) == 2 && Percentage(Score(qs, answers), |qs|) == 50
  {
    var qs, answers := [q0, q1, q2, q3], [Some(0), Some(2), None, Some(1)];
    ScoreCountsMatches(qs, answers);
    assert MatchingSlots(qs, answers) == {0, 3};
  }

  // ---------------------------------------------------------------------------
  // The wrong-answer list sent with the feedback request

  datatype WrongAnswer = WrongAnswer(question: string, userAnswer: string, correctAnswer: string)

  datatype FeedbackRequest = FeedbackRequest(
    topic: string,
    score: int,
    total: int,
    percentage: int,
    wrongAnswers: seq<WrongAnswer>)

  /** `q?.options[index] || fallback`: a missing question, a missing option or an empty text gives the fallback. */
  function OptionText(q: Option<Question>, index: int, fallback: string): string {
    if q.Some? && 0 <= index < |q.value.options| && q.value.options[index] != "" then q.value.options[index]
    else fallback
  }

  /** The entry for detail `d` of question `q`: the texts of the chosen and the correct option. */
  function WrongAnswerFor(q: Question, d: AnswerDetail): WrongAnswer {
    WrongAnswer(
      d.question,
      if d.selectedIndex.Some? then OptionText(Some(q), d.selectedIndex.value, NotAnswered) else NotAnswered,
      OptionText(Some(q), d.correctIndex, ""))
  }

  /** `answerDetails.filter(a => !a.isCorrect).map(...)`, each detail read against its own question. */
  function WrongAnswers(qs: seq<Question>, ds: seq<AnswerDetail>): seq<WrongAnswer>
    requires |ds| == |qs|
    decreases |qs|
  {
    if qs == [] then []
    else
      var last := |qs| - 1;
      WrongAnswers(qs[..last], ds[..last]) + (if ds[last].isCorrect then [] else [WrongAnswerFor(qs[last], ds[last])])
  }

  /** The list has one entry per question answered wrongly or not at all. */
  lemma {:induction false} WrongAnswersCount(qs: seq<Question>, answers: seq<Option<int>>)
    requires |answers| == |qs|
    ensures |WrongAnswers(qs, Details(qs, answers))| == |qs| - Score(qs, answers)
    decreases |qs|
  {
    if qs != [] {
      var last := |qs| - 1;
      var pq, pa := qs[..last], answers[..last];
      WrongAnswersCount(pq, pa);
      assert Details(qs, answers)[..last] == Details(pq, pa);
    }
  }

  /** Every question whose detail is not correct has its entry in the list. */
  lemma {:induction false} WrongAnswersComplete(qs: seq<Question>, ds: seq<AnswerDetail>, k: int)
    requires |ds| == |qs| && 0 <= k < |qs| && !ds[k].isCorrect
    ensures WrongAnswerFor(qs[k], ds[k]) in WrongAnswers(qs, ds)
    decreases |qs|
  {
    var last := |qs| - 1;
    if k < last {
      WrongAnswersComplete(qs[..last], ds[..last], k);
    }
  }

  /** Every entry of the list is the entry of a question whose detail is not correct. */
  lemma {:induction false} WrongAnswersSound(qs: seq<Question>, ds: seq<AnswerDetail>, w: WrongAnswer)
    requires |ds| == |qs| && w in WrongAnswers(qs, ds)
    ensures exists k :: 0 <= k < |qs| && !ds[k].isCorrect && w == WrongAnswerFor(qs[k], ds[k])
    decreases |qs|
  {
    var last := |qs| - 1;
    var pq, pd := qs[..last], ds[..last];
    if w in WrongAnswers(pq, pd) {
      WrongAnswersSound(pq, pd, w);
      var k :| 0 <= k < |pq| && !pd[k].isCorrect && w == WrongAnswerFor(pq[k], pd[k]);
      assert qs[k] == pq[k] && ds[k] == pd[k];
    } else {
      assert !ds[last].isCorrect && w == WrongAnswerFor(qs[last], ds[last]);
    }
  }

  /** How many of the details are not correct. */
  function WrongCount(ds: seq<AnswerDetail>): nat
    decreases |ds|
  {
    if ds == [] then 0
    else WrongCount(ds[..|ds| - 1]) + (if ds[|ds| - 1].isCorrect then 0 else 1)
  }

  lemma {:induction false} WrongAnswersLength(qs: seq<Question>, ds: seq<AnswerDetail>)
    requires |ds| == |qs|
    ensures |WrongAnswers(qs, ds)| == WrongCount(ds)
    decreases |qs|
  {
    if qs != [] {
      WrongAnswersLength(qs[..|qs| - 1], ds[..|ds| - 1]);
    }
  }

  /** A longer prefix holds at least as many wrong details. */
  lemma {:induction false} WrongCountMonotone(ds: seq<AnswerDetail>, a: nat, b: nat)
    requires a <= b <= |ds|
    ensures WrongCount(ds[..a]) <= WrongCount(ds[..b])
    decreases b - a
  {
    if a < b {
      WrongCountMonotone(ds, a, b - 1);
      assert ds[..b][..b - 1] == ds[..b - 1];
    }
  }

  /**
   * The entry of wrong detail `k` sits at the position given by the number of
   * wrong details before it.
   */
  lemma {:induction false} WrongAnswerPosition(qs: seq<Question>, ds: seq<AnswerDetail>, k: int)
    requires |ds| == |qs| && 0 <= k < |qs| && !ds[k].isCorrect
    ensures WrongCount(ds[..k]) < |WrongAnswers(qs, ds)|
    ensures WrongAnswers(qs, ds)[WrongCount(ds[..k])] == WrongAnswerFor(qs[k], ds[k])
    decreases |qs|
  {
    var last := |qs| - 1;
    var pq, pd := qs[..last], ds[..last];
    WrongAnswersLength(pq, pd);
    if k < last {
      WrongAnswerPosition(pq, pd, k);
      assert pd[..k] == ds[..k];
    } else {
      assert pd == ds[..k];
    }
  }

  /** The list keeps question order: a wrong answer to an earlier question comes first. */
  lemma WrongAnswersInOrder(qs: seq<Question>, ds: seq<AnswerDetail>, k1: int, k2: int)
    requires |ds| == |qs| && 0 <= k1 < k2 < |qs| && !ds[k1].isCorrect && !ds[k2].isCorrect
    ensures exists p1, p2 :: 0 <= p1 < p2 < |WrongAnswers(qs, ds)| &&
              WrongAnswers(qs, ds)[p1] == WrongAnswerFor(qs[k1], ds[k1]) &&
              WrongAnswers(qs, ds)[p2] == WrongAnswerFor(qs[k2], ds[k2])
  {
    WrongAnswerPosition(qs, ds, k1);
    WrongAnswerPosition(qs, ds, k2);
    WrongCountMonotone(ds, k1 + 1, k2);
    assert ds[..k1 + 1][..k1] == ds[..k1];
  }

  /** A wrong answer reports the text of the option chosen on that same question. */
  lemma WrongAnswerNamesChosenOption(q: Question, index: int)
    requires 0 <= index < |q.options| && q.options[index] != "" && index != q.correctIndex
    ensures WrongAnswerFor(q, DetailOf(q, Some(index))).userAnswer == q.options[index]
    ensures 0 <= q.correctIndex < |q.options| && q.options[q.correctIndex] != "" ==>
              WrongAnswerFor(q, DetailOf(q, Some(index))).correctAnswer == q.options[q.correctIndex]
    ensures WrongAnswerFor(q, DetailOf(q, None)).userAnswer == NotAnswered
  {
  }

  /** `questions.find(q => q.id === id)`: the first question with that id. */
  function FindById(qs: seq<Question>, id: string): (r: Option<Question>)
    ensures r.None? <==> forall k :: 0 <= k < |qs| ==> qs[k].id != id
    ensures r.Some? ==> exists k :: 0 <= k < |qs| && qs[k] == r.value && r.value.id == id &&
                                  forall m :: 0 <= m < k ==> qs[m].id != id
  {
    if qs == [] then None
    else if qs[0].id == id then
      assert qs[0] == qs[0];
      Some(qs[0])
    else
      var r := FindById(qs[1..], id);
      if r.Some? then
        var k :| 0 <= k < |qs[1..]| && qs[1..][k] == r.value && r.value.id == id &&
                 forall m :: 0 <= m < k ==> qs[1..][m].id != id;
        assert qs[k + 1] == r.value;
        r
      else r
  }

  /** The entry as index.tsx builds it: the question is looked up again by its id. */
  function WrongAnswerAsWritten(qs: seq<Question>, d: AnswerDetail): WrongAnswer {
    var found := FindById(qs, d.questionId);
    WrongAnswer(
      d.question,
      if d.selectedIndex.Some? then OptionText(found, d.selectedIndex.value, NotAnswered) else NotAnswered,
      OptionText(found, d.correctIndex, ""))
  }

  /** The wrong-answer list as index.tsx builds it. */
  function WrongAnswersAsWritten(qs: seq<Question>, ds: seq<AnswerDetail>): (r: seq<WrongAnswer>)
    ensures |r| == WrongCount(ds)
    ensures r == [] <==> forall k :: 0 <= k < |ds| ==> ds[k].isCorrect
    decreases |ds|
  {
    if ds == [] then []
    else
      var last := |ds| - 1;
      WrongAnswersAsWritten(qs, ds[..last]) + (if ds[last].isCorrect then [] else [WrongAnswerAsWritten(qs, ds[last])])
  }

  predicate DistinctIds(qs: seq<Question>) {
    forall i, j :: 0 <= i < j < |qs| ==> qs[i].id != qs[j].id
  }

  /** With distinct ids the lookup by id finds the question itself, so both lists agree. */
  lemma {:induction false} AsWrittenAgreesWithDistinctIds(qs: seq<Question>, answers: seq<Option<int>>, n: nat)
    requires |answers| == |qs| && DistinctIds(qs) && n <= |qs|
    ensures WrongAnswersAsWritten(qs, Details(qs, answers)[..n]) == WrongAnswers(qs[..n], Details(qs[..n], answers[..n]))
    decreases n
  {
    var ds := Details(qs, answers);
    if n > 0 {
      var last := n - 1;
      AsWrittenAgreesWithDistinctIds(qs, answers, last);
      assert ds[..n][..last] == ds[..last];
      assert qs[..n][..last] == qs[..last] && answers[..n][..last] == answers[..last];
      assert Details(qs[..n], answers[..n])[..last] == Details(qs[..last], answers[..last]);
      var found := FindById(qs, qs[last].id);
      assert qs[last].id == qs[last].id;
      assert found == Some(qs[last]);
    }
  }

  /** The whole-list form: with distinct ids the source's list is the corrected one. */
  lemma AsWrittenAgreesWhenDistinct(qs: seq<Question>, answers: seq<Option<int>>)
    requires |answers| == |qs|
    ensures DistinctIds(qs) ==> WrongAnswersAsWritten(qs, Details(qs, answers)) == WrongAnswers(qs, Details(qs, answers))
  {
    if DistinctIds(qs) {
      AsWrittenAgreesWithDistinctIds(qs, answers, |qs|);
      assert Details(qs, answers)[..|qs|] == Details(qs, answers);
      assert qs[..|qs|] == qs && answers[..|qs|] == answers;
    }
  }

  /**
   * Two questions that share the id "q1" (the schema allows it): the second
   * one, answered wrongly, is reported with the first question's option texts.
   */
  lemma DuplicateIdsMisreportWrongAnswer()
    ensures var first := Question("q1", "What is one plus one?", ["2", "3", "4", "5"], 0, None);
            var second := Question("q1", "What is two plus two?", ["1", "2", "3", "4"], 3, None);
            var qs, answers := [first, second], [Some(0), Some(0)];
            && ValidQuiz(qs)
            && WrongAnswersAsWritten(qs, Details(qs, answers)) == [WrongAnswer("What is two plus two?", "2", "5")]
            && WrongAnswers(qs, Details(qs, answers)) == [WrongAnswer("What is two plus two?", "1", "4")]
  {
    var first := Question("q1", "What is one plus one?", ["2", "3", "4", "5"], 0, None);
    var second := Question("q1", "What is two plus two?", ["1", "2", "3", "4"], 3, None);
    var qs, answers := [first, second], [Some(0), Some(0)];
    var ds := Details(qs, answers);
    assert ds == [DetailOf(first, Some(0)), DetailOf(second, Some(0))];
    assert ds[..1] == [DetailOf(first, Some(0))] && ds[..1][..0] == [];
    assert qs[..1] == [first] && qs[..1][..0] == [];
    assert FindById(qs, "q1") == Some(first);
    assert WrongAnswersAsWritten(qs, ds[..1]) == [];
    assert WrongAnswersAsWritten(qs, ds) == [WrongAnswerAsWritten(qs, ds[1])];
    assert WrongAnswers(qs[..1], ds[..1]) == [];
    assert WrongAnswers(qs, ds) == [WrongAnswerFor(second, ds[1])];
  }

  /**
   * The request handleSubmit sends to generateFeedback, with the corrected
   * wrong-answer list; it is the list index.tsx builds whenever the ids are
   * distinct.
   */
  function FeedbackRequestFor(s: QuizState): (req: FeedbackRequest)
    requires s.questions != [] && |s.answers| == |s.questions|
    ensures req.topic == s.topic && req.total == |s.questions|
    ensures req.score == |MatchingSlots(s.questions, s.answers)|
    ensures req.percentage == Percentage(req.score, req.total) && 0 <= req.percentage <= 100
    ensures |req.wrongAnswers| == req.total - req.score
    ensures DistinctIds(s.questions) ==>
              req.wrongAnswers == WrongAnswersAsWritten(s.questions, Details(s.questions, s.answers))
  {
    var qs, answers := s.questions, s.answers;
    var score := Score(qs, answers);
    ScoreCountsMatches(qs, answers);
    PercentageBounds(score, |qs|);
    WrongAnswersCount(qs, answers);
    AsWrittenAgreesWhenDistinct(qs, answers);
    FeedbackRequest(s.topic, score, |qs|, Percentage(score, |qs|), WrongAnswers(qs, Details(qs, answers)))
  }

  /**
   * handleSubmit up to the feedback call: the scoring loop, then the result
   * screen and the request for feedback.
   */
  method Submit(s: QuizState, endTime: int) returns (r: QuizState, request: FeedbackRequest)
    requires s.questions != [] && |s.answers| == |s.questions|
    ensures r == Submitted(s, endTime)
    ensures request == FeedbackRequestFor(s)
  {
    var questions, answers := s.questions, s.answers;
    var score := 0;
    var details: seq<AnswerDetail> := [];
    var i := 0;
    while i < |questions|
      invariant 0 <= i <= |questions|
      invariant score == Score(questions[..i], answers[..i])
      invariant details == Details(questions[..i], answers[..i])
    {
      var q := questions[i];
      var isCorrect := answers[i] == Some(q.correctIndex);
      if isCorrect {
        score := score + 1;
      }
      details := details + [AnswerDetail(q.id, q.question, answers[i], q.correctIndex, isCorrect, q.explanation)];
      assert questions[..i + 1][..i] == questions[..i] && answers[..i + 1][..i] == answers[..i];
      i := i + 1;
    }
    assert questions[..i] == questions && answers[..i] == answers;
    var total := |questions|;
    var percentage := Percentage(score, total);
    r := s.(screen := Result, isLoadingFeedback := true,
            result := Some(QuizResult(score, total, percentage, "", details, TimeTaken(s.startTime, endTime))));
    request := FeedbackRequest(s.topic, score, total, percentage, WrongAnswers(questions, details));
  }

  // ---------------------------------------------------------------------------
  // Feedback completion, reset, dismissing the error

  /** The feedback completion: only the result's feedback text changes, and the loading flag clears. */
  function FeedbackDone(s: QuizState, text: string): (r: QuizState)
    ensures r.screen == s.screen && !r.isLoadingFeedback
    ensures r.result.Some? <==> s.result.Some?
    ensures s.result.Some? ==> r.result.value == s.result.value.(feedback := text)
    ensures r == s.(isLoadingFeedback := false, result := r.result)
  {
    s.(isLoadingFeedback := false,
       result := if s.result.Some? then Some(s.result.value.(feedback := text)) else None)
  }

  /** handleNewTopic: back to the initial state, whatever came before. */
  function NewTopic(s: QuizState): (r: QuizState)
    ensures r.screen == Topic && r.questions == [] && r.answers == [] && r.result.None? && r.error.None?
    ensures r.topic == "" && r.currentIndex == 0 && r.timerEnabled && !r.isLoadingFeedback
    ensures r == Initial
  {
    Initial
  }

  /** The dismiss button of the error banner. */
  function DismissError(s: QuizState): (r: QuizState)
    ensures r.error.None? && r == s.(error := None)
  {
    s.(error := None)
  }

  // ---------------------------------------------------------------------------
  // The session as a state machine

  /** A user intent or an asynchronous completion. */
  datatype Event =
    | TopicChosen(topic: string, timerEnabled: bool)
    | QuizLoaded(questions: seq<Question>, now: int)
    | QuizLoadFailed(error: Api.Thrown)
    | AnswerChosen(index: int)
    | NextPressed
    | PrevPressed
    | TimerExpired
    | SubmitPressed(now: int)
    | FeedbackArrived(text: string)
    | FeedbackFailed
    | RetryPressed
    | NewTopicPressed
    | ErrorDismissed

  /**
   * When an event can happen: intents come from the screen that offers them,
   * a loaded quiz has passed the schema, and a feedback completion may land
   * at any time.
   */
  predicate Enabled(s: QuizState, e: Event) {
    match e
    case TopicChosen(_, _) => s.screen == Topic
    case QuizLoaded(qs, _) => s.screen == Loading && ValidQuiz(qs)
    case QuizLoadFailed(_) => s.screen == Loading
    case AnswerChosen(_) => s.screen == Quiz
    case NextPressed => s.screen == Quiz
    case PrevPressed => s.screen == Quiz
    case TimerExpired => s.screen == Quiz
    case SubmitPressed(_) => s.screen == Quiz
    case FeedbackArrived(_) => true
    case FeedbackFailed => true
    case RetryPressed => s.screen == Result
    case NewTopicPressed => s.screen == Result
    case ErrorDismissed => s.screen == Topic
  }

  /** What holds of every reachable state. */
  predicate Inv(s: QuizState) {
    && |s.answers| == |s.questions|
    && (s.questions == [] || ValidQuiz(s.questions))
    && 0 <= s.currentIndex
    && (s.questions == [] ==> s.currentIndex == 0)
    && (s.questions != [] ==> s.currentIndex < |s.questions|)
    && (s.screen == Quiz ==> s.questions != [])
    && (s.screen == Result ==> s.result.Some?)
  }

  function Step(s: QuizState, e: Event): QuizState
    requires Inv(s) && Enabled(s, e)
  {
    match e
    case TopicChosen(topic, timerEnabled) => SelectTopic(s, topic, timerEnabled)
    case QuizLoaded(qs, now) => LoadSuccess(s, qs, now)
    case QuizLoadFailed(error) => LoadFailure(s, error)
    case AnswerChosen(index) => SelectAnswer(s, index)
    case NextPressed => Next(s)
    case PrevPressed => Prev(s)
    case TimerExpired => TimeUp(s)
    case SubmitPressed(now) => Submitted(s, now)
    case FeedbackArrived(text) => FeedbackDone(s, text)
    case FeedbackFailed => FeedbackDone(s, FeedbackFallback)
    case RetryPressed => Retry(s)
    case NewTopicPressed => NewTopic(s)
    case ErrorDismissed => DismissError(s)
  }

  lemma InitialInv()
    ensures Inv(Initial)
  {
  }

  /** Every event keeps the invariant. */
  lemma StepPreservesInv(s: QuizState, e: Event)
    requires Inv(s) && Enabled(s, e)
    ensures Inv(Step(s, e))
  {
  }

  /** Applies the events in turn; None if one of them cannot happen where it arrives. */
  function Run(s: QuizState, events: seq<Event>): (r: Option<QuizState>)
    requires Inv(s)
    ensures r.Some? ==> Inv(r.value)
    decreases |events|
  {
    if events == [] then Some(s)
    else if !Enabled(s, events[0]) then None
    else
      StepPreservesInv(s, events[0]);
      Run(Step(s, events[0]), events[1..])
  }

  /**
   * In every state reachable from the initial one, the quiz screen shows an
   * existing question and there is one answer slot per question.
   */
  lemma ReachableQuizInBounds(events: seq<Event>)
    ensures Inv(Initial)
    ensures var r := Run(Initial, events);
      r.Some? && r.value.screen == Quiz ==>
        0 <= r.value.currentIndex < |r.value.questions| == |r.value.answers| && ValidQuiz(r.value.questions)
  {
    InitialInv();
  }

  /**
   * A result outlives its screen: after a retry that loads a new quiz, the
   * quiz screen is shown while the previous result is still held.
   */
  lemma RetryKeepsStaleResult(q: Question, topic: string)
    requires WellFormedQuestion(q)
    ensures var s1 := Step(Initial, TopicChosen(topic, true));
            var s2 := Step(s1, QuizLoaded([q], 0));
            var s3 := Step(s2, SubmitPressed(1000));
            var s4 := Step(s3, RetryPressed);
            var s5 := Step(s4, QuizLoaded([q], 2000));
            s5.screen == Quiz && s5.result.Some? && s5.result == s3.result
  {
    InitialInv();
    var s1 := Step(Initial, TopicChosen(topic, true));
    StepPreservesInv(Initial, TopicChosen(topic, true));
    assert ValidQuiz([q]);
    var s2 := Step(s1, QuizLoaded([q], 0));
    StepPreservesInv(s1, QuizLoaded([q], 0));
    var s3 := Step(s2, SubmitPressed(1000));
    StepPreservesInv(s2, SubmitPressed(1000));
    var s4 := Step(s3, RetryPressed);
    StepPreservesInv(s3, RetryPressed);
  }

  // ---------------------------------------------------------------------------
  // The handlers together with the gateway calls they await

  /** handleSelectTopic: the loading update, the generateQuiz call, and the update for its outcome. */
  method SelectTopicFlow(s: QuizState, topic: string, timerEnabled: bool, apiKey: Option<string>,
                         call: nat -> Api.CallOutcome, parse: string -> Option<Json>, now: int)
    returns (r: QuizState, outcome: Api.Outcome<seq<Question>>, calls: nat, waits: seq<int>)
    requires Inv(s)
    // the state follows what generateQuiz gave
    ensures outcome.Returned? ==> r == LoadSuccess(SelectTopic(s, topic, timerEnabled), outcome.value, now)
    ensures outcome.Threw? ==> r == LoadFailure(SelectTopic(s, topic, timerEnabled), outcome.error)
    // and generateQuiz behaved as its contract says
    ensures !Api.KeyConfigured(apiKey) ==> outcome == Api.Threw(Api.KeyNotConfigured) && calls == 0 && waits == []
    ensures Api.KeyConfigured(apiKey) ==>
              Api.RetryContract(Api.QuizAttempts(call, parse), MaxRetries, RetryDelay, outcome, calls, waits)
    ensures Inv(r)
    ensures r.topic == topic && r.timerEnabled == timerEnabled && r.result == s.result
    ensures r.screen == Quiz || r.screen == Topic
    ensures r.screen == Quiz ==> ValidQuiz(r.questions) && r.currentIndex == 0 && r.startTime == now &&
                                 forall k :: 0 <= k < |r.answers| ==> r.answers[k].None?
    ensures r.screen == Topic ==> r.error.Some? && r.questions == s.questions && r.answers == s.answers
    ensures !Api.KeyConfigured(apiKey) ==> r.screen == Topic && r.error == Some(Api.KeyNotConfiguredMessage) && calls == 0
    ensures calls <= MaxRetries
  {
    var loading := SelectTopic(s, topic, timerEnabled);
    outcome, calls, waits := Api.GenerateQuiz(apiKey, call, parse);
    match outcome
    case Returned(qs) =>
      r := LoadSuccess(loading, qs, now);
    case Threw(e) =>
      r := LoadFailure(loading, e);
  }

  /** The second half of handleSubmit: the generateFeedback call and the completion it leads to. */
  method FeedbackFlow(s: QuizState, apiKey: Option<string>,
                      call: nat -> Api.CallOutcome, parse: string -> Option<Json>)
    returns (r: QuizState, outcome: Api.Outcome<string>, calls: nat, waits: seq<int>)
    // the text generateFeedback returned, or the apology whenever it threw
    ensures outcome.Returned? ==> r == FeedbackDone(s, outcome.value)
    ensures outcome.Threw? ==> r == FeedbackDone(s, FeedbackFallback)
    ensures !Api.KeyConfigured(apiKey) ==> outcome == Api.Threw(Api.KeyNotConfigured) && calls == 0 && waits == []
    ensures Api.KeyConfigured(apiKey) ==>
              Api.RetryContract(Api.FeedbackAttempts(call, parse), MaxRetries, RetryDelay, outcome, calls, waits)
    ensures Api.KeyConfigured(apiKey) && outcome.Threw? ==> calls == MaxRetries && waits == [1000, 2000]
    ensures r.screen == s.screen && !r.isLoadingFeedback
    ensures r.result.Some? <==> s.result.Some?
    ensures s.result.Some? ==> r.result.value == s.result.value.(feedback := r.result.value.feedback)
    // the text shown is either what the model returned (at least 10 characters) or the apology
    ensures s.result.Some? ==> |r.result.value.feedback| >= MinFeedbackLength
    ensures s.result.Some? && !Api.KeyConfigured(apiKey) ==> r.result.value.feedback == FeedbackFallback
    ensures r == s.(isLoadingFeedback := false, result := r.result)
  {
    outcome, calls, waits := Api.GenerateFeedback(apiKey, call, parse);
    match outcome
    case Returned(text) =>
      r := FeedbackDone(s, text);
    case Threw(_) =>
      r := FeedbackDone(s, FeedbackFallback);
  }
}
