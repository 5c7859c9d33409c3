/**
 * The taste quiz: answers recorded question by question, the seven axis
 * sums, the rounded profile sent for cluster matching, and how the
 * screen ends. The question list and the answer-to-score table are
 * parameters (their contents are data, not logic).
 */
module Quiz {
  import opened Wrappers
  import opened Text
  import ClusterService

  /** One question: its id and the axis its score counts towards. */
  datatype Question = Question(id: int, axis: string)

  /** The screen's state: the current question and the answers so far, by question id. */
  datatype QuizState = QuizState(idx: nat, answers: map<int, int>)

  /**
   * `handleAnswer(value)`: records the answer under the current question's
   * id; moves to the next question, or on the last one hands every answer,
   * the final one included, to `processResult` (the second component).
   */
  function HandleAnswer(questions: seq<Question>, s: QuizState, value: int): (r: (QuizState, Option<map<int, int>>))
    requires s.idx < |questions|
    ensures r.0.answers == s.answers[questions[s.idx].id := value]
    ensures s.idx < |questions| - 1 ==> r.0.idx == s.idx + 1 && r.1 == None
    ensures s.idx == |questions| - 1 ==> r.0.idx == s.idx && r.1 == Some(r.0.answers)
  {
    var answers := s.answers[questions[s.idx].id := value];
    if s.idx < |questions| - 1 then (QuizState(s.idx + 1, answers), None)
    else (QuizState(s.idx, answers), Some(answers))
  }

  /** The answers after answering `values` in order from the current question. */
  function AnswerAll(questions: seq<Question>, s: QuizState, values: seq<int>): (r: (QuizState, Option<map<int, int>>))
    requires s.idx + |values| <= |questions|
    decreases |values|
  {
    if values == [] then (s, None)
    else
      var step := HandleAnswer(questions, s, values[0]);
      if step.1.Some? then step
      else AnswerAll(questions, step.0, values[1..])
  }

  /** The questions from `from` on, each with its answer from `values`. */
  predicate Answered(questions: seq<Question>, from: nat, values: seq<int>, answers: map<int, int>)
    requires from + |values| <= |questions|
    decreases |values|
  {
    values == []
    || (&& questions[from].id in answers && answers[questions[from].id] == values[0]
        && Answered(questions, from + 1, values[1..], answers))
  }

  predicate DistinctIds(questions: seq<Question>) {
    forall i, j :: 0 <= i < j < |questions| ==> questions[i].id != questions[j].id
  }

  /**
   * Answering every remaining question hands `processResult` exactly once,
   * at the last question, a map holding every answer under its question's id.
   */
  lemma {:induction false} AnswerAllCollects(questions: seq<Question>, s: QuizState, values: seq<int>)
    requires DistinctIds(questions)
    requires |values| >= 1 && s.idx + |values| == |questions|
    ensures var r := AnswerAll(questions, s, values);
      r.1.Some? && Answered(questions, s.idx, values, r.1.value)
    decreases |values|
  {
    var step := HandleAnswer(questions, s, values[0]);
    if step.1.None? {
      AnswerAllCollects(questions, step.0, values[1..]);
      var r := AnswerAll(questions, step.0, values[1..]);
      assert r == AnswerAll(questions, s, values);
      AnswersKeepEarlier(questions, step.0, values[1..], s.idx);
    }
  }

  /** Reading `Answered` at one question: its answer is the matching value. */
  lemma {:induction false} AnsweredAt(questions: seq<Question>, from: nat, values: seq<int>, answers: map<int, int>, k: nat)
    requires from + |values| <= |questions| && k < |values|
    requires Answered(questions, from, values, answers)
    ensures questions[from + k].id in answers && answers[questions[from + k].id] == values[k]
    decreases k
  {
    if k > 0 {
      AnsweredAt(questions, from + 1, values[1..], answers, k - 1);
    }
  }

  /** Later answers never overwrite the answer of an earlier question. */
  lemma {:induction false} AnswersKeepEarlier(questions: seq<Question>, s: QuizState, values: seq<int>, earlier: nat)
    requires DistinctIds(questions)
    requires earlier < s.idx && s.idx + |values| <= |questions|
    requires questions[earlier].id in s.answers
    ensures var r := AnswerAll(questions, s, values);
      r.1.Some? ==> questions[earlier].id in r.1.value && r.1.value[questions[earlier].id] == s.answers[questions[earlier].id]
    decreases |values|
  {
    if values != [] {
      var step := HandleAnswer(questions, s, values[0]);
      if step.1.None? {
        AnswersKeepEarlier(questions, step.0, values[1..], earlier);
      }
    }
  }

  /** `LIKERT_MAP[answer] || 0`: an unanswered question or an unmapped answer scores 0. */
  function Score(likert: map<int, int>, answers: map<int, int>, id: int): int {
    if id in answers && answers[id] in likert then likert[answers[id]] else 0
  }

  /** The sum of the scores of the questions on `axis`, starting from 0. */
  function AxisSum(questions: seq<Question>, likert: map<int, int>, answers: map<int, int>, axis: string): int {
    if questions == [] then 0
    else
      (if questions[0].axis == axis then Score(likert, answers, questions[0].id) else 0)
      + AxisSum(questions[1..], likert, answers, axis)
  }

  /** With no answers every axis sums to 0. */
  lemma {:induction false} NoAnswersSumToZero(questions: seq<Question>, likert: map<int, int>, axis: string)
    ensures AxisSum(questions, likert, map[], axis) == 0
  {
    if questions != [] {
      NoAnswersSumToZero(questions[1..], likert, axis);
    }
  }

  /** Answering a question moves only its own axis. */
  lemma {:induction false} AnswerMovesOwnAxis(questions: seq<Question>, likert: map<int, int>, answers: map<int, int>,
                                             id: int, value: int, axis: string)
    requires forall i :: 0 <= i < |questions| && questions[i].id == id ==> questions[i].axis != axis
    ensures AxisSum(questions, likert, answers[id := value], axis) == AxisSum(questions, likert, answers, axis)
  {
    if questions != [] {
      AnswerMovesOwnAxis(questions[1..], likert, answers, id, value, axis);
    }
  }

  /** The sum over two lists of questions is the sum of the sums. */
  lemma {:induction false} AxisSumConcat(a: seq<Question>, b: seq<Question>, likert: map<int, int>, answers: map<int, int>, axis: string)
    ensures AxisSum(a + b, likert, answers, axis) == AxisSum(a, likert, answers, axis) + AxisSum(b, likert, answers, axis)
  {
    if a == [] {
      assert a + b == b;
    } else {
      assert (a + b)[0] == a[0];
      assert (a + b)[1..] == a[1..] + b;
      AxisSumConcat(a[1..], b, likert, answers, axis);
    }
  }

  /** `Math.round(sum / 3)`: the integer nearest to sum / 3, halves rounding up. */
  function RoundThird(sum: int): (r: int)
    ensures 6 * r - 3 <= 2 * sum < 6 * r + 3
  {
    (2 * sum + 3) / 6
  }

  /** The rounding is the only integer within a half of sum / 3. */
  lemma RoundThirdUnique(sum: int, r: int)
    requires 6 * r - 3 <= 2 * sum < 6 * r + 3
    ensures RoundThird(sum) == r
  {
  }

  /** The profile: every axis gets its rounded third of its sum. */
  function QuizProfile(questions: seq<Question>, likert: map<int, int>, answers: map<int, int>): (p: ClusterService.Profile)
    ensures forall a :: a in ClusterService.AxisOrder ==> a in p && p[a] == Some(RoundThird(AxisSum(questions, likert, answers, a)))
    ensures forall a :: a in p ==> a in ClusterService.AxisOrder
  {
    map a | a in ClusterService.AxisOrder :: Some(RoundThird(AxisSum(questions, likert, answers, a)))
  }

  /** The cluster key of a quiz profile lists the seven rounded sums, in axis order. */
  lemma ProfileKeyListsRoundedSums(questions: seq<Question>, likert: map<int, int>, answers: map<int, int>, i: nat)
    requires i < |ClusterService.AxisOrder|
    ensures var key := ClusterService.ClusterKey(QuizProfile(questions, likert, answers));
      ParseInt(Split(key, ',')[i]) == Some(RoundThird(AxisSum(questions, likert, answers, ClusterService.AxisOrder[i])))
  {
    var p := QuizProfile(questions, likert, answers);
    assert ClusterService.AxisValue(p, ClusterService.AxisOrder[i]) == RoundThird(AxisSum(questions, likert, answers, ClusterService.AxisOrder[i]));
  }

  /** How `processResult` ends. */
  datatype Outcome<C> = Completed(profile: ClusterService.Profile, cluster: C) | Reset

  /**
   * `processResult`: match the profile, save the result, then complete with
   * both; a failed match or a failed save resets the loading state and
   * never completes.
   */
  function ProcessResult<C>(questions: seq<Question>, likert: map<int, int>, answers: map<int, int>,
                            matched: Result<C, string>, saved: bool): (r: Outcome<C>)
    ensures r.Completed? <==> matched.Success? && saved
    ensures r.Completed? ==> r.cluster == matched.value && r.profile == QuizProfile(questions, likert, answers)
  {
    match matched
    case Success(cluster) => if saved then Completed(QuizProfile(questions, likert, answers), cluster) else Reset
    case Failure(_) => Reset
  }
}
