/** The score summary and answer review (components/ResultScreen.tsx): a
    pure function of the score, the total and the answer log. */
module ResultScreen {
  import opened Types
  import QuizScreen

  /** `a * c <= b * c` for a non-negative factor, by induction on it. */
  lemma {:induction false} MulMonotone(a: int, b: int, c: nat)
    requires a <= b
    ensures a * c <= b * c
  {
    if c > 0 {
      MulMonotone(a, b, c - 1);
      assert a * c == a * (c - 1) + a && b * c == b * (c - 1) + b;
    }
  }

  /** `Math.round((score / total) * 100)`, on integers: the nearest integer
      to 100 * score / total, a tie rounding up. */
  function Percentage(score: nat, total: nat): (pct: nat)
    requires total > 0
    ensures (2 * pct - 1) * total <= 200 * score < (2 * pct + 1) * total
    ensures score <= total ==> pct <= 100
  {
    var x, d := 200 * score + total, 2 * total;
    var pct: nat := x / d;
    assert d * pct <= x < d * pct + d;
    assert (2 * pct - 1) * total == d * pct - total && (2 * pct + 1) * total == d * pct + total;
    if score <= total && pct > 100 then
      MulMonotone(101, pct, d);
      pct
    else
      pct
  }

  /** The rounding is the only one: an integer within half a point of the
      exact ratio, ties going up, is the percentage. */
  lemma PercentageIsNearest(score: nat, total: nat, p: int)
    requires total > 0
    requires (2 * p - 1) * total <= 200 * score < (2 * p + 1) * total
    ensures p == Percentage(score, total)
  {
    var q: int := Percentage(score, total);
    if p < q {
      MulMonotone(2 * p + 1, 2 * q - 1, total);
    } else if p > q {
      MulMonotone(2 * q + 1, 2 * p - 1, total);
    }
  }

  /** For the question counts the start screen offers, 100 * score / total is
      never exactly halfway between two integers, so any rounding rule
      (and the floating-point `Math.round`) gives the same percentage. */
  lemma NoTiesForOfferedCounts(score: nat, total: nat)
    requires total == 3 || total == 5 || total == 10
    ensures (200 * score) % (2 * total) != total
  {
    var m := (200 * score) % (2 * total);
    var d := (200 * score) / (2 * total);
    assert 200 * score == 2 * total * d + m;
    if total == 3 {
      assert m == 2 * (100 * score - 3 * d);
    } else {
      assert m == 10 * (20 * score - (total / 5) * d);
    }
  }

  /** A higher score never gives a lower percentage. */
  lemma PercentageMonotone(score: nat, score': nat, total: nat)
    requires total > 0 && score <= score'
    ensures Percentage(score, total) <= Percentage(score', total)
  {
    var p, p' := Percentage(score, total), Percentage(score', total);
    if p' < p {
      MulMonotone(2 * p' + 1, 2 * p - 1, total);
      assert false;
    }
  }

  /** The three feedback messages under the score. */
  datatype Feedback = Excellent | GoodEffort | KeepLearning

  function FeedbackFor(pct: int): (f: Feedback)
    ensures f == Excellent <==> pct >= 80
    ensures f == GoodEffort <==> 50 <= pct < 80
    ensures f == KeepLearning <==> pct < 50
  {
    if pct >= 80 then Excellent else if pct >= 50 then GoodEffort else KeepLearning
  }

  function Message(f: Feedback): string
  {
    match f
    case Excellent => "Excellent knowledge!"
    case GoodEffort => "Good effort!"
    case KeepLearning => "Keep learning!"
  }

  /** The colour of the feedback message. */
  datatype Tone = Emerald | Orange

  function ToneFor(pct: int): (t: Tone)
    ensures t == Emerald <==> pct >= 70
  {
    if pct >= 70 then Emerald else Orange
  }

  function Rank(f: Feedback): nat
  {
    match f
    case KeepLearning => 0
    case GoodEffort => 1
    case Excellent => 2
  }

  /** A higher percentage never gives a worse message; an excellent result is
      always shown in emerald and a "keep learning" one in orange. */
  lemma FeedbackConsistent(pct: int, pct': int)
    requires pct <= pct'
    ensures Rank(FeedbackFor(pct)) <= Rank(FeedbackFor(pct'))
    ensures FeedbackFor(pct) == Excellent ==> ToneFor(pct) == Emerald
    ensures FeedbackFor(pct) == KeepLearning ==> ToneFor(pct) == Orange
  {
  }

  /** `history.find(h => h.questionIndex === index)`: the first entry for the
      question, if there is one. */
  function FindRecord(history: seq<AnswerRecord>, index: nat): (r: Option<AnswerRecord>)
    ensures r.None? <==> forall k | 0 <= k < |history| :: history[k].questionIndex != index
    ensures r.Some? ==>
              exists k | 0 <= k < |history| ::
                && history[k] == r.value
                && r.value.questionIndex == index
                && forall j | 0 <= j < k :: history[j].questionIndex != index
  {
    if history == [] then None
    else if history[0].questionIndex == index then
      Some(history[0])
    else
      var r := FindRecord(history[1..], index);
      assert forall k | 1 <= k < |history| :: history[k] == history[1..][k - 1];
      r
  }

  /** One row of the answer review. `selection` is the found record's answer
      (absent when the question has no record); it is displayed only when
      the row is not marked correct. */
  datatype ReviewRow = ReviewRow(
    question: string,
    isCorrect: bool,
    showsSelection: bool,
    selection: Option<string>,
    correctAnswer: string,
    explanation: string)

  function RowFor(q: QuizQuestion, result: Option<AnswerRecord>): (row: ReviewRow)
    ensures row.isCorrect <==> result.Some? && result.value.isCorrect
    ensures row.showsSelection <==> !row.isCorrect
    ensures row.selection == (if result.Some? then Some(result.value.selectedAnswer) else None)
    ensures row.question == q.question && row.correctAnswer == q.correctAnswer && row.explanation == q.explanation
  {
    var isCorrect := result.Some? && result.value.isCorrect;
    ReviewRow(q.question, isCorrect, !isCorrect,
              if result.Some? then Some(result.value.selectedAnswer) else None,
              q.correctAnswer, q.explanation)
  }

  /** `questions.map((q, idx) => ...)`: one row per question, in question
      order, each built from the first log entry for that index. */
  function ReviewRows(questions: seq<QuizQuestion>, history: seq<AnswerRecord>): (rows: seq<ReviewRow>)
    ensures |rows| == |questions|
    ensures forall i | 0 <= i < |rows| :: rows[i] == RowFor(questions[i], FindRecord(history, i))
  {
    seq(|questions|, i requires 0 <= i < |questions| => RowFor(questions[i], FindRecord(history, i)))
  }

  /** For the log a completed quiz hands over, the entry found for question
      `i` is entry `i` itself. */
  lemma {:induction false} FindInCompleteLog(questions: seq<QuizQuestion>, history: seq<AnswerRecord>, i: nat)
    requires QuizScreen.CompleteLog(questions, history) && i < |history|
    ensures FindRecord(history, i) == Some(history[i])
  {
    var r := FindRecord(history, i);
    assert history[i].questionIndex == i;
    var k :| 0 <= k < |history| && history[k] == r.value && r.value.questionIndex == i;
    assert history[k].questionIndex == k;
  }

  /** Over a completed quiz's log, row `i` shows the `i`-th answer: marked
      correct exactly when the chosen answer is the question's correct one,
      and otherwise showing that wrong choice next to the correct answer. */
  lemma ReviewOfCompleteLog(questions: seq<QuizQuestion>, history: seq<AnswerRecord>, i: nat)
    requires QuizScreen.CompleteLog(questions, history) && i < |questions|
    ensures ReviewRows(questions, history)[i].isCorrect == history[i].isCorrect
    ensures ReviewRows(questions, history)[i].isCorrect <==> history[i].selectedAnswer == questions[i].correctAnswer
    ensures ReviewRows(questions, history)[i].selection == Some(history[i].selectedAnswer)
  {
    FindInCompleteLog(questions, history, i);
  }

  /** The number of rows marked with a check mark. */
  function CorrectRows(rows: seq<ReviewRow>): (n: nat)
    ensures n <= |rows|
  {
    if rows == [] then 0 else (if rows[0].isCorrect then 1 else 0) + CorrectRows(rows[1..])
  }
}
