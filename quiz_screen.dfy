/** The per-question answering machine of the quiz screen
    (components/QuizScreen.tsx). */
module QuizScreen {
  import opened Types

  /** JavaScript truthiness of the tentative selection: both `null` and the
      empty string are falsy. */
  predicate HasSelection(selected: Option<string>)
  {
    selected.Some? && selected.value != ""
  }

  /** The record the Check handler appends for question `index`. */
  function Graded(questions: seq<QuizQuestion>, index: nat, selected: string): AnswerRecord
    requires index < |questions|
  {
    AnswerRecord(index, selected, selected == questions[index].correctAnswer)
  }

  /** An answer log for a prefix of `questions`: entry `i` is the answer to
      question `i`, it holds a non-empty selection and its verdict agrees
      with the question's correct answer. */
  ghost predicate GradedPrefix(questions: seq<QuizQuestion>, results: seq<AnswerRecord>)
  {
    && |results| <= |questions|
    && forall i | 0 <= i < |results| ::
         && results[i].questionIndex == i
         && results[i].selectedAnswer != ""
         && results[i].isCorrect == (results[i].selectedAnswer == questions[i].correctAnswer)
  }

  /** What the quiz screen hands over when it completes: one graded entry per
      question, in question order. */
  ghost predicate CompleteLog(questions: seq<QuizQuestion>, results: seq<AnswerRecord>)
  {
    |questions| > 0 && |results| == |questions| && GradedPrefix(questions, results)
  }

  /** Appending the grade of the next unanswered question keeps the log graded. */
  lemma GradedPrefixExtend(questions: seq<QuizQuestion>, results: seq<AnswerRecord>, selected: string)
    requires GradedPrefix(questions, results) && |results| < |questions| && selected != ""
    ensures GradedPrefix(questions, results + [Graded(questions, |results|, selected)])
  {
    var extended := results + [Graded(questions, |results|, selected)];
    forall i | 0 <= i < |extended|
      ensures extended[i].questionIndex == i && extended[i].selectedAnswer != ""
      ensures extended[i].isCorrect == (extended[i].selectedAnswer == questions[i].correctAnswer)
    {
      if i < |results| {
        assert extended[i] == results[i];
      }
    }
  }

  /** In a complete log every question index 0..|questions|-1 is answered by
      exactly one entry. */
  lemma CompleteLogCoversEachQuestionOnce(questions: seq<QuizQuestion>, results: seq<AnswerRecord>, q: nat)
    requires CompleteLog(questions, results) && q < |questions|
    ensures exists k | 0 <= k < |results| :: results[k].questionIndex == q
    ensures forall k, k' | 0 <= k < |results| && 0 <= k' < |results| ::
              results[k].questionIndex == results[k'].questionIndex ==> k == k'
  {
    assert results[q].questionIndex == q;
  }

  /** The state of one quiz screen, mounted over a fixed, non-empty list of
      questions. */
  class Quiz {
    const questions: seq<QuizQuestion>
    var currentIndex: nat
    var selectedAnswer: Option<string>
    var isAnswerChecked: bool
    var results: seq<AnswerRecord>

    /** The cursor stays on a question, and the log holds one graded entry
        per answered question: all before the cursor, plus the current one
        once it is checked. */
    ghost predicate Valid()
      reads this
    {
      && 0 < |questions|
      && currentIndex < |questions|
      && |results| == currentIndex + (if isAnswerChecked then 1 else 0)
      && GradedPrefix(questions, results)
    }

    /** The Check button is rendered only while the answer is unchecked. */
    predicate CheckShown()
      reads this
    {
      !isAnswerChecked
    }

    /** The Next (or View Results) button is rendered only once it is checked. */
    predicate NextShown()
      reads this
    {
      isAnswerChecked
    }

    /** Whether the Next button reads "View Results" rather than "Next Question". */
    predicate OnLastQuestion()
      reads this
    {
      !(currentIndex < |questions| - 1)
    }

    /** Mounting the screen: first question, no selection, unchecked, empty log. */
    constructor (questions: seq<QuizQuestion>)
      requires |questions| > 0
      ensures Valid()
      ensures this.questions == questions
      ensures currentIndex == 0 && selectedAnswer == None && !isAnswerChecked && results == []
    {
      this.questions := questions;
      currentIndex := 0;
      selectedAnswer := None;
      isAnswerChecked := false;
      results := [];
    }

    /** Clicking an option: ignored once the answer is checked, otherwise it
        replaces the tentative selection and nothing else. */
    method HandleSelect(option: string)
      requires Valid()
      modifies this
      ensures Valid()
      ensures old(isAnswerChecked) ==> selectedAnswer == old(selectedAnswer)
      ensures !old(isAnswerChecked) ==> selectedAnswer == Some(option)
      ensures currentIndex == old(currentIndex) && isAnswerChecked == old(isAnswerChecked)
      ensures results == old(results)
    {
      if isAnswerChecked {
        return;
      }
      selectedAnswer := Some(option);
    }

    /** Clicking Check (reachable only while unchecked): without a selection
        nothing changes; otherwise exactly one graded record for the current
        question is appended and the answer becomes checked. */
    method HandleCheck()
      requires Valid() && CheckShown()
      modifies this
      ensures Valid()
      ensures !HasSelection(old(selectedAnswer)) ==> !isAnswerChecked && results == old(results)
      ensures HasSelection(old(selectedAnswer)) ==>
                && isAnswerChecked
                && results == old(results) + [Graded(questions, currentIndex, old(selectedAnswer).value)]
      ensures currentIndex == old(currentIndex) && selectedAnswer == old(selectedAnswer)
    {
      if !HasSelection(selectedAnswer) {
        return;
      }
      isAnswerChecked := true;
      var record := Graded(questions, currentIndex, selectedAnswer.value);
      GradedPrefixExtend(questions, results, selectedAnswer.value);
      results := results + [record];
    }

    /** Clicking Next (reachable only once checked): before the last question
        the cursor moves on by one and the selection and checked flag are
        cleared; on the last question nothing changes and the complete log is
        handed to the caller. */
    method HandleNext() returns (completed: Option<seq<AnswerRecord>>)
      requires Valid() && NextShown()
      modifies this
      ensures Valid()
      ensures old(currentIndex) < |questions| - 1 ==>
                && currentIndex == old(currentIndex) + 1
                && selectedAnswer == None && !isAnswerChecked
                && results == old(results)
                && completed == None
      ensures old(currentIndex) == |questions| - 1 ==>
                && unchanged(this)
                && completed == Some(results)
                && CompleteLog(questions, results)
    {
      if currentIndex < |questions| - 1 {
        currentIndex := currentIndex + 1;
        selectedAnswer := None;
        isAnswerChecked := false;
        completed := None;
      } else {
        completed := Some(results);
      }
    }
  }
}
