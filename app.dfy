/** The application's phase machine (App.tsx): which screen is shown, the
    questions of the current quiz, the final answer log and the error text. */
module App {
  import opened Types
  import QuizScreen
  import ResultScreen

  /** The message shown on the error screen after any provider failure. */
  const FailureMessage: string := "Failed to generate quiz. Please try a different topic or try again later."

  /** What the question provider's call ends with; its contents are an input
      of the model, unconstrained. */
  datatype ProviderOutcome = Generated(questions: seq<QuizQuestion>) | Failed

  /** `history.filter(h => h.isCorrect).length`: the number of correct
      answers in the log. */
  function Score(history: seq<AnswerRecord>): (n: nat)
    ensures n <= |history|
    ensures n == |history| <==> forall i | 0 <= i < |history| :: history[i].isCorrect
    ensures n == 0 <==> forall i | 0 <= i < |history| :: !history[i].isCorrect
  {
    if history == [] then 0
    else
      var rest := Score(history[1..]);
      assert forall i | 1 <= i < |history| :: history[i] == history[1..][i - 1];
      (if history[0].isCorrect then 1 else 0) + rest
  }

  /** Answering one more question adds one to the score exactly when the
      answer is correct. */
  lemma {:induction false} ScoreAppend(history: seq<AnswerRecord>, r: AnswerRecord)
    ensures Score(history + [r]) == Score(history) + (if r.isCorrect then 1 else 0)
  {
    if history != [] {
      assert (history + [r])[1..] == history[1..] + [r];
      ScoreAppend(history[1..], r);
    }
  }

  /** Two logs with the same verdicts, position by position, have the same
      number of check marks in the review and the same score. */
  lemma {:induction false} CorrectRowsMatch(rows: seq<ResultScreen.ReviewRow>, history: seq<AnswerRecord>)
    requires |rows| == |history|
    requires forall i | 0 <= i < |rows| :: rows[i].isCorrect == history[i].isCorrect
    ensures ResultScreen.CorrectRows(rows) == Score(history)
  {
    if rows != [] {
      assert forall i | 0 <= i < |rows| - 1 :: rows[1..][i] == rows[i + 1] && history[1..][i] == history[i + 1];
      CorrectRowsMatch(rows[1..], history[1..]);
    }
  }

  /** What the results screen shows for a completed quiz agrees with itself:
      the review marks exactly `score` rows correct, and the percentage lies
      between 0 and 100. */
  lemma ReviewAgreesWithScore(questions: seq<QuizQuestion>, history: seq<AnswerRecord>)
    requires QuizScreen.CompleteLog(questions, history)
    ensures ResultScreen.CorrectRows(ResultScreen.ReviewRows(questions, history)) == Score(history)
    ensures ResultScreen.Percentage(Score(history), |questions|) <= 100
  {
    var rows := ResultScreen.ReviewRows(questions, history);
    forall i | 0 <= i < |rows| ensures rows[i].isCorrect == history[i].isCorrect {
      ResultScreen.ReviewOfCompleteLog(questions, history, i);
    }
    CorrectRowsMatch(rows, history);
  }

  /** The application state. */
  class AppState {
    var status: AppStatus
    var questions: seq<QuizQuestion>
    var history: seq<AnswerRecord>
    var errorMsg: string

    /** Questions are held only during a quiz and on its results; a log only
        on the results, where it is the complete log of those questions; the
        error text is the failure message on the error screen, empty while
        loading, in a quiz and on the results. */
    ghost predicate Valid()
      reads this
    {
      && (status != Quiz && status != Results ==> questions == [])
      && (status != Results ==> history == [])
      && (status == Results ==> QuizScreen.CompleteLog(questions, history))
      && (status == Loading || status == Quiz || status == Results ==> errorMsg == "")
      && (status == Error ==> errorMsg == FailureMessage)
      && (status == Idle ==> errorMsg == "" || errorMsg == FailureMessage)
    }

    /** The initial state: the start screen, nothing stored. */
    constructor ()
      ensures Valid()
      ensures status == Idle && questions == [] && history == [] && errorMsg == ""
    {
      status := Idle;
      questions := [];
      history := [];
      errorMsg := "";
    }

    /** The first half of `handleStart`, reached from the start screen: show
        the loading screen and clear the error text, then call the provider
        with the settings' topic, difficulty and count. */
    method HandleStart(settings: QuizSettings)
      requires Valid() && status == Idle
      modifies this
      ensures Valid()
      ensures status == Loading && errorMsg == ""
      ensures questions == old(questions) && history == old(history)
    {
      status := Loading;
      errorMsg := "";
    }

    /** The second half of `handleStart`, when the provider's call ends: on
        success store exactly the returned questions and show the quiz; on
        failure store the failure message and show the error screen, leaving
        the questions untouched. */
    method ProviderResolved(outcome: ProviderOutcome)
      requires Valid() && status == Loading
      modifies this
      ensures Valid()
      ensures outcome.Generated? ==>
                status == Quiz && questions == outcome.questions && errorMsg == old(errorMsg)
      ensures outcome.Failed? ==>
                status == Error && errorMsg == FailureMessage && questions == old(questions)
      ensures history == old(history)
    {
      match outcome
      case Generated(generated) =>
        questions := generated;
        status := Quiz;
      case Failed =>
        errorMsg := FailureMessage;
        status := Error;
    }

    /** `handleQuizComplete`, called by the quiz screen over these questions
        with its complete log: store the log and show the results. */
    method HandleQuizComplete(results: seq<AnswerRecord>)
      requires Valid() && status == Quiz
      requires QuizScreen.CompleteLog(questions, results)
      modifies this
      ensures Valid()
      ensures status == Results && history == results
      ensures questions == old(questions) && errorMsg == old(errorMsg)
    {
      history := results;
      status := Results;
    }

    /** `handleRestart`, from the results screen: forget the questions and
        the log and go back to the start screen. */
    method HandleRestart()
      requires Valid() && status == Results
      modifies this
      ensures Valid()
      ensures status == Idle && questions == [] && history == []
      ensures errorMsg == old(errorMsg)
    {
      questions := [];
      history := [];
      status := Idle;
    }

    /** The error screen's "Try Again" button: back to the start screen,
        nothing else changes. */
    method TryAgain()
      requires Valid() && status == Error
      modifies this
      ensures Valid()
      ensures status == Idle
      ensures questions == old(questions) && history == old(history) && errorMsg == old(errorMsg)
    {
      status := Idle;
    }
  }
}
