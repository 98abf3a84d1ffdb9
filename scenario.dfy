/** A History quiz of three questions driven through the screens'
    operations, using only their contracts: start it from the form, answer
    wrong, right, right, and look at the results. */
module Scenario {
  import opened Types
  import StartScreen
  import QuizScreen
  import ResultScreen
  import App

  function Questions(): seq<QuizQuestion>
  {
    [ QuizQuestion("Q0", ["a", "b", "c", "d"], "a", "E0"),
      QuizQuestion("Q1", ["a", "b", "c", "d"], "b", "E1"),
      QuizQuestion("Q2", ["a", "b", "c", "d"], "c", "E2") ]
  }

  function Log(): seq<AnswerRecord>
  {
    [AnswerRecord(0, "d", false), AnswerRecord(1, "b", true), AnswerRecord(2, "c", true)]
  }

  method StartFromForm()
  {
    var form := new StartScreen.Form();
    form.ChooseCategory("Indian History");
    form.ChooseCount(3);
    var started := form.HandleSubmit();
    assert started == Some(QuizSettings("Indian History", Medium, 3));
    form.TypeCustomTopic("   ");
    assert !form.Disabled();
    started := form.HandleSubmit();
    assert started == None;
  }

  /** Answers a freshly mounted quiz over `Questions()` wrong, right, right,
      and returns the log the screen hands over on "View Results". */
  method AnswerWrongRightRight(quiz: QuizScreen.Quiz) returns (log: seq<AnswerRecord>)
    requires quiz.Valid() && quiz.questions == Questions()
    requires quiz.currentIndex == 0 && quiz.selectedAnswer == None && !quiz.isAnswerChecked && quiz.results == []
    modifies quiz
    ensures log == Log() && QuizScreen.CompleteLog(Questions(), log)
  {
    quiz.HandleSelect("d");
    quiz.HandleCheck();
    assert quiz.results == [AnswerRecord(0, "d", false)];
    quiz.HandleSelect("a");
    assert quiz.selectedAnswer == Some("d");
    var done := quiz.HandleNext();
    assert done == None && quiz.currentIndex == 1;
    quiz.HandleSelect("b");
    quiz.HandleCheck();
    assert quiz.results == Log()[..2];
    done := quiz.HandleNext();
    assert done == None && quiz.currentIndex == 2;
    quiz.HandleSelect("c");
    quiz.HandleCheck();
    assert quiz.results == Log();
    done := quiz.HandleNext();
    log := done.value;
  }

  /** The whole session: the provider returns `Questions()`, the quiz screen
      is mounted over the stored questions and played, and its log goes to
      the results screen. */
  method SessionToResults()
  {
    var app := new App.AppState();
    app.HandleStart(QuizSettings("Indian History", Medium, 3));
    app.ProviderResolved(App.Generated(Questions()));
    assert app.status == Quiz && app.history == [];
    var quiz := new QuizScreen.Quiz(app.questions);
    var log := AnswerWrongRightRight(quiz);
    app.HandleQuizComplete(log);
    assert App.Score(app.history) == 2;
    assert ResultScreen.Percentage(App.Score(app.history), |app.questions|) == 67;
    assert ResultScreen.FeedbackFor(67) == ResultScreen.GoodEffort;
    assert ResultScreen.Percentage(3, 5) == 60;
    app.HandleRestart();
    assert app.status == Idle && app.questions == [] && app.history == [];
  }
}
