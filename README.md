# Quiz session model

A Dafny model of the logic inside a browser quiz application. The user
starts a quiz from a setup form by picking a preset category or typing a
topic, and chooses a difficulty and a question count. A question provider
(a generative-AI call) supplies multiple-choice questions. The quiz screen
walks through them one at a time: select, check, next. A results screen
shows the score, a percentage, a feedback message and a review of every
question.

Each source file of the core is one module:

- `Types` (types.ts): the records `QuizQuestion`, `QuizSettings` and
  `AnswerRecord`, the `Difficulty` choices and the `AppStatus` phases.
- `QuizScreen` (components/QuizScreen.tsx): class `Quiz`. It has the
  screen's four state fields and one method per handler: `HandleSelect`,
  `HandleCheck` and `HandleNext`. Its invariant `Valid()` says the cursor
  stays on a question and the answer log holds one graded entry per answered
  question: entry `i` is for question `i`, and there are `currentIndex + 1`
  entries once the current answer is checked, `currentIndex` before. So the
  log handed over at the end is complete (`CompleteLog`).
- `App` (App.tsx): class `AppState`. It has the phase, questions, history
  and error text. `handleStart` is async, so it is two events: `HandleStart`
  (to the loading screen), then `ProviderResolved` with the provider's
  outcome, which is an unconstrained input. `Score` is the pure count behind
  `calculateScore`.
- `StartScreen` (components/StartScreen.tsx): class `Form`. Choosing a
  category and typing a topic clear each other. Beside it are the pure
  topic-resolution rule (`Trim`, `ResolveTopic`, `SubmitOutcome`) and the
  rule for when the submit button is disabled.
- `ResultScreen` (components/ResultScreen.tsx), pure: the percentage, the
  feedback thresholds, the colour of the message and the review rows.
- `Scenario`: client methods that use only the operations' contracts. One
  submits the form. The other mounts a quiz screen over the questions the
  application stored, answers wrong, right, right, and hands the screen's
  own log to the results screen.

Each React handler is one atomic transition. A button that is rendered only
in some states is a `requires` on the method it calls:

- Check is shown only while the answer is unchecked.
- Next is shown only once it is checked.
- Each of the application's handlers is reachable only from the screen
  rendered in its phase.

A guard inside a handler is a branch of the method instead.

The model follows the code as written:

- The provider's list is stored as it is. Nothing checks that it is
  non-empty, that it has the requested length, or that `correctAnswer` is
  one of the options.
- On the last question, Next does not move the cursor. It hands the log
  over.
- "Try Again" on the error screen only changes the phase.
- The submit button is disabled only when both fields are empty, untrimmed.
- A question with no log entry is shown as incorrect, with no selection.

A non-empty question list is therefore a precondition of the quiz screen
(`Quiz` constructor) and of the percentage (`total > 0`). It is assumed, not
proved.

## Model

| member | source | states |
|---|---|---|
| `QuizScreen.HasSelection` | components/QuizScreen.tsx:25 | a selection counts only when it is present and non-empty, as JavaScript truthiness treats a `string` or `null` value |
| `QuizScreen.Graded` | components/QuizScreen.tsx:28-33 | the record for a checked answer: the current index, the selection, and whether it equals the question's correct answer |
| `QuizScreen.Quiz.CheckShown` | components/QuizScreen.tsx:152 | the Check button is rendered exactly while the answer is unchecked |
| `QuizScreen.Quiz.NextShown` | components/QuizScreen.tsx:166-168 | the Next button is rendered exactly once the answer is checked |
| `QuizScreen.Quiz.constructor` | components/QuizScreen.tsx:12-15 | a fresh screen is on question 0, with no selection, unchecked and an empty log, and satisfies the invariant |
| `QuizScreen.Quiz.HandleSelect` | components/QuizScreen.tsx:19-22 | once checked, nothing changes; otherwise the selection becomes the clicked option and nothing else changes |
| `QuizScreen.Quiz.HandleCheck` | components/QuizScreen.tsx:24-35 | with no selection (null or empty) nothing changes; otherwise exactly one record `{currentIndex, selection, selection == correctAnswer}` is appended, earlier records are kept, the answer becomes checked and the invariant is kept; callable only while the Check button is shown (line 152) |
| `QuizScreen.Quiz.HandleNext` | components/QuizScreen.tsx:37-45 | before the last question the index grows by exactly one and the selection and checked flag are cleared, with the log unchanged; on the last question nothing changes and the log handed over is complete; callable only while the Next button is shown (line 167) |
| `QuizScreen.GradedPrefixExtend` | components/QuizScreen.tsx:29-34 | appending the grade of the next unanswered question to a graded log keeps it graded, so entry `i` stays the answer to question `i` |
| `QuizScreen.CompleteLogCoversEachQuestionOnce` | components/QuizScreen.tsx:43 | in the log handed over at completion, every question index is answered by exactly one entry |
| `App.FailureMessage` | App.tsx:30 | the one message the error screen shows after any provider failure |
| `App.AppState.constructor` | App.tsx:12-15 | the application starts on the start screen with no questions, no history and no error text |
| `App.AppState.HandleStart` | App.tsx:17-19 | starting shows the loading screen and clears the error text, keeping the invariant |
| `App.AppState.ProviderResolved` | App.tsx:20-32 | on success exactly the returned questions are stored and the quiz is shown; on failure the fixed failure message is stored, the error screen is shown and the questions are untouched |
| `App.AppState.HandleQuizComplete` | App.tsx:35-38 | the history becomes the quiz screen's complete log and the results are shown |
| `App.AppState.HandleRestart` | App.tsx:40-44 | questions and history become empty and the start screen is shown, so no trace of the session is left |
| `App.AppState.TryAgain` | App.tsx:110 | from the error screen, only the phase changes, to the start screen |
| `App.Score` | App.tsx:46-48 | the score is at most the number of log entries; it equals that number exactly when every answer is correct, and is 0 exactly when none is |
| `App.ScoreAppend` | App.tsx:46-48 | one more answer adds one to the score exactly when it is correct |
| `App.CorrectRowsMatch` | App.tsx:86-94 | review rows and log entries with the same verdicts position by position give the same count of correct rows and score |
| `App.ReviewAgreesWithScore` | App.tsx:86-94 | for a completed quiz, the review marks exactly `score` rows correct and the percentage is at most 100 |
| `StartScreen.IsJsWhitespace` | components/StartScreen.tsx:29 | the characters `trim()` removes: ECMAScript's WhiteSpace and LineTerminator code points |
| `StartScreen.AllowedCount` | components/StartScreen.tsx:147-149 | the question counts the selector offers: 3, 5 and 10 |
| `StartScreen.SubmitDisabled` | components/StartScreen.tsx:164 | the submit button is disabled exactly when both the category and the custom text are empty, untrimmed |
| `StartScreen.Trim` | components/StartScreen.tsx:29 | `trim()` is empty exactly when the text is whitespace only; otherwise it is a slice of the text with only whitespace before and after it, and it starts and ends with a non-whitespace character |
| `StartScreen.SkipLeading` | components/StartScreen.tsx:29 | scanning from the front stops at the first non-whitespace character, having passed only whitespace |
| `StartScreen.SkipTrailing` | components/StartScreen.tsx:29 | scanning from the back stops just past the last non-whitespace character, having passed only whitespace |
| `StartScreen.ResolveTopic` | components/StartScreen.tsx:29 | custom text that is not blank wins, untrimmed; otherwise the preset category is the topic |
| `StartScreen.SubmitOutcome` | components/StartScreen.tsx:27-34 | a start request is issued exactly when the custom text is not blank or a category is chosen, and it carries the resolved topic, the difficulty and the count |
| `StartScreen.DisabledSubmitIsInert` | components/StartScreen.tsx:164 | a disabled button (both fields empty) never starts a quiz; whitespace-only custom text enables the button and still starts nothing |
| `StartScreen.CategoriesNotBlank` | components/StartScreen.tsx:16-25 | no preset category id is blank |
| `StartScreen.Form.constructor` | components/StartScreen.tsx:11-14 | the defaults are no category, no custom text, Medium and 5 questions |
| `StartScreen.Form.ChooseCategory` | components/StartScreen.tsx:68-71 | choosing a category sets it and clears the custom text, so at most one of the two fields is non-empty |
| `StartScreen.Form.TypeCustomTopic` | components/StartScreen.tsx:101-104 | typing sets the custom text and clears the category |
| `StartScreen.Form.ChooseDifficulty` | components/StartScreen.tsx:122-131 | the difficulty becomes the chosen one of the four, and nothing else changes |
| `StartScreen.Form.ChooseCount` | components/StartScreen.tsx:142-150 | the count becomes the chosen one of 3, 5 and 10, and nothing else changes |
| `StartScreen.Form.HandleSubmit` | components/StartScreen.tsx:27-34 | submitting issues exactly the request `SubmitOutcome` describes; in a valid form a started quiz always has a non-blank topic and an offered count |
| `ResultScreen.Percentage` | components/ResultScreen.tsx:15 | the percentage is the nearest integer to 100 * score / total, a tie rounding up, and is at most 100 when the score is at most the total |
| `ResultScreen.PercentageIsNearest` | components/ResultScreen.tsx:15 | no other integer is that close, so the percentage is determined uniquely |
| `ResultScreen.NoTiesForOfferedCounts` | components/ResultScreen.tsx:15 | for totals of 3, 5 and 10 the exact ratio is never a half, so the integer rounding agrees with `Math.round` |
| `ResultScreen.PercentageMonotone` | components/ResultScreen.tsx:15 | a higher score never gives a lower percentage |
| `ResultScreen.FeedbackFor` | components/ResultScreen.tsx:31 | "Excellent" exactly when pct >= 80, "Good effort" exactly when 50 <= pct < 80, "Keep learning" exactly when pct < 50 |
| `ResultScreen.ToneFor` | components/ResultScreen.tsx:30 | the message is emerald exactly when pct >= 70, orange otherwise |
| `ResultScreen.FeedbackConsistent` | components/ResultScreen.tsx:30-31 | a higher percentage never gives a worse message; "Excellent" is always emerald and "Keep learning" always orange |
| `ResultScreen.FindRecord` | components/ResultScreen.tsx:52 | the result is absent exactly when no entry has the index; otherwise it is the first entry with that index |
| `ResultScreen.RowFor` | components/ResultScreen.tsx:53-89 | a row is correct exactly when a record exists and is correct, a missing record counting as incorrect; the selection is shown exactly when the row is not correct; the question, the correct answer and the explanation are always shown |
| `ResultScreen.ReviewRows` | components/ResultScreen.tsx:51-53 | there is exactly one row per question, in question order, each built from the first log entry for its index |
| `ResultScreen.FindInCompleteLog` | components/ResultScreen.tsx:52 | in a completed quiz's log, the entry found for question `i` is entry `i` |
| `ResultScreen.ReviewOfCompleteLog` | components/ResultScreen.tsx:51-78 | for a completed quiz, row `i` carries answer `i`: it is correct exactly when the chosen answer is the correct one, and otherwise shows that choice |
| `ResultScreen.CorrectRows` | components/ResultScreen.tsx:61-66 | the number of check-marked rows is at most the number of rows |

## Left out

- services/genAI.ts is not part of this model. The network call to the
  question provider, its credentials, its prompt and its unchecked JSON cast
  are reduced to `App.ProviderOutcome`: a list of questions, or a failure.
  The list is an arbitrary input. The settings `HandleStart` receives go
  only to that call, so the model does not keep them.
- components/LoadingScreen.tsx, the animations, the style classes and the
  layout are presentation only. This includes the progress-bar width
  `(currentIndex + 1) / questions.length * 100`, which is a floating-point
  style value.
- React scheduling (batched state updates, `await`, stale closures) is not
  modelled: each handler is one atomic transition.
- The `QuizState` interface of types.ts is declared but never used.
- Questions having four options, and `correctAnswer` being one of them, are
  not claimed: the code never checks either.
- `ResultScreen.Percentage`: computed on integers rather than in floating
  point. `NoTiesForOfferedCounts` shows that no halfway case exists for the
  offered counts. Floating-point error on other totals is not modelled.
- `StartScreen.Trim`: works on Unicode scalar values rather than on UTF-16
  code units. The whitespace set is the one of ECMAScript's `trim`.
- The literal message texts are `ResultScreen.Message`, with no contract of
  their own. The "Next Question" or "View Results" label is
  `QuizScreen.Quiz.OnLastQuestion`.
