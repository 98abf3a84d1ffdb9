/** The records the quiz passes between its screens (types.ts). */
module Types {

  /** `T | null` in the source; also the result of `Array.prototype.find`. */
  datatype Option<T> = None | Some(value: T)

  /** One multiple-choice question as the question provider returns it.
      Nothing checks that `correctAnswer` is one of `options`, or how many
      options there are, so the model does not assume either. */
  datatype QuizQuestion = QuizQuestion(
    question: string,
    options: seq<string>,
    correctAnswer: string,
    explanation: string)

  datatype Difficulty = Easy | Medium | Hard | Expert

  /** What the start screen hands to the application when a quiz starts. */
  datatype QuizSettings = QuizSettings(topic: string, difficulty: Difficulty, questionCount: nat)

  /** One entry of the answer log: which question, what was chosen, and
      whether it was the correct answer. */
  datatype AnswerRecord = AnswerRecord(questionIndex: nat, selectedAnswer: string, isCorrect: bool)

  /** The application's phase; exactly one screen is shown per phase. */
  datatype AppStatus = Idle | Loading | Quiz | Error | Results
}
