/**
 * The quiz page's state machine: choosing a discipline, loading the
 * questions, moving between them, recording answers and scoring the quiz.
 * The page's state hooks become the fields of one object and each handler a
 * method; the clock is a parameter, and the question request is split at its
 * `await` into the call that starts it and the call that receives its answer.
 */
module QuizPage {
  import opened Wrappers
  import opened Questions

  datatype Phase = Selection | Loading | Quiz | Results

  /** The request `handleStartQuiz` sends for the chosen discipline, or for all of them. */
  datatype Request = ByDiscipline(discipline: string, limit: int) | AllDisciplines(limit: int)

  const DisciplineLimit: int := 45
  const AllDisciplinesLimit: int := 180

  /** Shown for a question the user left without an answer. */
  const Unanswered: string := "Não respondida"
  /** Shown when the questions could not be loaded. */
  const LoadError: string := "Erro ao carregar questões. Verifique se a API está funcionando."

  /** One line of the results: the question, the answer shown and whether it was right. */
  datatype QuestionResult = QuestionResult(question: Question, userAnswer: string, isCorrect: bool)

  /** `QuizResult` without the percentage score. */
  datatype QuizResult = QuizResult(
    totalQuestions: nat,
    correctAnswers: nat,
    wrongAnswers: int,
    timeSpent: int,
    discipline: string,
    questions: seq<QuestionResult>)

  /** The correct and wrong counts of a result add up to its number of questions. */
  predicate Consistent(r: QuizResult) {
    r.correctAnswers + r.wrongAnswers == r.totalQuestions
  }

  /** `if (selectedDiscipline)`: one discipline's questions, or a random draw from all. */
  function RequestFor(selected: Option<string>): (r: Request)
    ensures r.ByDiscipline? <==> selected.Some? && selected.value != ""
    ensures r.ByDiscipline? ==> r == ByDiscipline(selected.value, DisciplineLimit)
    ensures r.AllDisciplines? ==> r.limit == AllDisciplinesLimit
  {
    if selected.Some? && selected.value != "" then ByDiscipline(selected.value, DisciplineLimit)
    else AllDisciplines(AllDisciplinesLimit)
  }

  /** `userAnswer === question.correctAlternative`; a missing answer is `undefined`, never a string. */
  predicate IsCorrect(q: Question, answers: map<int, string>) {
    q.id in answers && answers[q.id] == q.correctAlternative
  }

  /** `userAnswer || 'Não respondida'` */
  function ShownAnswer(q: Question, answers: map<int, string>): (r: string)
    ensures r != ""
  {
    if q.id in answers && answers[q.id] != "" then answers[q.id] else Unanswered
  }

  /** The result line of one question. */
  function ResultFor(q: Question, answers: map<int, string>): QuestionResult {
    QuestionResult(q, ShownAnswer(q, answers), IsCorrect(q, answers))
  }

  /** How many of the questions were answered correctly. */
  function CountCorrect(qs: seq<Question>, answers: map<int, string>): (n: nat)
    ensures n <= |qs|
  {
    if qs == [] then 0
    else CountCorrect(qs[..|qs| - 1], answers) + (if IsCorrect(qs[|qs| - 1], answers) then 1 else 0)
  }

  /** How many of the questions were not answered correctly, answered or not. */
  function CountNotCorrect(qs: seq<Question>, answers: map<int, string>): nat {
    if qs == [] then 0
    else CountNotCorrect(qs[..|qs| - 1], answers) + (if IsCorrect(qs[|qs| - 1], answers) then 0 else 1)
  }

  /**
   * `wrongAnswers = total - correctAnswers` counts exactly the questions not
   * answered correctly, so the two counts add up to the number of questions.
   */
  lemma {:induction false} CorrectPlusWrong(qs: seq<Question>, answers: map<int, string>)
    ensures CountCorrect(qs, answers) + CountNotCorrect(qs, answers) == |qs|
    ensures |qs| - CountCorrect(qs, answers) == CountNotCorrect(qs, answers)
  {
    if qs != [] {
      CorrectPlusWrong(qs[..|qs| - 1], answers);
    }
  }

  /** The count is all of the questions exactly when every one of them was answered correctly. */
  lemma {:induction false} AllCorrectIffFullMarks(qs: seq<Question>, answers: map<int, string>)
    ensures CountCorrect(qs, answers) == |qs| <==> forall k :: 0 <= k < |qs| ==> IsCorrect(qs[k], answers)
    ensures CountCorrect(qs, answers) == 0 <==> forall k :: 0 <= k < |qs| ==> !IsCorrect(qs[k], answers)
  {
    if qs != [] {
      var init := qs[..|qs| - 1];
      AllCorrectIffFullMarks(init, answers);
      assert forall k :: 0 <= k < |init| ==> init[k] == qs[k];
    }
  }

  /**
   * A question without a recorded answer is shown as not answered and never
   * counts as correct; one answered with its correct alternative always does.
   */
  lemma UnansweredNotCorrect(q: Question, answers: map<int, string>)
    ensures q.id !in answers ==> ResultFor(q, answers) == QuestionResult(q, Unanswered, false)
    ensures q.id in answers && answers[q.id] == q.correctAlternative ==> ResultFor(q, answers).isCorrect
  {
  }

  /**
   * `finishQuiz`'s `map`: a result line per question, in order, counting the
   * correct answers as it goes.
   */
  method ScoreAnswers(qs: seq<Question>, answers: map<int, string>)
    returns (correctAnswers: nat, results: seq<QuestionResult>)
    ensures correctAnswers == CountCorrect(qs, answers)
    ensures |results| == |qs|
    ensures forall k :: 0 <= k < |qs| ==> results[k] == ResultFor(qs[k], answers)
  {
    correctAnswers := 0;
    results := [];
    for i := 0 to |qs|
      invariant correctAnswers == CountCorrect(qs[..i], answers)
      invariant |results| == i
      invariant forall k :: 0 <= k < i ==> results[k] == ResultFor(qs[k], answers)
    {
      var q := qs[i];
      var userAnswer := if q.id in answers then Some(answers[q.id]) else None;
      var isCorrect := userAnswer.Some? && userAnswer.value == q.correctAlternative;
      if isCorrect {
        correctAnswers := correctAnswers + 1;
      }
      var shown := if userAnswer.Some? && userAnswer.value != "" then userAnswer.value else Unanswered;
      results := results + [QuestionResult(q, shown, isCorrect)];
      assert qs[..i + 1][..i] == qs[..i];
    }
    assert qs[..|qs|] == qs;
  }

  class Page {
    var phase: Phase
    var selectedDiscipline: Option<string>
    var showConfirmFinish: bool
    var questions: seq<Question>
    var currentQuestionIndex: int
    var userAnswers: map<int, string>
    var startTime: int
    var quizResult: Option<QuizResult>
    var error: Option<string>

    /**
     * During the quiz the current index points at a question; in the results
     * phase there is a result, and every result's counts add up.
     */
    predicate Valid()
      reads this
    {
      && (phase == Quiz ==> 0 <= currentQuestionIndex < |questions|)
      && (phase == Results ==> quizResult.Some?)
      && (quizResult.Some? ==> Consistent(quizResult.value))
    }

    /** The page's initial state: the discipline selection, with nothing loaded. */
    constructor(now: int)
      ensures Valid() && phase == Selection && selectedDiscipline == None && !showConfirmFinish
      ensures questions == [] && currentQuestionIndex == 0 && userAnswers == map[]
      ensures startTime == now && quizResult == None && error == None
    {
      phase := Selection;
      selectedDiscipline := None;
      showConfirmFinish := false;
      questions := [];
      currentQuestionIndex := 0;
      userAnswers := map[];
      startTime := now;
      quizResult := None;
      error := None;
    }

    /** `handleDisciplineSelect` */
    method SelectDiscipline(discipline: Option<string>)
      requires Valid()
      modifies this
      ensures Valid() && selectedDiscipline == discipline
      ensures phase == old(phase) && questions == old(questions) && currentQuestionIndex == old(currentQuestionIndex)
      ensures userAnswers == old(userAnswers) && quizResult == old(quizResult) && error == old(error)
      ensures showConfirmFinish == old(showConfirmFinish) && startTime == old(startTime)
    {
      selectedDiscipline := discipline;
    }

    /**
     * `handleStartQuiz` up to its `await`: the page shows the loading phase
     * with no error, and the request for the selected discipline goes out.
     */
    method StartQuiz() returns (request: Request)
      requires quizResult.Some? ==> Consistent(quizResult.value)
      modifies this
      ensures Valid() && phase == Loading && error == None
      ensures request == RequestFor(selectedDiscipline)
      ensures selectedDiscipline == old(selectedDiscipline) && questions == old(questions)
      ensures currentQuestionIndex == old(currentQuestionIndex) && userAnswers == old(userAnswers)
      ensures quizResult == old(quizResult) && showConfirmFinish == old(showConfirmFinish)
      ensures startTime == old(startTime)
    {
      phase := Loading;
      error := None;
      if selectedDiscipline.Some? && selectedDiscipline.value != "" {
        request := ByDiscipline(selectedDiscipline.value, DisciplineLimit);
      } else {
        request := AllDisciplines(AllDisciplinesLimit);
      }
    }

    /**
     * `handleStartQuiz` after its `await`: a failed request or an empty list
     * sends the page back to the selection with the load error; a non-empty
     * list starts the quiz at its first question with no answers.
     */
    method QuestionsLoaded(loaded: Option<seq<Question>>, now: int)
      requires Valid()
      modifies this
      ensures Valid()
      ensures loaded.None? || loaded.value == [] ==>
                && phase == Selection && error == Some(LoadError)
                && questions == old(questions) && currentQuestionIndex == old(currentQuestionIndex)
                && userAnswers == old(userAnswers) && startTime == old(startTime)
      ensures loaded.Some? && loaded.value != [] ==>
                && phase == Quiz && error == old(error)
                && questions == loaded.value && currentQuestionIndex == 0
                && userAnswers == map[] && startTime == now
      ensures selectedDiscipline == old(selectedDiscipline) && quizResult == old(quizResult)
      ensures showConfirmFinish == old(showConfirmFinish)
    {
      if loaded.None? || |loaded.value| == 0 {
        error := Some(LoadError);
        phase := Selection;
        return;
      }
      questions := loaded.value;
      currentQuestionIndex := 0;
      userAnswers := map[];
      startTime := now;
      phase := Quiz;
    }

    /** `handleAnswerSelect`: records the answer to one question and leaves every other answer as it was. */
    method SelectAnswer(questionId: int, answer: string)
      requires Valid()
      modifies this
      ensures Valid()
      ensures userAnswers == old(userAnswers)[questionId := answer]
      ensures forall id :: id != questionId ==> (id in userAnswers <==> id in old(userAnswers))
      ensures forall id :: id != questionId && id in userAnswers ==> userAnswers[id] == old(userAnswers)[id]
      ensures phase == old(phase) && questions == old(questions) && currentQuestionIndex == old(currentQuestionIndex)
      ensures quizResult == old(quizResult) && showConfirmFinish == old(showConfirmFinish) && error == old(error)
      ensures selectedDiscipline == old(selectedDiscipline) && startTime == old(startTime)
    {
      userAnswers := userAnswers[questionId := answer];
    }

    /**
     * `handleQuestionSelect`: jumps to the given index, which the progress bar
     * takes from the question list; an index inside the list keeps the page valid.
     */
    method SelectQuestion(index: int)
      requires Valid()
      modifies this
      ensures currentQuestionIndex == index
      ensures 0 <= index < |questions| || phase != Quiz ==> Valid()
      ensures phase == old(phase) && questions == old(questions) && userAnswers == old(userAnswers)
      ensures quizResult == old(quizResult) && showConfirmFinish == old(showConfirmFinish) && error == old(error)
      ensures selectedDiscipline == old(selectedDiscipline) && startTime == old(startTime)
    {
      currentQuestionIndex := index;
    }

    /**
     * `handleNext`: moves to the next question while there is one; at the last
     * question it keeps the index and asks for confirmation to finish.
     */
    method Next()
      requires Valid()
      modifies this
      ensures Valid()
      ensures old(currentQuestionIndex) < |questions| - 1 ==>
                currentQuestionIndex == old(currentQuestionIndex) + 1 && showConfirmFinish == old(showConfirmFinish)
      ensures old(currentQuestionIndex) >= |questions| - 1 ==>
                currentQuestionIndex == old(currentQuestionIndex) && showConfirmFinish
      ensures phase == old(phase) && questions == old(questions) && userAnswers == old(userAnswers)
      ensures quizResult == old(quizResult) && error == old(error)
      ensures selectedDiscipline == old(selectedDiscipline) && startTime == old(startTime)
    {
      if currentQuestionIndex < |questions| - 1 {
        currentQuestionIndex := currentQuestionIndex + 1;
      } else {
        showConfirmFinish := true;
      }
    }

    /** `handlePrevious`: moves back one question, except from the first. */
    method Previous()
      requires Valid()
      modifies this
      ensures Valid()
      ensures old(currentQuestionIndex) > 0 ==> currentQuestionIndex == old(currentQuestionIndex) - 1
      ensures old(currentQuestionIndex) <= 0 ==> currentQuestionIndex == old(currentQuestionIndex)
      ensures phase == old(phase) && questions == old(questions) && userAnswers == old(userAnswers)
      ensures quizResult == old(quizResult) && showConfirmFinish == old(showConfirmFinish) && error == old(error)
      ensures selectedDiscipline == old(selectedDiscipline) && startTime == old(startTime)
    {
      if currentQuestionIndex > 0 {
        currentQuestionIndex := currentQuestionIndex - 1;
      }
    }

    /** `handleCancelFinish`: closes the confirmation and stays in the quiz. */
    method CancelFinish()
      requires Valid()
      modifies this
      ensures Valid() && !showConfirmFinish
      ensures phase == old(phase) && questions == old(questions) && currentQuestionIndex == old(currentQuestionIndex)
      ensures userAnswers == old(userAnswers) && quizResult == old(quizResult) && error == old(error)
      ensures selectedDiscipline == old(selectedDiscipline) && startTime == old(startTime)
    {
      showConfirmFinish := false;
    }

    /**
     * `finishQuiz`: scores every question against the recorded answers and
     * shows the results, with the time since the quiz started.
     */
    method FinishQuiz(now: int)
      requires Valid()
      modifies this
      ensures Valid() && phase == Results
      ensures quizResult == Some(QuizResult(
                |questions|,
                CountCorrect(questions, userAnswers),
                CountNotCorrect(questions, userAnswers),
                now - startTime,
                if selectedDiscipline.Some? && selectedDiscipline.value != "" then selectedDiscipline.value else "all",
                quizResult.value.questions))
      ensures |quizResult.value.questions| == |questions|
      ensures forall k :: 0 <= k < |questions| ==> quizResult.value.questions[k] == ResultFor(questions[k], userAnswers)
      ensures questions == old(questions) && currentQuestionIndex == old(currentQuestionIndex)
      ensures userAnswers == old(userAnswers) && showConfirmFinish == old(showConfirmFinish) && error == old(error)
      ensures selectedDiscipline == old(selectedDiscipline) && startTime == old(startTime)
    {
      var correctAnswers, results := ScoreAnswers(questions, userAnswers);
      CorrectPlusWrong(questions, userAnswers);
      var wrongAnswers := |questions| - correctAnswers;
      var discipline := if selectedDiscipline.Some? && selectedDiscipline.value != "" then selectedDiscipline.value else "all";
      quizResult := Some(QuizResult(|questions|, correctAnswers, wrongAnswers, now - startTime, discipline, results));
      phase := Results;
    }

    /** `handleConfirmFinish`: closes the confirmation and finishes the quiz. */
    method ConfirmFinish(now: int)
      requires Valid()
      modifies this
      ensures Valid() && phase == Results && !showConfirmFinish
      ensures quizResult == Some(QuizResult(
                |questions|,
                CountCorrect(questions, userAnswers),
                CountNotCorrect(questions, userAnswers),
                now - startTime,
                if selectedDiscipline.Some? && selectedDiscipline.value != "" then selectedDiscipline.value else "all",
                quizResult.value.questions))
      ensures |quizResult.value.questions| == |questions|
      ensures forall k :: 0 <= k < |questions| ==> quizResult.value.questions[k] == ResultFor(questions[k], userAnswers)
      ensures questions == old(questions) && currentQuestionIndex == old(currentQuestionIndex)
      ensures userAnswers == old(userAnswers) && error == old(error)
      ensures selectedDiscipline == old(selectedDiscipline) && startTime == old(startTime)
    {
      showConfirmFinish := false;
      FinishQuiz(now);
    }

    /** `handleBackToMenu`: back to the selection with every piece of quiz state cleared. */
    method BackToMenu(now: int)
      modifies this
      ensures Valid() && phase == Selection && selectedDiscipline == None && !showConfirmFinish
      ensures questions == [] && currentQuestionIndex == 0 && userAnswers == map[]
      ensures startTime == now && quizResult == None && error == None
    {
      phase := Selection;
      selectedDiscipline := None;
      showConfirmFinish := false;
      questions := [];
      currentQuestionIndex := 0;
      userAnswers := map[];
      startTime := now;
      quizResult := None;
      error := None;
    }

    /** `handleRestart`: clears the quiz and its result, then starts again with the same discipline. */
    method Restart(now: int) returns (request: Request)
      requires Valid()
      modifies this
      ensures Valid() && phase == Loading && error == None
      ensures request == RequestFor(old(selectedDiscipline)) && selectedDiscipline == old(selectedDiscipline)
      ensures questions == [] && currentQuestionIndex == 0 && userAnswers == map[]
      ensures startTime == now && quizResult == None && showConfirmFinish == old(showConfirmFinish)
    {
      questions := [];
      currentQuestionIndex := 0;
      userAnswers := map[];
      startTime := now;
      quizResult := None;
      request := StartQuiz();
    }
  }
}
