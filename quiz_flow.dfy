/**
 * The quiz flow controller of the career quiz: a fixed bank of five
 * questions, and the `CareerQuiz` component's three state cells (the
 * current question index, the answer record and the completed flag) with
 * the handlers that update them.
 */
module QuizFlow {
  import Scoring

  /** One choice of a question; `value` is the profile key it votes for. */
  datatype QuizOption = QuizOption(id: string, text: string, value: string)

  datatype Question = Question(id: int, category: string, prompt: string, options: seq<QuizOption>)

  /** `quizQuestions`, in display order. */
  const Questions: seq<Question> := [
    Question(1, "Interests", "What type of activities do you enjoy most?", [
      QuizOption("a", "Solving complex problems and puzzles", "analytical"),
      QuizOption("b", "Creating art, music, or writing", "creative"),
      QuizOption("c", "Helping and supporting others", "social"),
      QuizOption("d", "Leading teams and making decisions", "leadership")]),
    Question(2, "Skills", "Which skill comes most naturally to you?", [
      QuizOption("a", "Mathematical and logical thinking", "analytical"),
      QuizOption("b", "Communication and presentation", "social"),
      QuizOption("c", "Innovation and creative thinking", "creative"),
      QuizOption("d", "Organization and planning", "leadership")]),
    Question(3, "Work Environment", "What work environment appeals to you most?", [
      QuizOption("a", "Quiet office with focus on research", "analytical"),
      QuizOption("b", "Creative studio or flexible workspace", "creative"),
      QuizOption("c", "Community center or healthcare facility", "social"),
      QuizOption("d", "Corporate office or boardroom", "leadership")]),
    Question(4, "Goals", "What motivates you most in your career?", [
      QuizOption("a", "Discovering new knowledge and solutions", "analytical"),
      QuizOption("b", "Expressing creativity and originality", "creative"),
      QuizOption("c", "Making a positive impact on people", "social"),
      QuizOption("d", "Building successful businesses or teams", "leadership")]),
    Question(5, "Learning Style", "How do you prefer to learn new things?", [
      QuizOption("a", "Through research and analysis", "analytical"),
      QuizOption("b", "Through hands-on experimentation", "creative"),
      QuizOption("c", "Through discussion and collaboration", "social"),
      QuizOption("d", "Through practical application and results", "leadership")])
  ]

  /** The ids run 1..5 in display order, and every option votes for a declared profile. */
  lemma BankWellFormed()
    ensures |Questions| == 5
    ensures forall i | 0 <= i < |Questions| :: Questions[i].id == i + 1
    ensures forall i, k | 0 <= i < |Questions| && 0 <= k < |Questions[i].options| ::
      Questions[i].options[k].value in Scoring.ProfileKeys
  {
  }

  /** `value` is what choosing some option of question `questionId` records. */
  predicate IsOptionValue(questionId: int, value: string)
  {
    exists i, k | 0 <= i < |Questions| && 0 <= k < |Questions[i].options| ::
      Questions[i].id == questionId && Questions[i].options[k].value == value
  }

  lemma OptionValueDeclared(questionId: int, value: string)
    requires IsOptionValue(questionId, value)
    ensures value in Scoring.ProfileKeys
    ensures 1 <= questionId <= |Questions|
  {
    BankWellFormed();
  }

  lemma OptionValuesNonEmpty()
    ensures forall questionId, value | IsOptionValue(questionId, value) :: value != ""
  {
    forall questionId, value | IsOptionValue(questionId, value) ensures value != "" {
      OptionValueDeclared(questionId, value);
    }
  }

  /** Every recorded answer belongs to a question of the bank and is one of its options. */
  predicate WellFormedAnswers(answers: map<int, string>)
  {
    forall id | id in answers :: IsOptionValue(id, answers[id])
  }

  /** The questions shown before position `n` all have an answer. */
  predicate AnsweredBefore(answers: map<int, string>, n: int)
  {
    forall i | 0 <= i < n && i < |Questions| :: Questions[i].id in answers
  }

  /**
   * `Object.values(answers)`: for the bank's ids (the positive integers
   * 1..5, which a JavaScript object enumerates in ascending order) the
   * recorded values in question order. Every listed value is a recorded
   * answer, there is at most one per question, and a fully answered quiz
   * lists question i's answer at position i.
   */
  function AnswerValues(answers: map<int, string>): (values: seq<string>)
    ensures forall v | v in values :: v in answers.Values
    ensures |values| <= |Questions|
    ensures AnsweredBefore(answers, |Questions|) ==> |values| == |Questions|
    ensures AnsweredBefore(answers, |Questions|) ==>
      forall i | 0 <= i < |Questions| :: values[i] == answers[Questions[i].id]
  {
    AnswerValuesFrom(answers, 0)
  }

  function AnswerValuesFrom(answers: map<int, string>, n: nat): (values: seq<string>)
    ensures forall v | v in values :: v in answers.Values
    ensures |values| <= if n < |Questions| then |Questions| - n else 0
    ensures AnsweredBefore(answers, |Questions|) ==> |values| == if n < |Questions| then |Questions| - n else 0
    ensures AnsweredBefore(answers, |Questions|) ==>
      forall i | n <= i < |Questions| :: values[i - n] == answers[Questions[i].id]
    decreases |Questions| - n
  {
    if n >= |Questions| then []
    else if Questions[n].id in answers then [answers[Questions[n].id]] + AnswerValuesFrom(answers, n + 1)
    else AnswerValuesFrom(answers, n + 1)
  }

  lemma {:induction false} AnswerValuesFromDeclared(answers: map<int, string>, n: nat)
    requires WellFormedAnswers(answers)
    ensures forall v | v in AnswerValuesFrom(answers, n) :: v in Scoring.ProfileKeys
    decreases |Questions| - n
  {
    if n < |Questions| {
      AnswerValuesFromDeclared(answers, n + 1);
      if Questions[n].id in answers {
        OptionValueDeclared(Questions[n].id, answers[Questions[n].id]);
      }
    }
  }

  /**
   * A finished quiz hands the scoring engine exactly one declared profile
   * key per question: five answers, so the total is never 0.
   */
  lemma CompletedAnswers(answers: map<int, string>)
    requires WellFormedAnswers(answers) && AnsweredBefore(answers, |Questions|)
    ensures |answers| == |Questions| == 5
    ensures |AnswerValues(answers)| == 5
    ensures forall v | v in AnswerValues(answers) :: v in Scoring.ProfileKeys
  {
    BankWellFormed();
    AnswerValuesFromDeclared(answers, 0);
    CompletedKeys(answers);
    FiveKeys(answers);
  }

  lemma CompletedKeys(answers: map<int, string>)
    requires WellFormedAnswers(answers) && AnsweredBefore(answers, |Questions|)
    ensures answers.Keys == {1, 2, 3, 4, 5}
  {
    BankWellFormed();
    forall id | id in answers ensures 1 <= id <= 5 {
      OptionValueDeclared(id, answers[id]);
    }
    assert Questions[0].id in answers && Questions[1].id in answers && Questions[2].id in answers;
    assert Questions[3].id in answers && Questions[4].id in answers;
  }

  lemma FiveKeys(answers: map<int, string>)
    requires answers.Keys == {1, 2, 3, 4, 5}
    ensures |answers| == 5
  {
    assert |answers| == |answers.Keys|;
    var s := {1, 2, 3, 4, 5};
    assert s == {1, 2, 3, 4} + {5};
    assert {1, 2, 3, 4} == {1, 2, 3} + {4};
    assert {1, 2, 3} == {1, 2} + {3};
    assert |{1, 2}| == 2;
  }

  /** Number of progress dots lit for the first `n` dots: dot `index` is lit when `index <= current`. */
  function LitDots(n: nat, current: int): (lit: nat)
  {
    if n == 0 then 0 else LitDots(n - 1, current) + (if n - 1 <= current then 1 else 0)
  }

  /** The row of progress dots shows `current + 1` lit dots. */
  lemma {:induction false} LitDotsCount(n: nat, current: int)
    requires 0 <= current < n
    ensures LitDots(n, current) == current + 1
  {
    if n - 1 > current {
      LitDotsCount(n - 1, current);
    } else {
      assert LitDots(n - 1, current) == n - 1 by {
        LitDotsAll(n - 1, current);
      }
    }
  }

  lemma {:induction false} LitDotsAll(n: nat, current: int)
    requires n <= current + 1
    ensures LitDots(n, current) == n
  {
    if n > 0 {
      LitDotsAll(n - 1, current);
    }
  }

  /** The `CareerQuiz` component's state and handlers. */
  class CareerQuiz {
    var currentQuestion: int
    var answers: map<int, string>
    var isCompleted: bool

    /**
     * The index stays on a question, every recorded answer is an option
     * of its question, every question already passed is answered, and a
     * completed quiz sits on the last question with all questions answered.
     */
    ghost predicate Valid()
      reads this
    {
      && 0 <= currentQuestion < |Questions|
      && WellFormedAnswers(answers)
      && AnsweredBefore(answers, currentQuestion)
      && (isCompleted ==> currentQuestion == |Questions| - 1 && AnsweredBefore(answers, |Questions|))
    }

    /** The three `useState` initial values. */
    constructor ()
      ensures Valid()
      ensures currentQuestion == 0 && answers == map[] && !isCompleted
    {
      currentQuestion := 0;
      answers := map[];
      isCompleted := false;
    }

    /**
     * `!!answers[id]`, the Next button's enabling test: an answer is present
     * and not the empty string. Since every option value is a non-empty
     * profile key, for well-formed answers this is just presence of the id.
     */
    predicate Answered(id: int): (b: bool)
      reads this
      ensures b ==> id in answers
      ensures WellFormedAnswers(answers) && id in answers ==> b
    {
      OptionValuesNonEmpty();
      id in answers && answers[id] != ""
    }

    /**
     * `handleAnswer`: records or overwrites the answer for `questionId`,
     * nothing else. Options are shown only while the quiz is in progress.
     */
    method HandleAnswer(questionId: int, value: string)
      requires Valid() && !isCompleted
      requires IsOptionValue(questionId, value)
      modifies this
      ensures Valid()
      ensures answers == old(answers)[questionId := value]
      ensures old(answers).Keys <= answers.Keys
      ensures questionId in answers && answers[questionId] == value
      ensures forall id | id != questionId :: (id in answers <==> id in old(answers))
      ensures forall id | id != questionId && id in answers :: answers[id] == old(answers)[id]
      ensures currentQuestion == old(currentQuestion) && isCompleted == old(isCompleted)
    {
      answers := answers[questionId := value];
    }

    /**
     * `handleNext`: before the last question it moves on by one; on the
     * last it marks the quiz completed and stays put. The Next button is
     * shown only while the quiz is in progress, and enabled only once the
     * shown question is answered.
     */
    method HandleNext()
      requires Valid() && !isCompleted
      requires Answered(Questions[currentQuestion].id)
      modifies this
      ensures Valid()
      ensures answers == old(answers)
      ensures old(currentQuestion) < |Questions| - 1 ==>
        currentQuestion == old(currentQuestion) + 1 && !isCompleted
      ensures old(currentQuestion) == |Questions| - 1 ==>
        currentQuestion == old(currentQuestion) && isCompleted
    {
      if currentQuestion < |Questions| - 1 {
        currentQuestion := currentQuestion + 1;
      } else {
        isCompleted := true;
      }
    }

    /**
     * `handlePrevious`: steps back one question, and does nothing at the
     * first. The Previous button is shown only while the quiz is in progress.
     */
    method HandlePrevious()
      requires Valid() && !isCompleted
      modifies this
      ensures Valid()
      ensures answers == old(answers) && !isCompleted
      ensures old(currentQuestion) > 0 ==> currentQuestion == old(currentQuestion) - 1
      ensures old(currentQuestion) == 0 ==> currentQuestion == 0
    {
      if currentQuestion > 0 {
        currentQuestion := currentQuestion - 1;
      }
    }

    /** `handleRestart`: back to the first question with no answers, whatever came before. */
    method HandleRestart()
      modifies this
      ensures Valid()
      ensures currentQuestion == 0 && answers == map[] && !isCompleted
    {
      currentQuestion := 0;
      answers := map[];
      isCompleted := false;
    }

    /** The number of lit progress dots: `index <= currentQuestion` for each question. */
    function FilledDots(): (n: nat)
      reads this
      requires Valid()
      ensures n == currentQuestion + 1
    {
      LitDotsCount(|Questions|, currentQuestion);
      LitDots(|Questions|, currentQuestion)
    }

    /**
     * What the completed quiz renders: `QuizResults` scores the answer
     * record, which holds one declared profile key per question.
     */
    method Results() returns (ranking: seq<Scoring.ProfileScore>, primary: Scoring.ProfileScore)
      requires Valid() && isCompleted
      ensures |AnswerValues(answers)| == |answers| == 5
      ensures ranking == Scoring.Ranking(AnswerValues(answers))
      ensures primary == Scoring.Primary(AnswerValues(answers)) == ranking[0]
      ensures Scoring.DeclaredTotal(multiset(AnswerValues(answers))) == 5
    {
      CompletedAnswers(answers);
      var values := AnswerValues(answers);
      Scoring.CountsSumToTotal(values);
      ranking := Scoring.Ranking(values);
      primary := ranking[0];
    }
  }
}
