/** The quiz page (frontend/src/pages/quiz.jsx): five fixed questions, the
    answers picked so far, the score once the quiz is finished, and the exit
    that counts as a score of zero. */
module QuizPage {
  import opened Wrappers

  datatype Question = Question(question: string, options: seq<string>, correct: string)

  const Questions: seq<Question> := [
    Question("Which of the following is a JavaScript framework?",
             ["Django", "Flask", "React", "Laravel"], "React"),
    Question("Which HTML tag is used to link an external JavaScript file?",
             ["<link>", "<js>", "<script>", "<src>"], "<script>"),
    Question("What is the correct syntax to declare a constant in JS?",
             ["let x = 10;", "var x = 10;", "const x = 10;", "constant x = 10;"], "const x = 10;"),
    Question("In MongoDB, which command is used to insert a document?",
             ["db.collection.insert()", "db.collection.add()", "db.insertOne()", "db.addDocument()"],
             "db.collection.insert()"),
    Question("Which method is used to fetch data in React?",
             ["fetchData()", "getData()", "useFetch()", "fetch()"], "fetch()")
  ]

  /** Every question offers four different, non-empty options, and its
      correct answer is one of them. */
  lemma QuestionsWellFormed()
    ensures |Questions| == 5
    ensures forall i | 0 <= i < |Questions| ::
      && |Questions[i].options| == 4
      && Questions[i].correct in Questions[i].options
      && (forall a, b | 0 <= a < b < 4 :: Questions[i].options[a] != Questions[i].options[b])
      && (forall a | 0 <= a < 4 :: Questions[i].options[a] != "")
  {
  }

  /** Whether the answer recorded for question `i` is its correct one;
      a question never answered is not. */
  predicate AnsweredCorrectly(answers: map<nat, string>, i: nat)
    requires i < |Questions|
  {
    i in answers && answers[i] == Questions[i].correct
  }

  /** The number of the first `n` questions answered correctly. */
  function CorrectCount(answers: map<nat, string>, n: nat): (r: nat)
    requires n <= |Questions|
    ensures r <= n
  {
    if n == 0 then 0
    else CorrectCount(answers, n - 1) + (if AnsweredCorrectly(answers, n - 1) then 1 else 0)
  }

  /** The score as the quiz states it. */
  function Score(answers: map<nat, string>): nat {
    CorrectCount(answers, |Questions|)
  }

  /** The count is the size of the set of correctly answered questions. */
  lemma {:induction false} CorrectCountIsCardinality(answers: map<nat, string>, n: nat)
    requires n <= |Questions|
    ensures CorrectCount(answers, n) == |set i | 0 <= i < n && AnsweredCorrectly(answers, i)|
  {
    if n > 0 {
      CorrectCountIsCardinality(answers, n - 1);
      var before := set i | 0 <= i < n - 1 && AnsweredCorrectly(answers, i);
      var after := set i | 0 <= i < n && AnsweredCorrectly(answers, i);
      if AnsweredCorrectly(answers, n - 1) {
        assert after == before + {n - 1};
      } else {
        assert after == before;
      }
    }
  }

  /** Full marks exactly when every question was answered correctly. */
  lemma {:induction false} PerfectScoreIff(answers: map<nat, string>, n: nat)
    requires n <= |Questions|
    ensures CorrectCount(answers, n) == n <==> forall i | 0 <= i < n :: AnsweredCorrectly(answers, i)
  {
    if n > 0 {
      PerfectScoreIff(answers, n - 1);
    }
  }

  /** Only the answers recorded for the questions count: answers to other
      keys change nothing. */
  lemma {:induction false} CountIgnoresOthers(answers: map<nat, string>, k: nat, option: string, n: nat)
    requires n <= |Questions| && n <= k
    ensures CorrectCount(answers[k := option], n) == CorrectCount(answers, n)
  {
    if n > 0 {
      CountIgnoresOthers(answers, k, option, n - 1);
    }
  }

  /** The Next/Finish button is enabled once the current question has a
      non-empty answer. */
  predicate NextEnabled(answers: map<nat, string>, currentQuestion: nat) {
    currentQuestion in answers && answers[currentQuestion] != ""
  }

  class Quiz {
    var currentQuestion: nat
    var answers: map<nat, string>
    var score: Option<nat>
    var quizExited: bool
    var showExitPopup: bool

    /** The current question is one of the five, no answer is recorded past
        it, and a score never exceeds the number of questions. */
    ghost predicate Valid()
      reads this
    {
      && currentQuestion < |Questions|
      && (forall k | k in answers :: k <= currentQuestion)
      && (score.Some? ==> score.value <= |Questions|)
    }

    constructor ()
      ensures Valid()
      ensures currentQuestion == 0 && answers == map[] && score.None?
      ensures !quizExited && !showExitPopup
    {
      currentQuestion := 0;
      answers := map[];
      score := None;
      quizExited := false;
      showExitPopup := false;
    }

    /** `handleAnswer`: records the option for the current question and
        touches no other answer. */
    method HandleAnswer(option: string)
      requires Valid()
      modifies this
      ensures Valid()
      ensures answers == old(answers)[currentQuestion := option]
      ensures currentQuestion == old(currentQuestion) && score == old(score)
      ensures quizExited == old(quizExited) && showExitPopup == old(showExitPopup)
      ensures option != "" ==> NextEnabled(answers, currentQuestion)
    {
      answers := answers[currentQuestion := option];
    }

    /** `calculateScore`: counts the questions answered correctly. */
    method CalculateScore()
      requires Valid()
      modifies this
      ensures Valid()
      ensures score == Some(Score(answers))
      ensures currentQuestion == old(currentQuestion) && answers == old(answers)
      ensures quizExited == old(quizExited) && showExitPopup == old(showExitPopup)
    {
      var total := 0;
      for i := 0 to |Questions|
        invariant total == CorrectCount(answers, i)
      {
        if i in answers && answers[i] == Questions[i].correct {
          total := total + 1;
        }
      }
      score := Some(total);
    }

    /** `handleNext`: on to the next question, or the score after the
        last. */
    method HandleNext()
      requires Valid()
      modifies this
      ensures Valid()
      ensures old(currentQuestion) < |Questions| - 1 ==>
        currentQuestion == old(currentQuestion) + 1 && score == old(score)
      ensures old(currentQuestion) == |Questions| - 1 ==>
        currentQuestion == old(currentQuestion) && score == Some(Score(answers))
      ensures answers == old(answers)
      ensures quizExited == old(quizExited) && showExitPopup == old(showExitPopup)
    {
      if currentQuestion < |Questions| - 1 {
        currentQuestion := currentQuestion + 1;
      } else {
        CalculateScore();
      }
    }

    /** `handleRestart`: no answers, no score, back to the first
        question. */
    method HandleRestart()
      requires Valid()
      modifies this
      ensures Valid()
      ensures answers == map[] && score.None? && currentQuestion == 0
      ensures quizExited == old(quizExited) && showExitPopup == old(showExitPopup)
    {
      answers := map[];
      score := None;
      currentQuestion := 0;
    }

    /** The state update of `handleFullscreenChange`: leaving full screen
        before a score exists ends the quiz with a score of zero; once a
        score exists, nothing changes. */
    method HandleFullscreenChange(inFullscreen: bool)
      requires Valid()
      modifies this
      ensures Valid()
      ensures !inFullscreen && old(score).None? ==>
        quizExited && score == Some(0) && showExitPopup
      ensures inFullscreen || old(score).Some? ==>
        quizExited == old(quizExited) && score == old(score) && showExitPopup == old(showExitPopup)
      ensures currentQuestion == old(currentQuestion) && answers == old(answers)
    {
      if !inFullscreen && score.None? {
        quizExited := true;
        score := Some(0);
        showExitPopup := true;
      }
    }
  }

  /** Picking one of the offered options always enables the Next/Finish
      button. */
  lemma OfferedOptionEnablesNext(answers: map<nat, string>, currentQuestion: nat, option: string)
    requires currentQuestion < |Questions| && option in Questions[currentQuestion].options
    ensures NextEnabled(answers[currentQuestion := option], currentQuestion)
  {
    QuestionsWellFormed();
  }

  /** Answering every question with its correct option gives full marks. */
  lemma AllCorrectScoresFull()
    ensures Score(map i | 0 <= i < |Questions| :: Questions[i].correct) == |Questions|
  {
    var answers := map i | 0 <= i < |Questions| :: Questions[i].correct;
    PerfectScoreIff(answers, |Questions|);
  }
}
