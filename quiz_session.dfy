/** The quiz session of the application component: the state it keeps
    (setup, active and finished screens) and the handlers that update it.
    Each handler is one atomic update of the session's fields. Handlers are
    only reachable from the screen that shows their control; that gating is
    written as `requires`. */
module QuizSession {
  import opened Wrappers
  import opened QuestionBank
  import opened Shuffle

  datatype QuizState = Setup | Active | Finished

  datatype PracticeMode = OneByOne | ShuffleAssignment

  /** The assignment preselected on load and after a reset. */
  const DefaultAssignment: string := "1"

  class Session {
    /** The question bank: loaded once and never changed. */
    const bank: seq<Assignment>

    var selectedAssignment: string
    var practiceMode: PracticeMode
    var quizState: QuizState
    var activeQuestions: seq<Question>
    var currentQuestionIndex: nat
    var selectedOption: Option<string>
    var showAnswer: bool
    var score: nat

    /** The session invariant. The score never exceeds the number of questions,
        and never exceeds the number of answers revealed so far in the current
        run: while active the index is on a question, and once finished the
        last question's answer has been revealed. */
    ghost predicate Valid()
      reads this
    {
      && score <= |activeQuestions|
      && (quizState == Active ==>
            && currentQuestionIndex < |activeQuestions|
            && score <= currentQuestionIndex + (if showAnswer then 1 else 0))
      && (quizState == Finished ==>
            && showAnswer
            && currentQuestionIndex == |activeQuestions| - 1)
    }

    /** The candidate questions for the current selection. */
    function Candidates(): (r: seq<Question>)
      reads this
    {
      QuestionsToPractice(bank, selectedAssignment)
    }

    /** The question on screen, absent when the index is not on a question.
        The active screen is shown only while it is present, and in every
        active state the session reaches it is. */
    function CurrentQuestion(): (r: Option<Question>)
      reads this
      ensures Valid() && quizState == Active ==> r.Some?
      ensures r.Some? <==> currentQuestionIndex < |activeQuestions|
      ensures r.Some? ==> r.value == activeQuestions[currentQuestionIndex]
    {
      if currentQuestionIndex < |activeQuestions| then Some(activeQuestions[currentQuestionIndex]) else None
    }

    /** The session as it is right after loading. */
    constructor (bank: seq<Assignment>)
      ensures Valid()
      ensures this.bank == bank
      ensures selectedAssignment == DefaultAssignment && practiceMode == OneByOne
      ensures quizState == Setup && activeQuestions == []
      ensures currentQuestionIndex == 0 && selectedOption == None
      ensures !showAnswer && score == 0
    {
      this.bank := bank;
      selectedAssignment := DefaultAssignment;
      practiceMode := OneByOne;
      quizState := Setup;
      activeQuestions := [];
      currentQuestionIndex := 0;
      selectedOption := None;
      showAnswer := false;
      score := 0;
    }

    /** The assignment selector of the setup screen. */
    method SelectAssignment(selection: string)
      requires Valid() && quizState == Setup
      modifies this`selectedAssignment
      ensures Valid()
      ensures selectedAssignment == selection
      ensures Candidates() == QuestionsToPractice(bank, selection)
    {
      selectedAssignment := selection;
    }

    /** The practice-mode buttons of the setup screen; "One at a Time" is
        disabled while every assignment is selected. Selecting every assignment
        afterwards does not change the mode. */
    method SelectPracticeMode(mode: PracticeMode)
      requires Valid() && quizState == Setup
      requires mode == OneByOne ==> selectedAssignment != AllSelection
      modifies this`practiceMode
      ensures Valid()
      ensures practiceMode == mode
    {
      practiceMode := mode;
    }

    /** `startPractice`: fix the question list of the run and start it at the
        first question with a zero score. The start button is disabled while
        there are no candidates. */
    method StartPractice(outOfOrder: nat -> bool)
      requires Valid() && quizState == Setup
      requires |Candidates()| > 0
      modifies this`activeQuestions, this`currentQuestionIndex, this`score,
               this`selectedOption, this`showAnswer, this`quizState
      ensures Valid()
      ensures quizState == Active
      ensures currentQuestionIndex == 0 && score == 0
      ensures selectedOption == None && !showAnswer
      ensures Candidates() == old(Candidates())
      ensures practiceMode == OneByOne ==> activeQuestions == Candidates()
      ensures practiceMode == ShuffleAssignment ==> multiset(activeQuestions) == multiset(Candidates())
      ensures |activeQuestions| == |Candidates()|
      ensures CurrentQuestion().Some?
    {
      var questions: seq<Question>;
      match practiceMode {
        case OneByOne =>
          questions := QuestionsToPractice(bank, selectedAssignment);
        case ShuffleAssignment =>
          questions := ShuffleArray(QuestionsToPractice(bank, selectedAssignment), outOfOrder);
      }
      activeQuestions := questions;
      currentQuestionIndex := 0;
      score := 0;
      selectedOption := None;
      showAnswer := false;
      quizState := Active;
    }

    /** `handleOptionSelect`: choose an option, ignored once the answer is shown. */
    method HandleOptionSelect(option: string)
      requires Valid() && quizState == Active
      modifies this`selectedOption
      ensures Valid()
      ensures !old(showAnswer) ==> selectedOption == Some(option)
      ensures old(showAnswer) ==> selectedOption == old(selectedOption)
    {
      if !showAnswer {
        selectedOption := Some(option);
      }
    }

    /** `handleSubmitAnswer`: reveal the answer and score a correct choice; with
        nothing chosen it does nothing. The submit button is only shown while
        the answer is hidden. */
    method HandleSubmitAnswer()
      requires Valid() && quizState == Active && !showAnswer
      modifies this`score, this`showAnswer
      ensures Valid()
      ensures old(selectedOption).None? ==> score == old(score) && showAnswer == old(showAnswer)
      ensures old(selectedOption).Some? ==> showAnswer
      ensures old(selectedOption).Some? ==>
                score == old(score) + if selectedOption.value == activeQuestions[currentQuestionIndex].answer then 1 else 0
    {
      if selectedOption == None {
        return;
      }
      if selectedOption.value == activeQuestions[currentQuestionIndex].answer {
        score := score + 1;
      }
      showAnswer := true;
    }

    /** `handleNextQuestion`: move to the next question, or finish after the
        last one. The button is only shown once the answer is revealed. */
    method HandleNextQuestion()
      requires Valid() && quizState == Active && showAnswer
      modifies this`currentQuestionIndex, this`selectedOption, this`showAnswer, this`quizState
      ensures Valid()
      ensures old(currentQuestionIndex) < |activeQuestions| - 1 ==>
                && quizState == Active
                && currentQuestionIndex == old(currentQuestionIndex) + 1
                && selectedOption == None && !showAnswer
      ensures old(currentQuestionIndex) == |activeQuestions| - 1 ==>
                && quizState == Finished
                && currentQuestionIndex == old(currentQuestionIndex)
                && selectedOption == old(selectedOption) && showAnswer
      ensures quizState == Finished ==> score <= |activeQuestions|
    {
      if currentQuestionIndex < |activeQuestions| - 1 {
        currentQuestionIndex := currentQuestionIndex + 1;
        selectedOption := None;
        showAnswer := false;
      } else {
        quizState := Finished;
      }
    }

    /** `resetQuiz`: back to the setup screen with the default selection; the
        finished run's questions, index and score stay as they are until the
        next start. */
    method ResetQuiz()
      requires Valid() && quizState == Finished
      modifies this`quizState, this`selectedAssignment, this`practiceMode
      ensures Valid()
      ensures quizState == Setup
      ensures selectedAssignment == DefaultAssignment && practiceMode == OneByOne
    {
      quizState := Setup;
      selectedAssignment := DefaultAssignment;
      practiceMode := OneByOne;
    }
  }
}
