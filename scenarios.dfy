/** Client runs of the quiz session: what a user sees, derived from the
    handlers' contracts alone. */
module Scenarios {
  import opened Wrappers
  import opened Decimal
  import opened QuestionBank
  import opened QuizSession

  function Q(prompt: string, answer: string, other: string): (q: Question)
  {
    Question(prompt, [answer, other], answer)
  }

  /** Assignment 1 holds two questions; in order mode the user answers both
      correctly and finishes with a score of 2 out of 2. */
  method AnswerAllCorrectly(outOfOrder: nat -> bool) returns (score: nat, total: nat)
    ensures score == 2 && total == 2
  {
    var q1, q2 := Q("p1", "a", "b"), Q("p2", "c", "d");
    var bank := [Assignment(1, "sensors", [q1, q2])];
    var s := new Session(bank);
    OneRendersAsOne();
    SelectById(bank, 0);
    s.StartPractice(outOfOrder);
    assert s.activeQuestions == [q1, q2];
    s.HandleOptionSelect("a");
    s.HandleSubmitAnswer();
    s.HandleNextQuestion();
    s.HandleOptionSelect("c");
    s.HandleSubmitAnswer();
    s.HandleNextQuestion();
    assert s.quizState == Finished;
    score, total := s.score, |s.activeQuestions|;
  }

  /** Every assignment selected over banks of 2 and 3 questions: five active
      questions in either mode. The mode chosen before selecting every
      assignment is kept, so in-order practice of the whole bank is reachable
      and runs through the concatenated list. */
  method PracticeAll(mode: PracticeMode, outOfOrder: nat -> bool) returns (ordered: bool, count: nat)
    ensures count == 5
    ensures mode == OneByOne ==> ordered
  {
    var a := Q("p1", "a", "b");
    var bank := [Assignment(1, "sensors", [a, a]), Assignment(2, "networks", [a, a, a])];
    var s := new Session(bank);
    s.SelectPracticeMode(mode);
    s.SelectAssignment(AllSelection);
    assert s.practiceMode == mode;
    SelectAll(bank);
    assert TotalCount(bank[1..][1..]) == 0;
    assert TotalCount(bank[1..]) == 3;
    assert TotalCount(bank) == 5;
    s.StartPractice(outOfOrder);
    ordered, count := s.activeQuestions == AllQuestions(bank), |s.activeQuestions|;
  }

  /** Choosing the same option twice before submitting leaves it chosen;
      after the reveal a different choice is ignored; resetting the finished
      quiz restores the default selection and mode. */
  method ReselectAndReset(outOfOrder: nat -> bool) returns (chosen: Option<string>, selection: string, mode: PracticeMode)
    ensures chosen == Some("b")
    ensures selection == DefaultAssignment && mode == OneByOne
  {
    var q := Q("p1", "a", "b");
    var bank := [Assignment(7, "cloud", [q])];
    var s := new Session(bank);
    s.SelectAssignment(IntToString(7));
    s.SelectPracticeMode(ShuffleAssignment);
    SelectById(bank, 0);
    s.StartPractice(outOfOrder);
    s.HandleOptionSelect("b");
    s.HandleOptionSelect("b");
    chosen := s.selectedOption;
    s.HandleSubmitAnswer();
    s.HandleOptionSelect("a");
    assert s.selectedOption == chosen;
    assert s.score == 0;
    s.HandleNextQuestion();
    s.ResetQuiz();
    selection, mode := s.selectedAssignment, s.practiceMode;
  }
}
