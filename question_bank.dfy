/** The question bank and the selector that turns the setup screen's
    assignment choice into the list of candidate questions. */
module QuestionBank {
  import opened Wrappers
  import opened Decimal

  /** A multiple-choice question: its prompt, its choices and the correct choice. */
  datatype Question = Question(prompt: string, options: seq<string>, answer: string)

  /** One assignment of the bank: its number, its topic and its questions in order. */
  datatype Assignment = Assignment(number: int, topic: string, questions: seq<Question>)

  /** The value of the assignment selector that stands for every assignment. */
  const AllSelection: string := "all"

  /** Every assignment's questions, one assignment after the other (the `flatMap`). */
  function AllQuestions(bank: seq<Assignment>): (r: seq<Question>)
  {
    if bank == [] then [] else bank[0].questions + AllQuestions(bank[1..])
  }

  /** The number of questions in the bank, assignment by assignment. */
  function TotalCount(bank: seq<Assignment>): (n: nat)
  {
    if bank == [] then 0 else |bank[0].questions| + TotalCount(bank[1..])
  }

  /** Whether the assignment's number, rendered as a string, is the selection. */
  predicate Matches(a: Assignment, selection: string)
  {
    IntToString(a.number) == selection
  }

  /** The position of the first assignment that the selection names (the `find`). */
  function FindAssignment(bank: seq<Assignment>, selection: string): (r: Option<nat>)
    ensures r.Some? ==> r.value < |bank| && Matches(bank[r.value], selection)
    ensures r.Some? ==> forall j :: 0 <= j < r.value ==> !Matches(bank[j], selection)
    ensures r.None? <==> forall j :: 0 <= j < |bank| ==> !Matches(bank[j], selection)
  {
    if bank == [] then None
    else if Matches(bank[0], selection) then Some(0)
    else match FindAssignment(bank[1..], selection)
      case None => None
      case Some(i) => Some(i + 1)
  }

  /** The candidate questions for a selection (`questionsToPractice`). */
  function QuestionsToPractice(bank: seq<Assignment>, selection: string): (r: seq<Question>)
  {
    if selection == AllSelection then AllQuestions(bank)
    else match FindAssignment(bank, selection)
      case Some(i) => bank[i].questions
      case None => []
  }

  /** Flattening distributes over concatenation of banks. */
  lemma {:induction false} AllQuestionsAppend(b1: seq<Assignment>, b2: seq<Assignment>)
    ensures AllQuestions(b1 + b2) == AllQuestions(b1) + AllQuestions(b2)
    ensures TotalCount(b1 + b2) == TotalCount(b1) + TotalCount(b2)
  {
    if b1 == [] {
      assert b1 + b2 == b2;
    } else {
      assert (b1 + b2)[1..] == b1[1..] + b2;
      AllQuestionsAppend(b1[1..], b2);
    }
  }

  /** The flattened list is as long as all the assignments together. */
  lemma {:induction false} AllQuestionsLength(bank: seq<Assignment>)
    ensures |AllQuestions(bank)| == TotalCount(bank)
  {
    if bank != [] {
      AllQuestionsLength(bank[1..]);
    }
  }

  /** Question j of assignment k sits in the flattened list right after the
      questions of the assignments before k: assignment order and each
      assignment's own order are kept. */
  lemma AllQuestionsAt(bank: seq<Assignment>, k: nat, j: nat)
    requires k < |bank| && j < |bank[k].questions|
    ensures TotalCount(bank[..k]) + j < |AllQuestions(bank)|
    ensures AllQuestions(bank)[TotalCount(bank[..k]) + j] == bank[k].questions[j]
  {
    assert bank == bank[..k] + ([bank[k]] + bank[k + 1..]);
    AllQuestionsAppend(bank[..k], [bank[k]] + bank[k + 1..]);
    AllQuestionsAppend([bank[k]], bank[k + 1..]);
    AllQuestionsLength(bank[..k]);
    assert AllQuestions([bank[k]]) == bank[k].questions + AllQuestions([]);
  }

  /** Every question of the flattened list is a question of some assignment. */
  lemma {:induction false} AllQuestionsFrom(bank: seq<Assignment>, q: Question)
    requires q in AllQuestions(bank)
    ensures exists k :: 0 <= k < |bank| && q in bank[k].questions
  {
    if q !in bank[0].questions {
      AllQuestionsFrom(bank[1..], q);
      var k :| 0 <= k < |bank[1..]| && q in bank[1..][k].questions;
      assert q in bank[k + 1].questions;
    }
  }

  /** Selecting "all" gives the whole bank, flattened in order. */
  lemma SelectAll(bank: seq<Assignment>)
    ensures QuestionsToPractice(bank, AllSelection) == AllQuestions(bank)
    ensures |QuestionsToPractice(bank, AllSelection)| == TotalCount(bank)
  {
    AllQuestionsLength(bank);
  }

  /** Selecting the number of assignment k gives exactly its questions, in
      their order, when no earlier assignment carries the same number. */
  lemma SelectById(bank: seq<Assignment>, k: nat)
    requires k < |bank|
    requires forall j :: 0 <= j < k ==> bank[j].number != bank[k].number
    ensures QuestionsToPractice(bank, IntToString(bank[k].number)) == bank[k].questions
  {
    var sel := IntToString(bank[k].number);
    AllIsNotANumber(bank[k].number);
    var r := FindAssignment(bank, sel);
    assert Matches(bank[k], sel);
    var i := r.value;
    if i < k {
      IntToStringInjective(bank[i].number, bank[k].number);
    }
    assert i == k;
  }

  /** A selection that names no assignment gives the empty list, without failing. */
  lemma SelectUnknown(bank: seq<Assignment>, selection: string)
    requires selection != AllSelection
    requires forall j :: 0 <= j < |bank| ==> !Matches(bank[j], selection)
    ensures QuestionsToPractice(bank, selection) == []
  {
  }

  /** Any other result for a specific selection is the question list of the
      first assignment it names. */
  lemma SelectOne(bank: seq<Assignment>, selection: string)
    requires selection != AllSelection
    ensures QuestionsToPractice(bank, selection) == [] ||
            exists k :: 0 <= k < |bank| && Matches(bank[k], selection) &&
                        QuestionsToPractice(bank, selection) == bank[k].questions
  {
  }
}
