# IoT MOOC quiz practice — a Dafny model

The application is one React component (`src/App.js`) in which a user picks an
assignment of the question bank (or every assignment), picks a practice mode
("One at a Time" or "Random Shuffle"), answers multiple-choice questions one at
a time and gets a final score. Without its rendering it is a selector, a
shuffler and a three-screen state machine (setup, active, finished). This
project models those three parts and proves what they promise.

- `decimal.dfy` (module `Decimal`): `Number.prototype.toString` for the integral
  assignment numbers, which the selector compares with the selected string. The
  digits are proved to stand for the number, with no leading zero. The rendering
  is proved injective, never equal to `"all"`, and `"1"` for the number 1.
- `question_bank.dfy` (module `QuestionBank`): questions, assignments and
  `questionsToPractice`. `"all"` flattens the bank in order. Any other selection
  returns the questions of the first assignment whose rendered number equals it,
  or the empty list.
- `shuffle.dfy` (module `Shuffle`): `shuffleArray`. The copy of the list is sorted
  in an array by adjacent exchanges. The random comparator is a parameter: the
  answer to the k-th comparison. The result is proved to be a permutation of the
  input whatever the comparator answers. When the comparator never asks for an
  exchange, the result is the input.
- `quiz_session.dfy` (module `QuizSession`): the component's state as a class
  `Session` with one field per `useState` hook and one method per handler. Each
  handler states its whole effect and keeps the invariant `Valid()`: while active,
  the index is on a question and the score is at most the number of revealed
  answers. So on reaching the finished screen the score is at most the number of
  questions. The controls' visibility and disabling become `requires` clauses:
  - the assignment and practice-mode selectors need the setup screen;
  - start needs the setup screen and a non-empty candidate list;
  - choosing an option needs the active screen;
  - submit needs the answer hidden;
  - next needs the answer shown;
  - reset needs the finished screen;
  - choosing "One at a Time" needs a selection other than `"all"`.
- `scenarios.dfy` (module `Scenarios`): client runs that use only the handlers'
  contracts.
- `wrappers.dfy` (module `Wrappers`): `Option`, for `null` and for a search that
  finds nothing.

The selected assignment stays a string, as in the component. A selection such as
`"01"` names no assignment and yields no questions. The practice mode is a
two-valued datatype. The component's fall-through branch for an unknown mode (an
empty list, `src/App.js:27-32`) cannot be reached, because the mode is only ever
set to one of those two values.

Two behaviours of the component to note:
- Resetting keeps the finished run's question list, index and score. Only the
  screen, the selection and the mode change.
- Selecting every assignment does not change the practice mode. It only disables
  the "One at a Time" button. So in-order practice over the concatenated bank is
  reachable (`Scenarios.PracticeAll`).

## Model

| member | source | states |
|---|---|---|
| `Decimal.Digits` | src/App.js:20 | the digits of n are one character exactly when n < 10, and start with a zero only for n = 0 (no leading zero) |
| `Decimal.IntToString` | src/App.js:20 | the rendering of a number is non-empty, starts with `-` exactly for negative numbers, and is digits otherwise |
| `Decimal.DigitsValue` | src/App.js:20 | the digit string of n read back as a decimal numeral is n |
| `Decimal.IntToStringValue` | src/App.js:20 | the rendering of a non-negative number, read back as a decimal numeral, is that number |
| `Decimal.LeadingZeroIsNotANumber` | src/App.js:20 | a selection of two or more characters starting with `0`, such as `"01"`, is the rendering of no number |
| `Decimal.OneRendersAsOne` | src/App.js:7 | the default selection `"1"` is the rendering of the number 1 |
| `Decimal.DigitsInjective` | src/App.js:20 | different natural numbers have different digit strings |
| `Decimal.IntToStringInjective` | src/App.js:20 | two numbers with the same rendering are equal, so matching the selected string is matching the number |
| `Decimal.AllIsNotANumber` | src/App.js:17-20 | no assignment number renders as `"all"`, so the two selector branches never overlap |
| `QuestionBank.Matches` | src/App.js:20 | the test of `find`: the assignment's rendered number equals the selection; by `IntToStringInjective` two assignments match the same selection exactly when their numbers are equal |
| `QuestionBank.AllQuestions` | src/App.js:18 | the `flatMap`; its behaviour is stated by `AllQuestionsAppend`, `AllQuestionsLength`, `AllQuestionsAt` and `AllQuestionsFrom` |
| `QuestionBank.QuestionsToPractice` | src/App.js:16-22 | the selector; its behaviour is stated by `SelectAll`, `SelectById`, `SelectUnknown` and `SelectOne` |
| `QuestionBank.FindAssignment` | src/App.js:20 | the result is the position of the first assignment whose rendered number is the selection; it is absent exactly when no assignment matches |
| `QuestionBank.AllQuestionsAppend` | src/App.js:18 | flattening a concatenation of banks concatenates their flattenings, and the counts add up |
| `QuestionBank.AllQuestionsLength` | src/App.js:18 | the flattened list is as long as the sum of the assignments' question counts |
| `QuestionBank.AllQuestionsAt` | src/App.js:18 | question j of assignment k is at the position after all the questions of assignments 0..k-1, so assignment order and question order are kept |
| `QuestionBank.AllQuestionsFrom` | src/App.js:18 | every question of the flattened list belongs to some assignment |
| `QuestionBank.SelectAll` | src/App.js:16-18 | selecting `"all"` gives the flattened bank, with as many questions as the whole bank |
| `QuestionBank.SelectById` | src/App.js:20-21 | selecting the rendered number of assignment k, when no earlier assignment has that number, gives exactly assignment k's questions in order |
| `QuestionBank.SelectUnknown` | src/App.js:20-21 | a selection naming no assignment gives the empty list |
| `QuestionBank.SelectOne` | src/App.js:20-21 | any other specific selection gives the empty list or the questions of an assignment it names |
| `Shuffle.ShuffleArray` | src/App.js:24 | the result is a permutation of the input (same multiset, same length); with a comparator that never asks for an exchange it is the input itself |
| `QuizSession.Session.Candidates` | src/App.js:16-22 | the memoised candidate list read by the start handler and the start button; it is the selector applied to the bank and the current selection, and `SelectAssignment` and `StartPractice` state how it changes |
| `QuizSession.Session.CurrentQuestion` | src/App.js:69 | in every active state that satisfies the session invariant there is a question on screen, so the active screen, which is drawn only when that question exists, is never hidden; the question is the one at the index |
| `QuizSession.Session.constructor` | src/App.js:7-14 | a fresh session: assignment `"1"`, in-order mode, setup screen, no questions, index 0, nothing chosen, answer hidden, score 0 |
| `QuizSession.Session.SelectAssignment` | src/App.js:97-100 | only the selection changes, and the candidates become those of the new selection |
| `QuizSession.Session.SelectPracticeMode` | src/App.js:115-124 | only the mode changes; in-order mode cannot be chosen while every assignment is selected |
| `QuizSession.Session.StartPractice` | src/App.js:26-39 | the run becomes active at index 0 with score 0, nothing chosen and the answer hidden; in-order mode takes the candidates as they are, shuffle mode a permutation of them; selection and mode are kept |
| `QuizSession.Session.HandleOptionSelect` | src/App.js:41-43 | the option becomes the chosen one while the answer is hidden; once it is shown nothing changes |
| `QuizSession.Session.HandleSubmitAnswer` | src/App.js:45-51 | with nothing chosen nothing changes; otherwise the answer is shown and the score grows by exactly 1 for a correct choice and by 0 for any other |
| `QuizSession.Session.HandleNextQuestion` | src/App.js:53-61 | before the last question: the next one, with nothing chosen and the answer hidden; at the last: the finished screen with index, score and choice unchanged and a score of at most the question count |
| `QuizSession.Session.ResetQuiz` | src/App.js:63-67 | back to setup with assignment `"1"` and in-order mode; questions, index and score are untouched |
| `Scenarios.AnswerAllCorrectly` | src/App.js:26-61 | two questions answered correctly in order mode finish with a score of 2 out of 2 |
| `Scenarios.PracticeAll` | src/App.js:16-39 | every assignment over banks of 2 and 3 questions gives 5 active questions in either mode, in bank order in in-order mode |
| `Scenarios.ReselectAndReset` | src/App.js:41-67 | choosing an option twice leaves it chosen; a choice after the reveal is ignored; reset restores the default selection and mode |

## Left out

- Rendering, styling and option colouring (`src/App.js:71-251` except the control gating above): presentation with no effect on state.
- The analytics component and its import: an external telemetry hook with no effect on state.
- Loading `data.json`: the bank is a constructor parameter and never changes afterwards.
- The percentage and the progress-bar width: floating-point display arithmetic.
- React hook semantics (memoised candidates, batched updates): each handler is one atomic update, and the candidates are recomputed from the selection.
- `Math.random` and the engine's sorting algorithm: the comparator's answers are a parameter, and the engine sort is modelled by one comparison sort. Only the permutation property is claimed, not the distribution.
- Decimal.IntToString: renders the exact integer in plain decimal. Above 2^53 JavaScript numbers are doubles whose `toString` prints the shortest round-trip digits (2^60 prints "1152921504606847000"), and from 1e21 it uses exponent notation. Neither is modelled, since assignment numbers are small.
- Question validity (options distinct, answer among the options) is not assumed or checked, because the component does not check it either.
