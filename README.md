# Career quiz: flow controller and scoring engine

A Dafny model of the two pieces of the career-interest quiz that carry
logic:

- `QuizFlow` (`quiz_flow.dfy`) models `components/career-quiz.tsx`: the
  fixed bank of five questions (`quizQuestions`) and the `CareerQuiz`
  component as a class. Its three fields are the component's state cells
  (`currentQuestion`, `answers`, `isCompleted`). Its methods are the
  handlers `handleAnswer`, `handleNext`, `handlePrevious` and
  `handleRestart`. The object invariant `Valid()` says four things. The
  index is on a question. Every recorded answer is an option of its
  question. Every question already passed is answered. A completed quiz
  sits on the last question with every question answered. The UI's guards
  are preconditions: once the quiz is completed the component renders only
  the results page (`career-quiz.tsx:112-114`), so answering, Next and
  Previous require a quiz in progress, and the Next button is enabled only
  when the shown question is answered (`Answered`).
  The dot row of the progress bar is modelled by `FilledDots`. The hand-off
  to the results page is modelled by `Results`.
- `Scoring` (`scoring.dfy`) models `components/quiz-results.tsx`. The
  `reduce` that tallies answer values is a left fold (`Tally`). The
  `forEach` that writes each profile's `percentage` field is a loop over an
  array (`AssignPercentages`), specified by the pure `Percentages`. The
  profile entries in declaration order are `Breakdown`. The ranking sort is
  a stable insertion sort (`SortByPercentage`), and `Primary` is the head of
  the ranking. Counts are specified independently of the fold, as
  multiplicities in `multiset(values)`.

`Math.round(count / total * 100)` is modelled on integers as round half
up, `(200*count + total) / (2*total)`. The contract of `RoundPercent`
characterises it as the integer `p` with
`p <= 100*count/total + 1/2 < p + 1`.

Two details of the code shape the model:
- The code has no `total == 0` guard: `quiz-results.tsx:78` yields NaN. The
  model makes `total > 0` a precondition, and `CompletedAnswers` shows a
  completed quiz always supplies five answers.
- `handleAnswer` stores the answer under whatever id it is given. The model
  accepts any bank question id with one of that question's option values.

## Model

| member | source | states |
|---|---|---|
| `QuizFlow.BankWellFormed` | components/career-quiz.tsx:13-74 | there are five questions, their ids are 1..5 in display order (so they are distinct), and every option value is one of the four profile keys |
| `QuizFlow.OptionValueDeclared` | components/career-quiz.tsx:13-74 | any value an option of a bank question records is a declared profile key, and its question id lies in 1..5 |
| `QuizFlow.CareerQuiz.constructor` | components/career-quiz.tsx:77-79 | the quiz starts at question 0 with no answers and not completed, and the object invariant holds |
| `QuizFlow.CareerQuiz.Answered` | components/career-quiz.tsx:188 | the Next button's test `!!answers[id]` holds only for a recorded id, and for well-formed answers it holds for every recorded id |
| `QuizFlow.AnswerValues` | components/quiz-results.tsx:66-75 | `Object.values(answers)` lists only recorded answers and at most five of them; once every question is answered it lists exactly five, the i-th being the answer to the i-th question (so `totalAnswers` is 5 and each profile's count is the number of questions answered with its key) |
| `QuizFlow.CareerQuiz.HandleAnswer` | components/career-quiz.tsx:84-86 | requires a quiz in progress (options are shown only then, lines 112-114); the answer map becomes the old one with `questionId` set to `value`; every other entry is unchanged; a repeated answer overwrites; no answered id is lost; index and completed flag are unchanged; the invariant is kept |
| `QuizFlow.CareerQuiz.HandleNext` | components/career-quiz.tsx:88-94 | requires a quiz in progress (lines 112-114) whose shown question is answered (the Next button guard at line 188); below the last index it advances by exactly one and the quiz stays in progress; at the last index it sets completed and keeps the index; answers are unchanged; the invariant (index in range, all passed questions answered, completed implies on the last question with all answered) is kept |
| `QuizFlow.CareerQuiz.HandlePrevious` | components/career-quiz.tsx:96-100 | requires a quiz in progress (lines 112-114); above 0 it steps back by one; at 0 nothing changes; answers are unchanged and the quiz stays in progress; the index stays in range |
| `QuizFlow.CareerQuiz.HandleRestart` | components/career-quiz.tsx:102-106 | from any state it gives index 0, an empty answer map and not completed, satisfying the invariant |
| `QuizFlow.CareerQuiz.FilledDots` | components/career-quiz.tsx:178-183 | the number of lit progress dots (those with `index <= currentQuestion`) is `currentQuestion + 1` |
| `QuizFlow.LitDotsCount` | components/career-quiz.tsx:178-183 | over `n` dots with `0 <= current < n`, exactly `current + 1` satisfy `index <= current` |
| `QuizFlow.CompletedAnswers` | components/quiz-results.tsx:66-75 | an answer map with every question answered and only option values recorded has exactly 5 entries, and `Object.values` of it is 5 declared profile keys |
| `QuizFlow.CareerQuiz.Results` | components/career-quiz.tsx:112-113 | a completed quiz hands scoring exactly 5 answers whose four profile counts add up to 5, and renders the ranking and primary profile of those answers |
| `Scoring.ProfileKeysDistinct` | components/quiz-results.tsx:13-54 | the four profile keys are pairwise distinct |
| `Scoring.Tally` | components/quiz-results.tsx:66-72 | the `scores` record has a key exactly for each value that occurs among the answers, and maps it to the number of answers carrying that value |
| `Scoring.ScoreOfTally` | components/quiz-results.tsx:78 | the score lookup with its fallback to 0 is the number of answers equal to `key`, 0 for a key no answer carries |
| `Scoring.CountsSumToTotal` | components/quiz-results.tsx:66-75 | when every answer value is a declared key, the four profile counts sum to the number of answers |
| `Scoring.RoundPercent` | components/quiz-results.tsx:77-79 | for `total > 0` the percentage is the integer nearest `100*count/total`, halves rounded up |
| `Scoring.RoundPercentBounds` | components/quiz-results.tsx:75-80 | with `count <= total` the percentage is at most 100; no matching answer gives 0 and all answers matching give 100 |
| `Scoring.RoundPercentMonotone` | components/quiz-results.tsx:76-80 | with a shared total, a larger count never gets a smaller percentage |
| `Scoring.AssignPercentages` | components/quiz-results.tsx:76-80 | the loop over the profile keys leaves in the i-th `percentage` field the rounded share of the i-th declared profile |
| `Scoring.Breakdown` | components/quiz-results.tsx:75-80 | the entries list all four profiles in declaration order, each with the rounded percentage of the answers equal to its key |
| `Scoring.BreakdownInRange` | components/quiz-results.tsx:75-80 | every percentage of the breakdown lies in 0..100 |
| `Scoring.BreakdownMonotone` | components/quiz-results.tsx:76-80 | a profile with at least as many matching answers as another has at least its percentage |
| `Scoring.UnselectedProfileListed` | components/quiz-results.tsx:76-80 | a profile that no answer selected still appears in the ranking, with 0% |
| `Scoring.SortByPercentage` | components/quiz-results.tsx:83 | the sorted entries are a permutation of the input, of the same length, non-increasing in percentage |
| `Scoring.SortIsStable` | components/quiz-results.tsx:197-198 | for every percentage, the entries with that percentage appear in the sorted output in the same order as in the input (a stable sort) |
| `Scoring.SortKeepsOrdered` | components/quiz-results.tsx:83 | an input that is already non-increasing is returned unchanged |
| `Scoring.Ranking` | components/quiz-results.tsx:197-198 | the ranked breakdown has four entries, is non-increasing in percentage and is a permutation of the breakdown |
| `Scoring.RankingTieOrder` | components/quiz-results.tsx:197-198 | entries with equal percentages keep the declaration order analytical, creative, social, leadership |
| `Scoring.Primary` | components/quiz-results.tsx:83-85 | the primary profile is one of the four profile entries |
| `Scoring.PrimaryIsBest` | components/quiz-results.tsx:83-85 | the primary profile has the maximum percentage, and among profiles tied at the maximum it is the earliest declared |
| `Scoring.ExampleBreakdown` | components/quiz-results.tsx:66-80 | answers analytical, creative, analytical, creative, social give percentages 40, 40, 20, 0 in declaration order |
| `Scoring.WorkedExample` | components/quiz-results.tsx:66-85 | for those answers the ranking is analytical 40, creative 40, social 20, leadership 0, and the primary profile is analytical |

## Left out

- Rendering: JSX, icons, styling, the `category` badge, the "n of 5" label and the floating-point `progress` value (`career-quiz.tsx:82`). The dot count (`FilledDots`) stands in for the progress display.
- `handleBackToHome` and `router.back()`: navigation only.
- `handleDownloadResults`, `handleShareResults`, `handleCopyLink` and `handleViewRecommendations` (`quiz-results.tsx:88-135`). They use timers, `navigator.share`, the clipboard, `localStorage` and the router, which are browser I/O.
- The authentication and persistence routes, the auth landing form and the database client are not part of this model. They are foreign asynchronous calls.
- The `total == 0` case: it is a precondition of `RoundPercent`, `Breakdown`, `Ranking` and `Primary`, because the source computes NaN there.
- Scoring.RoundPercent: computes on exact rationals. The source rounds a floating-point quotient, which can land just below a true half (for totals other than the quiz's five). With five answers every share is a multiple of 20, so the two agree.
- QuizFlow.CareerQuiz.HandleAnswer: requires `value` to be an option of question `questionId`. This is what the only caller passes (the shown question's id and a chosen option). The handler itself would store any string.
- QuizFlow.AnswerValues: lists only the answers to bank question ids, in question order. That is JavaScript's `Object.values` order for the integer keys 1..5, and under the invariant there are no other keys.
- Answer values that name `Object.prototype` members (such as `constructor`) make the source's `acc[answer] || 0` misbehave. The model's tally treats every string alike; the quiz never produces such values.
- `careerProfiles` is a module-level object whose `percentage` fields keep their values between renders. Every render overwrites all four fields, so the model passes the fields as an array to `AssignPercentages` and does not model the sharing.
