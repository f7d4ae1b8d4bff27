# Curious Clinic tests — a Dafny model of the page handlers

Curious Clinic is a web client in which clinicians build cognitive tests,
assign them to patients, and score the answers; patients take the tests. All
of the client's decisions live in the event handlers of its React pages. This
project models those handlers. Each `setX` call becomes a field update, and
each call to the server becomes a parameter that says whether it succeeded
and what it returned.

- `Js.dfy`: the JavaScript built-ins the handlers rely on, over exact
  integers and reals. These are `parseInt` (optional sign, `0x` hexadecimal,
  NaN as `None`), `String.prototype.trim` (the full WhiteSpace and
  LineTerminator sets), and `Math.round` (halves upwards). It also holds
  `Array.prototype.filter` and `find` by a key, used by every page's list
  edits and lookups. `CreateTest.WithoutId`, `CreateTest.PairsWithout`,
  `Dashboard.WithoutTest`, `Dashboard.WithoutAssignment` and
  `Patients.RemoveAll` are `Js.WithoutKey` with the page's own key.
  `ReviewTest.FindAnswer`, `ReviewTest.FindQuestion`,
  `CreateTest.FindCategory` and `CreateTest.FirstIncomplete` are
  `Js.FindByKey`.
- `ReviewTest.dfy`: the clinician's review screen. It holds the
  multiple-choice auto-score and the check that every hand-scored answer has
  a score. It also holds the loop that sums the total score and total points,
  and the rounded percentage guarded against zero points. Answers are renamed
  from `question` to `questionId` and back.
- `TakeTest.dfy`: the patient's session, as a class over `answers`,
  `currentQuestionIndex`, `submitted`, `score` and the continue prompt. It
  covers answering, resuming, starting fresh, the submit gate and its
  correct-answer count, and next and previous navigation.
- `CreateTest.dfy`: the test editor's list edits as functions on the question
  sequence. It also has the category switch, the points field, and the guard
  sequence of saving.
- `Dashboard.dfy`: the Take Test and Review/Score buttons chosen by status,
  the results block, normalising the assigned-tests response, and the local
  deletion of a test.
- `Patients.dfy`: the condition toggle, reset, edit and submit of the patient
  form.
- `AssignTestDialog.dfy`: the guard and payload of assigning a test, the
  reset after success, and the numeric input fallbacks.

In these places the code behaves differently from what one might expect; the
model follows the code:

- Resuming sets the question index to the number of saved answers, without
  clamping. With every question answered, it points one past the last
  question, not at it (`TakeTest.ResumeAfterEveryAnswer`). At that index the
  current question is undefined (TakeTest.tsx:281), and the render reads its
  text (TakeTest.tsx:359), so it throws.
- The submit gate of a test compares only the number of answer keys with the
  number of questions. An answer under a key that is not a question of the
  test can pass it (`TakeTest.CountGateAdmitsForeignKey`).
- The Review/Score guard reads `results.scorePercent` without optional
  chaining. A COMPLETED assignment without `results` makes the dashboard
  render throw (`Dashboard.ReviewOffered` yields `Crash`).
- Deleting a test always drops it from the local list and its stored copy,
  even when the user cancels the confirmation or the server delete fails.
  The assigned-tests list is filtered by the assignment's own id, compared
  with the test's id.
- The categories effect compares with the question list captured at mount,
  which is always empty (`CreateTest.QuestionsForCategories`).
- The API client in `src/lib/api.ts` has no `scoreTest` method. The review
  screen's submit calls one anyway (ReviewTest.tsx:141), so that call throws
  a TypeError on every submit. The handler's catch shows "Failed to submit
  test" and the page never navigates away, which means a score is never
  submitted. `ReviewTest.ReviewPage.Submit` returns the request that the call
  would carry. Its state effects are the same whatever happens to the call:
  the submitting flag ends down.

## Model

| member | source | states |
|---|---|---|
| Js.TrimStart | src/pages/CreateTest.tsx:345 | the result is a suffix of the input; every character dropped is white space and the first kept one is not |
| Js.TrimEnd | src/pages/CreateTest.tsx:345 | the result is a prefix of the input; every character dropped is white space and the last kept one is not |
| Js.Trim | src/pages/CreateTest.tsx:345 | the trimmed text neither starts nor ends with white space |
| Js.TrimCutsOnlySpace | src/pages/ReviewTest.tsx:144 | `trim` removes only white space, and only at the two ends: the input is white space, then the trimmed text, then white space |
| Js.BlankIffAllSpace | src/pages/CreateTest.tsx:358-364 | `!s.trim()` holds exactly when every character of `s` is white space |
| Js.ParseIntOr | src/components/AssignTestDialog.tsx:140 | `parseInt(s) \|\| d`: NaN and 0 give `d`, any other parse gives its value, and a nonzero `d` never yields 0 |
| Js.ParseIntSkipsSpace | src/pages/ReviewTest.tsx:84 | leading white space never changes what `parseInt` reads |
| Js.ParseIntMinus | src/components/AssignTestDialog.tsx:140 | a leading `-` negates the number read, and NaN stays NaN |
| Js.ParseNumeralThenText | src/pages/CreateTest.tsx:535 | `parseInt` reads a decimal numeral up to the first non-digit ("12px" gives 12), except that `0x` or `0X` starts a hexadecimal numeral |
| Js.ParseShowNat | src/pages/TakeTest.tsx:376 | `parseInt` reads back exactly the index that `toString` wrote for a radio option |
| Js.Round | src/pages/ReviewTest.tsx:137 | `Math.round(x)` lies within half a unit of `x`, with halves rounding up |
| Js.RoundExamples | src/pages/TakeTest.tsx:132 | 200/3 rounds to 67, 75 stays 75, -2.5 rounds to -2 |
| Js.WithoutKey | src/pages/Patients.tsx:167 | `filter` by a differing key keeps exactly the elements whose key differs, and never more elements than there were |
| Js.WithoutKeyAppend | src/pages/CreateTest.tsx:170 | the filter keeps order: filtering a concatenation concatenates the filtered parts |
| Js.WithoutKeyAbsent | src/pages/Dashboard.tsx:122 | a list in which no element has the key comes back unchanged, in order |
| Js.WithoutKeyIdempotent | src/pages/Dashboard.tsx:110 | filtering again removes nothing more, as when a test is deleted twice |
| Js.WithoutKeyCount | src/pages/Patients.tsx:167 | an element whose key differs keeps its number of occurrences; one with the key has none left |
| Js.FindByKey | src/pages/ReviewTest.tsx:100 | `find` gives nothing iff no element has the key, else the first element that has it |
| Js.FindByKeyAppend | src/pages/ReviewTest.tsx:115-117 | an appended element changes the result only when nothing before it has the key, and then it is found |
| ReviewTest.FromStored | src/pages/ReviewTest.tsx:59-64 | loading renames `question` to `questionId` and keeps answer, isCorrect and score |
| ReviewTest.LoadAnswers | src/pages/ReviewTest.tsx:58-66 | the loaded answers are the stored ones, one by one, in order |
| ReviewTest.AutoScore | src/pages/ReviewTest.tsx:78-89 | a score exists iff the question is MULTIPLE-CHOICE with options and a correct option; then it is the points when the parsed answer is the correct index, and 0 otherwise, including NaN |
| ReviewTest.AutoScoreOfOption | src/pages/ReviewTest.tsx:82-86 | an answer recorded as option `k` earns the points iff `k` is the correct option, and 0 iff it is not |
| ReviewTest.MissingScores | src/pages/ReviewTest.tsx:99-104 | the blocking questions are exactly the answered ones with no auto score and no manual entry |
| ReviewTest.MissingScoresEmpty | src/pages/ReviewTest.tsx:99-109 | submission proceeds iff every answered, hand-scored question has a manual entry; an entered 0 counts |
| ReviewTest.UnansweredNeverMissing | src/pages/ReviewTest.tsx:100-101 | a question nobody answered never blocks submission |
| ReviewTest.FinalScore | src/pages/ReviewTest.tsx:123-125 | the auto score when there is one, else the manual score, else 0 |
| ReviewTest.ScoredAnswersShape | src/pages/ReviewTest.tsx:115-133 | one entry per loaded answer, in order; an answer to no question of the test passes through unchanged, the others keep their question id and answer text |
| ReviewTest.LoadThenScoreKeepsIds | src/pages/ReviewTest.tsx:59-64 | loading and then submitting gives back the stored question id and answer text of each entry |
| ReviewTest.ScoreOne | src/pages/ReviewTest.tsx:115-134 | one answer's entry, score and points: an answer to no question of the test is passed through and adds nothing, the others add their final score and their question's points |
| ReviewTest.ScoreAnswers | src/pages/ReviewTest.tsx:111-134 | the loop builds the scored list and sums the final scores and matched points, equal to the reference definitions |
| ReviewTest.Percentage | src/pages/ReviewTest.tsx:136-137 | 0 with no points, else within half a unit of 100·score/points |
| ReviewTest.PercentageBounds | src/pages/ReviewTest.tsx:136-137 | a score between 0 and the points gives a percentage between 0 and 100 |
| ReviewTest.PercentageExamples | src/pages/ReviewTest.tsx:136-137 | 2 of 3 gives 67, 3 of 4 gives 75, and 0 points gives 0 |
| ReviewTest.TotalsBounded | src/pages/ReviewTest.tsx:111-127 | with non-negative points and manual scores within the points, 0 ≤ total score ≤ total points |
| ReviewTest.UnansweredAddsNothing | src/pages/ReviewTest.tsx:115-121 | a question that no answer names adds nothing to either total |
| ReviewTest.ReviewPage.constructor | src/pages/ReviewTest.tsx:37-46 | the screen starts with no test, no answers, no manual scores and empty notes |
| ReviewTest.ReviewPage.LoadTestData | src/pages/ReviewTest.tsx:52-76 | a failed load changes nothing; otherwise the test is set, stored answers are renamed in, and non-empty notes are copied |
| ReviewTest.ReviewPage.ManualScoreChange | src/pages/ReviewTest.tsx:91-93 | the score for that question is set or overwritten and every other entry is kept |
| ReviewTest.ReviewPage.Submit | src/pages/ReviewTest.tsx:95-156 | nothing is sent without a test or while a score is missing; otherwise the request carries the id, the percentage of the totals, the trimmed notes and the scored list, and the flag ends down |
| ReviewTest.NotesPayload | src/pages/ReviewTest.tsx:144 | `notes.trim() \|\| undefined`: absent iff the notes are blank, else the trimmed text |
| TakeTest.CorrectBounds | src/pages/TakeTest.tsx:125-130 | the correct count is at most the number of questions, equals it iff every answer is correct, and is 0 iff none is |
| TakeTest.CountCorrect | src/pages/TakeTest.tsx:124-130 | the counting loop returns the number of questions whose answer equals the correct option |
| TakeTest.Percentage | src/pages/TakeTest.tsx:132 | NaN iff there are no questions; otherwise within half a unit of 100·correct/questions, between 0 and 100, and 100 when all are correct |
| TakeTest.ResumeAfterEveryAnswer | src/pages/TakeTest.tsx:98-102 | with one saved answer per question, the resume index equals the number of questions, one past the last |
| TakeTest.CountGateAdmitsForeignKey | src/pages/TakeTest.tsx:120-123 | an answer under a foreign key passes the count gate while the only question is unanswered |
| TakeTest.Session.constructor | src/pages/TakeTest.tsx:33-42 | no test, no answers, not submitted, score 0, first question, no prompt |
| TakeTest.Session.LoadTest | src/pages/TakeTest.tsx:44-73 | no test found sends the user back; otherwise the first test is set, and saved progress with answers raises the prompt |
| TakeTest.Session.AnswerChange | src/pages/TakeTest.tsx:76-94 | the answer is set or overwritten with every other entry kept; a save is attempted iff not submitted, and a failed save only warns |
| TakeTest.Session.Continue | src/pages/TakeTest.tsx:96-110 | saved answers replace the local ones and the index becomes their count, unclamped; the prompt closes either way |
| TakeTest.Session.StartFresh | src/pages/TakeTest.tsx:112-117 | answers cleared, index 0, prompt closed |
| TakeTest.Session.Submit | src/pages/TakeTest.tsx:119-158 | rejected with nothing changed unless there are as many answer keys as questions; otherwise score = correct count, submitted is set, and the posted result follows, even if posting fails |
| TakeTest.Session.Next | src/pages/TakeTest.tsx:285-293 | without an answer to the current question it only warns; it moves one forward, never past the last question |
| TakeTest.Session.Previous | src/pages/TakeTest.tsx:295-299 | moves one back, never below the first question |
| TakeTest.Session.SelectQuestion | src/pages/TakeTest.tsx:337-342 | a question tab jumps to its index |
| CreateTest.NewQuestion | src/pages/CreateTest.tsx:141-166 | id "1", points 1, empty description; two empty options and correct option 0 for MULTIPLE-CHOICE, one empty pair for MEMORY-PAIRS, manual scoring for IMAGE-DESCRIPTION |
| CreateTest.QuestionsForCategories | src/pages/CreateTest.tsx:62-113 | no categories leave the list alone; one installs a question of that category; several install an uncategorised multiple-choice question |
| CreateTest.AddQuestion | src/pages/CreateTest.tsx:141-166 | exactly one question appended after the unchanged list, built from the first category; with no category the list is unchanged |
| CreateTest.RemoveQuestion | src/pages/CreateTest.tsx:168-172 | no change with at most one question; otherwise every question with the id goes |
| CreateTest.RemoveAfterAdd | src/pages/CreateTest.tsx:145 | removing the question just added also removes every earlier question with id "1" |
| CreateTest.SetField | src/pages/CreateTest.tsx:174-178 | only the named field changes |
| CreateTest.UpdateQuestion | src/pages/CreateTest.tsx:174-178 | the targeted questions get the field; every other question is unchanged |
| CreateTest.ParsePoints | src/pages/CreateTest.tsx:535 | a points entry that is NaN or 0 becomes 1, otherwise its parsed value |
| CreateTest.UpdateOption | src/pages/CreateTest.tsx:180-197 | only the option at the index of the targeted questions changes; a target without options leaves the list unchanged |
| CreateTest.AddOption | src/pages/CreateTest.tsx:199-205 | one empty option appended to the targeted questions only |
| CreateTest.RemoveOptionFrom | src/pages/CreateTest.tsx:207-229 | no change unless there are more than two options; otherwise exactly that option goes, and a valid correct option stays valid and still names the same option |
| CreateTest.RemoveOption | src/pages/CreateTest.tsx:207-229 | the step above applied to the targeted questions only |
| CreateTest.AddAttachedFile | src/pages/CreateTest.tsx:231-251 | the file appended to the targeted questions' attachments |
| CreateTest.RemoveFile | src/pages/CreateTest.tsx:253-266 | only the attachment at the index of the targeted questions goes |
| CreateTest.SetAudioFile | src/pages/CreateTest.tsx:268-281 | the targeted questions get the audio file; nothing else changes |
| CreateTest.SetImageFile | src/pages/CreateTest.tsx:283-296 | the targeted questions get the image file; nothing else changes |
| CreateTest.AddMemoryPair | src/pages/CreateTest.tsx:298-312 | one empty pair with the given id appended to the targeted questions |
| CreateTest.UpdateMemoryPair | src/pages/CreateTest.tsx:314-332 | only the chosen word of the matching pairs of the targeted questions changes |
| CreateTest.RemoveMemoryPair | src/pages/CreateTest.tsx:334-342 | the targeted questions lose the pairs with that id; nothing else changes |
| CreateTest.WithCategory | src/pages/CreateTest.tsx:482-494 | sets the category and resets only that category's payload fields; every other field is kept |
| CreateTest.ChangeCategory | src/pages/CreateTest.tsx:476-500 | an unknown id changes nothing; a known one updates only the targeted questions |
| CreateTest.NewQuestionIncomplete | src/pages/CreateTest.tsx:358 | a freshly added question cannot be saved as it stands |
| CreateTest.Save | src/pages/CreateTest.tsx:344-399 | refuses a blank name, then no categories, then an incomplete question, each exactly when it applies; otherwise sends only the name and the questions, as an update iff a test id is set |
| Dashboard.TakeTestOffered | src/pages/Dashboard.tsx:265-275 | offered iff the status code is not COMPLETED, a missing status included |
| Dashboard.ReviewOffered | src/pages/Dashboard.tsx:251-262 | the render throws iff COMPLETED without results; the button shows iff COMPLETED with a score that is absent or 0 |
| Dashboard.ReviewExcludesTake | src/pages/Dashboard.tsx:251-275 | the two buttons are never offered together, and a nonzero score hides Review/Score |
| Dashboard.ResultsBlock | src/pages/Dashboard.tsx:232-247 | shown iff results exist, with the score; notes shown iff present and non-empty |
| Dashboard.Normalise | src/pages/Dashboard.tsx:81 | an array is kept and a single object is wrapped in a one-element list |
| Dashboard.Board.constructor | src/pages/Dashboard.tsx:63-65 | empty lists, loading |
| Dashboard.Board.FetchTests | src/pages/Dashboard.tsx:73-91 | sets the fetched tests, then the normalised assignments; any failure falls back to the stored tests when there are any; loading ends |
| Dashboard.Board.DeleteTest | src/pages/Dashboard.tsx:101-126 | the local list and its stored copy lose the id in every case; the assignments lose it only after a confirmed, successful delete |
| Patients.EmptyForm | src/pages/Patients.tsx:145-159 | every text field empty and no conditions |
| Patients.Toggle | src/pages/Patients.tsx:163-170 | an absent id is appended at the end; a present one is removed everywhere; other ids are unaffected |
| Patients.ToggleTwice | src/pages/Patients.tsx:163-170 | toggling an absent id twice restores the list |
| Patients.RemoveAllNoDuplicates | src/pages/Patients.tsx:167 | removal keeps a duplicate-free list duplicate-free |
| Patients.ToggleNoDuplicates | src/pages/Patients.tsx:163-170 | toggling keeps a duplicate-free list duplicate-free |
| Patients.PatientForm.constructor | src/pages/Patients.tsx:59-80 | empty form, no patient being edited, dialog closed |
| Patients.PatientForm.ResetForm | src/pages/Patients.tsx:144-161 | every field and condition emptied and no patient being edited |
| Patients.PatientForm.Edit | src/pages/Patients.tsx:121-130 | the form holds exactly the patient's fields and conditions, and the dialog opens |
| Patients.PatientForm.ToggleCondition | src/pages/Patients.tsx:163-170 | only the conditions change, by the toggle |
| Patients.PatientForm.Submit | src/pages/Patients.tsx:101-119 | sends an update of the patient being edited or a creation; success closes the dialog and resets the form, failure changes nothing |
| AssignTestDialog.ValidDaysInput | src/components/AssignTestDialog.tsx:140 | NaN or 0 falls back to 7, otherwise the parsed value |
| AssignTestDialog.TimerValueInput | src/components/AssignTestDialog.tsx:175 | NaN or 0 falls back to 3600, otherwise the parsed value |
| AssignTestDialog.AssignPayload | src/components/AssignTestDialog.tsx:72-78 | "none" is sent as null and the other timer types as they are; a timer value is sent iff the type is "timer" |
| AssignTestDialog.Dialog.constructor | src/components/AssignTestDialog.tsx:37-43 | the form starts at patient "", 7 days, "none", 3600 |
| AssignTestDialog.Dialog.Assign | src/components/AssignTestDialog.tsx:64-94 | nothing is sent and nothing changes without a patient; otherwise the payload is sent, success closes the dialog and restores the defaults, failure keeps the values, and the flag ends down |

## Left out

- Server calls (`src/lib/api.ts`) are not part of this model. Each call is a
  parameter: the data returned, `None` for a failed request, or a flag saying
  whether it succeeded. The scoring call has no such parameter, because it
  fails on every submit (see above).
- Toasts, alerts, console output, navigation and rendering are not modelled.
  Refetches after a save (`fetchData`) and the patient and category lists
  loaded for the dialogs are not modelled either.
- Reading uploaded files through `FileReader` is not modelled. Files are
  opaque values handed to the upload callbacks.
- `Date.now()` pair ids are passed in as the `pairId` parameter.
- Ordering between asynchronous handlers is not modelled. That covers
  progress saves still in flight, a late categories response, and state read
  from stale closures. Each handler runs to completion on the state it reads.
- Floating point is not modelled. Scores, points and percentages are exact
  reals or integers, so double-precision rounding edge cases do not arise.
- ReviewTest.ReviewPage.ManualScoreChange: takes the number directly. Parsing
  the field with `parseFloat(value) || 0` is not modelled.
- TakeTest.Session.Submit: the posted result leaves out `questionCategories`,
  the list of question category ids.
- Loading an existing test into the editor (`loadTest` of CreateTest.tsx) is
  not modelled. It only copies fetched fields into the editor.
- The timers of an assigned test and patient deletion are not modelled. Both
  only forward to the server.
