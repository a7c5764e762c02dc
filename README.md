# LMS backend services: a verified Dafny model

This project models the business rules of the LMS backend, a NestJS/TypeORM
service layer. It covers:

- the quiz attempt and grading engine: starting an attempt, submitting answers,
  grading each question type, and computing the result;
- question authoring rules: option validation, option entities, and
  order-index assignment;
- course slugs: normalisation and the search for a free slug;
- lesson slugs and the reordering of a course's lessons;
- notification read state and per-type statistics;
- the discussion-thread summary and edit permissions;
- enrollment creation, updates by role, and viewing rights.

Each database table is a sequence of records in the service class that owns
it. A service method becomes a Dafny `method`:

- its `modifies` clause names the tables it changes;
- its `ensures` clauses state the new table and the result;
- errors are the `Result` values `NotFound`, `Forbidden` and `BadRequest`.

Pure helpers (slugify, validation, response mapping, grading) are functions.
The properties the services promise are proved as lemmas about those
functions.

Files:

| file | module | models |
|---|---|---|
| common.dfy | Common | ids, roles, `Option`/`Result`, the ownership predicates shared by the services |
| text.dfy | Text | the string primitives the slugify chains use (ASCII lower-casing, JS whitespace trim, regex run replacement, filtering, decimal rendering) |
| grading.dfy | Grading | quiz, question, option, attempt and answer rows; grading of an answer item; the per-question breakdown and totals |
| quizzes.dfy | Quizzes | `QuizService`: startQuiz, submitAnswers, calculateResult, getAttemptResult and the management gates |
| questions.dfy | Questions | `QuestionService`: validateOptionsLogic, buildOptionsEntities, getNextOrderIndex, createQuestion, updateQuestion |
| courses.dfy | Courses | `CourseService`: slugify, generateUniqueSlug, findBySlug, create, update, remove |
| lessons.dfy | Lessons | `LessonsService`: slugify, getNextOrderIndex, create/update/delete, reorderLessons |
| notifications.dfy | Notifications | `NotificationService`: createNotification, getStatsForUser, markAsRead, deleteNotification, the response mapper |
| discussions.dfy | Discussions | `DiscussionsService`: thread summary, thread and post create/update/delete |
| enrollments.dfy | Enrollments | `EnrollmentsService`: create, findById with the view rule, update by role, delete |

Modelling choices:

- Database-generated ids and timestamps (`uuid`, `new Date()`, `Date.now()`)
  are method parameters. A new id is required to be absent from its table.
- Ids are natural numbers. The one place where the source sorts ids (the
  MCQ_MULTI comparison) sorts them numerically here. The correctness flag is
  proved to depend only on the multiset of selected ids, so the order used
  does not matter.
- Roles are `STUDENT | TEACHER | ADMIN`. Question types are
  `MCQ_SINGLE | MCQ_MULTI | TRUE_FALSE` plus `Other`, which stands for the
  free-text branch of submitAnswers.
- DTO validators become preconditions:
  - question `points >= 1` and at least two options;
  - at least one answer item;
  - `progress_percent` in 0..100;
  - reorder `order_index >= 1`.
- submitAnswers, as written, computes the result before it marks the attempt
  submitted. The returned result therefore carries status `IN_PROGRESS`. The
  model keeps this.

## Model

| member | source | states |
|---|---|---|
| Grading.FindQuestion | backend/src/modules/quizzes/quiz.service.ts:346-361 | the question-map lookup: a found question belongs to the quiz and has the id asked for; not found means no question of the quiz has that id |
| Grading.FindOption | backend/src/modules/quizzes/quiz.service.ts:371-376 | the option lookup succeeds exactly when the question has an option with that id, and returns that option |
| Grading.SortIds | backend/src/modules/quizzes/quiz.service.ts:397-399 | sorting yields an ordered sequence that is a permutation of its input |
| Grading.SortedUnique | backend/src/modules/quizzes/quiz.service.ts:410-412 | two sorted sequences with the same elements are equal, so element-wise comparison of the sorted lists decides multiset equality |
| Grading.MultiSelectionCorrectIff | backend/src/modules/quizzes/quiz.service.ts:396-412 | the MCQ_MULTI flag is true iff the selection and the correct ids are equal as multisets |
| Grading.CorrectIdsMembers | backend/src/modules/quizzes/quiz.service.ts:396-397 | an id is among the correct ids iff some option with that id is marked correct |
| Grading.CorrectIdsOnce | backend/src/modules/quizzes/quiz.service.ts:396-397 | with distinct option ids, each correct id occurs at most once |
| Grading.MultiRejectsDuplicate | backend/src/modules/quizzes/quiz.service.ts:410-412 | a selection that repeats an id is graded wrong |
| Grading.MultiRejectsMissing | backend/src/modules/quizzes/quiz.service.ts:410-412 | a selection that omits a correct option is graded wrong (a strict subset is wrong) |
| Grading.MultiRejectsExtra | backend/src/modules/quizzes/quiz.service.ts:410-412 | a selection containing an id that is no correct option is graded wrong (a superset is wrong) |
| Grading.ItemRowsSingleChoice | backend/src/modules/quizzes/quiz.service.ts:365-387 | MCQ_SINGLE/TRUE_FALSE: no option gives no row; an unknown option is BadRequest; otherwise exactly one row carrying the chosen option's correctness |
| Grading.ItemRowsMultiRejects | backend/src/modules/quizzes/quiz.service.ts:388-408 | MCQ_MULTI: an empty selection gives no rows; the item fails iff some selected id is not an option of the question |
| Grading.ItemRowsMultiRows | backend/src/modules/quizzes/quiz.service.ts:410-423 | MCQ_MULTI: one row per selected id (as a multiset), all for this attempt and question, all carrying the same multiset-equality flag |
| Grading.MultiRowsIds | backend/src/modules/quizzes/quiz.service.ts:415-423 | the rows carry exactly the selected ids, in order |
| Grading.ItemRowsText | backend/src/modules/quizzes/quiz.service.ts:424-435 | a free-text item never fails; it yields one ungraded row holding the text when the text is non-empty, none otherwise |
| Grading.ItemRows | backend/src/modules/quizzes/quiz.service.ts:365-435 | only a choice question can refuse an item, always with BadRequest; a single-choice or text item gives at most one row, an MCQ_MULTI item one row per selected id |
| Grading.BuildRows | backend/src/modules/quizzes/quiz.service.ts:355-436 | no items give no rows, and every refusal is BadRequest |
| Grading.BuildRowsRejects | backend/src/modules/quizzes/quiz.service.ts:355-436 | building the rows fails iff some item is rejected (unknown question or foreign option), and the failure is BadRequest |
| Grading.ItemOutcome | backend/src/modules/quizzes/quiz.service.ts:356-361 | an unknown question id rejects the item, a known question gives that question's rows or refusal, and every refusal is BadRequest |
| Grading.ItemRowsBelong | backend/src/modules/quizzes/quiz.service.ts:378-433 | every row one item produces carries the attempt id and that item's question id |
| Grading.BuildRowsBelong | backend/src/modules/quizzes/quiz.service.ts:380-433 | every built row belongs to the attempt and to a question of the quiz |
| Grading.QuestionDetail | backend/src/modules/quizzes/quiz.service.ts:519-577 | a question earns its points or nothing; it counts as correct only when its first stored row is flagged correct; a free-text question is never correct |
| Grading.ResultOf | backend/src/modules/quizzes/quiz.service.ts:519-604 | exactly one entry per quiz question, in question order, carrying the question's id and points |
| Grading.SumEarnedBounds | backend/src/modules/quizzes/quiz.service.ts:503-567 | the points earned lie between 0 and the sum of all questions' points |
| Grading.ResultBounds | backend/src/modules/quizzes/quiz.service.ts:503-581 | 0 <= score <= total_points, total_points counts every question whether answered or not, the percentage lies in 0..100, and each entry earns 0 or its full points (0 for free text) |
| Grading.TotalAtLeastCount | backend/src/modules/quizzes/quiz.service.ts:503-506 | with points >= 1 per question, the total is at least the number of questions |
| Grading.PercentageBounds | backend/src/modules/quizzes/quiz.service.ts:580-581 | the percentage of a score within the total lies in 0..100, and a full score gives exactly 100 |
| Grading.SumEarnedAllCorrect | backend/src/modules/quizzes/quiz.service.ts:546-567 | when every question is correct the score equals the total points |
| Grading.FullMarks | backend/src/modules/quizzes/quiz.service.ts:567-581 | all questions correct gives score == total_points and percentage 100 |
| Grading.RowsForAll | backend/src/modules/quizzes/quiz.service.ts:510-520 | grouping rows that all belong to one question gives back those rows |
| Grading.GradeOfItem | backend/src/modules/quizzes/quiz.service.ts:365-423 | submitting an item and then grading its rows marks the question correct iff the chosen single option is correct, or the non-empty multi selection equals the correct set |
| Quizzes.FindAttempt | backend/src/modules/quizzes/quiz.service.ts:319-325 | the attempt lookup returns the first row with the id, or reports that none has it |
| Quizzes.FindAttemptSameIds | backend/src/modules/quizzes/quiz.service.ts:444-448 | updating attempt fields other than the id does not change where an attempt is found |
| Quizzes.FindAttemptAppend | backend/src/modules/quizzes/quiz.service.ts:298-305 | after inserting a fresh attempt, lookups find it at the end and find every other attempt where they did before |
| Quizzes.AttemptCount | backend/src/modules/quizzes/quiz.service.ts:291-296 | the number of a student's attempts on a quiz never exceeds the table size |
| Quizzes.AttemptCountMonotone | backend/src/modules/quizzes/quiz.service.ts:291-296 | the attempt count of a prefix of the table never exceeds that of the whole |
| Quizzes.AttemptNumbersIncrease | backend/src/modules/quizzes/quiz.service.ts:298-303 | in a table numbered by startQuiz, a student's later attempt on the same quiz has a larger attempt_no |
| Quizzes.AttemptCountSameKeys | backend/src/modules/quizzes/quiz.service.ts:444-448 | submitting (which keeps quiz and student) does not change any attempt count |
| Quizzes.NumberedAppend | backend/src/modules/quizzes/quiz.service.ts:298-303 | an attempt numbered count+1 keeps the numbering invariant |
| Quizzes.NumberedUpdate | backend/src/modules/quizzes/quiz.service.ts:444-448 | changing an attempt's status, score or completion time keeps the numbering invariant |
| Quizzes.NoRowsOfAttempt | backend/src/modules/quizzes/quiz.service.ts:343-344 | deleting the rows of an attempt that has none leaves the answer table unchanged |
| Quizzes.RowsOfAttemptAppend | backend/src/modules/quizzes/quiz.service.ts:438 | after saving new rows for an attempt, its rows are its old rows followed by the new ones |
| Quizzes.GroupRowsLookup | backend/src/modules/quizzes/quiz.service.ts:510-520 | the per-question map built in calculateResult returns, for each question, exactly that question's rows in order (empty when absent) |
| Quizzes.SubmitCheck | backend/src/modules/quizzes/quiz.service.ts:319-436 | an accepted submission names an existing IN_PROGRESS attempt of the caller, a quiz with questions, and the rows built from the items |
| Quizzes.SubmitRefusals | backend/src/modules/quizzes/quiz.service.ts:323-341 | NotFound iff the attempt (or its quiz) is missing; Forbidden iff the caller is not its student; BadRequest iff it is already SUBMITTED, the quiz has no questions, or some item is rejected |
| Quizzes.SubmitOnce | backend/src/modules/quizzes/quiz.service.ts:333-335 | once an attempt has been submitted, any later submission of it is BadRequest |
| Quizzes.QuizzesService.constructor | backend/src/modules/quizzes/quiz.service.ts:45-60 | starts with the given quizzes and course data and no attempts or answers |
| Quizzes.QuizzesService.EnsureCanManageLesson | backend/src/modules/quizzes/quiz.service.ts:66-95 | NotFound iff the lesson or its course is missing; otherwise allowed iff the caller is the course's teacher or an ADMIN, Forbidden else |
| Quizzes.QuizzesService.EnsureCanManageQuiz | backend/src/modules/quizzes/quiz.service.ts:97-122 | NotFound iff the quiz is missing; otherwise allowed iff the caller is an ADMIN or the teacher of the quiz's course |
| Quizzes.QuizzesService.GatesAgree | backend/src/modules/quizzes/quiz.service.ts:66-122 | the quiz gate and the lesson gate agree when the course is known; when it is not, only an ADMIN passes the quiz gate and the lesson gate says NotFound |
| Quizzes.QuizzesService.StartQuiz | backend/src/modules/quizzes/quiz.service.ts:274-312 | NotFound for a missing quiz, Forbidden for an unpublished one; otherwise one IN_PROGRESS attempt is added with attempt_no = earlier attempts + 1 and nothing else changes |
| Quizzes.QuizzesService.ResultFor | backend/src/modules/quizzes/quiz.service.ts:485-500 | NotFound when no attempt has the id (or its quiz is missing), and only NotFound; a result belongs to an existing attempt with that id, carries its status and its quiz's id, and has one entry per question of the quiz |
| Quizzes.QuizzesService.CalculateResult | backend/src/modules/quizzes/quiz.service.ts:485-605 | the imperative accumulation loop computes the result specified by `ResultOf` on the attempt's stored rows, or NotFound |
| Quizzes.QuizzesService.SubmitAnswers | backend/src/modules/quizzes/quiz.service.ts:314-451 | any refusal leaves both tables unchanged; success appends exactly the built rows, marks the attempt SUBMITTED with the returned score, and returns the grade of those rows |
| Quizzes.QuizzesService.SaveAndGrade | backend/src/modules/quizzes/quiz.service.ts:438-450 | saving the rows and updating the attempt keeps the store invariants and returns the result of the saved rows |
| Quizzes.QuizzesService.GetAttemptResult | backend/src/modules/quizzes/quiz.service.ts:453-479 | NotFound for a missing attempt; otherwise the result is given to the attempt's student, an ADMIN or the course's teacher, and Forbidden to anyone else |
| Quizzes.BuildAnswerRows | backend/src/modules/quizzes/quiz.service.ts:353-436 | the loop over the answer items computes the rows specified by `BuildRows`, failing on the first rejected item |
| Quizzes.SubmitKeepsValid | backend/src/modules/quizzes/quiz.service.ts:438-448 | submitting keeps attempt ids unique, keeps the numbering, and keeps every answer row attached to a SUBMITTED attempt |
| Quizzes.DetailsSnoc | backend/src/modules/quizzes/quiz.service.ts:519-578 | the breakdown of one more question is the old breakdown plus that question's entry |
| Quizzes.SumEarnedSnoc | backend/src/modules/quizzes/quiz.service.ts:567 | the running score grows by the points of the new entry |
| Quizzes.BuildRowsStops | backend/src/modules/quizzes/quiz.service.ts:355-361 | once an item is rejected, the whole submission is rejected, whatever follows |
| Quizzes.CountAttempts | backend/src/modules/quizzes/quiz.service.ts:291-296 | the counting pass returns the number of the student's earlier attempts on the quiz, as `AttemptCount` specifies |
| Quizzes.AppendKeepsRows | backend/src/modules/quizzes/quiz.service.ts:298-305 | a new attempt with a fresh id leaves every stored answer row attached to a SUBMITTED attempt |
| Quizzes.GroupByQuestion | backend/src/modules/quizzes/quiz.service.ts:510-515 | the grouping loop builds the per-question map `GroupRows` specifies |
| Quizzes.ScoreQuestions | backend/src/modules/quizzes/quiz.service.ts:519-578 | the scoring loop yields one entry per question in quiz order and a score equal to the sum of the points earned |
| Quizzes.InProgressHasNoRows | backend/src/modules/quizzes/quiz.service.ts:343-344 | in a consistent store an IN_PROGRESS attempt has no stored rows, so the delete before saving removes nothing |
| Questions.CorrectCount | backend/src/modules/questions/question.service.ts:74 | the number of correct options never exceeds the number of options |
| Questions.ValidateOptionsLogic | backend/src/modules/questions/question.service.ts:70-110 | a validation failure is always BadRequest |
| Questions.CorrectCountZero | backend/src/modules/questions/question.service.ts:88-94 | the correct count is 0 iff no option is correct |
| Questions.CorrectCountOne | backend/src/modules/questions/question.service.ts:81-87 | the correct count is 1 iff exactly one option is correct |
| Questions.ValidateOptionsIff | backend/src/modules/questions/question.service.ts:74-110 | an option list is accepted iff it has at least 2 options and: MCQ_SINGLE has exactly one correct, MCQ_MULTI at least one, TRUE_FALSE exactly 2 options with one correct; other types need nothing more |
| Questions.TrueFalseShape | backend/src/modules/questions/question.service.ts:95-106 | TRUE_FALSE is accepted iff there are two options and exactly one of them is correct |
| Questions.BuildOptionsEntities | backend/src/modules/questions/question.service.ts:112-124 | mapping the built option rows back to inputs gives the inputs again (length, order, content, correctness); row i carries the i-th saved id and order_index i+1 |
| Questions.CorrectIdsCount | backend/src/modules/questions/question.service.ts:74 | the correct ids of the built options are as many as the correct inputs |
| Questions.ValidatedQuestionHasCorrectAnswer | backend/src/modules/questions/question.service.ts:80-106 | a validated MCQ_SINGLE/TRUE_FALSE question has exactly one correct option and a validated MCQ_MULTI question at least one, so a correct answer always exists |
| Questions.MaxOrderIndex | backend/src/modules/questions/question.service.ts:60-66 | the highest order_index among the quiz's questions, absent iff the quiz has none |
| Questions.NextOrderIndex | backend/src/modules/questions/question.service.ts:60-68 | 1 for a quiz with no questions, otherwise the largest order_index plus 1, so above every existing one |
| Questions.QuestionsService.constructor | backend/src/modules/questions/question.service.ts:21-31 | starts with the given quiz/lesson/course data and no questions |
| Questions.QuestionsService.EnsureCanManageQuiz | backend/src/modules/questions/question.service.ts:33-58 | NotFound iff the quiz is missing; otherwise allowed iff ADMIN or the teacher of the quiz's course; a missing teacher never grants ownership |
| Questions.QuestionsService.CreateQuestion | backend/src/modules/questions/question.service.ts:129-153 | gate errors and BadRequest leave the table unchanged; otherwise the question is appended with the given or next order index and its numbered options |
| Questions.QuestionsService.UpdateQuestion | backend/src/modules/questions/question.service.ts:195-250 | validates the merged type and options before any change; on success only supplied fields change and supplied options wholly replace the old ones |
| Questions.ApplyQuestionUpdate | backend/src/modules/questions/question.service.ts:226-246 | every supplied field replaces the stored one, supplied options replace the old ones numbered in order, and when the merged type and options pass validation the result is a well-formed question |
| Questions.ReplaceKeepsTable | backend/src/modules/questions/question.service.ts:248 | saving a well-formed question under its own id keeps ids unique and every stored question well formed |
| Questions.FindIndex | backend/src/modules/questions/question.service.ts:204-211 | the question lookup is restricted to the quiz: found means same id and same quiz, not found means no such question in that quiz |
| Courses.Slugify | backend/src/modules/courses/course.service.ts:264-271 | slugify output contains only a-z, 0-9 and '-', and never two '-' in a row |
| Courses.SlugifyFixesSlugs | backend/src/modules/courses/course.service.ts:264-271 | slugify leaves a well-formed slug as it is |
| Courses.SlugifyIdempotent | backend/src/modules/courses/course.service.ts:264-271 | slugify(slugify(s)) == slugify(s) |
| Courses.CandidateInjective | backend/src/modules/courses/course.service.ts:250-261 | distinct counters give distinct candidate slugs, so the search never revisits a slug |
| Courses.FindSlug | backend/src/modules/courses/course.service.ts:50-53 | the slug lookup returns a course with that slug, or none exists |
| Courses.TriedNext | backend/src/modules/courses/course.service.ts:250-261 | each loop step tries a new candidate, so the tried set grows by exactly one |
| Courses.SlugsCard | backend/src/modules/courses/course.service.ts:251-253 | there are at most as many distinct slugs as courses |
| Courses.TriedCard | backend/src/modules/courses/course.service.ts:259-260 | the first n candidates are n different slugs |
| Courses.TriedBound | backend/src/modules/courses/course.service.ts:250-261 | the loop fails at most as many times as there are courses, so it terminates |
| Courses.FreeSlugUnshared | backend/src/modules/courses/course.service.ts:239-262 | a slug reported free is held, if at all, only by the course being updated |
| Courses.FindById | backend/src/modules/courses/course.service.ts:92-101 | the id lookup returns the course with that id, or none exists |
| Courses.EnsureCanModifyCourse | backend/src/modules/courses/course.service.ts:156-167 | allowed iff the caller is the course's teacher or an ADMIN; otherwise Forbidden |
| Courses.ReplaceKeepsUnique | backend/src/modules/courses/course.service.ts:103-138 | replacing a course by an update that keeps its id and keeps or freshly acquires its slug keeps ids and slugs unique |
| Courses.CoursesService.constructor | backend/src/modules/courses/course.service.ts:25-32 | starts with no courses |
| Courses.CoursesService.FirstFreeCandidate | backend/src/modules/courses/course.service.ts:244-261 | the loop returns the first candidate of the base slug that is free (or held by the current course), after finitely many tries |
| Courses.CoursesService.GenerateUniqueSlug | backend/src/modules/courses/course.service.ts:239-262 | returns the base slug if free (or held by the current course), else base-k for the smallest such k >= 1; the loop terminates |
| Courses.CoursesService.FindBySlug | backend/src/modules/courses/course.service.ts:49-59 | a course is returned only if it has the slug and is PUBLISHED; anything else is NotFound |
| Courses.CoursesService.Create | backend/src/modules/courses/course.service.ts:65-83 | a new DRAFT course, never published, owned by the caller, whose slug no existing course holds |
| Courses.CoursesService.Update | backend/src/modules/courses/course.service.ts:103-138 | NotFound, Forbidden unless teacher or ADMIN; only supplied fields change; the slug is regenerated only for a non-empty new title; published_at is set once, when the status becomes PUBLISHED while unset |
| Courses.CoursesService.Remove | backend/src/modules/courses/course.service.ts:140-150 | NotFound, Forbidden unless teacher or ADMIN, otherwise exactly that course is removed |
| Lessons.StripShape | backend/src/modules/lessons/lessons.service.ts:58-59 | stripping leading and trailing dashes from a dash-collapsed string gives a lesson slug |
| Lessons.SlugifyShape | backend/src/modules/lessons/lessons.service.ts:52-60 | slugify output contains only [a-z0-9-], has no leading or trailing '-' and no '--' |
| Lessons.StoredSlugShape | backend/src/modules/lessons/lessons.service.ts:85-86 | the stored slug is the slugified title, a dash, then one or more decimal digits (the creation time) |
| Lessons.StoredSlugDistinct | backend/src/modules/lessons/lessons.service.ts:85-86 | two lessons with the same title created at different milliseconds get different slugs |
| Lessons.MaxOrderIndex | backend/src/modules/lessons/lessons.service.ts:62-68 | the highest order_index of the course's lessons, absent iff the course has none |
| Lessons.NextOrderIndex | backend/src/modules/lessons/lessons.service.ts:62-70 | 1 for a course without lessons, otherwise the maximum order_index plus 1 |
| Lessons.OrderMap | backend/src/modules/lessons/lessons.service.ts:223-226 | the id-to-index map has exactly the requested ids as keys |
| Lessons.CourseLessonIdsSnoc | backend/src/modules/lessons/lessons.service.ts:210-215 | the ids of a course's lessons grow with the table one row at a time |
| Lessons.MatchCountIsCard | backend/src/modules/lessons/lessons.service.ts:210-215 | the number of lessons the query finds equals the number of requested ids that are lessons of the course |
| Common.SubsetCard | backend/src/modules/lessons/lessons.service.ts:217 | a subset is no larger than its superset, and a proper subset is smaller |
| Lessons.SetOfCard | backend/src/modules/lessons/lessons.service.ts:208-217 | the set of requested ids is as large as the request iff the ids are distinct |
| Lessons.ReorderAcceptedIff | backend/src/modules/lessons/lessons.service.ts:208-221 | the length check passes iff the ids are distinct and all are lessons of the course, so unknown, foreign or repeated ids are refused |
| Lessons.OrderMapDistinct | backend/src/modules/lessons/lessons.service.ts:223-226 | with distinct ids, the map gives each listed lesson its requested index |
| Lessons.BuildOrderMap | backend/src/modules/lessons/lessons.service.ts:223-226 | the forEach that fills the map computes `OrderMap` of the request |
| Lessons.AppendKeepsDistinct | backend/src/modules/lessons/lessons.service.ts:88-100 | inserting a lesson with a fresh id keeps ids unique |
| Lessons.Reordered | backend/src/modules/lessons/lessons.service.ts:228-235 | reordering never adds or removes lessons |
| Lessons.ReorderedPositions | backend/src/modules/lessons/lessons.service.ts:228-235 | a listed lesson of the course gets exactly its requested index, and every other lesson is unchanged |
| Lessons.FindInCourse | backend/src/modules/lessons/lessons.service.ts:140-146 | the lookup finds a lesson only within the given course |
| Lessons.LessonsService.constructor | backend/src/modules/lessons/lessons.service.ts:18-25 | starts with the given course ownership and no lessons |
| Lessons.LessonsService.EnsureCanManageCourse | backend/src/modules/lessons/lessons.service.ts:27-50 | NotFound iff the course is missing; otherwise allowed iff the caller is its teacher or an ADMIN, Forbidden else |
| Lessons.LessonsService.CreateLesson | backend/src/modules/lessons/lessons.service.ts:74-101 | gate errors change nothing; otherwise one lesson is appended with slug slugify(title)-now, the given or next order index and the stated defaults |
| Lessons.LessonsService.UpdateLesson | backend/src/modules/lessons/lessons.service.ts:131-173 | gate errors and NotFound change nothing; otherwise only supplied fields change, and the slug only when a title is supplied |
| Lessons.LessonsService.DeleteLesson | backend/src/modules/lessons/lessons.service.ts:177-196 | gate errors and NotFound change nothing; otherwise exactly that lesson is removed |
| Lessons.LessonsService.CountSelected | backend/src/modules/lessons/lessons.service.ts:210-215 | counts the lessons of the course whose id was requested |
| Lessons.LessonsService.ApplyOrder | backend/src/modules/lessons/lessons.service.ts:228-235 | the in-place update loop leaves the table as specified by `Reordered` |
| Lessons.LessonsService.ReorderLessons | backend/src/modules/lessons/lessons.service.ts:200-238 | gate errors first; then Forbidden iff the matched count differs from the request length; on success every listed lesson has its requested index and all others are unchanged |
| Notifications.UserRows | backend/src/modules/notifications/notification.service.ts:123-125 | exactly the user's notifications, each as many times as it occurs in the table, and no other row |
| Notifications.UnreadCount | backend/src/modules/notifications/notification.service.ts:128 | unread never exceeds the number of rows |
| Notifications.ByType | backend/src/modules/notifications/notification.service.ts:130-137 | a type is a key iff it occurs, and its value is the number of its occurrences |
| Notifications.ByTypeSum | backend/src/modules/notifications/notification.service.ts:127-137 | the by_type counts sum to total |
| Notifications.BumpSum | backend/src/modules/notifications/notification.service.ts:133-136 | one increment raises the sum of the counts by one |
| Notifications.MarkedTable | backend/src/modules/notifications/notification.service.ts:156-185 | the update changes only read_at, only on the user's unread rows, only on listed ids when a non-empty list is given, and stamps every such unread row with the time of the call |
| Notifications.EmptyListMarksAll | backend/src/modules/notifications/notification.service.ts:156-185 | an empty id list behaves as no list: all of the user's unread rows are marked |
| Notifications.AffectedSameMarks | backend/src/modules/notifications/notification.service.ts:162-178 | the affected count depends only on which rows the filter selects |
| Notifications.Affected | backend/src/modules/notifications/notification.service.ts:156-185 | the affected count is at most the table size, and 0 exactly when no row matches the filter |
| Notifications.MarkAsReadIdempotent | backend/src/modules/notifications/notification.service.ts:164-178 | repeating markAsRead affects 0 rows and leaves the table as it was |
| Notifications.BaseUrl | backend/src/modules/notifications/notification.service.ts:229-230 | the configured FRONTEND_URL when non-empty, otherwise a non-empty default |
| Notifications.ToNotificationResponse | backend/src/modules/notifications/notification.service.ts:223-251 | the row's fields are copied; related is present iff both related id and type are set, and then carries that id and type and the url made of the base, '/', the type, '/', the id |
| Notifications.FindById | backend/src/modules/notifications/notification.service.ts:197-203 | the id lookup returns the notification with that id, or none exists |
| Notifications.NotificationsService.constructor | backend/src/modules/notifications/notification.service.ts:29-37 | starts with no notifications |
| Notifications.NotificationsService.CreateNotification | backend/src/modules/notifications/notification.service.ts:39-52 | appends one unread notification with the given fields |
| Notifications.NotificationsService.GetStatsForUser | backend/src/modules/notifications/notification.service.ts:122-144 | total counts the user's notifications, unread those without read_at, by_type holds only occurring types, and the by_type counts sum to total |
| Notifications.CountByType | backend/src/modules/notifications/notification.service.ts:130-137 | the counting loop builds the by_type map `ByType` specifies |
| Notifications.NotificationsService.MarkAsRead | backend/src/modules/notifications/notification.service.ts:150-186 | the table becomes `MarkedTable` and affected is the number of rows that filter selects |
| Notifications.NotificationsService.DeleteNotification | backend/src/modules/notifications/notification.service.ts:192-217 | NotFound for a missing row; allowed iff the caller owns it or is an ADMIN (Forbidden else); success removes exactly that row |
| Discussions.PostsCount | backend/src/modules/discussions/discussions.service.ts:327-328 | posts_count never exceeds the number of posts |
| Discussions.Latest | backend/src/modules/discussions/discussions.service.ts:330-336 | a live post with the greatest created_at, the first such in list order (as a stable sort picks); absent iff no post is live |
| Discussions.LatestIffPosts | backend/src/modules/discussions/discussions.service.ts:327-336 | there is a latest post iff posts_count > 0 |
| Discussions.ToThreadResponse | backend/src/modules/discussions/discussions.service.ts:324-375 | thread fields copied; missing relations fall back to the thread's own ids; posts_count counts live posts; latest_post is present iff posts_count > 0, and then carries the id, content, created_at and author id of the live post with the greatest created_at, the earliest in the list among equals (the stable newest-first sort's first element) |
| Discussions.SoftDeleteCount | backend/src/modules/discussions/discussions.service.ts:279-281 | soft-deleting a live post lowers its thread's live count by one and leaves other threads' counts unchanged |
| Discussions.FindThread | backend/src/modules/discussions/discussions.service.ts:113-120 | the thread lookup returns the thread with that id, or none exists |
| Discussions.FindPost | backend/src/modules/discussions/discussions.service.ts:231-237 | the post lookup returns the post with that id, or none exists |
| Discussions.UpdateThreadCheck | backend/src/modules/discussions/discussions.service.ts:113-139 | NotFound iff the thread is missing; supplying pinned needs a TEACHER or ADMIN; otherwise the creator or a TEACHER/ADMIN; every other case is Forbidden |
| Discussions.PostCheck | backend/src/modules/discussions/discussions.service.ts:231-277 | NotFound iff the post is missing or soft-deleted; otherwise allowed iff author or TEACHER/ADMIN, Forbidden else |
| Discussions.DiscussionsService.constructor | backend/src/modules/discussions/discussions.service.ts:30-39 | starts with no threads and no posts |
| Discussions.DiscussionsService.CreateThread | backend/src/modules/discussions/discussions.service.ts:41-54 | appends an unpinned thread created by the caller |
| Discussions.DiscussionsService.UpdateThread | backend/src/modules/discussions/discussions.service.ts:107-149 | refusals change nothing; success changes only the supplied title and pinned |
| Discussions.DiscussionsService.DeleteThread | backend/src/modules/discussions/discussions.service.ts:151-178 | NotFound, Forbidden unless creator or TEACHER/ADMIN; success removes the thread and, by the foreign-key cascade, its posts |
| Discussions.DiscussionsService.CreatePost | backend/src/modules/discussions/discussions.service.ts:202-223 | NotFound for a missing thread; otherwise appends a live post by the caller |
| Discussions.DiscussionsService.UpdatePost | backend/src/modules/discussions/discussions.service.ts:225-253 | refusals change nothing; success changes only the content |
| Discussions.DiscussionsService.DeletePost | backend/src/modules/discussions/discussions.service.ts:255-284 | refusals change nothing; success only sets is_deleted, keeps the row in the table, and lowers the thread's live count by one |
| Discussions.Without | backend/src/modules/discussions/entites/discussion-post.entity.ts:27-29 | the cascade keeps exactly the posts of other threads |
| Discussions.WithoutKeepsKeys | backend/src/modules/discussions/entites/discussion-post.entity.ts:27-29 | removing a thread's posts keeps post ids unique |
| Enrollments.FindById | backend/src/modules/enrollments/enrollments.service.ts:105-112 | the id lookup returns the enrollment with that id, or none exists |
| Enrollments.EnsureCanView | backend/src/modules/enrollments/enrollments.service.ts:269-291 | allowed iff the caller owns the enrollment, is an ADMIN, or is a TEACHER who is the teacher of the loaded course relation; otherwise Forbidden |
| Enrollments.ApplyUpdate | backend/src/modules/enrollments/enrollments.service.ts:141-176 | a STUDENT must own the enrollment and supply progress, and changes only progress; a TEACHER/ADMIN changes each supplied field without an ownership check; identity fields never change; every refusal is Forbidden |
| Enrollments.StudentOnlyProgress | backend/src/modules/enrollments/enrollments.service.ts:147-160 | a student's successful update is the old enrollment with only the progress replaced |
| Enrollments.ToEnrollmentResponse | backend/src/modules/enrollments/enrollments.service.ts:293-313 | the row's fields copied; missing relations fall back to student_id / course_id and empty strings |
| Enrollments.ReplaceKeepsWellFormed | backend/src/modules/enrollments/entities/enrollment.entity.ts:6 | an update that keeps id, student and course and stays within 0..100 keeps the table's keys and ranges |
| Enrollments.EnrollmentsService.constructor | backend/src/modules/enrollments/enrollments.service.ts:33-36 | starts with no enrollments and the given course teachers |
| Enrollments.EnrollmentsService.TeacherOfCourse | backend/src/modules/enrollments/enrollments.service.ts:105-108 | the course relation loaded with an enrollment is the course with the enrollment's own course_id, missing exactly when that course does not exist |
| Enrollments.EnrollmentsService.CreateEnrollment | backend/src/modules/enrollments/enrollments.service.ts:41-67 | BadRequest, with nothing changed, if the student is already enrolled in the course; otherwise one ACTIVE enrollment with progress 0 is appended; afterwards the student is enrolled |
| Enrollments.EnrollmentsService.FindEnrollment | backend/src/modules/enrollments/enrollments.service.ts:100-121 | NotFound iff no enrollment has the id; otherwise the enrollment is returned iff the caller is its student, an ADMIN, or a TEACHER who teaches the enrollment's own course, and Forbidden else |
| Enrollments.EnrollmentsService.UpdateEnrollment | backend/src/modules/enrollments/enrollments.service.ts:126-191 | NotFound for a missing enrollment; otherwise the role rule decides, refusals change nothing, and success replaces the row while keeping (student, course) unique and progress in 0..100 |
| Enrollments.EnrollmentsService.DeleteEnrollment | backend/src/modules/enrollments/enrollments.service.ts:196-217 | Forbidden for a non-ADMIN before any lookup, then NotFound; success removes exactly that enrollment |
| Text.DropLeading | backend/src/modules/lessons/lessons.service.ts:59 | removing leading dashes gives a suffix that does not start with one |
| Text.DropTrailing | backend/src/modules/lessons/lessons.service.ts:59 | removing trailing dashes gives a prefix that does not end with one |
| Text.NatToString | backend/src/modules/courses/course.service.ts:259 | a decimal rendering: non-empty, digits only |
| Text.NatToStringInjective | backend/src/modules/courses/course.service.ts:259 | distinct numbers render differently |
| Text.ReplaceRunsChars | backend/src/modules/courses/course.service.ts:268-270 | a run replacement keeps only the replacement and characters outside the class |
| Text.ReplaceRunsNoRepeat | backend/src/modules/courses/course.service.ts:270 | replacing runs by a member of the class leaves no two replacements in a row |
| Text.ReplaceRunsNothingToDo | backend/src/modules/courses/course.service.ts:268 | a string with no character of the class is unchanged |
| Text.CollapseNoRepeat | backend/src/modules/courses/course.service.ts:270 | collapsing runs of '-' leaves a string with no '--' unchanged |
| Text.KeepChars | backend/src/modules/courses/course.service.ts:269 | a filter keeps only allowed characters of the input |
| Text.KeepEverything | backend/src/modules/courses/course.service.ts:269 | a filter leaves a string of allowed characters unchanged |
| Text.TrimNoSpace | backend/src/modules/courses/course.service.ts:267 | trim leaves a string without whitespace unchanged |
| Text.ToLowerNoUpper | backend/src/modules/courses/course.service.ts:266 | lower-casing leaves a string without upper-case letters unchanged |

## Left out

- Controllers, modules, startup, the users and auth services, and password, token and mail primitives. These are routing, configuration and foreign-library wrappers.
- Listing queries: getPublicQuizzes, findPublic/findForManage, findLessonsByCourse, getThreads, getPostsByThread, findEnrollments and getNotificationsForUser. They are SQL filtering, ordering and pagination.
- Quiz CRUD (createQuiz, updateQuiz, deleteQuiz, getQuizForManage) and deleteQuestion are not modelled. Their gates (`EnsureCanManageLesson`, `EnsureCanManageQuiz`) are.
- Database ordering: a quiz's questions are held in `order_index` order, as loadQuizWithQuestions loads them. Answer rows are returned in table order. ORDER BY itself is not modelled.
- Concurrency: count-then-insert numbering, delete-then-insert submission and the slug search run sequentially here. Atomicity under races is not claimed.
- Unique ids, timestamps, `Date.now()` and the `FRONTEND_URL` environment variable are parameters.
- Enrollments.ToEnrollmentResponse: `progress_percent` is a decimal(5,2) column. Its two-digit rounding and the `Number(...)` conversion are not modelled; progress is an exact real.
- Grading.ResultOf: `toFixed(2)` rounding of score and percentage is not modelled. The percentage is an exact rational.
- Grading.QuestionDetail: the display strings `your_answer` / `correct_answer` are modelled as option contents, without JSON shape.
- Grading.SortIds: the source sorts uuid strings lexicographically; the model sorts numeric ids. The correctness flag is proved to depend only on the multiset (`Grading.MultiSelectionCorrectIff`), so the order is immaterial.
- Lessons.SlugifyShape: Unicode NFD normalisation is a library call and is not modelled. Input is taken as ASCII or already decomposed; the combining-mark range U+0300..U+036F is removed as written.
- Courses.Slugify and Lessons.Slugify: `toLowerCase` is modelled for A-Z only. Non-ASCII case mapping is left out.
- Courses.CoursesService.GenerateUniqueSlug: when the base slug ends with '-' (e.g. title "a-"), a candidate `base-k` contains "--". The model reproduces this. The "no --" property is stated for `Slugify` output only.
- Discussions.DiscussionsService.DeleteThread: post removal on thread deletion is the database's ON DELETE CASCADE (discussion-post.entity.ts), not service code. Replies whose parent is deleted are not modelled separately.
- Lessons.LessonsService.ReorderLessons: `repository.save` of the matched rows is modelled as the in-place update of the table.
- Enrollments.EnrollmentsService.CreateEnrollment: the enrollment's course is assumed to exist. In the database, an insert naming a missing course fails on the `course_id` foreign key with an unhandled server error; the model returns Ok there.
- Discussions.DiscussionsService.CreateThread: the same for the thread's `course_id` and `lesson_id`.
- Discussions.DiscussionsService.CreatePost: the same for the post's `parent_id` and `created_by`. Like the source, the model does not check that a given parent is a post of the same thread.
- Notifications.NotificationsService.CreateNotification: the same for the notification's `user_id`; the users table is not part of this model.
- Course and lesson deletion do not cascade to lessons, quizzes or enrollments in the model. Those rows belong to other services' tables.
