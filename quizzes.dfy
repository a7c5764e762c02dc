/** The quiz attempt engine of `quiz.service.ts`: starting an attempt,
    submitting its answers, computing its result, and the permission gates in
    front of quiz management. The tables it reads and writes are the fields of
    `QuizzesService`. */
module Quizzes {
  import opened Common
  import opened Grading

  /** What startQuiz returns. */
  datatype StartInfo = StartInfo(attemptId: Id, startedAt: int, timeLimitMinutes: Option<int>)

  // ---------------------------------------------------------------------
  // Attempt table
  // ---------------------------------------------------------------------

  /** `findOne({ where: { id } })` on the attempt table: the position of the
      attempt with that id. */
  function FindAttempt(attempts: seq<QuizAttempt>, id: Id): (r: Option<nat>)
    ensures r.Some? ==> r.value < |attempts| && attempts[r.value].id == id
    ensures r.Some? ==> forall k :: 0 <= k < r.value ==> attempts[k].id != id
    ensures r.None? ==> forall k :: 0 <= k < |attempts| ==> attempts[k].id != id
  {
    if attempts == [] then None
    else if attempts[0].id == id then Some(0)
    else
      match FindAttempt(attempts[1..], id)
      case None => None
      case Some(k) => Some(k + 1)
  }

  /** The status of the attempt with that id, if there is one. */
  function StatusOf(attempts: seq<QuizAttempt>, id: Id): Option<AttemptStatus>
  {
    match FindAttempt(attempts, id)
    case None => None
    case Some(k) => Some(attempts[k].status)
  }

  /** Two attempt tables with the same ids position by position find every id
      at the same place. */
  lemma FindAttemptSameIds(a: seq<QuizAttempt>, b: seq<QuizAttempt>, id: Id)
    requires |a| == |b| && forall k :: 0 <= k < |a| ==> a[k].id == b[k].id
    ensures FindAttempt(a, id) == FindAttempt(b, id)
  {
    var ra, rb := FindAttempt(a, id), FindAttempt(b, id);
    if ra.Some? {
      assert b[ra.value].id == id;
    }
    if rb.Some? {
      assert a[rb.value].id == id;
    }
  }

  /** Appending an attempt with a new id leaves the other ids where they were. */
  lemma FindAttemptAppend(a: seq<QuizAttempt>, x: QuizAttempt, id: Id)
    requires forall k :: 0 <= k < |a| ==> a[k].id != x.id
    ensures FindAttempt(a + [x], id) == if id == x.id then Some(|a|) else FindAttempt(a, id)
  {
    var r, s := FindAttempt(a + [x], id), FindAttempt(a, id);
    assert (a + [x])[|a|] == x;
    if s.Some? {
      assert (a + [x])[s.value] == a[s.value];
    }
    if r.Some? && r.value < |a| {
      assert (a + [x])[r.value] == a[r.value];
    }
  }

  /** `attemptRepository.count({ where: { quiz_id, student_id } })`. */
  function AttemptCount(attempts: seq<QuizAttempt>, quizId: Id, studentId: Id): (n: nat)
    ensures n <= |attempts|
  {
    if attempts == [] then 0
    else
      AttemptCount(attempts[..|attempts| - 1], quizId, studentId) +
      (if attempts[|attempts| - 1].quizId == quizId && attempts[|attempts| - 1].studentId == studentId then 1 else 0)
  }

  /** Every attempt is numbered one more than the attempts the same student
      made earlier on the same quiz. */
  predicate NumberedInOrder(attempts: seq<QuizAttempt>)
  {
    forall i :: 0 <= i < |attempts| ==>
      attempts[i].attemptNo == AttemptCount(attempts[..i], attempts[i].quizId, attempts[i].studentId) + 1
  }

  lemma {:induction false} AttemptCountMonotone(attempts: seq<QuizAttempt>, k: nat, quizId: Id, studentId: Id)
    requires k <= |attempts|
    ensures AttemptCount(attempts[..k], quizId, studentId) <= AttemptCount(attempts, quizId, studentId)
    decreases |attempts|
  {
    if k < |attempts| {
      var init := attempts[..|attempts| - 1];
      assert init[..k] == attempts[..k];
      AttemptCountMonotone(init, k, quizId, studentId);
    } else {
      assert attempts[..k] == attempts;
    }
  }

  /** Numbering by count makes the attempts of one student on one quiz
      strictly increasing in table order, so no number repeats. */
  lemma AttemptNumbersIncrease(attempts: seq<QuizAttempt>, i: nat, j: nat)
    requires NumberedInOrder(attempts)
    requires i < j < |attempts|
    requires attempts[i].quizId == attempts[j].quizId && attempts[i].studentId == attempts[j].studentId
    ensures attempts[i].attemptNo < attempts[j].attemptNo
  {
    var q, s := attempts[i].quizId, attempts[i].studentId;
    var pj := attempts[..j];
    assert pj[..i + 1] == attempts[..i + 1];
    assert attempts[..i + 1][..i] == attempts[..i];
    AttemptCountMonotone(pj, i + 1, q, s);
  }

  lemma {:induction false} AttemptCountSameKeys(a: seq<QuizAttempt>, b: seq<QuizAttempt>, quizId: Id, studentId: Id)
    requires |a| == |b|
    requires forall k :: 0 <= k < |a| ==> a[k].quizId == b[k].quizId && a[k].studentId == b[k].studentId
    ensures AttemptCount(a, quizId, studentId) == AttemptCount(b, quizId, studentId)
    decreases |a|
  {
    if a != [] {
      AttemptCountSameKeys(a[..|a| - 1], b[..|b| - 1], quizId, studentId);
    }
  }

  /** A new attempt numbered by count keeps the numbering. */
  lemma NumberedAppend(attempts: seq<QuizAttempt>, x: QuizAttempt)
    requires NumberedInOrder(attempts)
    requires x.attemptNo == AttemptCount(attempts, x.quizId, x.studentId) + 1
    ensures NumberedInOrder(attempts + [x])
  {
    var t := attempts + [x];
    forall i | 0 <= i < |t|
      ensures t[i].attemptNo == AttemptCount(t[..i], t[i].quizId, t[i].studentId) + 1
    {
      if i < |attempts| {
        assert t[..i] == attempts[..i];
      } else {
        assert t[..i] == attempts;
      }
    }
  }

  /** Changing an attempt's status, completion time or score keeps the
      numbering. */
  lemma NumberedUpdate(attempts: seq<QuizAttempt>, i: nat, x: QuizAttempt)
    requires NumberedInOrder(attempts) && i < |attempts|
    requires x.quizId == attempts[i].quizId && x.studentId == attempts[i].studentId && x.attemptNo == attempts[i].attemptNo
    ensures NumberedInOrder(attempts[i := x])
  {
    var t := attempts[i := x];
    forall j | 0 <= j < |t|
      ensures t[j].attemptNo == AttemptCount(t[..j], t[j].quizId, t[j].studentId) + 1
    {
      AttemptCountSameKeys(t[..j], attempts[..j], t[j].quizId, t[j].studentId);
    }
  }

  // ---------------------------------------------------------------------
  // Answer table
  // ---------------------------------------------------------------------

  /** `attemptAnswerRepository.find({ where: { attempt_id } })`. */
  function RowsOfAttempt(rows: seq<AttemptAnswer>, attemptId: Id): seq<AttemptAnswer>
  {
    if rows == [] then []
    else
      RowsOfAttempt(rows[..|rows| - 1], attemptId) +
      (if rows[|rows| - 1].attemptId == attemptId then [rows[|rows| - 1]] else [])
  }

  /** `attemptAnswerRepository.delete({ attempt_id })`. */
  function WithoutAttempt(rows: seq<AttemptAnswer>, attemptId: Id): seq<AttemptAnswer>
  {
    if rows == [] then []
    else
      WithoutAttempt(rows[..|rows| - 1], attemptId) +
      (if rows[|rows| - 1].attemptId == attemptId then [] else [rows[|rows| - 1]])
  }

  /** With no row of the attempt in the table, the delete removes nothing and
      the find returns nothing. */
  lemma {:induction false} NoRowsOfAttempt(rows: seq<AttemptAnswer>, attemptId: Id)
    requires forall k :: 0 <= k < |rows| ==> rows[k].attemptId != attemptId
    ensures WithoutAttempt(rows, attemptId) == rows
    ensures RowsOfAttempt(rows, attemptId) == []
    decreases |rows|
  {
    if rows != [] {
      NoRowsOfAttempt(rows[..|rows| - 1], attemptId);
    }
  }

  /** Saving rows of one attempt adds exactly those rows to what the find
      returns for it. */
  lemma {:induction false} RowsOfAttemptAppend(rows: seq<AttemptAnswer>, added: seq<AttemptAnswer>, attemptId: Id)
    requires forall k :: 0 <= k < |added| ==> added[k].attemptId == attemptId
    ensures RowsOfAttempt(rows + added, attemptId) == RowsOfAttempt(rows, attemptId) + added
    decreases |added|
  {
    if added != [] {
      var init := added[..|added| - 1];
      assert (rows + added)[..|rows + added| - 1] == rows + init;
      RowsOfAttemptAppend(rows, init, attemptId);
      assert init + [added[|added| - 1]] == added;
    } else {
      assert rows + added == rows;
    }
  }

  /** The `answersByQuestion` map, filled row by row. */
  function GroupRows(rows: seq<AttemptAnswer>): map<Id, seq<AttemptAnswer>>
  {
    if rows == [] then map[]
    else
      var m := GroupRows(rows[..|rows| - 1]);
      var qid := rows[|rows| - 1].questionId;
      m[qid := (if qid in m then m[qid] else []) + [rows[|rows| - 1]]]
  }

  /** `answersByQuestion.get(qid) ?? []` is the question's rows in order. */
  lemma {:induction false} GroupRowsLookup(rows: seq<AttemptAnswer>, qid: Id)
    ensures (if qid in GroupRows(rows) then GroupRows(rows)[qid] else []) == RowsFor(rows, qid)
    decreases |rows|
  {
    if rows != [] {
      GroupRowsLookup(rows[..|rows| - 1], qid);
    }
  }

  // ---------------------------------------------------------------------
  // submitAnswers, as a specification
  // ---------------------------------------------------------------------

  /** An accepted submission: the attempt's position, its quiz and the rows
      to save. */
  datatype Accepted = Accepted(index: nat, quiz: Quiz, rows: seq<AttemptAnswer>)

  /** The checks of submitAnswers in the order the code makes them. */
  function SubmitCheck(attempts: seq<QuizAttempt>, quizzes: map<Id, Quiz>, attemptId: Id,
                       studentId: Id, items: seq<AnswerItem>): (r: Result<Accepted>)
    ensures r.Ok? ==> r.value.index < |attempts| && attempts[r.value.index].id == attemptId &&
                      attempts[r.value.index].studentId == studentId &&
                      attempts[r.value.index].status == IN_PROGRESS &&
                      r.value.quiz.questions != [] &&
                      BuildRows(attemptId, r.value.quiz.questions, items) == Ok(r.value.rows)
  {
    match FindAttempt(attempts, attemptId)
    case None => Err(NotFound)
    case Some(i) =>
      if attempts[i].studentId != studentId then Err(Forbidden)
      else if attempts[i].status == SUBMITTED then Err(BadRequest)
      else if attempts[i].quizId !in quizzes then Err(NotFound)
      else if |quizzes[attempts[i].quizId].questions| == 0 then Err(BadRequest)
      else
        match BuildRows(attemptId, quizzes[attempts[i].quizId].questions, items)
        case Err(e) => Err(e)
        case Ok(rows) =>
          assert attempts[i].status == IN_PROGRESS;
          Ok(Accepted(i, quizzes[attempts[i].quizId], rows))
  }

  /** The attempt as submitAnswers saves it. */
  function Submitted(a: QuizAttempt, now: int, score: int): QuizAttempt
  {
    a.(status := SUBMITTED, completedAt := Some(now), score := Some(score))
  }

  /** Why a submission is refused: a missing attempt or quiz is NotFound,
      another student's attempt Forbidden, and an already submitted attempt,
      a quiz without questions or an item naming an unknown question or
      option BadRequest. */
  lemma SubmitRefusals(attempts: seq<QuizAttempt>, quizzes: map<Id, Quiz>, attemptId: Id,
                       studentId: Id, items: seq<AnswerItem>)
    ensures var r := SubmitCheck(attempts, quizzes, attemptId, studentId, items);
            var i := FindAttempt(attempts, attemptId);
            (r == Err(NotFound) <==>
               i.None? || (attempts[i.value].studentId == studentId && attempts[i.value].status == IN_PROGRESS &&
                           attempts[i.value].quizId !in quizzes)) &&
            (r == Err(Forbidden) <==> i.Some? && attempts[i.value].studentId != studentId) &&
            (r == Err(BadRequest) <==>
               i.Some? && attempts[i.value].studentId == studentId &&
               (attempts[i.value].status == SUBMITTED ||
                (attempts[i.value].quizId in quizzes &&
                 (quizzes[attempts[i.value].quizId].questions == [] ||
                  exists k :: 0 <= k < |items| &&
                    ItemRejected(attemptId, quizzes[attempts[i.value].quizId].questions, items[k])))))
  {
    var i := FindAttempt(attempts, attemptId);
    if i.Some? && attempts[i.value].quizId in quizzes {
      BuildRowsRejects(attemptId, quizzes[attempts[i.value].quizId].questions, items);
    }
  }

  /** Once a submission is accepted and the attempt saved as submitted, every
      later submission of that attempt is refused with BadRequest. */
  lemma SubmitOnce(attempts: seq<QuizAttempt>, quizzes: map<Id, Quiz>, attemptId: Id, studentId: Id,
                   items: seq<AnswerItem>, now: int, score: int, later: seq<AnswerItem>)
    requires SubmitCheck(attempts, quizzes, attemptId, studentId, items).Ok?
    ensures var i := SubmitCheck(attempts, quizzes, attemptId, studentId, items).value.index;
            SubmitCheck(attempts[i := Submitted(attempts[i], now, score)], quizzes, attemptId, studentId, later)
              == Err(BadRequest)
  {
    var i := SubmitCheck(attempts, quizzes, attemptId, studentId, items).value.index;
    var t := attempts[i := Submitted(attempts[i], now, score)];
    FindAttemptSameIds(attempts, t, attemptId);
  }

  /** Ids are keys; attempts are numbered by count; answer rows exist only
      for submitted attempts, because only submitAnswers writes them and it
      marks the attempt submitted in the same call. */
  predicate Consistent(quizzes: map<Id, Quiz>, attempts: seq<QuizAttempt>, answers: seq<AttemptAnswer>)
  {
    (forall id :: id in quizzes ==> quizzes[id].id == id) &&
    (forall i, j :: 0 <= i < j < |attempts| ==> attempts[i].id != attempts[j].id) &&
    NumberedInOrder(attempts) &&
    (forall k :: 0 <= k < |answers| ==> StatusOf(attempts, answers[k].attemptId) == Some(SUBMITTED))
  }

  // ---------------------------------------------------------------------
  // The service
  // ---------------------------------------------------------------------

  class QuizzesService {
    /** Quizzes by id, each with its questions and their options. */
    var quizzes: map<Id, Quiz>
    var attempts: seq<QuizAttempt>
    var answers: seq<AttemptAnswer>
    /** `lesson.course_id` and `course.teacher_id`. */
    var lessonCourse: map<Id, Id>
    var courseTeacher: map<Id, Id>

    /** The store invariant over the service's tables. */
    predicate Valid()
      reads this
    {
      Consistent(quizzes, attempts, answers)
    }

    constructor (quizzes: map<Id, Quiz>, lessonCourse: map<Id, Id>, courseTeacher: map<Id, Id>)
      requires forall id :: id in quizzes ==> quizzes[id].id == id
      ensures Valid()
      ensures this.quizzes == quizzes && this.lessonCourse == lessonCourse && this.courseTeacher == courseTeacher
      ensures attempts == [] && answers == []
    {
      this.quizzes := quizzes;
      this.lessonCourse := lessonCourse;
      this.courseTeacher := courseTeacher;
      attempts := [];
      answers := [];
    }

    /** ensureCanManageLesson: the lesson and its course must exist, and the
        caller must be the course's teacher or an ADMIN. */
    function EnsureCanManageLesson(lessonId: Id, userId: Id, role: Role): (r: Result<Id>)
      reads this
      ensures r.Ok? ==> r.value == lessonId && (IsAdmin(role) || TeacherOfLesson(lessonCourse, courseTeacher, lessonId) == Some(userId))
      ensures r == Err(NotFound) <==> TeacherOfLesson(lessonCourse, courseTeacher, lessonId).None?
      ensures r == Err(Forbidden) <==>
                TeacherOfLesson(lessonCourse, courseTeacher, lessonId).Some? &&
                !OwnerOrAdmin(TeacherOfLesson(lessonCourse, courseTeacher, lessonId), userId, role)
    {
      if lessonId !in lessonCourse then Err(NotFound)
      else if lessonCourse[lessonId] !in courseTeacher then Err(NotFound)
      else if !OwnerOrAdmin(Some(courseTeacher[lessonCourse[lessonId]]), userId, role) then Err(Forbidden)
      else Ok(lessonId)
    }

    /** The teacher of a quiz's course, through its lesson. */
    function QuizTeacher(quizId: Id): Option<Id>
      reads this
    {
      if quizId in quizzes then TeacherOfLesson(lessonCourse, courseTeacher, quizzes[quizId].lessonId) else None
    }

    /** ensureCanManageQuiz: the quiz must exist; a missing lesson or course
        leaves no teacher, so only an ADMIN may then manage it. */
    function EnsureCanManageQuiz(quizId: Id, userId: Id, role: Role): (r: Result<Quiz>)
      reads this
      ensures r.Ok? ==> quizId in quizzes && r.value == quizzes[quizId]
      ensures r == Err(NotFound) <==> quizId !in quizzes
      ensures r.Ok? <==> quizId in quizzes && (IsAdmin(role) || QuizTeacher(quizId) == Some(userId))
    {
      if quizId !in quizzes then Err(NotFound)
      else if !OwnerOrAdmin(QuizTeacher(quizId), userId, role) then Err(Forbidden)
      else Ok(quizzes[quizId])
    }

    /** The two gates agree on an existing quiz whose lesson and course exist;
        where they are missing the quiz gate admits only an ADMIN while the
        lesson gate answers NotFound. */
    lemma GatesAgree(quizId: Id, userId: Id, role: Role)
      requires quizId in quizzes
      ensures var lessonId := quizzes[quizId].lessonId;
              (TeacherOfLesson(lessonCourse, courseTeacher, lessonId).Some? ==>
                 (EnsureCanManageQuiz(quizId, userId, role).Ok? <==> EnsureCanManageLesson(lessonId, userId, role).Ok?)) &&
              (TeacherOfLesson(lessonCourse, courseTeacher, lessonId).None? ==>
                 (EnsureCanManageQuiz(quizId, userId, role).Ok? <==> role == ADMIN) &&
                 EnsureCanManageLesson(lessonId, userId, role) == Err(NotFound))
    {
    }

    /** startQuiz: a published quiz gets a new IN_PROGRESS attempt numbered
        one more than the student's earlier attempts on it. The generated id
        and the start time are parameters. */
    method StartQuiz(quizId: Id, studentId: Id, newId: Id, now: int) returns (r: Result<StartInfo>)
      requires Valid()
      requires forall k :: 0 <= k < |attempts| ==> attempts[k].id != newId
      modifies this
      ensures Valid()
      ensures quizzes == old(quizzes) && answers == old(answers)
      ensures lessonCourse == old(lessonCourse) && courseTeacher == old(courseTeacher)
      ensures quizId !in quizzes ==> r == Err(NotFound)
      ensures quizId in quizzes && !quizzes[quizId].isPublished ==> r == Err(Forbidden)
      ensures r.Err? ==> attempts == old(attempts)
      ensures quizId in quizzes && quizzes[quizId].isPublished ==>
                r == Ok(StartInfo(newId, now, quizzes[quizId].timeLimitMinutes)) &&
                attempts == old(attempts) +
                  [QuizAttempt(newId, quizId, studentId, AttemptCount(old(attempts), quizId, studentId) + 1,
                               IN_PROGRESS, now, None, None)]
    {
      if quizId !in quizzes {
        return Err(NotFound);
      }
      var quiz := quizzes[quizId];
      if !quiz.isPublished {
        return Err(Forbidden);
      }
      var existing := CountAttempts(attempts, quizId, studentId);
      var attempt := QuizAttempt(newId, quizId, studentId, existing + 1, IN_PROGRESS, now, None, None);
      NumberedAppend(attempts, attempt);
      AppendKeepsRows(attempts, answers, attempt);
      attempts := attempts + [attempt];
      r := Ok(StartInfo(newId, now, quiz.timeLimitMinutes));
    }

    /** calculateResult, as a value: NotFound for a missing attempt or quiz,
        otherwise the graded result of the attempt's stored rows. */
    function ResultFor(attemptId: Id): (r: Result<QuizResult>)
      reads this
      ensures r.Err? ==> r.error == NotFound
      ensures (forall k :: 0 <= k < |attempts| ==> attempts[k].id != attemptId) ==> r == Err(NotFound)
      ensures r.Ok? ==> exists k :: 0 <= k < |attempts| && attempts[k].id == attemptId &&
                          attempts[k].quizId in quizzes &&
                          r.value.attemptId == attemptId && r.value.status == attempts[k].status &&
                          r.value.quizId == quizzes[attempts[k].quizId].id &&
                          |r.value.answers| == |quizzes[attempts[k].quizId].questions|
    {
      match FindAttempt(attempts, attemptId)
      case None => Err(NotFound)
      case Some(i) =>
        if attempts[i].quizId !in quizzes then Err(NotFound)
        else Ok(ResultOf(attempts[i], quizzes[attempts[i].quizId], RowsOfAttempt(answers, attemptId)))
    }

    /** calculateResult: groups the attempt's rows by question, then walks the
        questions in order accumulating the score. */
    method CalculateResult(attemptId: Id) returns (r: Result<QuizResult>)
      ensures r == ResultFor(attemptId)
    {
      var found := FindAttempt(attempts, attemptId);
      if found.None? {
        return Err(NotFound);
      }
      var attempt := attempts[found.value];
      if attempt.quizId !in quizzes {
        return Err(NotFound);
      }
      var quiz := quizzes[attempt.quizId];
      var rows := RowsOfAttempt(answers, attemptId);
      var total := TotalPoints(quiz.questions);
      var byQuestion := GroupByQuestion(rows);
      var score, details := ScoreQuestions(quiz.questions, rows, byQuestion);
      var time := if attempt.completedAt.Some? then (attempt.completedAt.value - attempt.startedAt) / 1000 else 0;
      r := Ok(QuizResult(attempt.id, quiz.id, quiz.title, score, total, Percentage(score, total),
                         attempt.status, attempt.startedAt, attempt.completedAt, time, details));
    }

    /** submitAnswers: on acceptance the attempt's rows are replaced by the
        rows built from the items, the attempt becomes SUBMITTED with its
        completion time and score, and the result computed before that update
        is returned (so it still says IN_PROGRESS). On refusal nothing
        changes: the delete of the attempt's old rows runs before the items are
        checked, but an attempt that is still in progress has no rows. */
    method SubmitAnswers(attemptId: Id, studentId: Id, items: seq<AnswerItem>, now: int)
      returns (r: Result<QuizResult>)
      requires Valid()
      requires |items| >= 1
      modifies this
      ensures Valid()
      ensures quizzes == old(quizzes) && lessonCourse == old(lessonCourse) && courseTeacher == old(courseTeacher)
      ensures var c := SubmitCheck(old(attempts), old(quizzes), attemptId, studentId, items);
              (c.Err? ==> r == Err(c.error) && attempts == old(attempts) && answers == old(answers)) &&
              (c.Ok? ==>
                 var a := old(attempts)[c.value.index];
                 r == Ok(ResultOf(a, c.value.quiz, c.value.rows)) &&
                 answers == old(answers) + c.value.rows &&
                 attempts == old(attempts)[c.value.index := Submitted(a, now, r.value.score)] &&
                 r.value.status == IN_PROGRESS)
    {
      var found := FindAttempt(attempts, attemptId);
      if found.None? {
        return Err(NotFound);
      }
      var i := found.value;
      var attempt := attempts[i];
      if attempt.studentId != studentId {
        return Err(Forbidden);
      }
      if attempt.status == SUBMITTED {
        return Err(BadRequest);
      }
      if attempt.quizId !in quizzes {
        return Err(NotFound);
      }
      var quiz := quizzes[attempt.quizId];
      if |quiz.questions| == 0 {
        return Err(BadRequest);
      }

      // The attempt is in progress, so no row of it is stored.
      InProgressHasNoRows(attempts, answers, i);
      answers := WithoutAttempt(answers, attemptId);

      var outcome := BuildAnswerRows(attemptId, quiz.questions, items);
      if outcome.Err? {
        BuildRowsRejects(attemptId, quiz.questions, items);
        return Err(BadRequest);
      }
      var built := outcome.value;
      assert SubmitCheck(attempts, quizzes, attemptId, studentId, items) == Ok(Accepted(i, quiz, built));
      assert forall k :: 0 <= k < |built| ==> built[k].attemptId == attemptId by {
        BuildRowsBelong(attemptId, quiz.questions, items);
        forall k | 0 <= k < |built| ensures built[k].attemptId == attemptId {
          assert built[k] in built;
        }
      }
      r := SaveAndGrade(i, built, now);
    }

    /** The end of submitAnswers: save the new rows, compute the result, then
        mark the attempt SUBMITTED with the completion time and that score. */
    method SaveAndGrade(i: nat, built: seq<AttemptAnswer>, now: int) returns (r: Result<QuizResult>)
      requires Valid()
      requires i < |attempts| && attempts[i].status == IN_PROGRESS && attempts[i].quizId in quizzes
      requires forall k :: 0 <= k < |built| ==> built[k].attemptId == attempts[i].id
      modifies this
      ensures Valid()
      ensures quizzes == old(quizzes) && lessonCourse == old(lessonCourse) && courseTeacher == old(courseTeacher)
      ensures var a := old(attempts)[i];
              r == Ok(ResultOf(a, quizzes[a.quizId], built)) &&
              answers == old(answers) + built &&
              attempts == old(attempts)[i := Submitted(a, now, r.value.score)]
    {
      var attempt := attempts[i];
      var attemptId := attempt.id;
      InProgressHasNoRows(attempts, answers, i);
      RowsOfAttemptAppend(answers, built, attemptId);
      answers := answers + built;

      assert ResultFor(attemptId) == Ok(ResultOf(attempt, quizzes[attempt.quizId], built)) by {
        assert RowsOfAttempt(answers, attemptId) == built;
      }
      var result := CalculateResult(attemptId);
      var updated := Submitted(attempt, now, result.value.score);
      SubmitKeepsValid(quizzes, attempts, old(answers), built, i, now, result.value.score);
      attempts := attempts[i := updated];
      r := result;
    }

    /** getAttemptResult: NotFound for a missing attempt; then the attempt's
        student, an ADMIN or the teacher of the quiz's course may read the
        result, and anyone else is Forbidden. */
    method GetAttemptResult(attemptId: Id, userId: Id, role: Role) returns (r: Result<QuizResult>)
      ensures FindAttempt(attempts, attemptId).None? ==> r == Err(NotFound)
      ensures FindAttempt(attempts, attemptId).Some? ==>
                var a := attempts[FindAttempt(attempts, attemptId).value];
                var allowed := a.studentId == userId || IsAdmin(role) || QuizTeacher(a.quizId) == Some(userId);
                (!allowed ==> r == Err(Forbidden)) && (allowed ==> r == ResultFor(attemptId))
    {
      var found := FindAttempt(attempts, attemptId);
      if found.None? {
        return Err(NotFound);
      }
      var attempt := attempts[found.value];
      var isOwner := attempt.studentId == userId;
      var isAdmin := role == ADMIN;
      var isTeacherOwner := QuizTeacher(attempt.quizId) == Some(userId);
      if !isOwner && !isAdmin && !isTeacherOwner {
        return Err(Forbidden);
      }
      r := CalculateResult(attemptId);
    }
  }

  /** The count of a student's earlier attempts on a quiz, row by row. */
  method CountAttempts(attempts: seq<QuizAttempt>, quizId: Id, studentId: Id) returns (n: nat)
    ensures n == AttemptCount(attempts, quizId, studentId)
  {
    n := 0;
    var i := 0;
    while i < |attempts|
      invariant 0 <= i <= |attempts|
      invariant n == AttemptCount(attempts[..i], quizId, studentId)
    {
      assert attempts[..i + 1][..i] == attempts[..i];
      if attempts[i].quizId == quizId && attempts[i].studentId == studentId {
        n := n + 1;
      }
      i := i + 1;
    }
    assert attempts[..i] == attempts;
  }

  /** A new attempt with a fresh id leaves every stored row's attempt
      submitted. */
  lemma AppendKeepsRows(attempts: seq<QuizAttempt>, answers: seq<AttemptAnswer>, x: QuizAttempt)
    requires forall k :: 0 <= k < |attempts| ==> attempts[k].id != x.id
    requires forall k :: 0 <= k < |answers| ==> StatusOf(attempts, answers[k].attemptId) == Some(SUBMITTED)
    ensures forall k :: 0 <= k < |answers| ==> StatusOf(attempts + [x], answers[k].attemptId) == Some(SUBMITTED)
  {
    forall k | 0 <= k < |answers|
      ensures StatusOf(attempts + [x], answers[k].attemptId) == Some(SUBMITTED)
    {
      var id := answers[k].attemptId;
      assert StatusOf(attempts, id).Some?;
      FindAttemptAppend(attempts, x, id);
      var p := FindAttempt(attempts, id).value;
      assert (attempts + [x])[p] == attempts[p];
    }
  }

  /** The `answersByQuestion` loop of calculateResult. */
  method GroupByQuestion(rows: seq<AttemptAnswer>) returns (byQuestion: map<Id, seq<AttemptAnswer>>)
    ensures byQuestion == GroupRows(rows)
  {
    byQuestion := map[];
    var k := 0;
    while k < |rows|
      invariant 0 <= k <= |rows|
      invariant byQuestion == GroupRows(rows[..k])
    {
      assert rows[..k + 1][..k] == rows[..k];
      var a := rows[k];
      var arr := if a.questionId in byQuestion then byQuestion[a.questionId] else [];
      byQuestion := byQuestion[a.questionId := arr + [a]];
      k := k + 1;
    }
    assert rows[..k] == rows;
  }

  /** The scoring loop of calculateResult: one detail per question in quiz
      order, and the score is the sum of the points earned. */
  method ScoreQuestions(qs: seq<Question>, rows: seq<AttemptAnswer>, byQuestion: map<Id, seq<AttemptAnswer>>)
    returns (score: int, details: seq<AnswerDetail>)
    requires byQuestion == GroupRows(rows)
    ensures details == Details(qs, rows)
    ensures score == SumEarned(details)
  {
    score := 0;
    details := [];
    var j := 0;
    while j < |qs|
      invariant 0 <= j <= |qs|
      invariant details == Details(qs[..j], rows)
      invariant score == SumEarned(details)
    {
      var q := qs[j];
      var qrows := if q.id in byQuestion then byQuestion[q.id] else [];
      GroupRowsLookup(rows, q.id);
      var d := QuestionDetail(q, qrows);
      score := score + d.pointsEarned;
      DetailsSnoc(qs, rows, j);
      SumEarnedSnoc(details, d);
      details := details + [d];
      j := j + 1;
    }
    assert qs[..j] == qs;
  }

  /** The loop over the submitted items, pushing each item's rows. */
  method BuildAnswerRows(attemptId: Id, qs: seq<Question>, items: seq<AnswerItem>)
    returns (r: Result<seq<AttemptAnswer>>)
    ensures r == BuildRows(attemptId, qs, items)
  {
    var built: seq<AttemptAnswer> := [];
    var n := 0;
    while n < |items|
      invariant 0 <= n <= |items|
      invariant BuildRows(attemptId, qs, items[..n]) == Ok(built)
    {
      var item := items[n];
      assert items[..n + 1][..n] == items[..n];
      var q := FindQuestion(qs, item.questionId);
      if q.None? {
        BuildRowsRejects(attemptId, qs, items);
        BuildRowsStops(attemptId, qs, items, n + 1);
        return Err(BadRequest);
      }
      var rows := ItemRows(attemptId, q.value, item);
      if rows.Err? {
        BuildRowsRejects(attemptId, qs, items);
        BuildRowsStops(attemptId, qs, items, n + 1);
        return Err(BadRequest);
      }
      built := built + rows.value;
      n := n + 1;
    }
    assert items[..n] == items;
    r := Ok(built);
  }

  /** An attempt still in progress has no stored rows: the find for it
      returns nothing and the delete removes nothing. */
  lemma {:induction false} InProgressHasNoRows(attempts: seq<QuizAttempt>, answers: seq<AttemptAnswer>, i: nat)
    requires i < |attempts| && attempts[i].status == IN_PROGRESS
    requires forall a, b :: 0 <= a < b < |attempts| ==> attempts[a].id != attempts[b].id
    requires forall k :: 0 <= k < |answers| ==> StatusOf(attempts, answers[k].attemptId) == Some(SUBMITTED)
    ensures FindAttempt(attempts, attempts[i].id) == Some(i)
    ensures RowsOfAttempt(answers, attempts[i].id) == []
    ensures WithoutAttempt(answers, attempts[i].id) == answers
  {
    var id := attempts[i].id;
    var f := FindAttempt(attempts, id);
    assert f == Some(i);
    forall k | 0 <= k < |answers| ensures answers[k].attemptId != id {
      assert StatusOf(attempts, answers[k].attemptId) == Some(SUBMITTED);
    }
    NoRowsOfAttempt(answers, id);
  }

  /** Marking the submitted attempt and saving its rows keeps the store
      invariant: ids unchanged, numbering unchanged, and every row, old or
      new, belongs to a submitted attempt. */
  lemma SubmitKeepsValid(quizzes: map<Id, Quiz>, attempts: seq<QuizAttempt>, answers: seq<AttemptAnswer>, built: seq<AttemptAnswer>,
                         i: nat, now: int, score: int)
    requires Consistent(quizzes, attempts, answers)
    requires i < |attempts| && attempts[i].status == IN_PROGRESS
    requires forall k :: 0 <= k < |built| ==> built[k].attemptId == attempts[i].id
    ensures Consistent(quizzes, attempts[i := Submitted(attempts[i], now, score)], answers + built)
  {
    var updated := Submitted(attempts[i], now, score);
    var t := attempts[i := updated];
    var f := FindAttempt(attempts, attempts[i].id);
    assert f == Some(i);
    NumberedUpdate(attempts, i, updated);
    forall k | 0 <= k < |answers + built|
      ensures StatusOf(t, (answers + built)[k].attemptId) == Some(SUBMITTED)
    {
      var id := (answers + built)[k].attemptId;
      FindAttemptSameIds(attempts, t, id);
      if k < |answers| {
        assert (answers + built)[k] == answers[k];
        var p := FindAttempt(attempts, id).value;
        assert p != i;
      } else {
        assert (answers + built)[k] == built[k - |answers|];
      }
    }
  }

  lemma DetailsSnoc(qs: seq<Question>, rows: seq<AttemptAnswer>, j: nat)
    requires j < |qs|
    ensures Details(qs[..j + 1], rows) == Details(qs[..j], rows) + [QuestionDetail(qs[j], RowsFor(rows, qs[j].id))]
  {
  }

  lemma SumEarnedSnoc(ds: seq<AnswerDetail>, d: AnswerDetail)
    ensures SumEarned(ds + [d]) == SumEarned(ds) + d.pointsEarned
  {
    assert (ds + [d])[..|ds|] == ds;
  }

  /** A refused prefix refuses the whole item list. */
  lemma {:induction false} BuildRowsStops(attemptId: Id, qs: seq<Question>, items: seq<AnswerItem>, n: nat)
    requires n <= |items|
    requires BuildRows(attemptId, qs, items[..n]).Err?
    ensures BuildRows(attemptId, qs, items).Err?
    decreases |items| - n
  {
    if n < |items| {
      var longer := items[..n + 1];
      assert longer[..n] == items[..n];
      BuildRowsStops(attemptId, qs, items, n + 1);
    } else {
      assert items[..n] == items;
    }
  }
}
