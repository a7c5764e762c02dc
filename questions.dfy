/** Question authoring in `question.service.ts`: the option rules per
    question type, option numbering, the next question position, and the
    create and update operations behind the quiz-management gate. */
module Questions {
  import opened Common
  import opened Grading

  /** One element of the `options` array of a create or update request. */
  datatype OptionInput = OptionInput(content: string, isCorrect: bool)

  datatype CreateQuestionInput = CreateQuestionInput(content: string, qtype: QuestionType, points: int,
                                                     orderIndex: Option<int>, options: seq<OptionInput>)

  /** Every field is optional; None means "not supplied". */
  datatype UpdateQuestionInput = UpdateQuestionInput(content: Option<string>, qtype: Option<QuestionType>,
                                                     points: Option<int>, orderIndex: Option<int>,
                                                     options: Option<seq<OptionInput>>)

  // ---------------------------------------------------------------------
  // validateOptionsLogic
  // ---------------------------------------------------------------------

  /** `options.filter((o) => o.is_correct).length`. */
  function CorrectCount(options: seq<OptionInput>): (n: nat)
    ensures n <= |options|
  {
    if options == [] then 0 else (if options[0].isCorrect then 1 else 0) + CorrectCount(options[1..])
  }

  /** The per-type rules on a question's options; every refusal is
      BadRequest. */
  function ValidateOptionsLogic(qtype: QuestionType, options: seq<OptionInput>): (r: Result<()>)
    ensures r.Err? ==> r.error == BadRequest
  {
    var correctCount := CorrectCount(options);
    if |options| < 2 then Err(BadRequest)
    else
      match qtype
      case MCQ_SINGLE => if correctCount != 1 then Err(BadRequest) else Ok(())
      case MCQ_MULTI => if correctCount < 1 then Err(BadRequest) else Ok(())
      case TRUE_FALSE =>
        if |options| != 2 then Err(BadRequest)
        else if correctCount != 1 then Err(BadRequest)
        else Ok(())
      case Other => Ok(())
  }

  predicate SomeCorrect(options: seq<OptionInput>)
  {
    exists k :: 0 <= k < |options| && options[k].isCorrect
  }

  predicate ExactlyOneCorrect(options: seq<OptionInput>)
  {
    exists k :: 0 <= k < |options| && options[k].isCorrect &&
      forall j :: 0 <= j < |options| && options[j].isCorrect ==> j == k
  }

  lemma {:induction false} CorrectCountZero(options: seq<OptionInput>)
    ensures CorrectCount(options) == 0 <==> !SomeCorrect(options)
  {
    if options != [] {
      var t := options[1..];
      CorrectCountZero(t);
      if SomeCorrect(t) {
        var k :| 0 <= k < |t| && t[k].isCorrect;
        assert options[k + 1].isCorrect;
      }
      if SomeCorrect(options) && !options[0].isCorrect {
        var k :| 0 <= k < |options| && options[k].isCorrect;
        assert t[k - 1].isCorrect;
      }
    }
  }

  lemma {:induction false} CorrectCountOne(options: seq<OptionInput>)
    ensures CorrectCount(options) == 1 <==> ExactlyOneCorrect(options)
  {
    if options != [] {
      var t := options[1..];
      CorrectCountZero(t);
      CorrectCountOne(t);
      if options[0].isCorrect {
        if !SomeCorrect(t) {
          forall j | 0 < j < |options| ensures !options[j].isCorrect {
            assert options[j] == t[j - 1];
          }
        }
        if ExactlyOneCorrect(options) {
          forall m | 0 <= m < |t| ensures !t[m].isCorrect {
            assert t[m] == options[m + 1];
          }
        }
      } else {
        if ExactlyOneCorrect(t) {
          var k :| 0 <= k < |t| && t[k].isCorrect && forall j :: 0 <= j < |t| && t[j].isCorrect ==> j == k;
          forall j | 0 <= j < |options| && options[j].isCorrect ensures j == k + 1 {
            assert t[j - 1] == options[j];
          }
        }
        if ExactlyOneCorrect(options) {
          var k :| 0 <= k < |options| && options[k].isCorrect &&
                   forall j :: 0 <= j < |options| && options[j].isCorrect ==> j == k;
          forall j | 0 <= j < |t| && t[j].isCorrect ensures j == k - 1 {
            assert options[j + 1] == t[j];
          }
          assert t[k - 1].isCorrect;
        }
      }
    }
  }

  /** The accepted option lists, type by type: at least two options, and
      exactly one correct for MCQ_SINGLE, at least one for MCQ_MULTI, exactly
      two options with exactly one correct for TRUE_FALSE. */
  lemma ValidateOptionsIff(qtype: QuestionType, options: seq<OptionInput>)
    ensures ValidateOptionsLogic(qtype, options).Ok? <==>
              |options| >= 2 &&
              match qtype
              case MCQ_SINGLE => ExactlyOneCorrect(options)
              case MCQ_MULTI => SomeCorrect(options)
              case TRUE_FALSE => |options| == 2 && ExactlyOneCorrect(options)
              case Other => true
  {
    CorrectCountZero(options);
    CorrectCountOne(options);
  }

  /** A TRUE_FALSE question is accepted exactly when it has one true and one
      false option. */
  lemma TrueFalseShape(options: seq<OptionInput>)
    ensures ValidateOptionsLogic(TRUE_FALSE, options).Ok? <==>
              |options| == 2 && options[0].isCorrect != options[1].isCorrect
  {
    ValidateOptionsIff(TRUE_FALSE, options);
    if |options| == 2 && options[0].isCorrect != options[1].isCorrect {
      var k := if options[0].isCorrect then 0 else 1;
      assert options[k].isCorrect;
    }
  }

  // ---------------------------------------------------------------------
  // buildOptionsEntities and its inverse
  // ---------------------------------------------------------------------

  /** The option rows for a list of inputs: position i gets order_index i+1.
      The ids are the ones the database assigns on save. Mapping the rows back
      to inputs gives the inputs again, in order. */
  function BuildOptionsEntities(optionIds: seq<Id>, options: seq<OptionInput>): (r: seq<QuestionOption>)
    requires |optionIds| == |options|
    ensures ToInputs(r) == options
    ensures forall i :: 0 <= i < |r| ==> r[i].id == optionIds[i] && r[i].orderIndex == i + 1
  {
    seq(|options|, i requires 0 <= i < |options| =>
        QuestionOption(optionIds[i], options[i].content, options[i].isCorrect, i + 1))
  }

  /** `question.options.map((o) => ({ content, is_correct }))`, the inputs
      updateQuestion re-validates when no new options are supplied. */
  function ToInputs(options: seq<QuestionOption>): seq<OptionInput>
  {
    seq(|options|, i requires 0 <= i < |options| => OptionInput(options[i].content, options[i].isCorrect))
  }

  /** The correct ids calculateResult compares against are as many as the correct options the
      validator counted. */
  lemma {:induction false} CorrectIdsCount(os: seq<QuestionOption>)
    ensures |CorrectIds(os)| == CorrectCount(ToInputs(os))
    decreases |os|
  {
    if os != [] {
      assert ToInputs(os)[1..] == ToInputs(os[1..]);
      CorrectIdsCount(os[1..]);
    }
  }

  /** A validated single-answer question (MCQ_SINGLE or TRUE_FALSE) has
      exactly one correct option id once built, and a validated MCQ_MULTI
      question at least one, so grading always has a correct answer to show. */
  lemma ValidatedQuestionHasCorrectAnswer(qtype: QuestionType, optionIds: seq<Id>, options: seq<OptionInput>)
    requires |optionIds| == |options|
    requires ValidateOptionsLogic(qtype, options).Ok?
    ensures IsSingleChoice(qtype) ==> |CorrectIds(BuildOptionsEntities(optionIds, options))| == 1
    ensures qtype == MCQ_MULTI ==> |CorrectIds(BuildOptionsEntities(optionIds, options))| >= 1
  {
    CorrectIdsCount(BuildOptionsEntities(optionIds, options));
  }

  // ---------------------------------------------------------------------
  // getNextOrderIndex
  // ---------------------------------------------------------------------

  /** The largest `order_index` among the quiz's questions, if it has any. */
  function MaxOrderIndex(qs: seq<Question>, quizId: Id): (r: Option<int>)
    ensures r.None? <==> forall k :: 0 <= k < |qs| ==> qs[k].quizId != quizId
    ensures r.Some? ==> forall k :: 0 <= k < |qs| && qs[k].quizId == quizId ==> qs[k].orderIndex <= r.value
    ensures r.Some? ==> exists k :: 0 <= k < |qs| && qs[k].quizId == quizId && qs[k].orderIndex == r.value
  {
    if qs == [] then None
    else
      var rest := MaxOrderIndex(qs[..|qs| - 1], quizId);
      var last := qs[|qs| - 1];
      if last.quizId != quizId then rest
      else if rest.Some? && rest.value >= last.orderIndex then rest
      else Some(last.orderIndex)
  }

  /** 1 for a quiz without questions, otherwise the largest position plus 1. */
  function NextOrderIndex(qs: seq<Question>, quizId: Id): (r: int)
    ensures (forall k :: 0 <= k < |qs| ==> qs[k].quizId != quizId) ==> r == 1
    ensures forall k :: 0 <= k < |qs| && qs[k].quizId == quizId ==> qs[k].orderIndex < r
    ensures (exists k :: 0 <= k < |qs| && qs[k].quizId == quizId) ==>
              exists k :: 0 <= k < |qs| && qs[k].quizId == quizId && r == qs[k].orderIndex + 1
  {
    match MaxOrderIndex(qs, quizId)
    case None => 1
    case Some(m) => m + 1
  }

  /** Stored questions satisfy the option rules of their type. */
  predicate WellFormedQuestion(q: Question)
  {
    ValidateOptionsLogic(q.qtype, ToInputs(q.options)).Ok? && q.points >= 1
  }

  /** Question ids are keys, and every stored question is well formed. */
  predicate WellFormedTable(qs: seq<Question>)
  {
    (forall i, j :: 0 <= i < j < |qs| ==> qs[i].id != qs[j].id) &&
    (forall i :: 0 <= i < |qs| ==> WellFormedQuestion(qs[i]))
  }

  /** Saving a well-formed question in place of one with the same id keeps
      the table well formed. */
  lemma ReplaceKeepsTable(qs: seq<Question>, k: nat, u: Question)
    requires WellFormedTable(qs) && k < |qs|
    requires u.id == qs[k].id && WellFormedQuestion(u)
    ensures WellFormedTable(qs[k := u])
  {
    var t := qs[k := u];
    forall i, j | 0 <= i < j < |t| ensures t[i].id != t[j].id {
      assert t[i].id == qs[i].id && t[j].id == qs[j].id;
    }
  }

  /** The field-by-field update of updateQuestion: each supplied field
      replaces the stored one, and new options replace the old ones, numbered
      in order. When the type and options that result pass the option rules,
      the updated question is well formed. */
  method ApplyQuestionUpdate(q: Question, input: UpdateQuestionInput, optionIds: seq<Id>) returns (u: Question)
    requires input.options.Some? ==> |optionIds| == |input.options.value|
    requires q.points >= 1 && (input.points.Some? ==> input.points.value >= 1)
    requires ValidateOptionsLogic(GetOr(input.qtype, q.qtype), GetOr(input.options, ToInputs(q.options))).Ok?
    ensures u.id == q.id && u.quizId == q.quizId
    ensures u.content == GetOr(input.content, q.content)
    ensures u.qtype == GetOr(input.qtype, q.qtype)
    ensures u.points == GetOr(input.points, q.points)
    ensures u.orderIndex == GetOr(input.orderIndex, q.orderIndex)
    ensures u.options == (if input.options.Some? then BuildOptionsEntities(optionIds, input.options.value) else q.options)
    ensures WellFormedQuestion(u)
  {
    u := q;
    if input.content.Some? {
      u := u.(content := input.content.value);
    }
    if input.qtype.Some? {
      u := u.(qtype := input.qtype.value);
    }
    if input.points.Some? {
      u := u.(points := input.points.value);
    }
    if input.orderIndex.Some? {
      u := u.(orderIndex := input.orderIndex.value);
    }
    if input.options.Some? {
      u := u.(options := BuildOptionsEntities(optionIds, input.options.value));
    }
  }

  // ---------------------------------------------------------------------
  // The service
  // ---------------------------------------------------------------------

  class QuestionsService {
    /** `quiz.lesson_id`; a quiz exists when it has an entry. */
    var quizLesson: map<Id, Id>
    var lessonCourse: map<Id, Id>
    var courseTeacher: map<Id, Id>
    var questions: seq<Question>

    /** Question ids are keys, and every stored question passed the option
        rules of its type and the points rule of the request. */
    predicate Valid()
      reads this
    {
      WellFormedTable(questions)
    }

    constructor (quizLesson: map<Id, Id>, lessonCourse: map<Id, Id>, courseTeacher: map<Id, Id>)
      ensures Valid() && questions == []
      ensures this.quizLesson == quizLesson && this.lessonCourse == lessonCourse && this.courseTeacher == courseTeacher
    {
      this.quizLesson := quizLesson;
      this.lessonCourse := lessonCourse;
      this.courseTeacher := courseTeacher;
      questions := [];
    }

    /** `quiz.lesson?.course?.teacher_id`. */
    function QuizTeacher(quizId: Id): Option<Id>
      reads this
    {
      if quizId in quizLesson then TeacherOfLesson(lessonCourse, courseTeacher, quizLesson[quizId]) else None
    }

    /** ensureCanManageQuiz: NotFound for a missing quiz; then only an ADMIN or
        the teacher of the quiz's course, and a quiz whose teacher cannot be
        resolved admits only an ADMIN. */
    function EnsureCanManageQuiz(quizId: Id, userId: Id, role: Role): (r: Result<Id>)
      reads this
      ensures r == Err(NotFound) <==> quizId !in quizLesson
      ensures r.Ok? <==> quizId in quizLesson && (IsAdmin(role) || QuizTeacher(quizId) == Some(userId))
      ensures r.Err? ==> r.error == NotFound || r.error == Forbidden
      ensures quizId in quizLesson && QuizTeacher(quizId).None? ==> (r.Ok? <==> role == ADMIN)
    {
      if quizId !in quizLesson then Err(NotFound)
      else
        var teacherId := QuizTeacher(quizId);
        var isAdmin := role == ADMIN;
        var isOwner := teacherId.Some? && teacherId == Some(userId);
        if !isAdmin && !isOwner then Err(Forbidden) else Ok(quizId)
    }

    /** createQuestion: gate, option rules, then a new question at the
        requested position or after the last one. The question and option
        ids are the ones the database assigns. */
    method CreateQuestion(quizId: Id, input: CreateQuestionInput, userId: Id, role: Role,
                          newId: Id, optionIds: seq<Id>) returns (r: Result<Question>)
      requires Valid()
      requires input.points >= 1 && |input.options| >= 2
      requires |optionIds| == |input.options|
      requires forall k :: 0 <= k < |questions| ==> questions[k].id != newId
      modifies this`questions
      ensures Valid()
      ensures EnsureCanManageQuiz(quizId, userId, role).Err? ==>
                r == Err(EnsureCanManageQuiz(quizId, userId, role).error) && questions == old(questions)
      ensures EnsureCanManageQuiz(quizId, userId, role).Ok? && ValidateOptionsLogic(input.qtype, input.options).Err? ==>
                r == Err(BadRequest) && questions == old(questions)
      ensures EnsureCanManageQuiz(quizId, userId, role).Ok? && ValidateOptionsLogic(input.qtype, input.options).Ok? ==>
                var q := Question(newId, quizId, input.content, input.qtype, input.points,
                                  GetOr(input.orderIndex, NextOrderIndex(old(questions), quizId)),
                                  BuildOptionsEntities(optionIds, input.options));
                r == Ok(q) && questions == old(questions) + [q]
    {
      var gate := EnsureCanManageQuiz(quizId, userId, role);
      if gate.Err? {
        return Err(gate.error);
      }
      var valid := ValidateOptionsLogic(input.qtype, input.options);
      if valid.Err? {
        return Err(BadRequest);
      }
      var orderIndex := if input.orderIndex.Some? then input.orderIndex.value else NextOrderIndex(questions, quizId);
      var options := BuildOptionsEntities(optionIds, input.options);
      var q := Question(newId, quizId, input.content, input.qtype, input.points, orderIndex, options);
      questions := questions + [q];
      r := Ok(q);
    }

    /** updateQuestion: gate, NotFound for a question not in the quiz, then
        the merged type and options (the supplied ones, else the current ones)
        must pass the option rules before anything changes. Only supplied
        fields change; supplied options replace the old ones wholesale and are
        numbered afresh. */
    method UpdateQuestion(quizId: Id, questionId: Id, input: UpdateQuestionInput, userId: Id, role: Role,
                          optionIds: seq<Id>) returns (r: Result<Question>)
      requires Valid()
      requires input.points.Some? ==> input.points.value >= 1
      requires input.options.Some? ==> |optionIds| == |input.options.value|
      modifies this`questions
      ensures Valid()
      ensures r.Err? ==> questions == old(questions)
      ensures EnsureCanManageQuiz(quizId, userId, role).Err? ==> r == Err(EnsureCanManageQuiz(quizId, userId, role).error)
      ensures EnsureCanManageQuiz(quizId, userId, role).Ok? && FindIndex(old(questions), questionId, quizId).None? ==>
                r == Err(NotFound)
      ensures EnsureCanManageQuiz(quizId, userId, role).Ok? && FindIndex(old(questions), questionId, quizId).Some? ==>
                var k := FindIndex(old(questions), questionId, quizId).value;
                var q := old(questions)[k];
                var newType := GetOr(input.qtype, q.qtype);
                var newOptions := GetOr(input.options, ToInputs(q.options));
                (ValidateOptionsLogic(newType, newOptions).Err? ==> r == Err(BadRequest)) &&
                (ValidateOptionsLogic(newType, newOptions).Ok? ==>
                   r.Ok? && questions == old(questions)[k := r.value] &&
                   r.value.id == q.id && r.value.quizId == q.quizId &&
                   r.value.content == GetOr(input.content, q.content) &&
                   r.value.qtype == newType &&
                   r.value.points == GetOr(input.points, q.points) &&
                   r.value.orderIndex == GetOr(input.orderIndex, q.orderIndex) &&
                   r.value.options == (if input.options.Some? then BuildOptionsEntities(optionIds, input.options.value)
                                       else q.options))
    {
      var gate := EnsureCanManageQuiz(quizId, userId, role);
      if gate.Err? {
        return Err(gate.error);
      }
      var found := FindIndex(questions, questionId, quizId);
      if found.None? {
        return Err(NotFound);
      }
      var k := found.value;
      var question := questions[k];
      var newType := if input.qtype.Some? then input.qtype.value else question.qtype;
      var newOptions := if input.options.Some? then input.options.value else ToInputs(question.options);
      if |newOptions| < 2 {
        return Err(BadRequest);
      }
      var valid := ValidateOptionsLogic(newType, newOptions);
      if valid.Err? {
        return Err(BadRequest);
      }
      question := ApplyQuestionUpdate(question, input, optionIds);
      ReplaceKeepsTable(questions, k, question);
      questions := questions[k := question];
      r := Ok(question);
    }
  }

  /** The first question with that id in that quiz. */
  function FindIndex(qs: seq<Question>, id: Id, quizId: Id): (r: Option<nat>)
    ensures r.Some? ==> r.value < |qs| && qs[r.value].id == id && qs[r.value].quizId == quizId
    ensures r.None? ==> forall k :: 0 <= k < |qs| ==> !(qs[k].id == id && qs[k].quizId == quizId)
  {
    if qs == [] then None
    else if qs[0].id == id && qs[0].quizId == quizId then Some(0)
    else
      match FindIndex(qs[1..], id, quizId)
      case None => None
      case Some(k) => Some(k + 1)
  }
}
