/** The quiz definition as the attempt engine reads it, the answer rows it
    writes, and the pure scoring rules of `quiz.service.ts`: how one answer
    item becomes answer rows (submitAnswers) and how the rows of one question
    become a graded entry of the result (calculateResult). */
module Grading {
  import opened Common

  // ---------------------------------------------------------------------
  // Data model
  // ---------------------------------------------------------------------

  /** The three question types of the entity, plus `Other` for the
      free-text branch of submitAnswers and calculateResult, which the enum
      cannot reach today. */
  datatype QuestionType = MCQ_SINGLE | MCQ_MULTI | TRUE_FALSE | Other

  datatype QuestionOption = QuestionOption(id: Id, content: string, isCorrect: bool, orderIndex: int)

  datatype Question = Question(id: Id, quizId: Id, content: string, qtype: QuestionType,
                               points: int, orderIndex: int, options: seq<QuestionOption>)

  /** A quiz with its questions in the order they are loaded (by
      `order_index`, ascending). */
  datatype Quiz = Quiz(id: Id, lessonId: Id, title: string, timeLimitMinutes: Option<int>,
                       isPublished: bool, questions: seq<Question>)

  datatype AttemptStatus = IN_PROGRESS | SUBMITTED

  /** Times are milliseconds since the epoch. */
  datatype QuizAttempt = QuizAttempt(id: Id, quizId: Id, studentId: Id, attemptNo: int,
                                     status: AttemptStatus, startedAt: int,
                                     completedAt: Option<int>, score: Option<int>)

  /** One element of the submitted `answers` array. */
  datatype AnswerItem = AnswerItem(questionId: Id, optionId: Option<Id>,
                                   optionIds: Option<seq<Id>>, answerText: Option<string>)

  /** One stored answer row; `isCorrect` is None for an ungraded text answer. */
  datatype AttemptAnswer = AttemptAnswer(attemptId: Id, questionId: Id, optionId: Option<Id>,
                                         answerText: Option<string>, isCorrect: Option<bool>)

  /** `your_answer` and `correct_answer` are a string or an array of strings. */
  datatype AnswerValue = Text(text: string) | Texts(texts: seq<string>)

  datatype AnswerDetail = AnswerDetail(questionId: Id, questionContent: string, questionPoints: int,
                                       yourAnswer: AnswerValue, correctAnswer: AnswerValue,
                                       isCorrect: bool, pointsEarned: int)

  /** The result returned by submitAnswers and getAttemptResult. Score and
      percentage are exact here; the two-decimal rounding is not modelled. */
  datatype QuizResult = QuizResult(attemptId: Id, quizId: Id, quizTitle: string,
                                   score: int, totalPoints: int, percentage: real,
                                   status: AttemptStatus, startedAt: int, completedAt: Option<int>,
                                   timeTakenSeconds: int, answers: seq<AnswerDetail>)

  predicate IsSingleChoice(t: QuestionType) { t == MCQ_SINGLE || t == TRUE_FALSE }

  predicate DistinctOptionIds(opts: seq<QuestionOption>)
  {
    forall i, j :: 0 <= i < j < |opts| ==> opts[i].id != opts[j].id
  }

  predicate HasOption(opts: seq<QuestionOption>, id: Id)
  {
    exists k :: 0 <= k < |opts| && opts[k].id == id
  }

  // ---------------------------------------------------------------------
  // Lookups
  // ---------------------------------------------------------------------

  /** `questionMap.get(id)` for a map filled by `set` in question order: the
      last question with that id. */
  function FindQuestion(qs: seq<Question>, id: Id): (r: Option<Question>)
    ensures r.Some? ==> r.value in qs && r.value.id == id
    ensures r.None? ==> forall k :: 0 <= k < |qs| ==> qs[k].id != id
  {
    if qs == [] then None
    else if qs[|qs| - 1].id == id then Some(qs[|qs| - 1])
    else FindQuestion(qs[..|qs| - 1], id)
  }

  /** `options.find((o) => o.id === id)`: the first option with that id. */
  function FindOption(opts: seq<QuestionOption>, id: Id): (r: Option<QuestionOption>)
    ensures r.Some? <==> HasOption(opts, id)
    ensures r.Some? ==> exists k :: 0 <= k < |opts| && opts[k] == r.value && r.value.id == id
  {
    if opts == [] then None
    else if opts[0].id == id then Some(opts[0])
    else
      var r := FindOption(opts[1..], id);
      assert forall k :: 0 < k < |opts| ==> opts[k] == opts[1..][k - 1];
      r
  }

  // ---------------------------------------------------------------------
  // MCQ_MULTI: comparing the sorted selection with the sorted correct ids
  // ---------------------------------------------------------------------

  predicate SortedIds(s: seq<Id>)
  {
    forall i, j :: 0 <= i < j < |s| ==> s[i] <= s[j]
  }

  function InsertId(x: Id, s: seq<Id>): (r: seq<Id>)
    requires SortedIds(s)
    ensures SortedIds(r) && multiset(r) == multiset(s) + multiset{x}
    ensures |r| == |s| + 1 && (r[0] == x || (s != [] && r[0] == s[0]))
  {
    if s == [] || x <= s[0] then [x] + s
    else
      var t := InsertId(x, s[1..]);
      InsertIdCons(x, s, t);
      [s[0]] + t
  }

  /** The step of InsertId past a smaller head. */
  lemma InsertIdCons(x: Id, s: seq<Id>, t: seq<Id>)
    requires SortedIds(s) && s != [] && s[0] < x
    requires SortedIds(t) && multiset(t) == multiset(s[1..]) + multiset{x}
    requires t != [] && (t[0] == x || (|s| > 1 && t[0] == s[1]))
    ensures SortedIds([s[0]] + t) && multiset([s[0]] + t) == multiset(s) + multiset{x}
  {
    assert s == [s[0]] + s[1..];
    assert s[0] <= t[0];
  }

  /** `[...ids].sort()`: the ids in ascending order. */
  function SortIds(s: seq<Id>): (r: seq<Id>)
    ensures SortedIds(r) && multiset(r) == multiset(s)
  {
    if s == [] then []
    else
      assert s == [s[0]] + s[1..];
      InsertId(s[0], SortIds(s[1..]))
  }

  /** `options.filter((o) => o.is_correct).map((o) => o.id)`. */
  function CorrectIds(opts: seq<QuestionOption>): seq<Id>
  {
    if opts == [] then []
    else (if opts[0].isCorrect then [opts[0].id] else []) + CorrectIds(opts[1..])
  }

  /** The MCQ_MULTI flag: the sorted selection and the sorted correct ids have
      the same length and agree position by position. */
  predicate MultiSelectionCorrect(selected: seq<Id>, opts: seq<QuestionOption>)
  {
    var s := SortIds(selected);
    var c := SortIds(CorrectIds(opts));
    |s| == |c| && forall k :: 0 <= k < |s| ==> s[k] == c[k]
  }

  lemma SortedTail(a: seq<Id>)
    requires SortedIds(a) && a != []
    ensures SortedIds(a[1..])
    ensures forall k :: 0 <= k < |a| ==> a[0] <= a[k]
  {
  }

  lemma MultisetSplit(a: seq<Id>)
    requires a != []
    ensures multiset(a) == multiset{a[0]} + multiset(a[1..])
  {
    assert a == [a[0]] + a[1..];
  }

  /** Two sorted sequences with the same elements are equal. */
  lemma {:induction false} SortedUnique(a: seq<Id>, b: seq<Id>)
    requires SortedIds(a) && SortedIds(b) && multiset(a) == multiset(b)
    ensures a == b
    decreases |a|
  {
    assert |a| == |multiset(a)| == |multiset(b)| == |b|;
    if a != [] {
      SortedTail(a);
      SortedTail(b);
      assert a[0] in multiset(a);
      assert a[0] in b;
      assert b[0] in multiset(b);
      assert b[0] in a;
      assert a[0] == b[0];
      MultisetSplit(a);
      MultisetSplit(b);
      assert multiset(a[1..]) == multiset(a) - multiset{a[0]};
      assert multiset(b[1..]) == multiset(b) - multiset{b[0]};
      SortedUnique(a[1..], b[1..]);
    }
  }

  /** Sort-then-compare is multiset equality: the order of the selection does
      not matter, and a duplicated, missing or extra id makes it wrong. */
  lemma MultiSelectionCorrectIff(selected: seq<Id>, opts: seq<QuestionOption>)
    ensures MultiSelectionCorrect(selected, opts) <==> multiset(selected) == multiset(CorrectIds(opts))
  {
    var s := SortIds(selected);
    var c := SortIds(CorrectIds(opts));
    if multiset(selected) == multiset(CorrectIds(opts)) {
      SortedUnique(s, c);
    }
    if MultiSelectionCorrect(selected, opts) {
      assert s == c;
    }
  }

  lemma {:induction false} CorrectIdsMembers(opts: seq<QuestionOption>, x: Id)
    ensures x in CorrectIds(opts) <==> exists k :: 0 <= k < |opts| && opts[k].id == x && opts[k].isCorrect
  {
    if opts != [] {
      CorrectIdsMembers(opts[1..], x);
      assert forall k :: 0 < k < |opts| ==> opts[k] == opts[1..][k - 1];
    }
  }

  lemma {:induction false} CorrectIdsOnce(opts: seq<QuestionOption>, x: Id)
    requires DistinctOptionIds(opts)
    ensures multiset(CorrectIds(opts))[x] <= 1
  {
    if opts != [] {
      CorrectIdsOnce(opts[1..], x);
      if opts[0].isCorrect && opts[0].id == x {
        CorrectIdsMembers(opts[1..], x);
        assert x !in CorrectIds(opts[1..]);
      }
    }
  }

  /** A selection naming an option twice is never correct. */
  lemma MultiRejectsDuplicate(selected: seq<Id>, opts: seq<QuestionOption>, i: nat, j: nat)
    requires DistinctOptionIds(opts)
    requires i < j < |selected| && selected[i] == selected[j]
    ensures !MultiSelectionCorrect(selected, opts)
  {
    var x := selected[j];
    assert selected == selected[..j] + selected[j..];
    assert x in selected[..j];
    assert multiset(selected)[x] == multiset(selected[..j])[x] + multiset(selected[j..])[x];
    assert x in selected[j..];
    CorrectIdsOnce(opts, x);
    MultiSelectionCorrectIff(selected, opts);
  }

  /** A selection that misses a correct option (a subset) is never correct. */
  lemma MultiRejectsMissing(selected: seq<Id>, opts: seq<QuestionOption>, k: nat)
    requires k < |opts| && opts[k].isCorrect && opts[k].id !in selected
    ensures !MultiSelectionCorrect(selected, opts)
  {
    CorrectIdsMembers(opts, opts[k].id);
    MultiSelectionCorrectIff(selected, opts);
    assert opts[k].id in multiset(CorrectIds(opts));
  }

  /** A selection with an id that is not a correct option (a superset) is
      never correct. */
  lemma MultiRejectsExtra(selected: seq<Id>, opts: seq<QuestionOption>, j: nat)
    requires j < |selected|
    requires forall k :: 0 <= k < |opts| && opts[k].id == selected[j] ==> !opts[k].isCorrect
    ensures !MultiSelectionCorrect(selected, opts)
  {
    CorrectIdsMembers(opts, selected[j]);
    MultiSelectionCorrectIff(selected, opts);
    assert selected[j] in multiset(selected);
  }

  // ---------------------------------------------------------------------
  // submitAnswers: answer items to answer rows
  // ---------------------------------------------------------------------

  /** The rows one answer item produces for its question, or BadRequest for an
      option that is not the question's. */
  function ItemRows(attemptId: Id, q: Question, item: AnswerItem): (r: Result<seq<AttemptAnswer>>)
    ensures r.Err? ==> r.error == BadRequest && (IsSingleChoice(q.qtype) || q.qtype == MCQ_MULTI)
    ensures r.Ok? && q.qtype != MCQ_MULTI ==> |r.value| <= 1
    ensures r.Ok? && q.qtype == MCQ_MULTI ==> |r.value| == |GetOr(item.optionIds, [])|
  {
    if IsSingleChoice(q.qtype) then
      if item.optionId.None? then Ok([])
      else
        match FindOption(q.options, item.optionId.value)
        case None => Err(BadRequest)
        case Some(o) => Ok([AttemptAnswer(attemptId, q.id, Some(o.id), None, Some(o.isCorrect))])
    else if q.qtype == MCQ_MULTI then
      var selected := GetOr(item.optionIds, []);
      if |selected| == 0 then Ok([])
      else
        var sorted := SortIds(selected);
        assert |sorted| == |multiset(sorted)| == |multiset(selected)| == |selected|;
        if !(forall k :: 0 <= k < |sorted| ==> HasOption(q.options, sorted[k])) then Err(BadRequest)
        else
          Ok(MultiRows(attemptId, q.id, sorted, MultiSelectionCorrect(selected, q.options)))
    else
      if item.answerText.Some? && item.answerText.value != "" then
        Ok([AttemptAnswer(attemptId, q.id, None, item.answerText, None)])
      else Ok([])
  }

  /** One row per (sorted) selected id, all with the same flag. */
  function MultiRows(attemptId: Id, qid: Id, ids: seq<Id>, flag: bool): seq<AttemptAnswer>
  {
    seq(|ids|, k requires 0 <= k < |ids| => AttemptAnswer(attemptId, qid, Some(ids[k]), None, Some(flag)))
  }

  /** The loop over `dto.answers`: the concatenated rows of all items, or
      BadRequest as soon as one item names an unknown question or option. */
  function BuildRows(attemptId: Id, qs: seq<Question>, items: seq<AnswerItem>): (r: Result<seq<AttemptAnswer>>)
    ensures r.Err? ==> r.error == BadRequest
    ensures items == [] ==> r == Ok([])
    decreases |items|
  {
    if items == [] then Ok([])
    else
      match BuildRows(attemptId, qs, items[..|items| - 1])
      case Err(e) => Err(e)
      case Ok(prefix) =>
        match ItemOutcome(attemptId, qs, items[|items| - 1])
        case Err(e) => Err(e)
        case Ok(rows) => Ok(prefix + rows)
  }

  /** One pass of that loop: an item whose question is not in the quiz is
      BadRequest, otherwise it gives the rows of its question; every refusal
      is BadRequest. */
  function ItemOutcome(attemptId: Id, qs: seq<Question>, item: AnswerItem): (r: Result<seq<AttemptAnswer>>)
    ensures r.Err? ==> r.error == BadRequest
    ensures FindQuestion(qs, item.questionId).None? ==> r.Err?
    ensures FindQuestion(qs, item.questionId).Some? ==>
              r == ItemRows(attemptId, FindQuestion(qs, item.questionId).value, item)
  {
    match FindQuestion(qs, item.questionId)
    case None => Err(BadRequest)
    case Some(q) => ItemRows(attemptId, q, item)
  }

  /** An item is rejected when its question is not in the quiz or one of its
      options is not an option of that question. */
  predicate ItemRejected(attemptId: Id, qs: seq<Question>, item: AnswerItem)
  {
    ItemOutcome(attemptId, qs, item).Err?
  }

  /** MCQ_SINGLE and TRUE_FALSE: no option chosen gives no row; an option of
      another question is rejected; otherwise one row carrying the chosen
      option's own flag. */
  lemma ItemRowsSingleChoice(attemptId: Id, q: Question, item: AnswerItem)
    requires IsSingleChoice(q.qtype)
    ensures item.optionId.None? ==> ItemRows(attemptId, q, item) == Ok([])
    ensures item.optionId.Some? && !HasOption(q.options, item.optionId.value) ==>
              ItemRows(attemptId, q, item) == Err(BadRequest)
    ensures item.optionId.Some? && HasOption(q.options, item.optionId.value) ==>
              ItemRows(attemptId, q, item).Ok? && |ItemRows(attemptId, q, item).value| == 1 &&
              var row := ItemRows(attemptId, q, item).value[0];
              row.optionId == item.optionId &&
              exists k :: 0 <= k < |q.options| && q.options[k].id == item.optionId.value &&
                          row.isCorrect == Some(q.options[k].isCorrect)
  {
  }

  /** The option ids the rows of one item point to. */
  function RowOptionIds(rows: seq<AttemptAnswer>): seq<Id>
  {
    seq(|rows|, k requires 0 <= k < |rows| => GetOr(rows[k].optionId, 0))
  }

  lemma SameElements(s: seq<Id>, t: seq<Id>)
    requires multiset(s) == multiset(t)
    ensures forall x :: x in s <==> x in t
  {
    forall x ensures x in s <==> x in t {
      assert x in s <==> x in multiset(s);
      assert x in t <==> x in multiset(t);
    }
  }

  /** MCQ_MULTI: an empty selection gives no row, and an id that is not an
      option of the question rejects the item. */
  lemma ItemRowsMultiRejects(attemptId: Id, q: Question, item: AnswerItem)
    requires q.qtype == MCQ_MULTI
    ensures GetOr(item.optionIds, []) == [] ==> ItemRows(attemptId, q, item) == Ok([])
    ensures ItemRows(attemptId, q, item).Err? <==>
              exists j :: 0 <= j < |GetOr(item.optionIds, [])| && !HasOption(q.options, GetOr(item.optionIds, [])[j])
  {
    var selected := GetOr(item.optionIds, []);
    if selected != [] {
      var sorted := SortIds(selected);
      SameElements(sorted, selected);
      if exists j :: 0 <= j < |selected| && !HasOption(q.options, selected[j]) {
        var j :| 0 <= j < |selected| && !HasOption(q.options, selected[j]);
        assert selected[j] in sorted;
        var k :| 0 <= k < |sorted| && sorted[k] == selected[j];
        assert !HasOption(q.options, sorted[k]);
      } else {
        forall k | 0 <= k < |sorted| ensures HasOption(q.options, sorted[k]) {
          assert sorted[k] in selected;
          var j :| 0 <= j < |selected| && selected[j] == sorted[k];
        }
      }
    }
  }

  /** MCQ_MULTI, accepted selection: one row per selected id (duplicates
      included), all carrying the same flag, which is true exactly when the
      selection and the correct ids are the same multiset. */
  lemma {:induction false} ItemRowsMultiRows(attemptId: Id, q: Question, item: AnswerItem, rows: seq<AttemptAnswer>)
    requires q.qtype == MCQ_MULTI
    requires ItemRows(attemptId, q, item) == Ok(rows)
    ensures multiset(RowOptionIds(rows)) == multiset(GetOr(item.optionIds, []))
    ensures forall k :: 0 <= k < |rows| ==>
              rows[k].attemptId == attemptId && rows[k].questionId == q.id && rows[k].optionId.Some? &&
              rows[k].isCorrect == Some(multiset(GetOr(item.optionIds, [])) == multiset(CorrectIds(q.options)))
  {
    var selected := GetOr(item.optionIds, []);
    MultiSelectionCorrectIff(selected, q.options);
    if selected != [] {
      var sorted := SortIds(selected);
      ItemRowsMultiAccepted(attemptId, q, item, rows);
      MultiRowsIds(attemptId, q.id, sorted, MultiSelectionCorrect(selected, q.options));
    }
  }

  /** An accepted non-empty MCQ_MULTI selection gives the rows of its sorted
      ids, flagged with the multiset comparison. */
  lemma ItemRowsMultiAccepted(attemptId: Id, q: Question, item: AnswerItem, rows: seq<AttemptAnswer>)
    requires q.qtype == MCQ_MULTI && GetOr(item.optionIds, []) != []
    requires ItemRows(attemptId, q, item) == Ok(rows)
    ensures rows == MultiRows(attemptId, q.id, SortIds(GetOr(item.optionIds, [])),
                              MultiSelectionCorrect(GetOr(item.optionIds, []), q.options))
  {
  }

  lemma MultiRowsIds(attemptId: Id, qid: Id, ids: seq<Id>, flag: bool)
    ensures RowOptionIds(MultiRows(attemptId, qid, ids, flag)) == ids
  {
  }

  /** Text answers: never rejected, at most one row, never graded. */
  lemma ItemRowsText(attemptId: Id, q: Question, item: AnswerItem)
    requires q.qtype == Other
    ensures ItemRows(attemptId, q, item).Ok?
    ensures |ItemRows(attemptId, q, item).value| == (if item.answerText.Some? && item.answerText.value != "" then 1 else 0)
    ensures forall row :: row in ItemRows(attemptId, q, item).value ==> row.isCorrect.None? && row.answerText == item.answerText
  {
  }

  /** One more item rejects the submission exactly when the earlier items
      already did or the new item is rejected. */
  lemma BuildRowsErrSnoc(attemptId: Id, qs: seq<Question>, items: seq<AnswerItem>)
    requires items != []
    ensures BuildRows(attemptId, qs, items).Err? <==>
              BuildRows(attemptId, qs, items[..|items| - 1]).Err? || ItemRejected(attemptId, qs, items[|items| - 1])
  {
  }

  /** The submission is rejected exactly when some item is (and then with
      BadRequest, as `BuildRows` states). */
  lemma {:induction false} BuildRowsRejects(attemptId: Id, qs: seq<Question>, items: seq<AnswerItem>)
    ensures BuildRows(attemptId, qs, items).Err? <==>
              exists k :: 0 <= k < |items| && ItemRejected(attemptId, qs, items[k])
    decreases |items|
  {
    if items != [] {
      var init := items[..|items| - 1];
      BuildRowsRejects(attemptId, qs, init);
      BuildRowsErrSnoc(attemptId, qs, items);
      SomeSnoc(items, init, it => ItemRejected(attemptId, qs, it));
    }
  }

  /** Every row built for an attempt belongs to that attempt and to a
      question of the quiz. */
  lemma {:induction false} BuildRowsBelong(attemptId: Id, qs: seq<Question>, items: seq<AnswerItem>)
    requires BuildRows(attemptId, qs, items).Ok?
    ensures forall row :: row in BuildRows(attemptId, qs, items).value ==>
              row.attemptId == attemptId && FindQuestion(qs, row.questionId).Some?
    decreases |items|
  {
    if items != [] {
      var init, last := items[..|items| - 1], items[|items| - 1];
      BuildRowsBelong(attemptId, qs, init);
      var q := FindQuestion(qs, last.questionId).value;
      ItemRowsBelong(attemptId, q, last);
      var prefix, rows := BuildRows(attemptId, qs, init).value, ItemOutcome(attemptId, qs, last).value;
      assert BuildRows(attemptId, qs, items).value == prefix + rows;
      forall row: AttemptAnswer | row in prefix + rows
        ensures row.attemptId == attemptId && FindQuestion(qs, row.questionId).Some?
      {
        if row !in prefix {
          assert row in rows;
        }
      }
    }
  }

  /** Every row of one item belongs to the attempt and to the item's
      question. */
  lemma ItemRowsBelong(attemptId: Id, q: Question, item: AnswerItem)
    requires ItemRows(attemptId, q, item).Ok?
    ensures forall row :: row in ItemRows(attemptId, q, item).value ==> row.attemptId == attemptId && row.questionId == q.id
  {
    if q.qtype == MCQ_MULTI && GetOr(item.optionIds, []) != [] {
      var rows := ItemRows(attemptId, q, item).value;
      forall row: AttemptAnswer | row in rows ensures row.attemptId == attemptId && row.questionId == q.id {
        var k :| 0 <= k < |rows| && rows[k] == row;
      }
    }
  }

  // ---------------------------------------------------------------------
  // calculateResult: answer rows to a graded breakdown
  // ---------------------------------------------------------------------

  /** `answersByQuestion.get(qid) ?? []`: the rows of one question, in the
      order they were read. */
  function RowsFor(rows: seq<AttemptAnswer>, qid: Id): seq<AttemptAnswer>
  {
    if rows == [] then []
    else RowsFor(rows[..|rows| - 1], qid) + (if rows[|rows| - 1].questionId == qid then [rows[|rows| - 1]] else [])
  }

  function CorrectOptions(opts: seq<QuestionOption>): seq<QuestionOption>
  {
    if opts == [] then []
    else (if opts[0].isCorrect then [opts[0]] else []) + CorrectOptions(opts[1..])
  }

  function Contents(opts: seq<QuestionOption>): seq<string>
  {
    seq(|opts|, k requires 0 <= k < |opts| => opts[k].content)
  }

  /** The option a row points to, if it is still an option of the question. */
  function RowOption(row: AttemptAnswer, opts: seq<QuestionOption>): Option<QuestionOption>
  {
    if row.optionId.Some? then FindOption(opts, row.optionId.value) else None
  }

  /** `questionAnswers.map((a) => a.option).filter(present).map(content)`. */
  function ChosenContents(qrows: seq<AttemptAnswer>, opts: seq<QuestionOption>): seq<string>
  {
    if qrows == [] then []
    else
      (match RowOption(qrows[0], opts) case Some(o) => [o.content] case None => []) +
      ChosenContents(qrows[1..], opts)
  }

  /** The graded entry of one question, from that question's rows. */
  function QuestionDetail(q: Question, qrows: seq<AttemptAnswer>): (d: AnswerDetail)
    ensures d.questionId == q.id && d.questionPoints == q.points
    ensures d.pointsEarned == (if d.isCorrect then q.points else 0)
    ensures d.isCorrect ==> |qrows| > 0 && qrows[0].isCorrect == Some(true)
    ensures q.qtype == Other ==> !d.isCorrect
  {
    var correct := CorrectOptions(q.options);
    if IsSingleChoice(q.qtype) then
      var chosen := if |qrows| > 0 then RowOption(qrows[0], q.options) else None;
      var yours := if chosen.Some? then chosen.value.content else "";
      var expected := if |correct| > 0 then correct[0].content else "";
      var ok := |qrows| > 0 && qrows[0].isCorrect == Some(true);
      AnswerDetail(q.id, q.content, q.points, Text(yours), Text(expected), ok, if ok then q.points else 0)
    else if q.qtype == MCQ_MULTI then
      var ok := |qrows| > 0 && qrows[0].isCorrect == Some(true);
      AnswerDetail(q.id, q.content, q.points, Texts(ChosenContents(qrows, q.options)),
                   Texts(Contents(correct)), ok, if ok then q.points else 0)
    else
      var text := if |qrows| > 0 && qrows[0].answerText.Some? then qrows[0].answerText.value else "";
      AnswerDetail(q.id, q.content, q.points, Text(text), Text(""), false, 0)
  }

  function Details(qs: seq<Question>, rows: seq<AttemptAnswer>): seq<AnswerDetail>
  {
    seq(|qs|, k requires 0 <= k < |qs| => QuestionDetail(qs[k], RowsFor(rows, qs[k].id)))
  }

  /** `questions.reduce((sum, q) => sum + q.points, 0)`. */
  function TotalPoints(qs: seq<Question>): int
  {
    if qs == [] then 0 else TotalPoints(qs[..|qs| - 1]) + qs[|qs| - 1].points
  }

  /** The running `totalScore`. */
  function SumEarned(ds: seq<AnswerDetail>): int
  {
    if ds == [] then 0 else SumEarned(ds[..|ds| - 1]) + ds[|ds| - 1].pointsEarned
  }

  function Percentage(score: int, total: int): real
  {
    if total > 0 then (score as real / total as real) * 100.0 else 0.0
  }

  /** `Math.floor((completed_at - started_at) / 1000)`, or 0 before
      completion. Euclidean division by a positive divisor is the floor. */
  function TimeTakenSeconds(startedAt: int, completedAt: Option<int>): int
  {
    if completedAt.Some? then (completedAt.value - startedAt) / 1000 else 0
  }

  /** The result calculateResult assembles for an attempt of a quiz from the
      attempt's stored rows. */
  function ResultOf(attempt: QuizAttempt, quiz: Quiz, rows: seq<AttemptAnswer>): (r: QuizResult)
    ensures |r.answers| == |quiz.questions|
    ensures forall k :: 0 <= k < |quiz.questions| ==>
              r.answers[k].questionId == quiz.questions[k].id &&
              r.answers[k].questionPoints == quiz.questions[k].points
    ensures r.attemptId == attempt.id && r.quizId == quiz.id && r.status == attempt.status
  {
    var details := Details(quiz.questions, rows);
    var score := SumEarned(details);
    var total := TotalPoints(quiz.questions);
    QuizResult(attempt.id, quiz.id, quiz.title, score, total, Percentage(score, total),
               attempt.status, attempt.startedAt, attempt.completedAt,
               TimeTakenSeconds(attempt.startedAt, attempt.completedAt), details)
  }

  predicate PositivePoints(qs: seq<Question>)
  {
    forall k :: 0 <= k < |qs| ==> qs[k].points >= 1
  }

  lemma {:induction false} SumEarnedBounds(qs: seq<Question>, rows: seq<AttemptAnswer>)
    requires PositivePoints(qs)
    ensures 0 <= SumEarned(Details(qs, rows)) <= TotalPoints(qs)
    decreases |qs|
  {
    if qs != [] {
      var init := qs[..|qs| - 1];
      assert Details(qs, rows)[..|qs| - 1] == Details(init, rows);
      SumEarnedBounds(init, rows);
    }
  }

  /** Each question earns all of its points or none, free-text questions
      none; the score lies between 0 and the total, and the percentage
      between 0 and 100. */
  lemma ResultBounds(attempt: QuizAttempt, quiz: Quiz, rows: seq<AttemptAnswer>)
    requires PositivePoints(quiz.questions)
    ensures var r := ResultOf(attempt, quiz, rows);
            0 <= r.score <= r.totalPoints &&
            r.totalPoints >= |quiz.questions| &&
            0.0 <= r.percentage <= 100.0 &&
            (forall k :: 0 <= k < |r.answers| ==>
               (r.answers[k].pointsEarned == 0 || r.answers[k].pointsEarned == quiz.questions[k].points) &&
               (quiz.questions[k].qtype == Other ==> r.answers[k].pointsEarned == 0))
  {
    SumEarnedBounds(quiz.questions, rows);
    TotalAtLeastCount(quiz.questions);
    var r := ResultOf(attempt, quiz, rows);
    PercentageBounds(r.score, r.totalPoints);
  }

  lemma {:induction false} TotalAtLeastCount(qs: seq<Question>)
    requires PositivePoints(qs)
    ensures TotalPoints(qs) >= |qs|
    decreases |qs|
  {
    if qs != [] {
      TotalAtLeastCount(qs[..|qs| - 1]);
    }
  }

  lemma PercentageBounds(score: int, total: int)
    requires 0 <= score <= total
    ensures 0.0 <= Percentage(score, total) <= 100.0
    ensures total > 0 && score == total ==> Percentage(score, total) == 100.0
  {
    if total > 0 {
      assert score as real / total as real <= 1.0;
    }
  }

  lemma {:induction false} SumEarnedAllCorrect(qs: seq<Question>, rows: seq<AttemptAnswer>)
    requires forall k :: 0 <= k < |qs| ==> Details(qs, rows)[k].isCorrect
    ensures SumEarned(Details(qs, rows)) == TotalPoints(qs)
    decreases |qs|
  {
    if qs != [] {
      var init := qs[..|qs| - 1];
      assert Details(qs, rows)[..|qs| - 1] == Details(init, rows);
      SumEarnedAllCorrect(init, rows);
    }
  }

  /** Answering every question correctly scores the total, 100 percent when
      the quiz has questions. */
  lemma FullMarks(attempt: QuizAttempt, quiz: Quiz, rows: seq<AttemptAnswer>)
    requires PositivePoints(quiz.questions) && |quiz.questions| > 0
    requires forall k :: 0 <= k < |quiz.questions| ==> ResultOf(attempt, quiz, rows).answers[k].isCorrect
    ensures ResultOf(attempt, quiz, rows).score == ResultOf(attempt, quiz, rows).totalPoints
    ensures ResultOf(attempt, quiz, rows).percentage == 100.0
  {
    assert ResultOf(attempt, quiz, rows).answers == Details(quiz.questions, rows);
    SumEarnedAllCorrect(quiz.questions, rows);
    TotalAtLeastCount(quiz.questions);
    var r := ResultOf(attempt, quiz, rows);
    PercentageBounds(r.score, r.totalPoints);
  }

  lemma {:induction false} RowsForAll(rows: seq<AttemptAnswer>, qid: Id)
    requires forall k :: 0 <= k < |rows| ==> rows[k].questionId == qid
    ensures RowsFor(rows, qid) == rows
    decreases |rows|
  {
    if rows != [] {
      RowsForAll(rows[..|rows| - 1], qid);
    }
  }

  /** Submitting then grading one question: a single-choice question is
      correct exactly when the chosen option is one of its correct options; a
      multi-choice question exactly when the non-empty selection is the
      multiset of correct ids; a text question never. */
  lemma GradeOfItem(attemptId: Id, q: Question, item: AnswerItem, rows: seq<AttemptAnswer>)
    requires DistinctOptionIds(q.options)
    requires ItemRows(attemptId, q, item) == Ok(rows)
    ensures QuestionDetail(q, RowsFor(rows, q.id)).isCorrect <==>
              (IsSingleChoice(q.qtype) && item.optionId.Some? &&
                 exists k :: 0 <= k < |q.options| && q.options[k].id == item.optionId.value && q.options[k].isCorrect) ||
              (q.qtype == MCQ_MULTI && GetOr(item.optionIds, []) != [] &&
                 multiset(GetOr(item.optionIds, [])) == multiset(CorrectIds(q.options)))
  {
    if IsSingleChoice(q.qtype) {
      ItemRowsSingleChoice(attemptId, q, item);
      assert forall k :: 0 <= k < |rows| ==> rows[k].questionId == q.id;
      RowsForAll(rows, q.id);
    } else if q.qtype == MCQ_MULTI {
      ItemRowsMultiRejects(attemptId, q, item);
      if GetOr(item.optionIds, []) != [] {
        ItemRowsMultiRows(attemptId, q, item, rows);
      }
      assert forall k :: 0 <= k < |rows| ==> rows[k].questionId == q.id;
      RowsForAll(rows, q.id);
    }
  }
}
