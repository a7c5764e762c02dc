/** Enrollments in `enrollments.service.ts`: one enrollment per student and
    course, progress kept between 0 and 100, and who may view, change or
    delete an enrollment. */
module Enrollments {
  import opened Common

  datatype EnrollmentStatus = ACTIVE | COMPLETED | CANCELLED

  /** An enrollment row; `progress` is the percentage column. */
  datatype Enrollment = Enrollment(id: Id, studentId: Id, courseId: Id, status: EnrollmentStatus,
                                   progress: real, lastAccessedAt: Option<int>, enrolledAt: int)

  /** The update body; every field is optional. */
  datatype UpdateEnrollmentInput = UpdateEnrollmentInput(status: Option<EnrollmentStatus>,
                                                         progress: Option<real>,
                                                         lastAccessedAt: Option<int>)

  datatype StudentRef = StudentRef(id: Id, fullName: Option<string>, avatarUrl: Option<string>)
  datatype CourseRef = CourseRef(id: Id, title: Option<string>, thumbnailUrl: Option<string>, teacherId: Id)

  datatype StudentSummary = StudentSummary(id: Id, fullName: string, avatarUrl: string)
  datatype CourseSummary = CourseSummary(id: Id, title: string, thumbnailUrl: string)
  datatype EnrollmentResponse = EnrollmentResponse(id: Id, status: EnrollmentStatus, progress: real,
                                                   lastAccessedAt: Option<int>, enrolledAt: int,
                                                   student: StudentSummary, course: CourseSummary)

  /** The range the update body accepts for a progress value. */
  predicate InRange(p: real)
  {
    0.0 <= p <= 100.0
  }

  /** The invariant of the table: ids are keys, a student has at most one
      enrollment per course, and every progress value is in range. */
  predicate WellFormed(es: seq<Enrollment>)
  {
    (forall i, j :: 0 <= i < j < |es| ==> es[i].id != es[j].id) &&
    (forall i, j :: 0 <= i < j < |es| ==> (es[i].studentId, es[i].courseId) != (es[j].studentId, es[j].courseId)) &&
    (forall i :: 0 <= i < |es| ==> InRange(es[i].progress))
  }

  function FindById(es: seq<Enrollment>, id: Id): (r: Option<nat>)
    ensures r.Some? ==> r.value < |es| && es[r.value].id == id
    ensures r.None? ==> forall k :: 0 <= k < |es| ==> es[k].id != id
  {
    if es == [] then None
    else if es[0].id == id then Some(0)
    else
      match FindById(es[1..], id)
      case None => None
      case Some(k) => Some(k + 1)
  }

  predicate Enrolled(es: seq<Enrollment>, studentId: Id, courseId: Id)
  {
    exists k :: 0 <= k < |es| && es[k].studentId == studentId && es[k].courseId == courseId
  }

  /** ensureCanViewEnrollment: the owner, an ADMIN, or a TEACHER who is the
      teacher of the loaded course relation (`course?.teacher_id`, None when
      the relation is missing). */
  function EnsureCanView(e: Enrollment, courseTeacher: Option<Id>, userId: Id, role: Role): (r: Result<()>)
    ensures r.Ok? <==> e.studentId == userId || role == ADMIN ||
                       (role == TEACHER && courseTeacher == Some(userId))
    ensures r.Err? ==> r.error == Forbidden
    ensures role == STUDENT && e.studentId != userId ==> r.Err?
  {
    var isOwner := e.studentId == userId;
    var isAdmin := role == ADMIN;
    var isTeacher := role == TEACHER;
    if isOwner || isAdmin then Ok(())
    else if isTeacher && courseTeacher == Some(userId) then Ok(())
    else Err(Forbidden)
  }

  /** The role rule of updateEnrollment: a STUDENT changes only the progress
      of their own enrollment and must supply it; a TEACHER or ADMIN changes
      whichever fields are supplied. */
  function ApplyUpdate(e: Enrollment, input: UpdateEnrollmentInput, userId: Id, role: Role): (r: Result<Enrollment>)
    ensures r.Ok? <==> (role == STUDENT ==> e.studentId == userId && input.progress.Some?)
    ensures r.Err? ==> r.error == Forbidden
    ensures r.Ok? ==> r.value.id == e.id && r.value.studentId == e.studentId &&
                      r.value.courseId == e.courseId && r.value.enrolledAt == e.enrolledAt
    ensures r.Ok? ==> r.value.progress == GetOr(input.progress, e.progress)
    ensures r.Ok? && role == STUDENT ==> r.value.status == e.status && r.value.lastAccessedAt == e.lastAccessedAt
    ensures r.Ok? && role != STUDENT ==>
              r.value.status == GetOr(input.status, e.status) &&
              r.value.lastAccessedAt == (if input.lastAccessedAt.Some? then input.lastAccessedAt else e.lastAccessedAt)
  {
    var isOwner := e.studentId == userId;
    var isTeacherOrAdmin := role == TEACHER || role == ADMIN;
    if role == STUDENT then
      if !isOwner then Err(Forbidden)
      else if input.progress.Some? then Ok(e.(progress := input.progress.value))
      else Err(Forbidden)
    else if isTeacherOrAdmin then
      var e1 := if input.status.Some? then e.(status := input.status.value) else e;
      var e2 := if input.progress.Some? then e1.(progress := input.progress.value) else e1;
      Ok(if input.lastAccessedAt.Some? then e2.(lastAccessedAt := input.lastAccessedAt) else e2)
    else Err(Forbidden)
  }

  /** A STUDENT can never change the status or the last access time, not
      even of their own enrollment. */
  lemma StudentOnlyProgress(e: Enrollment, input: UpdateEnrollmentInput, userId: Id)
    ensures var r := ApplyUpdate(e, input, userId, STUDENT);
            r.Ok? ==> r.value == e.(progress := input.progress.value)
  {
    var r := ApplyUpdate(e, input, userId, STUDENT);
    if r.Ok? {
      assert r.value.progress == input.progress.value;
    }
  }

  /** `x?.field ?? ''`. */
  function OrEmpty(s: Option<string>): string
  {
    GetOr(s, "")
  }

  /** The response: missing relations fall back to the row's own ids and to
      empty strings. */
  function ToEnrollmentResponse(e: Enrollment, student: Option<StudentRef>, course: Option<CourseRef>)
    : (r: EnrollmentResponse)
    ensures r.id == e.id && r.status == e.status && r.progress == e.progress
    ensures r.lastAccessedAt == e.lastAccessedAt && r.enrolledAt == e.enrolledAt
    ensures r.student.id == (if student.Some? then student.value.id else e.studentId)
    ensures r.course.id == (if course.Some? then course.value.id else e.courseId)
    ensures student.None? ==> r.student.fullName == "" && r.student.avatarUrl == ""
    ensures course.None? ==> r.course.title == "" && r.course.thumbnailUrl == ""
  {
    EnrollmentResponse(
      e.id, e.status, e.progress, e.lastAccessedAt, e.enrolledAt,
      StudentSummary(if student.Some? then student.value.id else e.studentId,
                     if student.Some? then OrEmpty(student.value.fullName) else "",
                     if student.Some? then OrEmpty(student.value.avatarUrl) else ""),
      CourseSummary(if course.Some? then course.value.id else e.courseId,
                    if course.Some? then OrEmpty(course.value.title) else "",
                    if course.Some? then OrEmpty(course.value.thumbnailUrl) else ""))
  }

  /** Replacing a row by an update of it keeps the table well formed. */
  lemma ReplaceKeepsWellFormed(es: seq<Enrollment>, k: nat, e: Enrollment)
    requires WellFormed(es) && k < |es|
    requires e.id == es[k].id && e.studentId == es[k].studentId && e.courseId == es[k].courseId
    requires InRange(e.progress)
    ensures WellFormed(es[k := e])
  {
    var updated := es[k := e];
    forall i, j | 0 <= i < j < |updated|
      ensures updated[i].id != updated[j].id
      ensures (updated[i].studentId, updated[i].courseId) != (updated[j].studentId, updated[j].courseId)
    {
      assert es[i].id != es[j].id;
      assert (es[i].studentId, es[i].courseId) != (es[j].studentId, es[j].courseId);
    }
  }

  class EnrollmentsService {
    var enrollments: seq<Enrollment>
    /** `course.teacher_id` of every existing course. */
    var courseTeacher: map<Id, Id>

    predicate Valid()
      reads this
    {
      WellFormed(enrollments)
    }

    constructor (courseTeacher: map<Id, Id>)
      ensures Valid() && enrollments == [] && this.courseTeacher == courseTeacher
    {
      enrollments := [];
      this.courseTeacher := courseTeacher;
    }

    /** The teacher of the course relation loaded with an enrollment: the
        relation follows the enrollment's own `course_id`, and is missing when
        that course no longer exists. */
    function TeacherOfCourse(courseId: Id): (t: Option<Id>)
      reads this
      ensures t.Some? <==> courseId in courseTeacher
      ensures t.Some? ==> t.value == courseTeacher[courseId]
    {
      if courseId in courseTeacher then Some(courseTeacher[courseId]) else None
    }

    /** createEnrollment: BadRequest when the student is already enrolled in
        the course, otherwise a new ACTIVE enrollment with no progress. */
    method CreateEnrollment(courseId: Id, studentId: Id, newId: Id, now: int) returns (r: Result<Enrollment>)
      requires Valid()
      requires forall k :: 0 <= k < |enrollments| ==> enrollments[k].id != newId
      modifies this
      ensures Valid() && courseTeacher == old(courseTeacher)
      ensures Enrolled(old(enrollments), studentId, courseId) ==>
                r == Err(BadRequest) && enrollments == old(enrollments)
      ensures !Enrolled(old(enrollments), studentId, courseId) ==>
                r == Ok(Enrollment(newId, studentId, courseId, ACTIVE, 0.0, None, now)) &&
                enrollments == old(enrollments) + [r.value]
      ensures Enrolled(enrollments, studentId, courseId)
    {
      if Enrolled(enrollments, studentId, courseId) {
        return Err(BadRequest);
      }
      var e := Enrollment(newId, studentId, courseId, ACTIVE, 0.0, None, now);
      var extended := enrollments + [e];
      forall a, b | 0 <= a < b < |extended|
        ensures extended[a].id != extended[b].id
        ensures (extended[a].studentId, extended[a].courseId) != (extended[b].studentId, extended[b].courseId)
      {
        assert extended[a] == enrollments[a];
      }
      assert extended[|enrollments|] == e;
      enrollments := extended;
      r := Ok(e);
    }

    /** findById: NotFound, then the view rule, with the course relation of
        the enrollment found. A TEACHER sees the enrollment only when teaching
        that enrollment's own course. */
    function FindEnrollment(id: Id, userId: Id, role: Role): (r: Result<Enrollment>)
      reads this
      ensures FindById(enrollments, id).None? <==> r == Err(NotFound)
      ensures r.Ok? <==> FindById(enrollments, id).Some? &&
                         var e := enrollments[FindById(enrollments, id).value];
                         e.studentId == userId || role == ADMIN ||
                         (role == TEACHER && e.courseId in courseTeacher && courseTeacher[e.courseId] == userId)
      ensures r.Ok? ==> r.value in enrollments && r.value.id == id
      ensures r.Err? ==> r.error == NotFound || r.error == Forbidden
    {
      match FindById(enrollments, id)
      case None => Err(NotFound)
      case Some(k) =>
        match EnsureCanView(enrollments[k], TeacherOfCourse(enrollments[k].courseId), userId, role)
        case Err(e) => Err(e)
        case Ok(_) => Ok(enrollments[k])
    }

    /** updateEnrollment: NotFound, then the role rule; the stored row is
        replaced by the updated one and the table stays well formed. */
    method UpdateEnrollment(id: Id, input: UpdateEnrollmentInput, userId: Id, role: Role)
      returns (r: Result<Enrollment>)
      requires Valid()
      requires input.progress.Some? ==> InRange(input.progress.value)
      modifies this
      ensures Valid() && courseTeacher == old(courseTeacher)
      ensures FindById(old(enrollments), id).None? ==> r == Err(NotFound) && enrollments == old(enrollments)
      ensures FindById(old(enrollments), id).Some? ==>
                var k := FindById(old(enrollments), id).value;
                r == ApplyUpdate(old(enrollments)[k], input, userId, role) &&
                (r.Err? ==> enrollments == old(enrollments)) &&
                (r.Ok? ==> enrollments == old(enrollments)[k := r.value])
    {
      var found := FindById(enrollments, id);
      if found.None? {
        return Err(NotFound);
      }
      var k := found.value;
      r := ApplyUpdate(enrollments[k], input, userId, role);
      if r.Ok? {
        ReplaceKeepsWellFormed(enrollments, k, r.value);
        enrollments := enrollments[k := r.value];
      }
    }

    /** deleteEnrollment: only an ADMIN, and the role is checked before the
        enrollment is looked up. */
    method DeleteEnrollment(id: Id, role: Role) returns (r: Result<()>)
      requires Valid()
      modifies this
      ensures Valid() && courseTeacher == old(courseTeacher)
      ensures role != ADMIN ==> r == Err(Forbidden) && enrollments == old(enrollments)
      ensures role == ADMIN && FindById(old(enrollments), id).None? ==>
                r == Err(NotFound) && enrollments == old(enrollments)
      ensures role == ADMIN && FindById(old(enrollments), id).Some? ==>
                var k := FindById(old(enrollments), id).value;
                r.Ok? && enrollments == old(enrollments)[..k] + old(enrollments)[k + 1..]
    {
      if role != ADMIN {
        return Err(Forbidden);
      }
      var found := FindById(enrollments, id);
      if found.None? {
        return Err(NotFound);
      }
      var k := found.value;
      var rest := enrollments[..k] + enrollments[k + 1..];
      forall a, b | 0 <= a < b < |rest|
        ensures rest[a].id != rest[b].id
        ensures (rest[a].studentId, rest[a].courseId) != (rest[b].studentId, rest[b].courseId)
      {
        var a', b' := if a < k then a else a + 1, if b < k then b else b + 1;
        assert rest[a] == enrollments[a'] && rest[b] == enrollments[b'];
      }
      forall a | 0 <= a < |rest| ensures InRange(rest[a].progress) {
        assert rest[a] == enrollments[if a < k then a else a + 1];
      }
      enrollments := rest;
      r := Ok(());
    }
  }
}
