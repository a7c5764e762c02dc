/** Vocabulary shared by every service: identifiers, caller roles, the three
    error kinds the services throw, and the ownership tests they repeat. */
module Common {

  /** Row identifiers. The database generates them; only equality matters,
      except where a service sorts them (see Grading.SortIds). */
  type Id = nat

  datatype Option<T> = None | Some(value: T)

  /** Roles as the services compare them. */
  datatype Role = STUDENT | TEACHER | ADMIN

  /** The exception classes the services throw, one constructor each. */
  datatype Error = NotFound | Forbidden | BadRequest

  datatype Result<T> = Ok(value: T) | Err(error: Error)

  /** `x ?? d` on an optional value. */
  function GetOr<T>(o: Option<T>, d: T): T
  {
    match o
    case Some(v) => v
    case None => d
  }

  predicate IsAdmin(role: Role) { role == ADMIN }

  predicate IsTeacherOrAdmin(role: Role) { role == TEACHER || role == ADMIN }

  /** `owner === userId` where the owner id was read through optional
      relations: an owner that could not be resolved never matches. */
  predicate IsOwner(owner: Option<Id>, userId: Id) { owner == Some(userId) }

  /** The "owner or ADMIN" rule used by the course, lesson, quiz, question and
      notification services. */
  predicate OwnerOrAdmin(owner: Option<Id>, userId: Id, role: Role)
  {
    IsOwner(owner, userId) || IsAdmin(role)
  }

  /** `lesson?.course?.teacher_id`: the teacher of a lesson's course, or None
      when the lesson or its course is missing. */
  function TeacherOfLesson(lessonCourse: map<Id, Id>, courseTeacher: map<Id, Id>, lessonId: Id): Option<Id>
  {
    if lessonId in lessonCourse && lessonCourse[lessonId] in courseTeacher
    then Some(courseTeacher[lessonCourse[lessonId]])
    else None
  }

  /** A subset is no larger, and a proper subset is smaller. */
  lemma {:induction false} SubsetCard<T>(a: set<T>, b: set<T>)
    requires a <= b
    ensures |a| <= |b|
    ensures a < b ==> |a| < |b|
    decreases |a|
  {
    if a == {} {
      if a < b {
        var y :| y in b;
        assert |b| >= 1 by {
          assert b != {};
        }
      }
    } else {
      var x :| x in a;
      if a < b {
        var y :| y in b && y !in a;
        assert y in b - {x} && y !in a - {x};
      }
      SubsetCard(a - {x}, b - {x});
    }
  }

  /** Some element of a non-empty sequence satisfies `p` exactly when some
      element before the last does, or the last one does. */
  lemma SomeSnoc<T>(s: seq<T>, init: seq<T>, p: T -> bool)
    requires s != [] && init == s[..|s| - 1]
    ensures (exists k :: 0 <= k < |s| && p(s[k])) <==>
              (exists k :: 0 <= k < |init| && p(init[k])) || p(s[|s| - 1])
  {
    if exists k :: 0 <= k < |s| && p(s[k]) {
      var k :| 0 <= k < |s| && p(s[k]);
      if k < |init| {
        assert init[k] == s[k];
      }
    }
    if exists k :: 0 <= k < |init| && p(init[k]) {
      var k :| 0 <= k < |init| && p(init[k]);
      assert s[k] == init[k];
    }
  }
}
