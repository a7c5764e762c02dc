/** Course management in `course.service.ts`: slug normalisation, the
    search for a free slug, and create, update, remove and public lookup by
    slug. */
module Courses {
  import opened Common
  import opened Text

  datatype CourseLevel = BEGINNER | INTERMEDIATE | ADVANCED
  datatype CourseStatus = DRAFT | PUBLISHED | ARCHIVED

  /** A course row. `publishedAt` is a time in milliseconds; `price` is the
      decimal column, carried as a real. */
  datatype Course = Course(id: Id, title: string, slug: string, description: Option<string>,
                           thumbnailUrl: Option<string>, level: CourseLevel, status: CourseStatus,
                           price: real, publishedAt: Option<int>, teacherId: Id)

  datatype CreateCourseInput = CreateCourseInput(title: string, description: string, level: CourseLevel,
                                                 price: real, thumbnailUrl: Option<string>)

  /** Every field is optional; None means "not supplied". */
  datatype UpdateCourseInput = UpdateCourseInput(title: Option<string>, description: Option<string>,
                                                 level: Option<CourseLevel>, price: Option<real>,
                                                 thumbnailUrl: Option<string>, status: Option<CourseStatus>)

  // ---------------------------------------------------------------------
  // slugify
  // ---------------------------------------------------------------------

  predicate IsSpaceOrUnderscore(c: char) { IsJsSpace(c) || c == '_' }

  predicate IsSlugChar(c: char) { IsLowerAlnum(c) || c == '-' }

  predicate IsDash(c: char) { c == '-' }

  /** A course slug: only `a-z`, `0-9` and `-`, and never two dashes in a row. */
  predicate IsCourseSlug(s: string)
  {
    (forall i :: 0 <= i < |s| ==> IsSlugChar(s[i])) && NoRepeat(s, '-')
  }

  /** Collapsing the dash runs of a string over `[a-z0-9-]` leaves a course
      slug. */
  lemma CollapsedIsSlug(kept: string)
    requires forall c :: c in kept ==> IsSlugChar(c)
    ensures IsCourseSlug(ReplaceRuns(kept, IsDash, '-'))
  {
    ReplaceRunsChars(kept, IsDash, '-');
    ReplaceRunsNoRepeat(kept, IsDash, '-');
    var r := ReplaceRuns(kept, IsDash, '-');
    forall i | 0 <= i < |r| ensures IsSlugChar(r[i]) {
      assert r[i] in r;
    }
  }

  /** Lower-case, trim, turn runs of white space and underscores into one
      dash, drop everything outside `[a-z0-9-]`, collapse runs of dashes.
      Whatever the input, the result is a course slug. */
  function Slugify(value: string): (r: string)
    ensures IsCourseSlug(r)
  {
    var lowered := Trim(ToLower(value));
    var dashed := ReplaceRuns(lowered, IsSpaceOrUnderscore, '-');
    var kept := Keep(dashed, IsSlugChar);
    KeepChars(dashed, IsSlugChar);
    CollapsedIsSlug(kept);
    ReplaceRuns(kept, IsDash, '-')
  }

  /** Every step of slugify leaves a slug unchanged, so slugify is
      idempotent. */
  lemma SlugifyFixesSlugs(s: string)
    requires IsCourseSlug(s)
    ensures Slugify(s) == s
  {
    forall i | 0 <= i < |s|
      ensures !('A' <= s[i] <= 'Z') && !IsJsSpace(s[i]) && !IsSpaceOrUnderscore(s[i])
    {
      assert IsSlugChar(s[i]);
    }
    ReplaceRunsNothingToDo(s, IsSpaceOrUnderscore, '-');
    KeepEverything(s, IsSlugChar);
    CollapseNoRepeat(s, IsDash, '-');
    TrimNoSpace(s);
    ToLowerNoUpper(s);
  }

  lemma SlugifyIdempotent(value: string)
    ensures Slugify(Slugify(value)) == Slugify(value)
  {
    SlugifyFixesSlugs(Slugify(value));
  }

  // ---------------------------------------------------------------------
  // generateUniqueSlug, as a specification
  // ---------------------------------------------------------------------

  /** The k-th slug tried: the base itself, then `base-1`, `base-2`, ... */
  function Candidate(base: string, k: nat): string
  {
    if k == 0 then base else base + "-" + NatToString(k)
  }

  /** The candidates are pairwise different. */
  lemma CandidateInjective(base: string, i: nat, j: nat)
    requires Candidate(base, i) == Candidate(base, j)
    ensures i == j
  {
    if i != 0 && j != 0 {
      var a, b := NatToString(i), NatToString(j);
      var ca, cb := Candidate(base, i), Candidate(base, j);
      assert a == ca[|base| + 1..];
      assert b == cb[|base| + 1..];
      NatToStringInjective(i, j);
    }
  }

  /** The position of the course holding a slug. */
  function FindSlug(courses: seq<Course>, slug: string): (r: Option<nat>)
    ensures r.Some? ==> r.value < |courses| && courses[r.value].slug == slug
    ensures r.None? ==> forall k :: 0 <= k < |courses| ==> courses[k].slug != slug
  {
    if courses == [] then None
    else if courses[0].slug == slug then Some(0)
    else
      match FindSlug(courses[1..], slug)
      case None => None
      case Some(k) => Some(k + 1)
  }

  /** A slug may be used when no course holds it, or when the course being
      updated holds it itself. */
  predicate SlugFree(courses: seq<Course>, slug: string, currentId: Option<Id>)
  {
    match FindSlug(courses, slug)
    case None => true
    case Some(k) => currentId == Some(courses[k].id)
  }

  function Slugs(courses: seq<Course>): set<string>
  {
    set k | 0 <= k < |courses| :: courses[k].slug
  }

  function Tried(base: string, n: nat): set<string>
  {
    set k | 0 <= k < n :: Candidate(base, k)
  }

  lemma TriedNext(base: string, n: nat)
    ensures Candidate(base, n) !in Tried(base, n)
    ensures Tried(base, n + 1) == Tried(base, n) + {Candidate(base, n)}
  {
    if Candidate(base, n) in Tried(base, n) {
      var j :| 0 <= j < n && Candidate(base, j) == Candidate(base, n);
      CandidateInjective(base, j, n);
    }
  }

  /** There are at most as many slugs as courses. */
  lemma {:induction false} SlugsCard(courses: seq<Course>)
    ensures |Slugs(courses)| <= |courses|
    decreases |courses|
  {
    if courses != [] {
      var init := courses[..|courses| - 1];
      SlugsCard(init);
      assert Slugs(courses) == Slugs(init) + {courses[|courses| - 1].slug} by {
        forall x | x in Slugs(courses) ensures x in Slugs(init) + {courses[|courses| - 1].slug} {
          var k :| 0 <= k < |courses| && courses[k].slug == x;
          if k < |init| {
            assert init[k] == courses[k];
          }
        }
        forall x | x in Slugs(init) ensures x in Slugs(courses) {
          var k :| 0 <= k < |init| && init[k].slug == x;
          assert courses[k] == init[k];
        }
      }
    }
  }

  /** The first n candidates are n different slugs. */
  lemma {:induction false} TriedCard(base: string, n: nat)
    ensures |Tried(base, n)| == n
    decreases n
  {
    if n > 0 {
      TriedCard(base, n - 1);
      TriedNext(base, n - 1);
    }
  }

  /** The search cannot fail more often than there are courses: every failed
      candidate is held by a course, and the candidates are all different. */
  lemma TriedBound(courses: seq<Course>, base: string, n: nat, currentId: Option<Id>)
    requires forall j :: 0 <= j < n ==> !SlugFree(courses, Candidate(base, j), currentId)
    ensures n <= |courses|
  {
    assert Tried(base, n) <= Slugs(courses) by {
      forall x | x in Tried(base, n) ensures x in Slugs(courses) {
        var j :| 0 <= j < n && Candidate(base, j) == x;
        assert !SlugFree(courses, Candidate(base, j), currentId);
        var k := FindSlug(courses, x).value;
        assert courses[k].slug == x;
      }
    }
    SubsetCard(Tried(base, n), Slugs(courses));
    TriedCard(base, n);
    SlugsCard(courses);
  }

  predicate UniqueSlugs(courses: seq<Course>)
  {
    forall i, j :: 0 <= i < j < |courses| ==> courses[i].slug != courses[j].slug
  }

  predicate UniqueIds(courses: seq<Course>)
  {
    forall i, j :: 0 <= i < j < |courses| ==> courses[i].id != courses[j].id
  }

  /** A free slug kept for an update leaves no other course with that slug. */
  lemma FreeSlugUnshared(courses: seq<Course>, slug: string, currentId: Option<Id>, k: nat)
    requires UniqueSlugs(courses) && SlugFree(courses, slug, currentId)
    requires k < |courses| && courses[k].slug == slug
    ensures currentId == Some(courses[k].id)
  {
  }

  /** `findOneById`. */
  function FindById(courses: seq<Course>, id: Id): (r: Option<nat>)
    ensures r.Some? ==> r.value < |courses| && courses[r.value].id == id
    ensures r.None? ==> forall k :: 0 <= k < |courses| ==> courses[k].id != id
  {
    if courses == [] then None
    else if courses[0].id == id then Some(0)
    else
      match FindById(courses[1..], id)
      case None => None
      case Some(k) => Some(k + 1)
  }

  /** ensureCanModifyCourse: the course's teacher or an ADMIN. */
  function EnsureCanModifyCourse(course: Course, userId: Id, role: Role): (r: Result<()>)
    ensures r.Ok? <==> course.teacherId == userId || role == ADMIN
    ensures r.Err? ==> r.error == Forbidden
  {
    if course.teacherId != userId && role != ADMIN then Err(Forbidden) else Ok(())
  }

  /** The course after an update: the title when it changes (with the slug
      chosen for it), every other supplied field, and the publication stamp on
      the first move to PUBLISHED. */
  function Merged(c: Course, input: UpdateCourseInput, slug: string, now: int): Course
  {
    var retitled := input.title.Some? && input.title.value != "" && input.title.value != c.title;
    var status := GetOr(input.status, c.status);
    c.(title := if retitled then input.title.value else c.title,
       slug := if retitled then slug else c.slug,
       description := if input.description.Some? then input.description else c.description,
       level := GetOr(input.level, c.level),
       price := GetOr(input.price, c.price),
       thumbnailUrl := if input.thumbnailUrl.Some? then input.thumbnailUrl else c.thumbnailUrl,
       status := status,
       publishedAt := if input.status == Some(PUBLISHED) && c.publishedAt.None? then Some(now) else c.publishedAt)
  }

  /** Replacing a course by one with the same id, under its own slug or a
      slug free for it, keeps ids and slugs unique. */
  lemma ReplaceKeepsUnique(courses: seq<Course>, k: nat, c: Course)
    requires UniqueIds(courses) && UniqueSlugs(courses)
    requires k < |courses| && c.id == courses[k].id
    requires c.slug == courses[k].slug || SlugFree(courses, c.slug, Some(c.id))
    ensures UniqueIds(courses[k := c]) && UniqueSlugs(courses[k := c])
  {
    forall j | 0 <= j < |courses| && j != k ensures courses[j].slug != c.slug {
      if courses[j].slug == c.slug && c.slug != courses[k].slug {
        FreeSlugUnshared(courses, c.slug, Some(c.id), j);
      }
    }
  }

  // ---------------------------------------------------------------------
  // The service
  // ---------------------------------------------------------------------

  class CoursesService {
    var courses: seq<Course>

    /** Course ids are keys and the slug column is unique. */
    predicate Valid()
      reads this
    {
      UniqueIds(courses) && UniqueSlugs(courses)
    }

    constructor ()
      ensures Valid() && courses == []
    {
      courses := [];
    }

    /** generateUniqueSlug: tries the base slug, then `base-1`, `base-2`, ...
        and returns the first that is free. The loop ends because the tried
        slugs are pairwise different and each one that is not free is held by
        a course. */
    method GenerateUniqueSlug(title: string, currentId: Option<Id>) returns (slug: string)
      ensures SlugFree(courses, slug, currentId)
      ensures exists k: nat :: slug == Candidate(Slugify(title), k) &&
                forall j :: 0 <= j < k ==> !SlugFree(courses, Candidate(Slugify(title), j), currentId)
    {
      slug := FirstFreeCandidate(Slugify(title), currentId);
    }

    /** The search loop of generateUniqueSlug over the candidates of a base
        slug. */
    method FirstFreeCandidate(baseSlug: string, currentId: Option<Id>) returns (slug: string)
      ensures SlugFree(courses, slug, currentId)
      ensures exists k: nat :: slug == Candidate(baseSlug, k) &&
                forall j :: 0 <= j < k ==> !SlugFree(courses, Candidate(baseSlug, j), currentId)
    {
      slug := baseSlug;
      var counter := 1;
      while true
        invariant 1 <= counter <= |courses| + 1
        invariant slug == Candidate(baseSlug, counter - 1)
        invariant forall j :: 0 <= j < counter - 1 ==> !SlugFree(courses, Candidate(baseSlug, j), currentId)
        decreases |courses| + 1 - counter
      {
        var existing := FindSlug(courses, slug);
        if existing.None? || (currentId.Some? && courses[existing.value].id == currentId.value) {
          assert SlugFree(courses, slug, currentId);
          return slug;
        }
        assert !SlugFree(courses, slug, currentId);
        assert forall j :: 0 <= j < counter ==> !SlugFree(courses, Candidate(baseSlug, j), currentId);
        TriedBound(courses, baseSlug, counter, currentId);
        slug := Candidate(baseSlug, counter);
        counter := counter + 1;
      }
    }

    /** findBySlug: only a PUBLISHED course is found. */
    function FindBySlug(slug: string): (r: Result<Course>)
      reads this
      ensures r.Ok? ==> r.value in courses && r.value.slug == slug && r.value.status == PUBLISHED
      ensures r.Err? ==> r.error == NotFound
      ensures UniqueSlugs(courses) ==>
                (r.Ok? <==> exists k :: 0 <= k < |courses| && courses[k].slug == slug && courses[k].status == PUBLISHED)
    {
      match FindSlug(courses, slug)
      case None => Err(NotFound)
      case Some(k) => if courses[k].status != PUBLISHED then Err(NotFound) else Ok(courses[k])
    }

    /** create: a DRAFT course of the caller, under a slug no course holds.
        The id is the one the database assigns. */
    method Create(input: CreateCourseInput, teacherId: Id, newId: Id) returns (course: Course)
      requires Valid()
      requires forall k :: 0 <= k < |courses| ==> courses[k].id != newId
      modifies this
      ensures Valid()
      ensures course.status == DRAFT && course.publishedAt.None? && course.teacherId == teacherId
      ensures course.id == newId && course.title == input.title
      ensures course.description == Some(input.description) && course.level == input.level
      ensures course.price == input.price && course.thumbnailUrl == input.thumbnailUrl
      ensures forall k :: 0 <= k < |old(courses)| ==> old(courses)[k].slug != course.slug
      ensures exists k: nat :: course.slug == Candidate(Slugify(input.title), k)
      ensures courses == old(courses) + [course]
    {
      var slug := GenerateUniqueSlug(input.title, None);
      course := Course(newId, input.title, slug, Some(input.description), input.thumbnailUrl,
                       input.level, DRAFT, input.price, None, teacherId);
      courses := courses + [course];
    }

    /** update: NotFound, then the owner-or-ADMIN rule; a non-empty title that
        differs from the current one also gets a new slug (which may be the
        current one); other supplied fields are copied; the first move to
        PUBLISHED stamps `publishedAt`, which is never overwritten. */
    method Update(id: Id, input: UpdateCourseInput, userId: Id, role: Role, now: int)
      returns (r: Result<Course>)
      requires Valid()
      modifies this
      ensures Valid()
      ensures r.Err? ==> courses == old(courses)
      ensures FindById(old(courses), id).None? ==> r == Err(NotFound)
      ensures FindById(old(courses), id).Some? ==>
                var k := FindById(old(courses), id).value;
                var c := old(courses)[k];
                (EnsureCanModifyCourse(c, userId, role).Err? ==> r == Err(Forbidden)) &&
                (EnsureCanModifyCourse(c, userId, role).Ok? ==>
                   r.Ok? && courses == old(courses)[k := r.value] &&
                   var u := r.value;
                   var retitled := input.title.Some? && input.title.value != "" && input.title.value != c.title;
                   u.id == c.id && u.teacherId == c.teacherId &&
                   u.title == (if retitled then input.title.value else c.title) &&
                   (retitled ==> SlugFree(old(courses), u.slug, Some(id)) &&
                                 exists j: nat :: u.slug == Candidate(Slugify(input.title.value), j)) &&
                   (!retitled ==> u.slug == c.slug) &&
                   u.description == (if input.description.Some? then input.description else c.description) &&
                   u.level == GetOr(input.level, c.level) &&
                   u.price == GetOr(input.price, c.price) &&
                   u.thumbnailUrl == (if input.thumbnailUrl.Some? then input.thumbnailUrl else c.thumbnailUrl) &&
                   u.status == GetOr(input.status, c.status) &&
                   u.publishedAt == (if input.status == Some(PUBLISHED) && c.publishedAt.None? then Some(now)
                                     else c.publishedAt))
    {
      var found := FindById(courses, id);
      if found.None? {
        return Err(NotFound);
      }
      var k := found.value;
      var course := courses[k];
      var gate := EnsureCanModifyCourse(course, userId, role);
      if gate.Err? {
        return Err(Forbidden);
      }
      var slug := course.slug;
      if input.title.Some? && input.title.value != "" && input.title.value != course.title {
        slug := GenerateUniqueSlug(input.title.value, Some(course.id));
      }
      course := Merged(course, input, slug, now);
      ReplaceKeepsUnique(courses, k, course);
      courses := courses[k := course];
      r := Ok(course);
    }

    /** remove: NotFound, then the owner-or-ADMIN rule, then the row is
        deleted. */
    method Remove(id: Id, userId: Id, role: Role) returns (r: Result<()>)
      requires Valid()
      modifies this
      ensures Valid()
      ensures r.Err? ==> courses == old(courses)
      ensures FindById(old(courses), id).None? ==> r == Err(NotFound)
      ensures FindById(old(courses), id).Some? ==>
                var k := FindById(old(courses), id).value;
                (EnsureCanModifyCourse(old(courses)[k], userId, role).Err? ==> r == Err(Forbidden)) &&
                (EnsureCanModifyCourse(old(courses)[k], userId, role).Ok? ==>
                   r.Ok? && courses == old(courses)[..k] + old(courses)[k + 1..])
    {
      var found := FindById(courses, id);
      if found.None? {
        return Err(NotFound);
      }
      var k := found.value;
      var gate := EnsureCanModifyCourse(courses[k], userId, role);
      if gate.Err? {
        return Err(Forbidden);
      }
      var rest := courses[..k] + courses[k + 1..];
      forall a, b | 0 <= a < b < |rest| ensures rest[a].id != rest[b].id && rest[a].slug != rest[b].slug {
        var a', b' := if a < k then a else a + 1, if b < k then b else b + 1;
        assert rest[a] == courses[a'] && rest[b] == courses[b'];
      }
      courses := rest;
      r := Ok(());
    }
  }
}
