/** Lesson management in `lessons.service.ts`: the lesson slug, the next
    position in a course, create, update, delete, and reordering through an
    id-to-position map. */
module Lessons {
  import opened Common
  import opened Text

  datatype LessonType = VIDEO | ARTICLE | QUIZ | FILE

  datatype Lesson = Lesson(id: Id, courseId: Id, title: string, slug: string, orderIndex: int,
                           ltype: LessonType, videoUrl: Option<string>, content: Option<string>,
                           durationSeconds: Option<int>, isPreview: bool)

  datatype CreateLessonInput = CreateLessonInput(title: string, ltype: LessonType, videoUrl: Option<string>,
                                                 content: Option<string>, durationSeconds: Option<int>,
                                                 orderIndex: Option<int>, isPreview: Option<bool>)

  /** Every field is optional; None means "not supplied". */
  datatype UpdateLessonInput = UpdateLessonInput(title: Option<string>, ltype: Option<LessonType>,
                                                 videoUrl: Option<string>, content: Option<string>,
                                                 durationSeconds: Option<int>, orderIndex: Option<int>,
                                                 isPreview: Option<bool>)

  /** One entry of a reorder request. */
  datatype OrderItem = OrderItem(id: Id, orderIndex: int)

  // ---------------------------------------------------------------------
  // slugify
  // ---------------------------------------------------------------------

  /** The combining diacritical marks U+0300..U+036F. */
  predicate IsCombiningMark(c: char) { '\U{0300}' <= c <= '\U{036F}' }

  predicate NotCombiningMark(c: char) { !IsCombiningMark(c) }

  predicate NotLowerAlnum(c: char) { !IsLowerAlnum(c) }

  predicate IsDash(c: char) { c == '-' }

  /** Only `[a-z0-9-]`, never two dashes in a row. */
  predicate Dashed(s: string)
  {
    (forall i :: 0 <= i < |s| ==> IsLowerAlnum(s[i]) || s[i] == '-') && NoRepeat(s, '-')
  }

  /** A lesson slug base: `[a-z0-9-]` only, no dash at either end, never two
      dashes in a row. */
  predicate IsLessonSlug(s: string)
  {
    Dashed(s) && (s != [] ==> s[0] != '-' && s[|s| - 1] != '-')
  }

  /** A slice of a string over `[a-z0-9-]` without repeated dashes is one
      too. */
  lemma DashedSlice(s: string, lo: nat, hi: nat)
    requires lo <= hi <= |s| && Dashed(s)
    ensures Dashed(s[lo..hi])
  {
    NoRepeatSlice(s, '-', lo, hi);
    forall i | 0 <= i < hi - lo ensures IsLowerAlnum(s[lo..hi][i]) || s[lo..hi][i] == '-' {
      assert s[lo..hi][i] == s[lo + i];
    }
  }

  /** Stripping the dashes at both ends of a string over `[a-z0-9-]` without
      repeated dashes leaves a lesson slug. */
  lemma {:induction false} StripShape(dashed: string)
    requires Dashed(dashed)
    ensures IsLessonSlug(DropTrailing(DropLeading(dashed, IsDash), IsDash))
  {
    var lead := DropLeading(dashed, IsDash);
    var lo := |dashed| - |lead|;
    DashedSlice(dashed, lo, |dashed|);
    assert lead == dashed[lo..|dashed|];
    var r := DropTrailing(lead, IsDash);
    DashedSlice(lead, 0, |r|);
    assert r == lead[0..|r|];
    if r != [] {
      assert r[0] == lead[0];
    }
  }

  /** Turning every run outside `[a-z0-9]` into one dash leaves a string over
      `[a-z0-9-]` without repeated dashes. */
  lemma DashedRuns(s: string)
    ensures Dashed(ReplaceRuns(s, NotLowerAlnum, '-'))
  {
    var dashed := ReplaceRuns(s, NotLowerAlnum, '-');
    ReplaceRunsChars(s, NotLowerAlnum, '-');
    ReplaceRunsNoRepeat(s, NotLowerAlnum, '-');
    forall i | 0 <= i < |dashed| ensures IsLowerAlnum(dashed[i]) || dashed[i] == '-' {
      assert dashed[i] in dashed;
    }
  }

  /** Lower-case and trim, drop the combining marks, turn every run of
      characters outside `[a-z0-9]` into one dash, then strip the dashes at
      both ends. The input is taken as already decomposed (NFD). */
  function Slugify(title: string): string
  {
    var marksDropped := Keep(Trim(ToLower(title)), NotCombiningMark);
    var dashed := ReplaceRuns(marksDropped, NotLowerAlnum, '-');
    DropTrailing(DropLeading(dashed, IsDash), IsDash)
  }

  /** Whatever the title, slugify gives a lesson slug base. */
  lemma SlugifyShape(title: string)
    ensures IsLessonSlug(Slugify(title))
  {
    var marksDropped := Keep(Trim(ToLower(title)), NotCombiningMark);
    DashedRuns(marksDropped);
    StripShape(ReplaceRuns(marksDropped, NotLowerAlnum, '-'));
  }

  /** One or more decimal digits. */
  predicate IsDecimal(s: string)
  {
    s != [] && forall i :: 0 <= i < |s| ==> '0' <= s[i] <= '9'
  }

  /** `s` is `base`, a dash, then one or more decimal digits. */
  predicate DashedNumber(s: string, base: string)
  {
    |s| >= |base| + 2 && s[..|base| + 1] == base + "-" && IsDecimal(s[|base| + 1..])
  }

  /** Joining a base and a decimal number with a dash keeps both parts
      readable at their places. */
  lemma DashJoin(base: string, digits: string)
    requires IsDecimal(digits)
    ensures DashedNumber(base + "-" + digits, base)
  {
    var r := base + "-" + digits;
    assert r[..|base| + 1] == base + "-";
    assert r[|base| + 1..] == digits;
  }

  /** The stored slug: the slug base, a dash and the creation time in
      milliseconds. */
  function StoredSlug(title: string, now: nat): string
  {
    Slugify(title) + "-" + NatToString(now)
  }

  /** A stored slug is the title's slug base, a dash, then the creation time
      in decimal. */
  lemma StoredSlugShape(title: string, now: nat)
    ensures DashedNumber(StoredSlug(title, now), Slugify(title))
  {
    DashJoin(Slugify(title), NatToString(now));
  }

  /** Two lessons with the same title created at different milliseconds get
      different slugs. */
  lemma StoredSlugDistinct(title: string, a: nat, b: nat)
    requires a != b
    ensures StoredSlug(title, a) != StoredSlug(title, b)
  {
    var n := |Slugify(title)| + 1;
    if StoredSlug(title, a) == StoredSlug(title, b) {
      assert NatToString(a) == StoredSlug(title, a)[n..];
      assert NatToString(b) == StoredSlug(title, b)[n..];
      NatToStringInjective(a, b);
    }
  }

  // ---------------------------------------------------------------------
  // getNextOrderIndex
  // ---------------------------------------------------------------------

  /** The largest `order_index` among the course's lessons, if it has any. */
  function MaxOrderIndex(ls: seq<Lesson>, courseId: Id): (r: Option<int>)
    ensures r.None? <==> forall k :: 0 <= k < |ls| ==> ls[k].courseId != courseId
    ensures r.Some? ==> forall k :: 0 <= k < |ls| && ls[k].courseId == courseId ==> ls[k].orderIndex <= r.value
    ensures r.Some? ==> exists k :: 0 <= k < |ls| && ls[k].courseId == courseId && ls[k].orderIndex == r.value
  {
    if ls == [] then None
    else
      var rest := MaxOrderIndex(ls[..|ls| - 1], courseId);
      var last := ls[|ls| - 1];
      if last.courseId != courseId then rest
      else if rest.Some? && rest.value >= last.orderIndex then rest
      else Some(last.orderIndex)
  }

  /** 1 for a course without lessons, otherwise the largest position plus 1. */
  function NextOrderIndex(ls: seq<Lesson>, courseId: Id): (r: int)
    ensures (forall k :: 0 <= k < |ls| ==> ls[k].courseId != courseId) ==> r == 1
    ensures forall k :: 0 <= k < |ls| && ls[k].courseId == courseId ==> ls[k].orderIndex < r
    ensures (exists k :: 0 <= k < |ls| && ls[k].courseId == courseId) ==>
              exists k :: 0 <= k < |ls| && ls[k].courseId == courseId && r == ls[k].orderIndex + 1
  {
    match MaxOrderIndex(ls, courseId)
    case None => 1
    case Some(m) => m + 1
  }

  // ---------------------------------------------------------------------
  // reorderLessons, as a specification
  // ---------------------------------------------------------------------

  function ItemIds(items: seq<OrderItem>): seq<Id>
  {
    seq(|items|, i requires 0 <= i < |items| => items[i].id)
  }

  /** `new Map(items.map(i => [i.id, i.order_index]))`: a later entry for the
      same id wins. */
  function OrderMap(items: seq<OrderItem>): (m: map<Id, int>)
    ensures forall id :: id in m <==> id in ItemIds(items)
  {
    if items == [] then map[]
    else
      var last := items[|items| - 1];
      assert ItemIds(items) == ItemIds(items[..|items| - 1]) + [last.id];
      OrderMap(items[..|items| - 1])[last.id := last.orderIndex]
  }

  /** The ids of the course's lessons. */
  function CourseLessonIds(ls: seq<Lesson>, courseId: Id): set<Id>
  {
    set k | 0 <= k < |ls| && ls[k].courseId == courseId :: ls[k].id
  }

  /** Whether a row is one the reorder query loads. */
  predicate Selected(l: Lesson, courseId: Id, ids: set<Id>)
  {
    l.courseId == courseId && l.id in ids
  }

  /** The number of rows `find({ id: In(ids), course_id })` returns. */
  function MatchCount(ls: seq<Lesson>, courseId: Id, ids: set<Id>): nat
  {
    if ls == [] then 0
    else MatchCount(ls[..|ls| - 1], courseId, ids) + (if Selected(ls[|ls| - 1], courseId, ids) then 1 else 0)
  }

  predicate DistinctIds(ls: seq<Lesson>)
  {
    forall i, j :: 0 <= i < j < |ls| ==> ls[i].id != ls[j].id
  }

  predicate DistinctSeq(ids: seq<Id>)
  {
    forall i, j :: 0 <= i < j < |ids| ==> ids[i] != ids[j]
  }

  function SetOf(ids: seq<Id>): set<Id>
  {
    set x | x in ids
  }

  lemma CourseLessonIdsSnoc(ls: seq<Lesson>, courseId: Id)
    requires ls != []
    ensures CourseLessonIds(ls, courseId) ==
              CourseLessonIds(ls[..|ls| - 1], courseId) +
              (if ls[|ls| - 1].courseId == courseId then {ls[|ls| - 1].id} else {})
  {
    var init := ls[..|ls| - 1];
    forall x | x in CourseLessonIds(ls, courseId)
      ensures x in CourseLessonIds(init, courseId) || (ls[|ls| - 1].courseId == courseId && x == ls[|ls| - 1].id)
    {
      var k :| 0 <= k < |ls| && ls[k].courseId == courseId && ls[k].id == x;
      if k < |init| {
        assert init[k] == ls[k];
      }
    }
    forall x | x in CourseLessonIds(init, courseId) ensures x in CourseLessonIds(ls, courseId) {
      var k :| 0 <= k < |init| && init[k].courseId == courseId && init[k].id == x;
      assert ls[k] == init[k];
    }
  }

  /** Adding a new element to a set adds one to its intersection with ids
      exactly when the element is one of the ids. */
  lemma InterSnoc(ids: set<Id>, a: set<Id>, b: set<Id>, x: Id, added: bool)
    requires x !in a
    requires b == a + (if added then {x} else {})
    ensures |ids * b| == |ids * a| + (if added && x in ids then 1 else 0)
  {
    if added && x in ids {
      assert ids * b == (ids * a) + {x};
    } else {
      assert ids * b == ids * a;
    }
  }

  /** Dropping the last row keeps the ids unique, and the last id is not
      among the earlier ones. */
  lemma DistinctInit(ls: seq<Lesson>, courseId: Id)
    requires DistinctIds(ls) && ls != []
    ensures DistinctIds(ls[..|ls| - 1])
    ensures ls[|ls| - 1].id !in CourseLessonIds(ls[..|ls| - 1], courseId)
  {
    var init := ls[..|ls| - 1];
    forall i, j | 0 <= i < j < |init| ensures init[i].id != init[j].id {
      assert init[i] == ls[i] && init[j] == ls[j];
    }
    forall k | 0 <= k < |init| ensures init[k].id != ls[|ls| - 1].id {
      assert init[k] == ls[k];
    }
  }

  /** With ids unique in the table, the query returns one row per requested id
      that belongs to the course. */
  lemma {:induction false} MatchCountIsCard(ls: seq<Lesson>, courseId: Id, ids: set<Id>)
    requires DistinctIds(ls)
    ensures MatchCount(ls, courseId, ids) == |ids * CourseLessonIds(ls, courseId)|
    decreases |ls|
  {
    if ls != [] {
      var init, last := ls[..|ls| - 1], ls[|ls| - 1];
      DistinctInit(ls, courseId);
      MatchCountIsCard(init, courseId, ids);
      CourseLessonIdsSnoc(ls, courseId);
      InterSnoc(ids, CourseLessonIds(init, courseId), CourseLessonIds(ls, courseId), last.id, last.courseId == courseId);
    }
  }

  /** A list of ids has at most as many distinct ids as entries, and exactly
      as many when no id repeats. */
  lemma {:induction false} SetOfCard(ids: seq<Id>)
    ensures |SetOf(ids)| <= |ids|
    ensures |SetOf(ids)| == |ids| <==> DistinctSeq(ids)
    decreases |ids|
  {
    if ids != [] {
      var init, last := ids[..|ids| - 1], ids[|ids| - 1];
      SetOfCard(init);
      assert SetOf(ids) == SetOf(init) + {last} by {
        forall x | x in ids ensures x in init || x == last {
          var k :| 0 <= k < |ids| && ids[k] == x;
          if k < |init| {
            assert init[k] == x;
          }
        }
      }
      if last in init {
        var k :| 0 <= k < |init| && init[k] == last;
        assert ids[k] == ids[|ids| - 1];
        assert SetOf(ids) == SetOf(init);
      } else {
        assert |SetOf(ids)| == |SetOf(init)| + 1;
        if DistinctSeq(init) {
          forall i, j | 0 <= i < j < |ids| ensures ids[i] != ids[j] {
            if j < |init| {
              assert ids[i] == init[i] && ids[j] == init[j];
            } else {
              assert ids[i] == init[i];
            }
          }
        }
        if DistinctSeq(ids) {
          forall i, j | 0 <= i < j < |init| ensures init[i] != init[j] {
            assert ids[i] == init[i] && ids[j] == init[j];
          }
        }
      }
    }
  }

  /** The count check accepts a request exactly when its ids are pairwise
      different and each names a lesson of the course: an unknown id, an id
      from another course or a repeated id is refused. */
  lemma ReorderAcceptedIff(ls: seq<Lesson>, courseId: Id, items: seq<OrderItem>)
    requires DistinctIds(ls)
    ensures MatchCount(ls, courseId, SetOf(ItemIds(items))) == |items| <==>
              DistinctSeq(ItemIds(items)) &&
              forall i :: 0 <= i < |items| ==> items[i].id in CourseLessonIds(ls, courseId)
  {
    var ids := ItemIds(items);
    var s := SetOf(ids);
    var c := CourseLessonIds(ls, courseId);
    MatchCountIsCard(ls, courseId, s);
    SetOfCard(ids);
    SubsetCard(s * c, s);
    if forall i :: 0 <= i < |items| ==> items[i].id in c {
      assert s * c == s by {
        forall x | x in s ensures x in c {
          var i :| 0 <= i < |ids| && ids[i] == x;
          assert items[i].id == x;
        }
      }
    } else {
      var i :| 0 <= i < |items| && items[i].id !in c;
      assert ids[i] == items[i].id;
      assert ids[i] in s;
      assert s * c < s;
    }
  }

  /** With pairwise different ids, the map sends each id to its own entry's
      position. */
  lemma {:induction false} OrderMapDistinct(items: seq<OrderItem>, i: nat)
    requires DistinctSeq(ItemIds(items)) && i < |items|
    ensures items[i].id in OrderMap(items) && OrderMap(items)[items[i].id] == items[i].orderIndex
    decreases |items|
  {
    var init := items[..|items| - 1];
    if i < |items| - 1 {
      assert ItemIds(init)[i] == ItemIds(items)[i];
      assert ItemIds(items)[i] != ItemIds(items)[|items| - 1];
      assert DistinctSeq(ItemIds(init)) by {
        forall a, b | 0 <= a < b < |init| ensures ItemIds(init)[a] != ItemIds(init)[b] {
          assert ItemIds(init)[a] == ItemIds(items)[a] && ItemIds(init)[b] == ItemIds(items)[b];
        }
      }
      OrderMapDistinct(init, i);
    }
  }

  /** Fills the position map entry by entry. */
  method BuildOrderMap(items: seq<OrderItem>) returns (orderMap: map<Id, int>)
    ensures orderMap == OrderMap(items)
  {
    orderMap := map[];
    var i := 0;
    while i < |items|
      invariant 0 <= i <= |items|
      invariant orderMap == OrderMap(items[..i])
    {
      assert items[..i + 1][..i] == items[..i];
      orderMap := orderMap[items[i].id := items[i].orderIndex];
      i := i + 1;
    }
    assert items[..|items|] == items;
  }

  /** A row with a new id keeps the ids of a table unique. */
  lemma AppendKeepsDistinct(ls: seq<Lesson>, l: Lesson)
    requires DistinctIds(ls)
    requires forall k :: 0 <= k < |ls| ==> ls[k].id != l.id
    ensures DistinctIds(ls + [l])
  {
    var extended := ls + [l];
    forall a, b | 0 <= a < b < |extended| ensures extended[a].id != extended[b].id {
      assert extended[a] == ls[a];
    }
  }

  /** The table after a reorder: each loaded row takes the position the map
      gives its id, every other row is left as it was. */
  function Reordered(ls: seq<Lesson>, courseId: Id, m: map<Id, int>): (r: seq<Lesson>)
    ensures |r| == |ls|
  {
    seq(|ls|, k requires 0 <= k < |ls| =>
        if ls[k].courseId == courseId && ls[k].id in m then ls[k].(orderIndex := m[ls[k].id]) else ls[k])
  }

  /** A successful reorder gives every listed lesson the position requested
      for it and changes nothing else. */
  lemma {:induction false} ReorderedPositions(ls: seq<Lesson>, courseId: Id, items: seq<OrderItem>, i: nat, k: nat)
    requires DistinctSeq(ItemIds(items))
    requires i < |items| && k < |ls|
    ensures ls[k].courseId == courseId && ls[k].id == items[i].id ==>
              Reordered(ls, courseId, OrderMap(items))[k] == ls[k].(orderIndex := items[i].orderIndex)
    ensures !Selected(ls[k], courseId, SetOf(ItemIds(items))) ==> Reordered(ls, courseId, OrderMap(items))[k] == ls[k]
  {
    OrderMapDistinct(items, i);
  }

  // ---------------------------------------------------------------------
  // The service
  // ---------------------------------------------------------------------

  /** The lesson after an update: every supplied field, and a fresh slug when
      a title is supplied. */
  function Merged(l: Lesson, input: UpdateLessonInput, now: nat): Lesson
  {
    l.(title := GetOr(input.title, l.title),
       slug := if input.title.Some? then StoredSlug(input.title.value, now) else l.slug,
       ltype := GetOr(input.ltype, l.ltype),
       videoUrl := if input.videoUrl.Some? then input.videoUrl else l.videoUrl,
       content := if input.content.Some? then input.content else l.content,
       durationSeconds := if input.durationSeconds.Some? then input.durationSeconds else l.durationSeconds,
       orderIndex := GetOr(input.orderIndex, l.orderIndex),
       isPreview := GetOr(input.isPreview, l.isPreview))
  }

  /** `findOne({ id: lessonId, course_id: courseId })`. */
  function FindInCourse(ls: seq<Lesson>, lessonId: Id, courseId: Id): (r: Option<nat>)
    ensures r.Some? ==> r.value < |ls| && ls[r.value].id == lessonId && ls[r.value].courseId == courseId
    ensures r.None? ==> forall k :: 0 <= k < |ls| ==> !(ls[k].id == lessonId && ls[k].courseId == courseId)
  {
    if ls == [] then None
    else if ls[0].id == lessonId && ls[0].courseId == courseId then Some(0)
    else
      match FindInCourse(ls[1..], lessonId, courseId)
      case None => None
      case Some(k) => Some(k + 1)
  }

  class LessonsService {
    /** `course.teacher_id` by course id; a course exists when it has an entry. */
    var courseTeacher: map<Id, Id>
    var lessons: seq<Lesson>

    /** Lesson ids are keys. */
    predicate Valid()
      reads this
    {
      DistinctIds(lessons)
    }

    constructor (courseTeacher: map<Id, Id>)
      ensures Valid() && lessons == [] && this.courseTeacher == courseTeacher
    {
      this.courseTeacher := courseTeacher;
      lessons := [];
    }

    /** ensureCanManageCourse: NotFound for a missing course, then only the
        course's teacher or an ADMIN. */
    function EnsureCanManageCourse(courseId: Id, userId: Id, role: Role): (r: Result<Id>)
      reads this
      ensures r == Err(NotFound) <==> courseId !in courseTeacher
      ensures r.Ok? <==> courseId in courseTeacher && (courseTeacher[courseId] == userId || role == ADMIN)
      ensures r.Err? ==> r.error == NotFound || r.error == Forbidden
    {
      if courseId !in courseTeacher then Err(NotFound)
      else
        var isOwner := courseTeacher[courseId] == userId;
        var isAdmin := role == ADMIN;
        if !isOwner && !isAdmin then Err(Forbidden) else Ok(courseId)
    }

    /** createLesson: gate, then a lesson at the requested position or after
        the last one, with a time-stamped slug. */
    method CreateLesson(courseId: Id, input: CreateLessonInput, userId: Id, role: Role, newId: Id, now: nat)
      returns (r: Result<Lesson>)
      requires Valid()
      requires forall k :: 0 <= k < |lessons| ==> lessons[k].id != newId
      modifies this`lessons
      ensures Valid()
      ensures EnsureCanManageCourse(courseId, userId, role).Err? ==>
                r == Err(EnsureCanManageCourse(courseId, userId, role).error) && lessons == old(lessons)
      ensures EnsureCanManageCourse(courseId, userId, role).Ok? ==>
                r.Ok? && lessons == old(lessons) + [r.value] &&
                r.value == Lesson(newId, courseId, input.title, StoredSlug(input.title, now),
                                  GetOr(input.orderIndex, NextOrderIndex(old(lessons), courseId)),
                                  input.ltype, input.videoUrl, input.content, input.durationSeconds,
                                  GetOr(input.isPreview, false))
    {
      var gate := EnsureCanManageCourse(courseId, userId, role);
      if gate.Err? {
        return Err(gate.error);
      }
      var orderIndex := GetOr(input.orderIndex, NextOrderIndex(lessons, courseId));
      var slug := StoredSlug(input.title, now);
      var lesson := Lesson(newId, courseId, input.title, slug, orderIndex, input.ltype, input.videoUrl,
                           input.content, input.durationSeconds, GetOr(input.isPreview, false));
      AppendKeepsDistinct(lessons, lesson);
      lessons := lessons + [lesson];
      r := Ok(lesson);
    }

    /** updateLesson: gate, NotFound for a lesson outside the course, then
        only the supplied fields change, with a fresh slug for a new title. */
    method UpdateLesson(courseId: Id, lessonId: Id, input: UpdateLessonInput, userId: Id, role: Role, now: nat)
      returns (r: Result<Lesson>)
      requires Valid()
      modifies this`lessons
      ensures Valid()
      ensures r.Err? ==> lessons == old(lessons)
      ensures EnsureCanManageCourse(courseId, userId, role).Err? ==>
                r == Err(EnsureCanManageCourse(courseId, userId, role).error)
      ensures EnsureCanManageCourse(courseId, userId, role).Ok? && FindInCourse(old(lessons), lessonId, courseId).None? ==>
                r == Err(NotFound)
      ensures EnsureCanManageCourse(courseId, userId, role).Ok? && FindInCourse(old(lessons), lessonId, courseId).Some? ==>
                var k := FindInCourse(old(lessons), lessonId, courseId).value;
                var l := old(lessons)[k];
                r.Ok? && lessons == old(lessons)[k := r.value] &&
                r.value.id == l.id && r.value.courseId == l.courseId &&
                r.value.title == GetOr(input.title, l.title) &&
                r.value.slug == (if input.title.Some? then StoredSlug(input.title.value, now) else l.slug) &&
                r.value.ltype == GetOr(input.ltype, l.ltype) &&
                r.value.videoUrl == (if input.videoUrl.Some? then input.videoUrl else l.videoUrl) &&
                r.value.content == (if input.content.Some? then input.content else l.content) &&
                r.value.durationSeconds == (if input.durationSeconds.Some? then input.durationSeconds else l.durationSeconds) &&
                r.value.orderIndex == GetOr(input.orderIndex, l.orderIndex) &&
                r.value.isPreview == GetOr(input.isPreview, l.isPreview)
    {
      var gate := EnsureCanManageCourse(courseId, userId, role);
      if gate.Err? {
        return Err(gate.error);
      }
      var found := FindInCourse(lessons, lessonId, courseId);
      if found.None? {
        return Err(NotFound);
      }
      var k := found.value;
      var lesson := Merged(lessons[k], input, now);
      var updated := lessons[k := lesson];
      forall a, b | 0 <= a < b < |updated| ensures updated[a].id != updated[b].id {
        assert lessons[a].id != lessons[b].id;
      }
      lessons := updated;
      r := Ok(lesson);
    }

    /** deleteLesson: gate, NotFound for a lesson outside the course, then
        the row is removed. */
    method DeleteLesson(courseId: Id, lessonId: Id, userId: Id, role: Role) returns (r: Result<()>)
      requires Valid()
      modifies this`lessons
      ensures Valid()
      ensures r.Err? ==> lessons == old(lessons)
      ensures EnsureCanManageCourse(courseId, userId, role).Err? ==>
                r == Err(EnsureCanManageCourse(courseId, userId, role).error)
      ensures EnsureCanManageCourse(courseId, userId, role).Ok? && FindInCourse(old(lessons), lessonId, courseId).None? ==>
                r == Err(NotFound)
      ensures EnsureCanManageCourse(courseId, userId, role).Ok? && FindInCourse(old(lessons), lessonId, courseId).Some? ==>
                var k := FindInCourse(old(lessons), lessonId, courseId).value;
                r.Ok? && lessons == old(lessons)[..k] + old(lessons)[k + 1..]
    {
      var gate := EnsureCanManageCourse(courseId, userId, role);
      if gate.Err? {
        return Err(gate.error);
      }
      var found := FindInCourse(lessons, lessonId, courseId);
      if found.None? {
        return Err(NotFound);
      }
      var k := found.value;
      var rest := lessons[..k] + lessons[k + 1..];
      forall a, b | 0 <= a < b < |rest| ensures rest[a].id != rest[b].id {
        var a', b' := if a < k then a else a + 1, if b < k then b else b + 1;
        assert rest[a] == lessons[a'] && rest[b] == lessons[b'];
      }
      lessons := rest;
      r := Ok(());
    }

    /** The number of rows the reorder query loads. */
    method CountSelected(courseId: Id, ids: set<Id>) returns (count: nat)
      ensures count == MatchCount(lessons, courseId, ids)
    {
      count := 0;
      var k := 0;
      while k < |lessons|
        invariant 0 <= k <= |lessons|
        invariant count == MatchCount(lessons[..k], courseId, ids)
      {
        assert lessons[..k + 1][..k] == lessons[..k];
        if Selected(lessons[k], courseId, ids) {
          count := count + 1;
        }
        k := k + 1;
      }
      assert lessons[..|lessons|] == lessons;
    }

    /** Each loaded row of the course whose id the map holds takes the
        position the map gives it. */
    method ApplyOrder(courseId: Id, orderMap: map<Id, int>)
      requires Valid()
      modifies this`lessons
      ensures Valid()
      ensures lessons == Reordered(old(lessons), courseId, orderMap)
    {
      ghost var before := lessons;
      ghost var after := Reordered(before, courseId, orderMap);
      var k := 0;
      while k < |lessons|
        invariant 0 <= k <= |lessons| && |lessons| == |before|
        invariant forall j :: 0 <= j < k ==> lessons[j] == after[j]
        invariant forall j :: k <= j < |lessons| ==> lessons[j] == before[j]
      {
        var lesson := lessons[k];
        var newIndex := if lesson.id in orderMap then Some(orderMap[lesson.id]) else None;
        if lesson.courseId == courseId && newIndex.Some? {
          lessons := lessons[k := lesson.(orderIndex := newIndex.value)];
        }
        k := k + 1;
      }
      assert lessons == after;
      forall a, b | 0 <= a < b < |lessons| ensures lessons[a].id != lessons[b].id {
        assert lessons[a].id == before[a].id && lessons[b].id == before[b].id;
      }
    }

    /** reorderLessons: gate; Forbidden when the rows found for the listed ids
        in the course are not as many as the entries; otherwise the position
        map is filled entry by entry and each loaded row takes the position
        the map gives its id. */
    method ReorderLessons(courseId: Id, items: seq<OrderItem>, userId: Id, role: Role) returns (r: Result<()>)
      requires Valid()
      requires |items| >= 1 && forall i :: 0 <= i < |items| ==> items[i].orderIndex >= 1
      modifies this`lessons
      ensures Valid()
      ensures r.Err? ==> lessons == old(lessons)
      ensures EnsureCanManageCourse(courseId, userId, role).Err? ==>
                r == Err(EnsureCanManageCourse(courseId, userId, role).error)
      ensures EnsureCanManageCourse(courseId, userId, role).Ok? ==>
                (r.Ok? <==> MatchCount(old(lessons), courseId, SetOf(ItemIds(items))) == |items|) &&
                (r.Err? ==> r.error == Forbidden) &&
                (r.Ok? ==> lessons == Reordered(old(lessons), courseId, OrderMap(items)))
    {
      var gate := EnsureCanManageCourse(courseId, userId, role);
      if gate.Err? {
        return Err(gate.error);
      }
      var ids := SetOf(ItemIds(items));
      var count := CountSelected(courseId, ids);
      if count != |items| {
        return Err(Forbidden);
      }
      var orderMap := BuildOrderMap(items);
      ApplyOrder(courseId, orderMap);
      r := Ok(());
    }
  }
}
