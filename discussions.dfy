/** Discussions in `discussions.service.ts`: the thread summary (live post
    count and latest post), and the permission rules for editing and
    deleting threads and posts. */
module Discussions {
  import opened Common

  datatype Thread = Thread(id: Id, title: string, pinned: bool, createdAt: int, courseId: Id,
                           lessonId: Option<Id>, createdBy: Id)

  /** A post row; `isDeleted` is the soft-delete flag. */
  datatype Post = Post(id: Id, threadId: Id, content: string, isDeleted: bool, createdAt: int,
                       parentId: Option<Id>, createdBy: Id)

  /** A loaded user relation; the nullable columns are None when unset. */
  datatype UserRef = UserRef(id: Id, fullName: Option<string>, avatarUrl: Option<string>, role: Option<string>)

  /** A post as the summary loads it, with its author when the relation
      resolved. */
  datatype LoadedPost = LoadedPost(post: Post, author: Option<UserRef>)

  datatype CourseRef = CourseRef(id: Id, title: Option<string>)
  datatype LessonRef = LessonRef(id: Id, title: Option<string>)

  datatype Named = Named(id: Id, title: string)
  datatype Creator = Creator(id: Id, fullName: string, avatarUrl: string, role: string)
  datatype Author = Author(id: Id, fullName: string)
  datatype LatestPost = LatestPost(id: Id, content: string, createdAt: int, createdBy: Author)

  datatype ThreadResponse = ThreadResponse(id: Id, title: string, pinned: bool, createdAt: int,
                                           course: Named, lesson: Option<Named>, createdBy: Creator,
                                           postsCount: nat, latestPost: Option<LatestPost>)

  // ---------------------------------------------------------------------
  // toThreadResponseDto
  // ---------------------------------------------------------------------

  /** The number of posts that are not soft-deleted. */
  function PostsCount(ps: seq<LoadedPost>): (n: nat)
    ensures n <= |ps|
  {
    if ps == [] then 0
    else PostsCount(ps[..|ps| - 1]) + (if ps[|ps| - 1].post.isDeleted then 0 else 1)
  }

  /** The first element after a stable sort of the live posts by creation
      time, newest first: a live post with the greatest creation time, the
      earliest in the list among equals. */
  function Latest(ps: seq<LoadedPost>): (r: Option<nat>)
    ensures r.None? <==> forall k :: 0 <= k < |ps| ==> ps[k].post.isDeleted
    ensures r.Some? ==> r.value < |ps| && !ps[r.value].post.isDeleted
    ensures r.Some? ==> forall k :: 0 <= k < |ps| && !ps[k].post.isDeleted ==>
                          ps[k].post.createdAt <= ps[r.value].post.createdAt
    ensures r.Some? ==> forall k :: 0 <= k < r.value && !ps[k].post.isDeleted ==>
                          ps[k].post.createdAt < ps[r.value].post.createdAt
  {
    if ps == [] then None
    else
      var rest := Latest(ps[1..]);
      if ps[0].post.isDeleted then
        (if rest.None? then None else Some(rest.value + 1))
      else if rest.None? || ps[0].post.createdAt >= ps[rest.value + 1].post.createdAt then Some(0)
      else Some(rest.value + 1)
  }

  /** There is a latest post exactly when some post is live. */
  lemma {:induction false} LatestIffPosts(ps: seq<LoadedPost>)
    ensures Latest(ps).Some? <==> PostsCount(ps) > 0
    decreases |ps|
  {
    if ps != [] {
      var init := ps[..|ps| - 1];
      LatestIffPosts(init);
      if Latest(ps).None? {
        assert forall k :: 0 <= k < |init| ==> init[k] == ps[k];
      } else {
        var k := Latest(ps).value;
        if k < |init| {
          assert init[k] == ps[k];
        }
      }
    }
  }

  /** `x?.title ?? ''` and friends. */
  function OrEmpty(s: Option<string>): string
  {
    GetOr(s, "")
  }

  /** The summary of a thread from its loaded relations: missing relations
      fall back to the thread's own ids and to empty strings. */
  function ToThreadResponse(t: Thread, course: Option<CourseRef>, lesson: Option<LessonRef>,
                            creator: Option<UserRef>, posts: Option<seq<LoadedPost>>): (r: ThreadResponse)
    ensures r.id == t.id && r.title == t.title && r.pinned == t.pinned && r.createdAt == t.createdAt
    ensures r.course.id == (if course.Some? then course.value.id else t.courseId)
    ensures r.lesson.Some? <==> lesson.Some?
    ensures r.lesson.Some? ==> r.lesson.value.id == lesson.value.id
    ensures r.createdBy.id == (if creator.Some? then creator.value.id else t.createdBy)
    ensures course.None? ==> r.course.title == ""
    ensures creator.None? ==> r.createdBy.fullName == "" && r.createdBy.avatarUrl == "" && r.createdBy.role == ""
    ensures posts.None? ==> r.postsCount == 0 && r.latestPost.None?
    ensures posts.Some? ==> r.postsCount == PostsCount(posts.value)
    ensures r.latestPost.Some? <==> r.postsCount > 0
    ensures r.latestPost.Some? ==>
              exists k :: 0 <= k < |posts.value| && !posts.value[k].post.isDeleted &&
                          r.latestPost.value.id == posts.value[k].post.id &&
                          r.latestPost.value.content == posts.value[k].post.content &&
                          r.latestPost.value.createdAt == posts.value[k].post.createdAt &&
                          r.latestPost.value.createdBy.id == (if posts.value[k].author.Some? then posts.value[k].author.value.id
                                                              else posts.value[k].post.createdBy) &&
                          (forall j :: 0 <= j < |posts.value| && !posts.value[j].post.isDeleted ==>
                             posts.value[j].post.createdAt <= r.latestPost.value.createdAt) &&
                          (forall j :: 0 <= j < k && !posts.value[j].post.isDeleted ==>
                             posts.value[j].post.createdAt < r.latestPost.value.createdAt)
  {
    var ps := GetOr(posts, []);
    LatestIffPosts(ps);
    var latest :=
      match Latest(ps)
      case None => None
      case Some(k) =>
        var p := ps[k];
        Some(LatestPost(p.post.id, p.post.content, p.post.createdAt,
                        Author(if p.author.Some? then p.author.value.id else p.post.createdBy,
                               if p.author.Some? then OrEmpty(p.author.value.fullName) else "")));
    ThreadResponse(
      t.id, t.title, t.pinned, t.createdAt,
      Named(if course.Some? then course.value.id else t.courseId,
            if course.Some? then OrEmpty(course.value.title) else ""),
      if lesson.Some? then Some(Named(lesson.value.id, OrEmpty(lesson.value.title))) else None,
      Creator(if creator.Some? then creator.value.id else t.createdBy,
              if creator.Some? then OrEmpty(creator.value.fullName) else "",
              if creator.Some? then OrEmpty(creator.value.avatarUrl) else "",
              if creator.Some? then OrEmpty(creator.value.role) else ""),
      PostsCount(ps), latest)
  }

  // ---------------------------------------------------------------------
  // Tables
  // ---------------------------------------------------------------------

  /** How many posts of a thread are live. */
  function LiveCount(ps: seq<Post>, threadId: Id): nat
  {
    if ps == [] then 0
    else LiveCount(ps[..|ps| - 1], threadId) +
         (if ps[|ps| - 1].threadId == threadId && !ps[|ps| - 1].isDeleted then 1 else 0)
  }

  /** Soft-deleting a live post lowers its thread's live count by one and
      leaves every other thread's count as it was. */
  lemma {:induction false} SoftDeleteCount(ps: seq<Post>, k: nat, threadId: Id)
    requires k < |ps| && !ps[k].isDeleted
    ensures LiveCount(ps[k := ps[k].(isDeleted := true)], threadId) ==
              LiveCount(ps, threadId) - (if ps[k].threadId == threadId then 1 else 0)
    decreases |ps|
  {
    var ps' := ps[k := ps[k].(isDeleted := true)];
    if k < |ps| - 1 {
      assert ps'[..|ps'| - 1] == ps[..|ps| - 1][k := ps[k].(isDeleted := true)];
      SoftDeleteCount(ps[..|ps| - 1], k, threadId);
    } else {
      assert ps'[..|ps'| - 1] == ps[..|ps| - 1];
    }
  }

  function FindThread(ts: seq<Thread>, id: Id): (r: Option<nat>)
    ensures r.Some? ==> r.value < |ts| && ts[r.value].id == id
    ensures r.None? ==> forall k :: 0 <= k < |ts| ==> ts[k].id != id
  {
    if ts == [] then None
    else if ts[0].id == id then Some(0)
    else
      match FindThread(ts[1..], id)
      case None => None
      case Some(k) => Some(k + 1)
  }

  function FindPost(ps: seq<Post>, id: Id): (r: Option<nat>)
    ensures r.Some? ==> r.value < |ps| && ps[r.value].id == id
    ensures r.None? ==> forall k :: 0 <= k < |ps| ==> ps[k].id != id
  {
    if ps == [] then None
    else if ps[0].id == id then Some(0)
    else
      match FindPost(ps[1..], id)
      case None => None
      case Some(k) => Some(k + 1)
  }

  /** The author-or-TEACHER/ADMIN rule of every edit and delete. */
  predicate MayEdit(owner: Id, userId: Id, role: Role)
  {
    owner == userId || IsTeacherOrAdmin(role)
  }

  /** The checks of updateThread, in order: NotFound, then pinning only for a
      TEACHER or ADMIN, then the author-or-TEACHER/ADMIN rule. */
  function UpdateThreadCheck(ts: seq<Thread>, id: Id, pinned: Option<bool>, userId: Id, role: Role): (r: Result<nat>)
    ensures r.Ok? <==> FindThread(ts, id).Some? && (pinned.Some? ==> IsTeacherOrAdmin(role)) &&
                       MayEdit(ts[FindThread(ts, id).value].createdBy, userId, role)
    ensures r.Ok? ==> r.value == FindThread(ts, id).value
    ensures r == Err(NotFound) <==> FindThread(ts, id).None?
    ensures r.Err? ==> r.error == NotFound || r.error == Forbidden
    ensures FindThread(ts, id).Some? && pinned.Some? && role == STUDENT ==> r == Err(Forbidden)
  {
    match FindThread(ts, id)
    case None => Err(NotFound)
    case Some(k) =>
      var isOwner := ts[k].createdBy == userId;
      var isTeacherOrAdmin := role == TEACHER || role == ADMIN;
      if pinned.Some? && !isTeacherOrAdmin then Err(Forbidden)
      else if !isOwner && !isTeacherOrAdmin then Err(Forbidden)
      else Ok(k)
  }

  /** The checks of updatePost and deletePost: NotFound for a missing or
      soft-deleted post, then the author-or-TEACHER/ADMIN rule. */
  function PostCheck(ps: seq<Post>, id: Id, userId: Id, role: Role): (r: Result<nat>)
    ensures r.Ok? <==> FindPost(ps, id).Some? && !ps[FindPost(ps, id).value].isDeleted &&
                       MayEdit(ps[FindPost(ps, id).value].createdBy, userId, role)
    ensures r.Ok? ==> r.value == FindPost(ps, id).value
    ensures r == Err(NotFound) <==> FindPost(ps, id).None? || ps[FindPost(ps, id).value].isDeleted
    ensures r.Err? ==> r.error == NotFound || r.error == Forbidden
  {
    match FindPost(ps, id)
    case None => Err(NotFound)
    case Some(k) =>
      if ps[k].isDeleted then Err(NotFound)
      else
        var isOwner := ps[k].createdBy == userId;
        var isTeacherOrAdmin := role == TEACHER || role == ADMIN;
        if !isOwner && !isTeacherOrAdmin then Err(Forbidden) else Ok(k)
  }

  // ---------------------------------------------------------------------
  // The service
  // ---------------------------------------------------------------------

  class DiscussionsService {
    var threads: seq<Thread>
    var posts: seq<Post>

    /** Thread and post ids are keys. */
    predicate Valid()
      reads this
    {
      (forall i, j :: 0 <= i < j < |threads| ==> threads[i].id != threads[j].id) &&
      UniquePostIds(posts)
    }

    constructor ()
      ensures Valid() && threads == [] && posts == []
    {
      threads := [];
      posts := [];
    }

    /** createThread: the caller's thread, never pinned. */
    method CreateThread(title: string, courseId: Id, lessonId: Option<Id>, userId: Id, newId: Id, now: int)
      returns (t: Thread)
      requires Valid()
      requires forall k :: 0 <= k < |threads| ==> threads[k].id != newId
      modifies this`threads
      ensures Valid()
      ensures !t.pinned && t.createdBy == userId && t.id == newId
      ensures t.title == title && t.courseId == courseId && t.lessonId == lessonId && t.createdAt == now
      ensures threads == old(threads) + [t]
    {
      t := Thread(newId, title, false, now, courseId, lessonId, userId);
      var extended := threads + [t];
      forall a, b | 0 <= a < b < |extended| ensures extended[a].id != extended[b].id {
        assert extended[a] == threads[a];
      }
      threads := extended;
    }

    /** updateThread: the checks, then only the supplied title and pin flag. */
    method UpdateThread(id: Id, title: Option<string>, pinned: Option<bool>, userId: Id, role: Role)
      returns (r: Result<Thread>)
      requires Valid()
      modifies this`threads
      ensures Valid()
      ensures UpdateThreadCheck(old(threads), id, pinned, userId, role).Err? ==>
                r == Err(UpdateThreadCheck(old(threads), id, pinned, userId, role).error) && threads == old(threads)
      ensures UpdateThreadCheck(old(threads), id, pinned, userId, role).Ok? ==>
                var k := UpdateThreadCheck(old(threads), id, pinned, userId, role).value;
                var t := old(threads)[k];
                r == Ok(t.(title := GetOr(title, t.title), pinned := GetOr(pinned, t.pinned))) &&
                threads == old(threads)[k := r.value]
    {
      var check := UpdateThreadCheck(threads, id, pinned, userId, role);
      if check.Err? {
        return Err(check.error);
      }
      var k := check.value;
      var thread := threads[k];
      if title.Some? {
        thread := thread.(title := title.value);
      }
      if pinned.Some? {
        thread := thread.(pinned := pinned.value);
      }
      var updated := threads[k := thread];
      forall a, b | 0 <= a < b < |updated| ensures updated[a].id != updated[b].id {
        assert threads[a].id != threads[b].id;
      }
      threads := updated;
      r := Ok(thread);
    }

    /** deleteThread: NotFound, then the author-or-TEACHER/ADMIN rule; the
        thread's posts go with it (the foreign key cascades). */
    method DeleteThread(id: Id, userId: Id, role: Role) returns (r: Result<()>)
      requires Valid()
      modifies this
      ensures Valid()
      ensures r.Err? ==> threads == old(threads) && posts == old(posts)
      ensures FindThread(old(threads), id).None? ==> r == Err(NotFound)
      ensures FindThread(old(threads), id).Some? ==>
                var k := FindThread(old(threads), id).value;
                (r.Ok? <==> MayEdit(old(threads)[k].createdBy, userId, role)) &&
                (r.Err? ==> r.error == Forbidden) &&
                (r.Ok? ==> threads == old(threads)[..k] + old(threads)[k + 1..] &&
                           posts == Without(old(posts), id))
    {
      var found := FindThread(threads, id);
      if found.None? {
        return Err(NotFound);
      }
      var k := found.value;
      var isOwner := threads[k].createdBy == userId;
      var isTeacherOrAdmin := role == TEACHER || role == ADMIN;
      if !isOwner && !isTeacherOrAdmin {
        return Err(Forbidden);
      }
      var rest := threads[..k] + threads[k + 1..];
      forall a, b | 0 <= a < b < |rest| ensures rest[a].id != rest[b].id {
        var a', b' := if a < k then a else a + 1, if b < k then b else b + 1;
        assert rest[a] == threads[a'] && rest[b] == threads[b'];
      }
      WithoutKeepsKeys(posts, id);
      threads := rest;
      posts := Without(posts, id);
      r := Ok(());
    }

    /** createPost: NotFound for a missing thread, then a live post of the
        caller. */
    method CreatePost(threadId: Id, content: string, parentId: Option<Id>, userId: Id, newId: Id, now: int)
      returns (r: Result<Post>)
      requires Valid()
      requires forall k :: 0 <= k < |posts| ==> posts[k].id != newId
      modifies this`posts
      ensures Valid()
      ensures FindThread(threads, threadId).None? ==> r == Err(NotFound) && posts == old(posts)
      ensures FindThread(threads, threadId).Some? ==>
                r == Ok(Post(newId, threadId, content, false, now, parentId, userId)) &&
                posts == old(posts) + [r.value]
    {
      if FindThread(threads, threadId).None? {
        return Err(NotFound);
      }
      var post := Post(newId, threadId, content, false, now, parentId, userId);
      var extended := posts + [post];
      forall a, b | 0 <= a < b < |extended| ensures extended[a].id != extended[b].id {
        assert extended[a] == posts[a];
      }
      posts := extended;
      r := Ok(post);
    }

    /** updatePost: the checks, then only the content changes. */
    method UpdatePost(postId: Id, content: string, userId: Id, role: Role) returns (r: Result<Post>)
      requires Valid()
      modifies this`posts
      ensures Valid()
      ensures PostCheck(old(posts), postId, userId, role).Err? ==>
                r == Err(PostCheck(old(posts), postId, userId, role).error) && posts == old(posts)
      ensures PostCheck(old(posts), postId, userId, role).Ok? ==>
                var k := PostCheck(old(posts), postId, userId, role).value;
                r == Ok(old(posts)[k].(content := content)) && posts == old(posts)[k := r.value]
    {
      var check := PostCheck(posts, postId, userId, role);
      if check.Err? {
        return Err(check.error);
      }
      var k := check.value;
      var post := posts[k].(content := content);
      var updated := posts[k := post];
      forall a, b | 0 <= a < b < |updated| ensures updated[a].id != updated[b].id {
        assert posts[a].id != posts[b].id;
      }
      posts := updated;
      r := Ok(post);
    }

    /** deletePost: the checks, then the post is only flagged as deleted; it
        stays in the table and its thread has one live post fewer. */
    method DeletePost(postId: Id, userId: Id, role: Role) returns (r: Result<()>)
      requires Valid()
      modifies this`posts
      ensures Valid()
      ensures |posts| == |old(posts)|
      ensures PostCheck(old(posts), postId, userId, role).Err? ==>
                r == Err(PostCheck(old(posts), postId, userId, role).error) && posts == old(posts)
      ensures PostCheck(old(posts), postId, userId, role).Ok? ==>
                var k := PostCheck(old(posts), postId, userId, role).value;
                r.Ok? && posts == old(posts)[k := old(posts)[k].(isDeleted := true)] &&
                LiveCount(posts, old(posts)[k].threadId) == LiveCount(old(posts), old(posts)[k].threadId) - 1
    {
      var check := PostCheck(posts, postId, userId, role);
      if check.Err? {
        return Err(check.error);
      }
      var k := check.value;
      SoftDeleteCount(posts, k, posts[k].threadId);
      var updated := posts[k := posts[k].(isDeleted := true)];
      forall a, b | 0 <= a < b < |updated| ensures updated[a].id != updated[b].id {
        assert posts[a].id != posts[b].id;
      }
      posts := updated;
      r := Ok(());
    }
  }

  /** The posts left after their thread is deleted. */
  function Without(ps: seq<Post>, threadId: Id): (r: seq<Post>)
    ensures forall p :: p in r <==> p in ps && p.threadId != threadId
    ensures |r| <= |ps|
  {
    if ps == [] then []
    else
      var init := Without(ps[..|ps| - 1], threadId);
      var last := ps[|ps| - 1];
      assert forall p :: p in ps <==> p in ps[..|ps| - 1] || p == last;
      if last.threadId != threadId then init + [last] else init
  }

  predicate UniquePostIds(ps: seq<Post>)
  {
    forall i, j :: 0 <= i < j < |ps| ==> ps[i].id != ps[j].id
  }

  /** Dropping a thread's posts keeps post ids unique. */
  lemma {:induction false} WithoutKeepsKeys(ps: seq<Post>, threadId: Id)
    requires UniquePostIds(ps)
    ensures UniquePostIds(Without(ps, threadId))
    decreases |ps|
  {
    if ps != [] {
      var init := ps[..|ps| - 1];
      var last := ps[|ps| - 1];
      assert UniquePostIds(init) by {
        forall i, j | 0 <= i < j < |init| ensures init[i].id != init[j].id {
          assert init[i] == ps[i] && init[j] == ps[j];
        }
      }
      WithoutKeepsKeys(init, threadId);
      var w := Without(init, threadId);
      assert forall p :: p in init ==> p.id != last.id by {
        forall p | p in init ensures p.id != last.id {
          var m :| 0 <= m < |init| && init[m] == p;
          assert ps[m] == p;
        }
      }
      if last.threadId != threadId {
        var r := w + [last];
        assert Without(ps, threadId) == r;
        forall i, j | 0 <= i < j < |r| ensures r[i].id != r[j].id {
          if j == |w| {
            assert r[i] == w[i] && w[i] in w;
            assert r[j] == last;
          } else {
            assert r[i] == w[i] && r[j] == w[j];
          }
        }
      } else {
        assert Without(ps, threadId) == w;
      }
    }
  }
}
