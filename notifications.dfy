/** Notifications in `notification.service.ts`: per-user statistics, the
    read-state update, deletion and the response mapping. */
module Notifications {
  import opened Common

  datatype NotificationType = NEW_LESSON | QUIZ_RESULT | DISCUSSION_REPLY | COURSE_UPDATE |
                              ENROLLMENT_CONFIRMATION | GENERAL

  /** A notification row. Times are in milliseconds; `relatedId` and
      `relatedType` are the nullable text columns. */
  datatype Notification = Notification(id: Id, userId: Id, ntype: NotificationType, title: string,
                                       body: string, readAt: Option<int>, createdAt: int,
                                       relatedId: Option<string>, relatedType: Option<string>)

  datatype Stats = Stats(total: nat, unread: nat, byType: map<NotificationType, nat>)

  datatype Related = Related(id: string, rtype: string, url: string)

  datatype NotificationResponse = NotificationResponse(id: Id, ntype: NotificationType, title: string,
                                                       body: string, readAt: Option<int>, createdAt: int,
                                                       related: Option<Related>)

  // ---------------------------------------------------------------------
  // getStatsForUser, as a specification
  // ---------------------------------------------------------------------

  /** `find({ where: { user_id } })`, in table order. */
  function UserRows(ns: seq<Notification>, userId: Id): (r: seq<Notification>)
    ensures forall n :: n in r <==> n in ns && n.userId == userId
    ensures forall n :: multiset(r)[n] == if n.userId == userId then multiset(ns)[n] else 0
  {
    if ns == [] then []
    else
      var init := UserRows(ns[..|ns| - 1], userId);
      var last := ns[|ns| - 1];
      assert ns == ns[..|ns| - 1] + [last];
      assert forall n :: n in ns <==> n in ns[..|ns| - 1] || n == last;
      if last.userId == userId then init + [last] else init
  }

  function UnreadCount(rows: seq<Notification>): (n: nat)
    ensures n <= |rows|
  {
    if rows == [] then 0
    else UnreadCount(rows[..|rows| - 1]) + (if rows[|rows| - 1].readAt.None? then 1 else 0)
  }

  /** How many rows have the given type. */
  function TypeCount(rows: seq<Notification>, t: NotificationType): nat
  {
    if rows == [] then 0
    else TypeCount(rows[..|rows| - 1], t) + (if rows[|rows| - 1].ntype == t then 1 else 0)
  }

  /** The `by_type` dictionary filled row by row: a type gets a key the first
      time it occurs and one more for each occurrence. */
  function ByType(rows: seq<Notification>): (m: map<NotificationType, nat>)
    ensures forall t :: t in m <==> TypeCount(rows, t) > 0
    ensures forall t :: t in m ==> m[t] == TypeCount(rows, t)
  {
    if rows == [] then map[]
    else
      var m := ByType(rows[..|rows| - 1]);
      var t := rows[|rows| - 1].ntype;
      m[t := (if t in m then m[t] else 0) + 1]
  }

  function CountOf(m: map<NotificationType, nat>, t: NotificationType): nat
  {
    if t in m then m[t] else 0
  }

  /** The sum of all entries of a `by_type` dictionary. */
  function SumOfCounts(m: map<NotificationType, nat>): nat
  {
    CountOf(m, NEW_LESSON) + CountOf(m, QUIZ_RESULT) + CountOf(m, DISCUSSION_REPLY) +
    CountOf(m, COURSE_UPDATE) + CountOf(m, ENROLLMENT_CONFIRMATION) + CountOf(m, GENERAL)
  }

  /** Every row is counted under exactly one type, so the per-type counts add
      up to the number of rows. */
  lemma {:induction false} ByTypeSum(rows: seq<Notification>)
    ensures SumOfCounts(ByType(rows)) == |rows|
    decreases |rows|
  {
    if rows != [] {
      var m := ByType(rows[..|rows| - 1]);
      ByTypeSum(rows[..|rows| - 1]);
      var t := rows[|rows| - 1].ntype;
      assert ByType(rows) == m[t := CountOf(m, t) + 1];
      BumpSum(m, t);
    }
  }

  /** The loop of getStatsForUser filling `by_type`. */
  method CountByType(rows: seq<Notification>) returns (byType: map<NotificationType, nat>)
    ensures byType == ByType(rows)
  {
    byType := map[];
    var i := 0;
    while i < |rows|
      invariant 0 <= i <= |rows|
      invariant byType == ByType(rows[..i])
    {
      assert rows[..i + 1][..i] == rows[..i];
      var t := rows[i].ntype;
      if t !in byType {
        byType := byType[t := 0];
      }
      byType := byType[t := byType[t] + 1];
      i := i + 1;
    }
    assert rows[..|rows|] == rows;
  }

  /** One more under one type adds one to the sum. */
  lemma BumpSum(m: map<NotificationType, nat>, t: NotificationType)
    ensures SumOfCounts(m[t := CountOf(m, t) + 1]) == SumOfCounts(m) + 1
  {
    var m' := m[t := CountOf(m, t) + 1];
    assert forall u :: CountOf(m', u) == CountOf(m, u) + (if u == t then 1 else 0);
  }

  // ---------------------------------------------------------------------
  // markAsRead, as a specification
  // ---------------------------------------------------------------------

  /** Whether the list filter applies: a list that is present and not empty. */
  predicate HasList(ids: Option<seq<Id>>)
  {
    ids.Some? && |ids.value| > 0
  }

  /** The rows the update touches: the user's unread rows, restricted to the
      listed ids when a non-empty list is given. */
  predicate Marks(n: Notification, userId: Id, ids: Option<seq<Id>>)
  {
    n.userId == userId && n.readAt.None? && (HasList(ids) ==> n.id in ids.value)
  }

  /** The table after the update. Only the caller's rows that were unread
      (and listed, when a list is given) are stamped; every other row, in
      particular a row already read or a row of another user, is unchanged,
      and no field other than `readAt` ever changes. */
  function MarkedTable(ns: seq<Notification>, userId: Id, ids: Option<seq<Id>>, now: int): (r: seq<Notification>)
    ensures |r| == |ns|
    ensures forall k :: 0 <= k < |ns| && ns[k].userId != userId ==> r[k] == ns[k]
    ensures forall k :: 0 <= k < |ns| && ns[k].readAt.Some? ==> r[k] == ns[k]
    ensures forall k :: 0 <= k < |ns| && HasList(ids) && ns[k].id !in ids.value ==> r[k] == ns[k]
    ensures forall k :: 0 <= k < |ns| && ns[k].userId == userId && (HasList(ids) ==> ns[k].id in ids.value) ==>
              r[k].readAt == if ns[k].readAt.None? then Some(now) else ns[k].readAt
    ensures forall k :: 0 <= k < |ns| ==> r[k].(readAt := ns[k].readAt) == ns[k]
  {
    seq(|ns|, k requires 0 <= k < |ns| => if Marks(ns[k], userId, ids) then ns[k].(readAt := Some(now)) else ns[k])
  }

  /** The number of rows the update touches: at most the table's size, and 0
      exactly when no row matches the filter. */
  function Affected(ns: seq<Notification>, userId: Id, ids: Option<seq<Id>>): (r: nat)
    ensures r <= |ns|
    ensures r == 0 <==> forall k :: 0 <= k < |ns| ==> !Marks(ns[k], userId, ids)
  {
    if ns == [] then 0
    else Affected(ns[..|ns| - 1], userId, ids) + (if Marks(ns[|ns| - 1], userId, ids) then 1 else 0)
  }

  /** An empty list means the same as no list: every unread row of the user. */
  lemma EmptyListMarksAll(ns: seq<Notification>, userId: Id, now: int)
    ensures MarkedTable(ns, userId, Some([]), now) == MarkedTable(ns, userId, None, now)
    ensures Affected(ns, userId, Some([])) == Affected(ns, userId, None)
  {
    AffectedSameMarks(ns, userId, Some([]), None);
  }

  lemma {:induction false} AffectedSameMarks(ns: seq<Notification>, userId: Id, a: Option<seq<Id>>, b: Option<seq<Id>>)
    requires forall n :: Marks(n, userId, a) <==> Marks(n, userId, b)
    ensures Affected(ns, userId, a) == Affected(ns, userId, b)
    decreases |ns|
  {
    if ns != [] {
      AffectedSameMarks(ns[..|ns| - 1], userId, a, b);
    }
  }

  /** Repeating the update with the same arguments touches no row and leaves
      the table as it is. */
  lemma MarkAsReadIdempotent(ns: seq<Notification>, userId: Id, ids: Option<seq<Id>>, now: int, later: int)
    ensures Affected(MarkedTable(ns, userId, ids, now), userId, ids) == 0
    ensures MarkedTable(MarkedTable(ns, userId, ids, now), userId, ids, later) == MarkedTable(ns, userId, ids, now)
  {
    var m := MarkedTable(ns, userId, ids, now);
    assert forall k :: 0 <= k < |m| ==> !Marks(m[k], userId, ids);
  }

  // ---------------------------------------------------------------------
  // toNotificationResponseDto
  // ---------------------------------------------------------------------

  /** `process.env.FRONTEND_URL || 'http://localhost:3000'`: an unset or
      empty variable falls back to the default. */
  function BaseUrl(frontendUrl: Option<string>): (r: string)
    ensures r != ""
    ensures frontendUrl.Some? && frontendUrl.value != "" ==> r == frontendUrl.value
  {
    if frontendUrl.Some? && frontendUrl.value != "" then frontendUrl.value else "http://localhost:3000"
  }

  /** A nullable text column read for its truthiness. */
  predicate Present(s: Option<string>) { s.Some? && s.value != "" }

  /** The response: the row's fields, and a link to the related entity when
      both the related id and type are set. */
  function ToNotificationResponse(n: Notification, frontendUrl: Option<string>): (r: NotificationResponse)
    ensures r.id == n.id && r.ntype == n.ntype && r.title == n.title && r.body == n.body
    ensures r.readAt == n.readAt && r.createdAt == n.createdAt
    ensures r.related.Some? <==> Present(n.relatedId) && Present(n.relatedType)
    ensures r.related.Some? ==>
              r.related.value.id == n.relatedId.value && r.related.value.rtype == n.relatedType.value &&
              var base := BaseUrl(frontendUrl);
              var url := r.related.value.url;
              |url| == |base| + |n.relatedType.value| + |n.relatedId.value| + 2 &&
              url[..|base|] == base && url[|base|] == '/' &&
              url[|base| + 1..|base| + 1 + |n.relatedType.value|] == n.relatedType.value &&
              url[|url| - |n.relatedId.value| - 1] == '/' &&
              url[|url| - |n.relatedId.value|..] == n.relatedId.value
  {
    var related :=
      if Present(n.relatedId) && Present(n.relatedType) then
        var base := BaseUrl(frontendUrl);
        Some(Related(n.relatedId.value, n.relatedType.value,
                     base + "/" + n.relatedType.value + "/" + n.relatedId.value))
      else None;
    NotificationResponse(n.id, n.ntype, n.title, n.body, n.readAt, n.createdAt, related)
  }

  // ---------------------------------------------------------------------
  // The service
  // ---------------------------------------------------------------------

  /** The position of the row with the given id. */
  function FindById(ns: seq<Notification>, id: Id): (r: Option<nat>)
    ensures r.Some? ==> r.value < |ns| && ns[r.value].id == id
    ensures r.None? ==> forall k :: 0 <= k < |ns| ==> ns[k].id != id
  {
    if ns == [] then None
    else if ns[0].id == id then Some(0)
    else
      match FindById(ns[1..], id)
      case None => None
      case Some(k) => Some(k + 1)
  }

  class NotificationsService {
    var notifications: seq<Notification>

    /** Notification ids are keys. */
    predicate Valid()
      reads this
    {
      forall i, j :: 0 <= i < j < |notifications| ==> notifications[i].id != notifications[j].id
    }

    constructor ()
      ensures Valid() && notifications == []
    {
      notifications := [];
    }

    /** createNotification: an unread row; unset related fields stay unset. */
    method CreateNotification(userId: Id, ntype: NotificationType, title: string, body: string,
                              relatedId: Option<string>, relatedType: Option<string>, newId: Id, now: int)
      returns (n: Notification)
      requires Valid()
      requires forall k :: 0 <= k < |notifications| ==> notifications[k].id != newId
      modifies this
      ensures Valid()
      ensures n.readAt.None? && n.userId == userId && n.id == newId && n.createdAt == now
      ensures n.ntype == ntype && n.title == title && n.body == body
      ensures n.relatedId == relatedId && n.relatedType == relatedType
      ensures notifications == old(notifications) + [n]
    {
      n := Notification(newId, userId, ntype, title, body, None, now, relatedId, relatedType);
      notifications := notifications + [n];
    }

    /** getStatsForUser: the user's rows are loaded, the unread ones counted,
        and the `by_type` dictionary filled row by row. */
    method GetStatsForUser(userId: Id) returns (stats: Stats)
      ensures stats.total == |UserRows(notifications, userId)|
      ensures stats.unread == UnreadCount(UserRows(notifications, userId))
      ensures stats.unread <= stats.total
      ensures stats.byType == ByType(UserRows(notifications, userId))
      ensures SumOfCounts(stats.byType) == stats.total
      ensures forall t :: t in stats.byType ==> stats.byType[t] >= 1
    {
      var all := UserRows(notifications, userId);
      var byType := CountByType(all);
      ByTypeSum(all);
      stats := Stats(|all|, UnreadCount(all), byType);
    }

    /** markAsRead: stamps `now` on the caller's unread rows (only the listed
        ones when a non-empty list is given) and reports how many. */
    method MarkAsRead(userId: Id, ids: Option<seq<Id>>, now: int) returns (affected: nat)
      requires Valid()
      modifies this
      ensures Valid()
      ensures notifications == MarkedTable(old(notifications), userId, ids, now)
      ensures affected == Affected(old(notifications), userId, ids)
    {
      affected := Affected(notifications, userId, ids);
      notifications := MarkedTable(notifications, userId, ids, now);
    }

    /** deleteNotification: NotFound for a missing row, then only the owner
        or an ADMIN may delete it. */
    method DeleteNotification(id: Id, userId: Id, role: Role) returns (r: Result<()>)
      requires Valid()
      modifies this
      ensures Valid()
      ensures r.Err? ==> notifications == old(notifications)
      ensures FindById(old(notifications), id).None? ==> r == Err(NotFound)
      ensures FindById(old(notifications), id).Some? ==>
                var k := FindById(old(notifications), id).value;
                (r.Ok? <==> old(notifications)[k].userId == userId || role == ADMIN) &&
                (r.Err? ==> r.error == Forbidden) &&
                (r.Ok? ==> notifications == old(notifications)[..k] + old(notifications)[k + 1..])
    {
      var found := FindById(notifications, id);
      if found.None? {
        return Err(NotFound);
      }
      var k := found.value;
      var isOwner := notifications[k].userId == userId;
      var isAdmin := role == ADMIN;
      if !isOwner && !isAdmin {
        return Err(Forbidden);
      }
      var rest := notifications[..k] + notifications[k + 1..];
      forall a, b | 0 <= a < b < |rest| ensures rest[a].id != rest[b].id {
        var a', b' := if a < k then a else a + 1, if b < k then b else b + 1;
        assert rest[a] == notifications[a'] && rest[b] == notifications[b'];
      }
      notifications := rest;
      r := Ok(());
    }
  }
}
