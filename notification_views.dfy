/**
 * The notification views that change read state, `mark_notification_read` and
 * `mark_all_read`, and the role-based template choice of
 * `notifications_list`.
 */
module NotificationViews {
  import opened Common
  import opened NotificationModels
  import opened NotificationService

  /** Who may mark a notification read: its recipient, or anyone for a broadcast. */
  predicate MayMark(n: Notification, requester: User) {
    n.user == Some(requester) || n.isBroadcast
  }

  /** The table after `mark_all_read`: the requester's personal unread rows become read, `read_at` untouched. */
  function AllRead(ns: seq<Notification>, requester: User): (r: seq<Notification>)
    ensures |r| == |ns|
    ensures forall i :: 0 <= i < |ns| ==>
              r[i] == if ns[i].user == Some(requester) && !ns[i].isRead then ns[i].(isRead := true) else ns[i]
  {
    seq(|ns|, i requires 0 <= i < |ns| =>
      if ns[i].user == Some(requester) && !ns[i].isRead then ns[i].(isRead := true) else ns[i])
  }

  /**
   * After `mark_all_read` the requester has no personal unread rows left;
   * broadcasts, other users' rows and every `read_at` are as before.
   */
  lemma {:induction false} AllReadClearsPersonal(ns: seq<Notification>, requester: User, other: User)
    requires BroadcastShape(ns)
    ensures PersonalUnread(AllRead(ns, requester), requester) == 0
    ensures BroadcastUnread(AllRead(ns, requester)) == BroadcastUnread(ns)
    ensures other != requester ==> PersonalUnread(AllRead(ns, requester), other) == PersonalUnread(ns, other)
    ensures UnreadCount(AllRead(ns, requester), requester) == BroadcastUnread(ns)
    ensures forall i :: 0 <= i < |ns| ==> AllRead(ns, requester)[i].readAt == ns[i].readAt
  {
    if |ns| > 0 {
      var front := ns[..|ns| - 1];
      assert AllRead(ns, requester)[..|ns| - 1] == AllRead(front, requester);
      AllReadClearsPersonal(front, requester, other);
    }
  }

  lemma {:induction false} CountsAfterUpdate(ns: seq<Notification>, i: nat, n: Notification, u: User)
    requires i < |ns|
    ensures PersonalUnread(ns[i := n], u) ==
            PersonalUnread(ns, u) - (if ns[i].user == Some(u) && !ns[i].isRead then 1 else 0)
                                  + (if n.user == Some(u) && !n.isRead then 1 else 0)
    ensures BroadcastUnread(ns[i := n]) ==
            BroadcastUnread(ns) - (if ns[i].isBroadcast && !ns[i].isRead then 1 else 0)
                                + (if n.isBroadcast && !n.isRead then 1 else 0)
  {
    var last := |ns| - 1;
    if i < last {
      assert ns[i := n][..last] == ns[..last][i := n];
      CountsAfterUpdate(ns[..last], i, n, u);
    } else {
      assert ns[i := n][..last] == ns[..last];
    }
  }

  /**
   * Marking one notification read lowers the unread count of every user who
   * saw it unread by exactly one: for a broadcast that is everybody, since a
   * broadcast has one shared read flag.
   */
  lemma {:induction false} MarkReadLowersCount(ns: seq<Notification>, id: nat, now: int, u: User)
    requires id < |ns|
    requires BroadcastShape(ns)
    ensures UnreadCount(ns[id := MarkedRead(ns[id], now)], u) ==
            UnreadCount(ns, u) - (if Visible(ns[id], u, true) then 1 else 0)
  {
    CountsAfterUpdate(ns, id, MarkedRead(ns[id], now), u);
  }

  /**
   * `mark_notification_read`: a missing notification, or one that is neither
   * the requester's nor a broadcast, yields 404 and changes nothing;
   * otherwise it is marked read (idempotently) and the answer is 200.
   */
  method MarkNotificationRead(store: NotificationStore, id: int, requester: User, now: int)
    returns (success: bool, status: int)
    requires store.Valid()
    modifies store
    ensures store.Valid()
    ensures store.observers == old(store.observers)
    ensures success <==> 0 <= id < |old(store.notifications)| && MayMark(old(store.notifications)[id], requester)
    ensures status == if success then 200 else 404
    ensures success ==> store.notifications == old(store.notifications)[id := MarkedRead(old(store.notifications)[id], now)]
    ensures !success ==> store.notifications == old(store.notifications)
  {
    if 0 <= id < |store.notifications| {
      var n := store.notifications[id];
      if MayMark(n, requester) {
        store.notifications := store.notifications[id := MarkedRead(n, now)];
        return true, 200;
      }
    }
    return false, 404;
  }

  /** `mark_all_read`: one update over the requester's personal unread rows. */
  method MarkAllRead(store: NotificationStore, requester: User) returns (success: bool)
    requires store.Valid()
    modifies store
    ensures store.Valid()
    ensures success
    ensures store.observers == old(store.observers)
    ensures store.notifications == AllRead(old(store.notifications), requester)
  {
    store.notifications := AllRead(store.notifications, requester);
    return true;
  }

  /** The two templates `notifications_list` can extend, and the dashboard it links back to. */
  datatype Page = Page(baseTemplate: string, dashboardUrl: string)

  /** `notifications_list`: tutors get the tutor layout, every other role the student layout. */
  function BaseTemplate(role: string): (p: Page)
    ensures p.baseTemplate == "tutor_base.html" <==> role == "tutor"
    ensures p.dashboardUrl == "tutors:tutor_dashboard" <==> role == "tutor"
    ensures role != "tutor" ==> p == Page("student_base.html", "students:student_dashboard")
  {
    if role == "tutor" then Page("tutor_base.html", "tutors:tutor_dashboard")
    else Page("student_base.html", "students:student_dashboard")
  }
}
