/**
 * `NotificationService`: the fan-out of one event to its recipients, observer
 * subscription, and the per-user listing and unread count.
 *
 * The two tables live in a `NotificationStore`; a notification's index in
 * `notifications` is its primary key, and rows are only ever appended, so
 * index order is creation order. Observers are kept in insertion order, which
 * is the order in which an unordered query returns them here.
 */
module NotificationService {
  import opened Common
  import opened NotificationModels

  /** What `notify` returns: the one broadcast row, or the list of personal rows. */
  datatype Sent = Single(id: nat) | Many(ids: seq<nat>)

  // ---------------------------------------------------------------------------
  // Observers
  // ---------------------------------------------------------------------------

  /** An observer row matches a lookup on (event type, session id), active or not. */
  predicate Observes(o: Observer, eventType: string, sessionId: Option<int>) {
    o.eventType == eventType && o.sessionId == sessionId
  }

  /**
   * `unique_together = (user, event_type, session_id)`. A null session id is
   * never equal to another in the database, so only rows with a session id are
   * constrained.
   */
  predicate UniqueObservers(obs: seq<Observer>) {
    forall i, j :: 0 <= i < j < |obs| && obs[i].sessionId.Some? ==>
      !(obs[i].user == obs[j].user && Observes(obs[j], obs[i].eventType, obs[i].sessionId))
  }

  /**
   * `[obs.user for obs in NotificationObserver.objects.filter(event_type=...,
   * session_id=..., is_active=True)]`.
   */
  function ObserverUsers(obs: seq<Observer>, eventType: string, sessionId: Option<int>): (r: seq<User>)
    ensures |r| <= |obs|
    ensures forall u :: u in r <==>
              exists i :: 0 <= i < |obs| && obs[i].isActive && obs[i].user == u && Observes(obs[i], eventType, sessionId)
  {
    if |obs| == 0 then []
    else
      var rest := ObserverUsers(obs[1..], eventType, sessionId);
      assert forall i :: 1 <= i < |obs| ==> obs[i] == obs[1..][i - 1];
      if obs[0].isActive && Observes(obs[0], eventType, sessionId) then [obs[0].user] + rest else rest
  }

  /** A session's observers are listed once each: the unique constraint leaves no duplicates. */
  lemma {:induction false} SessionObserversDistinct(obs: seq<Observer>, eventType: string, sid: int, u: User)
    requires UniqueObservers(obs)
    ensures multiset(ObserverUsers(obs, eventType, Some(sid)))[u] <= 1
  {
    if |obs| > 0 {
      var tail := obs[1..];
      assert UniqueObservers(tail) by {
        forall i, j | 0 <= i < j < |tail| && tail[i].sessionId.Some?
          ensures !(tail[i].user == tail[j].user && Observes(tail[j], tail[i].eventType, tail[i].sessionId))
        {
          assert tail[i] == obs[i + 1] && tail[j] == obs[j + 1];
        }
      }
      SessionObserversDistinct(tail, eventType, sid, u);
      if obs[0].isActive && Observes(obs[0], eventType, Some(sid)) && obs[0].user == u {
        assert u !in ObserverUsers(tail, eventType, Some(sid)) by {
          assert forall i :: 0 <= i < |tail| ==> tail[i] == obs[i + 1];
        }
      }
    }
  }

  /** The first observer row for (user, event type, session id), as `get_or_create` looks it up. */
  function FindObserver(obs: seq<Observer>, user: User, eventType: string, sessionId: Option<int>): (r: Option<nat>)
    ensures r.Some? ==> r.value < |obs| && obs[r.value].user == user && Observes(obs[r.value], eventType, sessionId)
    ensures r.None? ==> forall i :: 0 <= i < |obs| ==> !(obs[i].user == user && Observes(obs[i], eventType, sessionId))
  {
    if |obs| == 0 then None
    else if obs[0].user == user && Observes(obs[0], eventType, sessionId) then Some(0)
    else
      match FindObserver(obs[1..], user, eventType, sessionId)
      case Some(i) => Some(i + 1)
      case None =>
        assert forall i :: 1 <= i < |obs| ==> obs[i] == obs[1..][i - 1];
        None
  }

  /** The observer table after `subscribe_to_session`: unchanged if a row exists, else one active row added. */
  function Subscribed(obs: seq<Observer>, user: User, sid: int, eventType: string): seq<Observer> {
    if FindObserver(obs, user, eventType, Some(sid)).Some? then obs
    else obs + [Observer(user, eventType, Some(sid), true)]
  }

  /** The observer table after `unsubscribe_from_session`: matching rows deactivated, none deleted. */
  function Deactivated(obs: seq<Observer>, user: User, sid: int, eventType: string): (r: seq<Observer>)
    ensures |r| == |obs|
    ensures forall i :: 0 <= i < |obs| ==>
              r[i] == if obs[i].user == user && Observes(obs[i], eventType, Some(sid))
                      then obs[i].(isActive := false) else obs[i]
  {
    seq(|obs|, i requires 0 <= i < |obs| =>
      if obs[i].user == user && Observes(obs[i], eventType, Some(sid)) then obs[i].(isActive := false) else obs[i])
  }

  /** Subscribing keeps the table free of duplicates, and a second subscribe changes nothing. */
  lemma {:induction false} SubscribeKeepsUnique(obs: seq<Observer>, user: User, sid: int, eventType: string)
    requires UniqueObservers(obs)
    ensures UniqueObservers(Subscribed(obs, user, sid, eventType))
    ensures Subscribed(Subscribed(obs, user, sid, eventType), user, sid, eventType) == Subscribed(obs, user, sid, eventType)
  {
    var r := Subscribed(obs, user, sid, eventType);
    if FindObserver(obs, user, eventType, Some(sid)).None? {
      forall i, j | 0 <= i < j < |r| && r[i].sessionId.Some?
        ensures !(r[i].user == r[j].user && Observes(r[j], r[i].eventType, r[i].sessionId))
      {
        if j == |obs| {
          assert r[j] == Observer(user, eventType, Some(sid), true);
          assert r[i] == obs[i];
        }
      }
      assert FindObserver(r, user, eventType, Some(sid)).Some? by {
        assert r[|obs|].user == user && Observes(r[|obs|], eventType, Some(sid));
      }
    }
  }

  /**
   * After subscribing, the user receives the session's notifications exactly
   * when no row existed before or the existing row is active: an unsubscribed
   * row is returned as it is and not reactivated.
   */
  lemma {:induction false} SubscribeDelivers(obs: seq<Observer>, user: User, sid: int, eventType: string)
    ensures var found := FindObserver(obs, user, eventType, Some(sid));
            user in ObserverUsers(Subscribed(obs, user, sid, eventType), eventType, Some(sid)) <==>
            found.None? || user in ObserverUsers(obs, eventType, Some(sid))
  {
    var found := FindObserver(obs, user, eventType, Some(sid));
    if found.None? {
      var r := Subscribed(obs, user, sid, eventType);
      assert r[|obs|].isActive && r[|obs|].user == user && Observes(r[|obs|], eventType, Some(sid));
    }
  }

  /** Unsubscribing stops delivery for that session and leaves every other subscription alone. */
  lemma {:induction false} UnsubscribeStopsDelivery(obs: seq<Observer>, user: User, sid: int, eventType: string,
                                                    otherType: string, otherSession: Option<int>, v: User)
    ensures user !in ObserverUsers(Deactivated(obs, user, sid, eventType), eventType, Some(sid))
    ensures (v != user || otherType != eventType || otherSession != Some(sid)) ==>
              (v in ObserverUsers(Deactivated(obs, user, sid, eventType), otherType, otherSession) <==>
               v in ObserverUsers(obs, otherType, otherSession))
  {
    var r := Deactivated(obs, user, sid, eventType);
    if v != user || otherType != eventType || otherSession != Some(sid) {
      if v in ObserverUsers(obs, otherType, otherSession) {
        var i :| 0 <= i < |obs| && obs[i].isActive && obs[i].user == v && Observes(obs[i], otherType, otherSession);
        assert r[i] == obs[i];
      }
    }
  }

  // ---------------------------------------------------------------------------
  // Fan-out
  // ---------------------------------------------------------------------------

  /** The personal rows `_notify_users` creates: one per list element, in list order. */
  function PersonalRows(users: seq<User>, kind: string, title: string, message: string, sessionId: Option<int>,
                        actionUrl: string, relatedObjectId: Option<int>, relatedObjectType: Option<string>)
    : (r: seq<Notification>)
    ensures |r| == |users|
    ensures forall i :: 0 <= i < |users| ==>
              r[i] == NewNotification(Some(users[i]), kind, title, message, sessionId,
                                      relatedObjectId, relatedObjectType, false, actionUrl)
  {
    seq(|users|, i requires 0 <= i < |users| =>
      NewNotification(Some(users[i]), kind, title, message, sessionId, relatedObjectId, relatedObjectType,
                      false, actionUrl))
  }

  /** The row `_create_broadcast_notification` creates: no recipient, no related object. */
  function BroadcastRow(kind: string, title: string, message: string, sessionId: Option<int>, actionUrl: string)
    : (n: Notification)
    ensures n.user.None? && n.isBroadcast && !n.isRead
    ensures n.relatedObjectId.None? && n.relatedObjectType.None?
  {
    NewNotification(None, kind, title, message, sessionId, None, None, true, actionUrl)
  }

  /**
   * Whom `notify` writes to when it is not a broadcast: the given list if it is
   * non-empty, else the active observers of the session if the session id is
   * truthy, else the active general observers of the event type.
   */
  function Recipients(obs: seq<Observer>, kind: string, recipients: Option<seq<User>>, sessionId: Option<int>)
    : (r: seq<User>)
    ensures recipients.Some? && |recipients.value| > 0 ==> r == recipients.value
    ensures (recipients.None? || |recipients.value| == 0) ==>
              forall u :: u in r <==>
                exists i :: 0 <= i < |obs| && obs[i].isActive && obs[i].user == u &&
                            Observes(obs[i], kind, if Truthy(sessionId) then sessionId else None)
  {
    if recipients.Some? && |recipients.value| > 0 then recipients.value
    else if Truthy(sessionId) then ObserverUsers(obs, kind, sessionId)
    else ObserverUsers(obs, kind, None)
  }

  /** Every row `notify` appends. */
  function NotifyRows(obs: seq<Observer>, kind: string, title: string, message: string,
                      recipients: Option<seq<User>>, sessionId: Option<int>, actionUrl: string,
                      relatedObjectId: Option<int>, relatedObjectType: Option<string>, isBroadcast: bool)
    : seq<Notification>
  {
    if isBroadcast then [BroadcastRow(kind, title, message, sessionId, actionUrl)]
    else PersonalRows(Recipients(obs, kind, recipients, sessionId), kind, title, message, sessionId,
                      actionUrl, relatedObjectId, relatedObjectType)
  }

  /** Rows with `is_broadcast` are exactly the rows with no recipient. */
  predicate BroadcastShape(ns: seq<Notification>) {
    forall i :: 0 <= i < |ns| ==> (ns[i].isBroadcast <==> ns[i].user.None?)
  }

  /**
   * A broadcast creates exactly one recipient-less row whatever the recipient
   * list says; otherwise exactly one personal row per recipient.
   */
  lemma {:induction false} NotifyShape(obs: seq<Observer>, kind: string, title: string, message: string,
                                       recipients: Option<seq<User>>, sessionId: Option<int>, actionUrl: string,
                                       relatedObjectId: Option<int>, relatedObjectType: Option<string>,
                                       isBroadcast: bool)
    ensures var rows := NotifyRows(obs, kind, title, message, recipients, sessionId, actionUrl,
                                   relatedObjectId, relatedObjectType, isBroadcast);
            && BroadcastShape(rows)
            && (isBroadcast ==> |rows| == 1 && rows[0].isBroadcast && rows[0].user.None?)
            && (!isBroadcast ==> |rows| == |Recipients(obs, kind, recipients, sessionId)|)
            && (!isBroadcast && recipients.Some? && |recipients.value| > 0 ==>
                  forall i :: 0 <= i < |rows| ==> rows[i].user == Some(recipients.value[i]) && !rows[i].isBroadcast)
            && forall i :: 0 <= i < |rows| ==> rows[i].kind == kind && rows[i].title == title && !rows[i].isRead
  {
  }

  // ---------------------------------------------------------------------------
  // Listing and counting
  // ---------------------------------------------------------------------------

  /** A row shows up in `get_user_notifications(user, unread_only)`. */
  predicate Visible(n: Notification, u: User, unreadOnly: bool) {
    (n.user == Some(u) || n.isBroadcast) && (!unreadOnly || !n.isRead)
  }

  /**
   * `get_user_notifications`: the user's personal rows together with every
   * broadcast, unread ones only if asked, newest first (as primary keys).
   */
  function UserNotifications(ns: seq<Notification>, u: User, unreadOnly: bool): (r: seq<nat>)
    ensures forall k :: 0 <= k < |r| ==> r[k] < |ns| && Visible(ns[r[k]], u, unreadOnly)
    ensures forall i :: 0 <= i < |ns| && Visible(ns[i], u, unreadOnly) ==> i in r
    ensures forall k, m :: 0 <= k < m < |r| ==> r[k] > r[m]
  {
    if |ns| == 0 then []
    else
      var last := |ns| - 1;
      var rest := UserNotifications(ns[..last], u, unreadOnly);
      if Visible(ns[last], u, unreadOnly) then [last] + rest else rest
  }

  /** `Notification.objects.filter(user=u, is_read=False).count()`. */
  function PersonalUnread(ns: seq<Notification>, u: User): (r: nat)
    ensures r <= |ns|
    ensures r == 0 <==> forall i :: 0 <= i < |ns| ==> ns[i].user != Some(u) || ns[i].isRead
  {
    if |ns| == 0 then 0
    else
      assert forall i :: 0 <= i < |ns| - 1 ==> ns[..|ns| - 1][i] == ns[i];
      PersonalUnread(ns[..|ns| - 1], u) + (if ns[|ns| - 1].user == Some(u) && !ns[|ns| - 1].isRead then 1 else 0)
  }

  /** `Notification.objects.filter(is_broadcast=True, is_read=False).count()`. */
  function BroadcastUnread(ns: seq<Notification>): (r: nat)
    ensures r <= |ns|
    ensures r == 0 <==> forall i :: 0 <= i < |ns| ==> !ns[i].isBroadcast || ns[i].isRead
  {
    if |ns| == 0 then 0
    else
      assert forall i :: 0 <= i < |ns| - 1 ==> ns[..|ns| - 1][i] == ns[i];
      BroadcastUnread(ns[..|ns| - 1]) + (if ns[|ns| - 1].isBroadcast && !ns[|ns| - 1].isRead then 1 else 0)
  }

  /** `get_unread_count`: zero exactly when every row addressed to the user or broadcast is read. */
  function UnreadCount(ns: seq<Notification>, u: User): (r: nat)
    ensures r <= 2 * |ns|
    ensures r == 0 <==> forall i :: 0 <= i < |ns| ==> ns[i].isRead || (ns[i].user != Some(u) && !ns[i].isBroadcast)
  {
    PersonalUnread(ns, u) + BroadcastUnread(ns)
  }

  /**
   * The unread count is the length of the unread listing, as long as no row
   * is both personal and a broadcast.
   */
  lemma {:induction false} UnreadCountIsListLength(ns: seq<Notification>, u: User)
    requires BroadcastShape(ns)
    ensures UnreadCount(ns, u) == |UserNotifications(ns, u, true)|
  {
    if |ns| > 0 {
      UnreadCountIsListLength(ns[..|ns| - 1], u);
    }
  }

  lemma {:induction false} PersonalUnreadAppend(a: seq<Notification>, b: seq<Notification>, u: User)
    ensures PersonalUnread(a + b, u) == PersonalUnread(a, u) + PersonalUnread(b, u)
  {
    if |b| > 0 {
      assert (a + b)[..|a + b| - 1] == a + b[..|b| - 1];
      PersonalUnreadAppend(a, b[..|b| - 1], u);
    } else {
      assert a + b == a;
    }
  }

  lemma {:induction false} BroadcastUnreadAppend(a: seq<Notification>, b: seq<Notification>)
    ensures BroadcastUnread(a + b) == BroadcastUnread(a) + BroadcastUnread(b)
  {
    if |b| > 0 {
      assert (a + b)[..|a + b| - 1] == a + b[..|b| - 1];
      BroadcastUnreadAppend(a, b[..|b| - 1]);
    } else {
      assert a + b == a;
    }
  }

  /** The personal rows for a list hold, for each user, as many unread rows as the list names them. */
  lemma {:induction false} PersonalRowsCount(users: seq<User>, kind: string, title: string, message: string,
                                             sessionId: Option<int>, actionUrl: string,
                                             relatedObjectId: Option<int>, relatedObjectType: Option<string>, u: User)
    ensures PersonalUnread(PersonalRows(users, kind, title, message, sessionId, actionUrl,
                                        relatedObjectId, relatedObjectType), u) == multiset(users)[u]
  {
    if |users| > 0 {
      var front := users[..|users| - 1];
      var rows := PersonalRows(users, kind, title, message, sessionId, actionUrl, relatedObjectId, relatedObjectType);
      assert rows[..|rows| - 1] ==
             PersonalRows(front, kind, title, message, sessionId, actionUrl, relatedObjectId, relatedObjectType);
      PersonalRowsCount(front, kind, title, message, sessionId, actionUrl, relatedObjectId, relatedObjectType, u);
      var last := users[|users| - 1];
      assert rows[|rows| - 1].user == Some(last) && !rows[|rows| - 1].isRead;
      assert PersonalUnread(rows, u) == PersonalUnread(rows[..|rows| - 1], u) + (if last == u then 1 else 0);
      assert users == front + [last];
      assert multiset(users)[u] == multiset(front)[u] + (if last == u then 1 else 0);
    }
  }

  /**
   * What one `notify` does to every user's unread count: a broadcast adds one
   * for everybody; otherwise each user gains as many as the resolved recipient
   * list names them, duplicates included.
   */
  lemma {:induction false} NotifyRaisesUnread(ns: seq<Notification>, obs: seq<Observer>, kind: string, title: string,
                                              message: string, recipients: Option<seq<User>>, sessionId: Option<int>,
                                              actionUrl: string, relatedObjectId: Option<int>,
                                              relatedObjectType: Option<string>, isBroadcast: bool, u: User)
    ensures var after := ns + NotifyRows(obs, kind, title, message, recipients, sessionId, actionUrl,
                                         relatedObjectId, relatedObjectType, isBroadcast);
            UnreadCount(after, u) == UnreadCount(ns, u) +
              (if isBroadcast then 1 else multiset(Recipients(obs, kind, recipients, sessionId))[u])
  {
    var rows := NotifyRows(obs, kind, title, message, recipients, sessionId, actionUrl,
                           relatedObjectId, relatedObjectType, isBroadcast);
    PersonalUnreadAppend(ns, rows, u);
    BroadcastUnreadAppend(ns, rows);
    if isBroadcast {
      assert rows[..0] == [];
    } else {
      PersonalRowsCount(Recipients(obs, kind, recipients, sessionId), kind, title, message, sessionId,
                        actionUrl, relatedObjectId, relatedObjectType, u);
      assert forall i :: 0 <= i < |rows| ==> !rows[i].isBroadcast;
    }
  }

  /** A broadcast appears, once, in every user's listing. */
  lemma {:induction false} BroadcastReachesEveryone(ns: seq<Notification>, kind: string, title: string,
                                                    message: string, sessionId: Option<int>, actionUrl: string, u: User)
    ensures var after := ns + [BroadcastRow(kind, title, message, sessionId, actionUrl)];
            UserNotifications(after, u, false) == [|ns|] + UserNotifications(ns, u, false)
  {
    var after := ns + [BroadcastRow(kind, title, message, sessionId, actionUrl)];
    assert after[..|after| - 1] == ns;
  }

  // ---------------------------------------------------------------------------
  // The store
  // ---------------------------------------------------------------------------

  class NotificationStore {
    var notifications: seq<Notification>
    var observers: seq<Observer>

    ghost predicate Valid()
      reads this
    {
      UniqueObservers(observers) && BroadcastShape(notifications)
    }

    constructor ()
      ensures Valid()
      ensures notifications == [] && observers == []
    {
      notifications := [];
      observers := [];
    }

    /** `_notify_users`: one personal row per list element, returned in list order. */
    method NotifyUsers(users: seq<User>, kind: string, title: string, message: string, sessionId: Option<int>,
                       actionUrl: string, relatedObjectId: Option<int>, relatedObjectType: Option<string>)
      returns (ids: seq<nat>)
      requires Valid()
      modifies this
      ensures Valid()
      ensures observers == old(observers)
      ensures notifications == old(notifications) +
                PersonalRows(users, kind, title, message, sessionId, actionUrl, relatedObjectId, relatedObjectType)
      ensures |ids| == |users|
      ensures forall k :: 0 <= k < |ids| ==> ids[k] == |old(notifications)| + k
    {
      ids := [];
      var i := 0;
      while i < |users|
        invariant 0 <= i <= |users|
        invariant Valid() && observers == old(observers)
        invariant notifications == old(notifications) +
                    PersonalRows(users[..i], kind, title, message, sessionId, actionUrl,
                                 relatedObjectId, relatedObjectType)
        invariant |ids| == i
        invariant forall k :: 0 <= k < i ==> ids[k] == |old(notifications)| + k
      {
        var n := NewNotification(Some(users[i]), kind, title, message, sessionId, relatedObjectId,
                                 relatedObjectType, false, actionUrl);
        ids := ids + [|notifications|];
        notifications := notifications + [n];
        assert PersonalRows(users[..i + 1], kind, title, message, sessionId, actionUrl,
                            relatedObjectId, relatedObjectType) ==
               PersonalRows(users[..i], kind, title, message, sessionId, actionUrl,
                            relatedObjectId, relatedObjectType) + [n];
        i := i + 1;
      }
      assert users[..i] == users;
    }

    /** `notify`: broadcast, explicit recipients, session observers or general observers, in that order. */
    method Notify(kind: string, title: string, message: string, recipients: Option<seq<User>>,
                  sessionId: Option<int>, actionUrl: string, relatedObjectId: Option<int>,
                  relatedObjectType: Option<string>, isBroadcast: bool)
      returns (sent: Sent)
      requires Valid()
      modifies this
      ensures Valid()
      ensures observers == old(observers)
      ensures notifications == old(notifications) +
                NotifyRows(old(observers), kind, title, message, recipients, sessionId, actionUrl,
                           relatedObjectId, relatedObjectType, isBroadcast)
      ensures isBroadcast <==> sent.Single?
      ensures sent.Single? ==> sent.id == |old(notifications)|
      ensures sent.Many? ==> |sent.ids| == |notifications| - |old(notifications)|
    {
      if isBroadcast {
        var id := |notifications|;
        notifications := notifications + [BroadcastRow(kind, title, message, sessionId, actionUrl)];
        return Single(id);
      }
      var ids;
      if recipients.Some? && |recipients.value| > 0 {
        ids := NotifyUsers(recipients.value, kind, title, message, sessionId, actionUrl,
                           relatedObjectId, relatedObjectType);
        return Many(ids);
      }
      if Truthy(sessionId) {
        var users := ObserverUsers(observers, kind, sessionId);
        ids := NotifyUsers(users, kind, title, message, sessionId, actionUrl, relatedObjectId, relatedObjectType);
        return Many(ids);
      }
      var users := ObserverUsers(observers, kind, None);
      ids := NotifyUsers(users, kind, title, message, sessionId, actionUrl, relatedObjectId, relatedObjectType);
      return Many(ids);
    }

    /** `subscribe_to_session`: get-or-create; returns the observer's position. */
    method Subscribe(user: User, sid: int, eventType: string) returns (index: nat)
      requires Valid()
      modifies this
      ensures Valid()
      ensures notifications == old(notifications)
      ensures observers == Subscribed(old(observers), user, sid, eventType)
      ensures index < |observers| && observers[index].user == user && Observes(observers[index], eventType, Some(sid))
    {
      SubscribeKeepsUnique(observers, user, sid, eventType);
      var found := FindObserver(observers, user, eventType, Some(sid));
      if found.Some? {
        return found.value;
      }
      index := |observers|;
      observers := observers + [Observer(user, eventType, Some(sid), true)];
    }

    /** `unsubscribe_from_session`: an update of `is_active` on the matching rows. */
    method Unsubscribe(user: User, sid: int, eventType: string)
      requires Valid()
      modifies this
      ensures Valid()
      ensures notifications == old(notifications)
      ensures observers == Deactivated(old(observers), user, sid, eventType)
    {
      observers := Deactivated(observers, user, sid, eventType);
    }

    /**
     * `NotificationObserver.objects.create(...)`: refused by the unique
     * constraint when a row with the same user, event type and non-null
     * session id exists.
     */
    method RegisterObserver(user: User, eventType: string, sessionId: Option<int>, isActive: bool)
      returns (ok: bool)
      requires Valid()
      modifies this
      ensures Valid()
      ensures notifications == old(notifications)
      ensures ok <==> sessionId.None? || FindObserver(old(observers), user, eventType, sessionId).None?
      ensures ok ==> observers == old(observers) + [Observer(user, eventType, sessionId, isActive)]
      ensures !ok ==> observers == old(observers)
    {
      if sessionId.Some? && FindObserver(observers, user, eventType, sessionId).Some? {
        return false;
      }
      var added := Observer(user, eventType, sessionId, isActive);
      forall i, j | 0 <= i < j < |observers| + 1 && (observers + [added])[i].sessionId.Some?
        ensures !((observers + [added])[i].user == (observers + [added])[j].user &&
                  Observes((observers + [added])[j], (observers + [added])[i].eventType, (observers + [added])[i].sessionId))
      {
      }
      observers := observers + [added];
      return true;
    }
  }
}
