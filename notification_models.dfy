/**
 * Rows of the `Notification` and `NotificationObserver` tables, their
 * defaults, `mark_as_read` and the two `__str__` formatters.
 *
 * Timestamps are plain integers supplied by the caller (the wall clock is not
 * modelled); a notification's position in its table stands for its primary key
 * and creation order.
 */
module NotificationModels {
  import opened Common

  /** The parts of a Django `User` the notification code looks at; compared as whole rows. */
  datatype User = User(id: int, username: string)

  /** A `Notification` row; `user == None` is the null recipient used by broadcasts. */
  datatype Notification = Notification(
    user: Option<User>,
    kind: string,
    title: string,
    message: string,
    sessionId: Option<int>,
    relatedObjectId: Option<int>,
    relatedObjectType: Option<string>,
    isRead: bool,
    isBroadcast: bool,
    readAt: Option<int>,
    actionUrl: string)

  /** A `NotificationObserver` row; `sessionId == None` observes an event type in general. */
  datatype Observer = Observer(user: User, eventType: string, sessionId: Option<int>, isActive: bool)

  /** Python truthiness of an optional integer: `None` and `0` are false. */
  predicate Truthy(x: Option<int>) {
    x.Some? && x.value != 0
  }

  /** `Notification.objects.create(...)` with the model defaults: unread, never read. */
  function NewNotification(user: Option<User>, kind: string, title: string, message: string,
                           sessionId: Option<int>, relatedObjectId: Option<int>,
                           relatedObjectType: Option<string>, isBroadcast: bool,
                           actionUrl: string): (n: Notification)
    ensures !n.isRead && n.readAt.None?
    ensures n.user == user && n.isBroadcast == isBroadcast
    ensures n.kind == kind && n.title == title && n.message == message && n.sessionId == sessionId
    ensures n.relatedObjectId == relatedObjectId && n.relatedObjectType == relatedObjectType
    ensures n.actionUrl == actionUrl
  {
    Notification(user, kind, title, message, sessionId, relatedObjectId, relatedObjectType,
                 false, isBroadcast, None, actionUrl)
  }

  /**
   * `Notification.mark_as_read(now)`: an unread notification becomes read at
   * `now`; a read one is left exactly as it is, so its first `read_at` stays.
   */
  function MarkedRead(n: Notification, now: int): (r: Notification)
    ensures r.isRead
    ensures n.isRead ==> r == n
    ensures !n.isRead ==> r.readAt == Some(now)
    ensures r.(isRead := n.isRead, readAt := n.readAt) == n
  {
    if n.isRead then n else n.(isRead := true, readAt := Some(now))
  }

  /** Marking twice, at any two instants, is marking once. */
  lemma MarkedReadIdempotent(n: Notification, now: int, later: int)
    ensures MarkedRead(MarkedRead(n, now), later) == MarkedRead(n, now)
  {
  }

  /** The recipient shown by `Notification.__str__`. */
  function RecipientName(user: Option<User>): string {
    match user
    case Some(u) => u.username
    case None => "ALL USERS"
  }

  /** `Notification.__str__`: "<type> → <username or ALL USERS>: <title>". */
  function Label(n: Notification): (r: string)
    ensures |r| == |n.kind| + 3 + |RecipientName(n.user)| + 2 + |n.title|
    ensures r[..|n.kind|] == n.kind
    ensures r[|n.kind|..|n.kind| + 3] == " → "
    ensures r[|n.kind| + 3..|r| - |n.title| - 2] == RecipientName(n.user)
    ensures r[|r| - |n.title| - 2..] == ": " + n.title
  {
    var r := n.kind + " → " + RecipientName(n.user) + ": " + n.title;
    assert r == n.kind + (" → " + (RecipientName(n.user) + (": " + n.title)));
    r
  }

  /** A broadcast's label names "ALL USERS" as its recipient. */
  lemma BroadcastLabel(n: Notification)
    requires n.user.None?
    ensures var r := Label(n); r[|n.kind| + 3..|r| - |n.title| - 2] == "ALL USERS"
  {
  }

  /** The suffix `NotificationObserver.__str__` adds for a truthy session id. */
  function SessionSuffix(sessionId: Option<int>): string {
    if Truthy(sessionId) then " (Session " + IntToDecimal(sessionId.value) + ")" else ""
  }

  /** `NotificationObserver.__str__`. */
  function ObserverLabel(o: Observer): (r: string)
    ensures |r| >= |o.user.username + " observing " + o.eventType|
    ensures r[..|o.user.username + " observing " + o.eventType|] == o.user.username + " observing " + o.eventType
    ensures !Truthy(o.sessionId) <==> r == o.user.username + " observing " + o.eventType
  {
    o.user.username + " observing " + o.eventType + SessionSuffix(o.sessionId)
  }

  /** The session id in an observer's label reads back as the observer's session id. */
  lemma {:induction false} ObserverLabelNamesSession(o: Observer)
    requires Truthy(o.sessionId)
    ensures var head := o.user.username + " observing " + o.eventType + " (Session ";
            var r := ObserverLabel(o);
            && |r| == |head| + |IntToDecimal(o.sessionId.value)| + 1
            && r[|r| - 1] == ')'
            && ParseInt(r[|head|..|r| - 1]) == Some(o.sessionId.value)
  {
    var head := o.user.username + " observing " + o.eventType + " (Session ";
    var digits := IntToDecimal(o.sessionId.value);
    var r := ObserverLabel(o);
    assert r == head + digits + ")";
    assert r[|head|..|r| - 1] == digits;
    IntRoundTrip(o.sessionId.value);
  }
}
