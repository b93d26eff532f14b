/**
 * The enrollment/capacity ledger behind the tutoring-session views:
 * `enroll_session`, `cancel_enrollment`, `reschedule_session` (its candidate
 * list and its POST branch), `tutor_reschedule_session`,
 * `tutor_cancel_session` and the `available_sessions` filter.
 *
 * The database is a `Ledger` value: the `Session` and `Enrollment` tables as
 * maps from primary key to row. Each view is a step function from a ledger to
 * the next ledger and an outcome (success or the named reason the view
 * redirects with); `SessionStore` is the in-place version whose methods write
 * field by field, as the views do, and are proved equal to the step functions.
 */
module SessionViews {
  import opened Common
  import opened SessionModels

  /** Why a view refused, redirected or failed. */
  datatype Reason =
    | NotFound         // get_object_or_404 found no row the requester may use
    | NotATutor        // the requester has no tutor profile
    | SessionFull      // enroll: enrolled_count >= capacity
    | NotScheduled     // enroll: status != 'scheduled'
    | AlreadyEnrolled  // an active enrollment for (student, session) exists
    | NotOngoing       // reschedule: the current session is not 'ongoing'
    | SubjectMismatch  // reschedule: the target teaches another subject
    | TutorMismatch    // reschedule: the target has another tutor
    | TargetFull       // reschedule: the target has no room
    | TargetClosed     // reschedule: the target is completed or cancelled
    | SessionClosed    // tutor views: the session is completed or cancelled
    | MissingFields    // a required form field is empty
    | IntegrityError   // the unique (student, session) constraint refused a write

  datatype Outcome = Success | Rejected(reason: Reason)

  /** The `Session` and `Enrollment` tables and their next free primary keys. */
  datatype Ledger = Ledger(
    sessions: map<int, Session>,
    enrollments: map<int, Enrollment>,
    nextSessionId: int,
    nextEnrollmentId: int)

  /** The ledger after a view, and what the view reports. */
  datatype Step = Step(ledger: Ledger, outcome: Outcome)

  // ---------------------------------------------------------------------------
  // Queries over the tables
  // ---------------------------------------------------------------------------

  /** `unique_together = ('student', 'session')` on `Enrollment`. */
  predicate UniquePairs(es: map<int, Enrollment>) {
    forall a, b :: a in es && b in es && a != b ==>
      es[a].student != es[b].student || es[a].session != es[b].session
  }

  /** What the database guarantees: foreign keys resolve, keys are fresh, pairs unique. */
  predicate WellFormed(l: Ledger) {
    && (forall e :: e in l.enrollments ==>
          l.enrollments[e].session in l.sessions && e < l.nextEnrollmentId)
    && (forall s :: s in l.sessions ==> s < l.nextSessionId)
    && UniquePairs(l.enrollments)
  }

  /** `Enrollment.objects.filter(session=sid, is_active=True)`, as primary keys. */
  function ActiveIds(es: map<int, Enrollment>, sid: int): set<int> {
    set e | e in es && es[e].session == sid && es[e].isActive
  }

  /** `Enrollment.objects.filter(student=..., session=..., is_active=True).exists()`. */
  predicate HasActive(es: map<int, Enrollment>, student: int, sid: int) {
    exists e :: e in es && es[e].student == student && es[e].session == sid && es[e].isActive
  }

  /** Some row, active or not, links `student` to `sid`. */
  predicate HasRow(es: map<int, Enrollment>, student: int, sid: int) {
    exists e :: e in es && es[e].student == student && es[e].session == sid
  }

  /** A row other than `eid` already links `student` to `target`. */
  predicate ClashesWith(es: map<int, Enrollment>, eid: int, student: int, target: int) {
    exists o :: o in es && o != eid && es[o].student == student && es[o].session == target
  }

  /** Each counter equals its session's active enrollments, within capacity; zero once cancelled. */
  ghost predicate CountsMatch(l: Ledger) {
    forall s :: s in l.sessions ==>
      && l.sessions[s].enrolledCount == |ActiveIds(l.enrollments, s)|
      && l.sessions[s].enrolledCount <= l.sessions[s].capacity
      && (l.sessions[s].status == Cancelled ==> l.sessions[s].enrolledCount == 0)
  }

  /** Only cancelling a session makes its enrollments inactive. */
  predicate InactiveInCancelled(l: Ledger) {
    forall e :: e in l.enrollments && !l.enrollments[e].isActive ==>
      l.enrollments[e].session in l.sessions && l.sessions[l.enrollments[e].session].status == Cancelled
  }

  /**
   * The ledger invariant: every counter equals the number of active
   * enrollments of its session and stays within capacity; a cancelled session
   * has none; an inactive enrollment belongs to a cancelled session.
   */
  ghost predicate Consistent(l: Ledger) {
    WellFormed(l) && CountsMatch(l) && InactiveInCancelled(l)
  }

  // ---------------------------------------------------------------------------
  // Creating a session (model defaults)
  // ---------------------------------------------------------------------------

  function CreateSessionStep(l: Ledger, classCode: string, subject: int, tutor: int, days: string,
                             startTime: Time, endTime: Time): (r: Step)
    ensures r.outcome == Success
    ensures r.ledger.enrollments == l.enrollments
    ensures r.ledger.sessions ==
            l.sessions[l.nextSessionId := NewSession(classCode, subject, tutor, days, startTime, endTime)]
  {
    var s := NewSession(classCode, subject, tutor, days, startTime, endTime);
    Step(l.(sessions := l.sessions[l.nextSessionId := s], nextSessionId := l.nextSessionId + 1), Success)
  }

  // ---------------------------------------------------------------------------
  // enroll_session
  // ---------------------------------------------------------------------------

  /**
   * `enroll_session` (POST): full, then not scheduled, then already enrolled;
   * otherwise one active enrollment is created and the counter goes up by one.
   * Creating a second row for the same pair is refused by the database.
   */
  function EnrollStep(l: Ledger, student: int, sid: int): (r: Step)
    ensures r.outcome.Rejected? ==> r.ledger == l
    ensures sid in l.sessions && l.sessions[sid].enrolledCount >= l.sessions[sid].capacity ==>
              r.outcome == Rejected(SessionFull)
    ensures sid !in l.sessions ==> r.outcome == Rejected(NotFound)
    ensures (sid in l.sessions && l.sessions[sid].enrolledCount < l.sessions[sid].capacity &&
             l.sessions[sid].status != Scheduled) ==> r.outcome == Rejected(NotScheduled)
    ensures (sid in l.sessions && l.sessions[sid].enrolledCount < l.sessions[sid].capacity &&
             l.sessions[sid].status == Scheduled && HasActive(l.enrollments, student, sid)) ==>
              r.outcome == Rejected(AlreadyEnrolled)
    ensures (sid in l.sessions && l.sessions[sid].enrolledCount < l.sessions[sid].capacity &&
             l.sessions[sid].status == Scheduled && !HasActive(l.enrollments, student, sid) &&
             HasRow(l.enrollments, student, sid)) ==> r.outcome == Rejected(IntegrityError)
    ensures r.outcome == Success <==>
              && sid in l.sessions
              && l.sessions[sid].enrolledCount < l.sessions[sid].capacity
              && l.sessions[sid].status == Scheduled
              && !HasRow(l.enrollments, student, sid)
    ensures r.outcome == Success ==>
              && r.ledger.enrollments == l.enrollments[l.nextEnrollmentId := Enrollment(student, sid, true)]
              && r.ledger.sessions == l.sessions[sid := l.sessions[sid].(enrolledCount := l.sessions[sid].enrolledCount + 1)]
              && r.ledger.sessions[sid].enrolledCount <= r.ledger.sessions[sid].capacity
  {
    if sid !in l.sessions then Step(l, Rejected(NotFound))
    else
      var s := l.sessions[sid];
      if s.enrolledCount >= s.capacity then Step(l, Rejected(SessionFull))
      else if s.status != Scheduled then Step(l, Rejected(NotScheduled))
      else if HasActive(l.enrollments, student, sid) then Step(l, Rejected(AlreadyEnrolled))
      else if HasRow(l.enrollments, student, sid) then Step(l, Rejected(IntegrityError))
      else
        Step(l.(enrollments := l.enrollments[l.nextEnrollmentId := NewEnrollment(student, sid)],
                nextEnrollmentId := l.nextEnrollmentId + 1,
                sessions := l.sessions[sid := s.(enrolledCount := s.enrolledCount + 1)]),
             Success)
  }

  // ---------------------------------------------------------------------------
  // cancel_enrollment (student)
  // ---------------------------------------------------------------------------

  /**
   * `cancel_enrollment`: the student's enrollment row is deleted and the
   * session counter drops by one unless it is already zero.
   */
  function CancelEnrollmentStep(l: Ledger, student: int, eid: int): (r: Step)
    requires WellFormed(l)
    ensures r.outcome == Success <==> eid in l.enrollments && l.enrollments[eid].student == student
    ensures r.outcome.Rejected? ==> r.ledger == l
    ensures r.outcome == Success ==>
              var sid := l.enrollments[eid].session;
              var before := l.sessions[sid].enrolledCount;
              && r.ledger.enrollments == l.enrollments - {eid}
              && r.ledger.sessions == l.sessions[sid := l.sessions[sid].(
                   enrolledCount := if before > 0 then before - 1 else before)]
              && (before >= 0 ==> r.ledger.sessions[sid].enrolledCount >= 0)
  {
    if eid !in l.enrollments || l.enrollments[eid].student != student then Step(l, Rejected(NotFound))
    else
      var sid := l.enrollments[eid].session;
      var s := l.sessions[sid];
      var es := l.enrollments - {eid};
      if s.enrolledCount > 0 then
        Step(l.(enrollments := es, sessions := l.sessions[sid := s.(enrolledCount := s.enrolledCount - 1)]), Success)
      else
        Step(l.(enrollments := es), Success)
  }

  // ---------------------------------------------------------------------------
  // reschedule_session
  // ---------------------------------------------------------------------------

  /**
   * The sessions `reschedule_session` offers: same subject, same tutor,
   * scheduled or ongoing, not the current one, not full.
   */
  function RescheduleCandidates(sessions: map<int, Session>, cur: int): (r: set<int>)
    requires cur in sessions
    ensures cur !in r
    ensures forall t :: t in r <==>
              && t in sessions
              && sessions[t].subject == sessions[cur].subject
              && sessions[t].tutor == sessions[cur].tutor
              && IsOpen(sessions[t].status)
              && t != cur
              && sessions[t].enrolledCount < sessions[t].capacity
  {
    set t | t in sessions
            && sessions[t].subject == sessions[cur].subject
            && sessions[t].tutor == sessions[cur].tutor
            && IsOpen(sessions[t].status)
            && t != cur
            && sessions[t].enrolledCount < sessions[t].capacity
  }

  /** Every check of the POST branch passes, in the order the view makes them. */
  predicate ReschedulePasses(l: Ledger, student: int, eid: int, target: int) {
    && eid in l.enrollments
    && l.enrollments[eid].student == student
    && l.enrollments[eid].session in l.sessions
    && l.sessions[l.enrollments[eid].session].status == Ongoing
    && target in l.sessions
    && l.sessions[target].subject == l.sessions[l.enrollments[eid].session].subject
    && l.sessions[target].tutor == l.sessions[l.enrollments[eid].session].tutor
    && l.sessions[target].enrolledCount < l.sessions[target].capacity
    && !HasActive(l.enrollments, student, target)
  }

  /**
   * `reschedule_session` (POST) as written: the enrollment must be the
   * student's and its session ongoing; the target must exist, share subject and
   * tutor, have room and not already hold the student actively. Then the old
   * counter is decremented and saved, the enrollment is repointed (which the
   * unique constraint can refuse, leaving the decrement in place), and the
   * target's counter, as read before any write, is incremented and saved.
   */
  function RescheduleAsWritten(l: Ledger, student: int, eid: int, target: int): (r: Step)
    requires WellFormed(l)
    ensures WellFormed(r.ledger)
    ensures (r.outcome == Success || r.outcome == Rejected(IntegrityError)) <==>
            ReschedulePasses(l, student, eid, target)
    ensures r.outcome.Rejected? && r.outcome != Rejected(IntegrityError) ==> r.ledger == l
    ensures r.outcome == Rejected(IntegrityError) ==>
              var cur := l.enrollments[eid].session;
              && r.ledger.enrollments == l.enrollments
              && r.ledger.sessions == l.sessions[cur := l.sessions[cur].(
                   enrolledCount := l.sessions[cur].enrolledCount - 1)]
    ensures r.outcome == Success ==>
              var cur := l.enrollments[eid].session;
              && r.ledger.enrollments == l.enrollments[eid := l.enrollments[eid].(session := target)]
              && (target != cur ==>
                    r.ledger.sessions == l.sessions
                      [cur := l.sessions[cur].(enrolledCount := l.sessions[cur].enrolledCount - 1)]
                      [target := l.sessions[target].(enrolledCount := l.sessions[target].enrolledCount + 1)])
  {
    if eid !in l.enrollments || l.enrollments[eid].student != student then Step(l, Rejected(NotFound))
    else
      var e := l.enrollments[eid];
      var current := l.sessions[e.session];
      if current.status != Ongoing then Step(l, Rejected(NotOngoing))
      else if target !in l.sessions then Step(l, Rejected(NotFound))
      else
        var next := l.sessions[target];
        if next.subject != current.subject then Step(l, Rejected(SubjectMismatch))
        else if next.tutor != current.tutor then Step(l, Rejected(TutorMismatch))
        else if next.enrolledCount >= next.capacity then Step(l, Rejected(TargetFull))
        else if HasActive(l.enrollments, student, target) then Step(l, Rejected(AlreadyEnrolled))
        else
          var decremented := l.sessions[e.session := current.(enrolledCount := current.enrolledCount - 1)];
          if ClashesWith(l.enrollments, eid, student, target) then
            Step(l.(sessions := decremented), Rejected(IntegrityError))
          else
            Step(l.(sessions := decremented[target := next.(enrolledCount := next.enrolledCount + 1)],
                    enrollments := l.enrollments[eid := e.(session := target)]),
                 Success)
  }

  /**
   * `reschedule_session` (POST) with the target's status checked as well: a
   * target that is neither scheduled nor ongoing, which the candidate list
   * never offers, is refused before anything is written.
   */
  function Reschedule(l: Ledger, student: int, eid: int, target: int): (r: Step)
    requires WellFormed(l)
    ensures WellFormed(r.ledger)
    ensures r.outcome.Rejected? && r.outcome != Rejected(IntegrityError) ==> r.ledger == l
    ensures r.outcome == Success ==>
              && ReschedulePasses(l, student, eid, target)
              && IsOpen(l.sessions[target].status)
              && r.ledger.enrollments == l.enrollments[eid := l.enrollments[eid].(session := target)]
  {
    if ReschedulePasses(l, student, eid, target) && !IsOpen(l.sessions[target].status) then
      Step(l, Rejected(TargetClosed))
    else
      RescheduleAsWritten(l, student, eid, target)
  }

  // ---------------------------------------------------------------------------
  // tutor_reschedule_session, tutor_cancel_session
  // ---------------------------------------------------------------------------

  /**
   * `tutor_reschedule_session` (POST): the tutor's own open session gets new
   * days and times; a day code '0'..'6' is stored as its weekday name, any
   * other value as given. Nothing else changes.
   */
  function TutorRescheduleStep(l: Ledger, tutor: Option<int>, sid: int, daysValue: string,
                               startTime: Option<Time>, endTime: Option<Time>): (r: Step)
    ensures r.outcome.Rejected? ==> r.ledger == l
    ensures r.outcome == Success <==>
              && sid in l.sessions && tutor == Some(l.sessions[sid].tutor)
              && IsOpen(l.sessions[sid].status)
              && daysValue != "" && startTime.Some? && endTime.Some?
    ensures r.outcome == Success ==>
              && r.ledger.enrollments == l.enrollments
              && r.ledger.sessions.Keys == l.sessions.Keys
              && (forall s :: s in l.sessions && s != sid ==> r.ledger.sessions[s] == l.sessions[s])
              && r.ledger.sessions[sid] == l.sessions[sid].(
                   days := DayLabel(daysValue).GetOr(daysValue),
                   startTime := startTime.value, endTime := endTime.value)
    ensures Consistent(l) ==> Consistent(r.ledger)
  {
    if sid !in l.sessions || tutor != Some(l.sessions[sid].tutor) then Step(l, Rejected(NotFound))
    else
      var s := l.sessions[sid];
      if !IsOpen(s.status) then Step(l, Rejected(SessionClosed))
      else if daysValue == "" || startTime.None? || endTime.None? then Step(l, Rejected(MissingFields))
      else
        var updated := s.(days := DayLabel(daysValue).GetOr(daysValue),
                          startTime := startTime.value, endTime := endTime.value);
        Step(l.(sessions := l.sessions[sid := updated]), Success)
  }

  /** `Enrollment.objects.filter(session=sid, is_active=True).update(is_active=False)`. */
  function Deactivate(es: map<int, Enrollment>, sid: int): (r: map<int, Enrollment>)
    ensures r.Keys == es.Keys
    ensures ActiveIds(r, sid) == {}
    ensures forall e :: e in es ==>
              r[e] == if e in ActiveIds(es, sid) then es[e].(isActive := false) else es[e]
  {
    map e | e in es :: if es[e].session == sid && es[e].isActive then es[e].(isActive := false) else es[e]
  }

  /**
   * `tutor_cancel_session`: only a tutor, only for their own session, only
   * while it is scheduled or ongoing. The session becomes cancelled with a zero
   * counter and each of its active enrollments becomes inactive.
   */
  function TutorCancelStep(l: Ledger, tutor: Option<int>, sid: int): (r: Step)
    ensures r.outcome.Rejected? ==> r.ledger == l
    ensures tutor.None? ==> r.outcome == Rejected(NotATutor)
    ensures tutor.Some? && (sid !in l.sessions || l.sessions[sid].tutor != tutor.value) ==>
              r.outcome == Rejected(NotFound)
    ensures (tutor.Some? && sid in l.sessions && l.sessions[sid].tutor == tutor.value &&
             !IsOpen(l.sessions[sid].status)) ==> r.outcome == Rejected(SessionClosed)
    ensures r.outcome == Success <==>
              tutor.Some? && sid in l.sessions && l.sessions[sid].tutor == tutor.value &&
              IsOpen(l.sessions[sid].status)
    ensures r.outcome == Success ==>
              && r.ledger.sessions == l.sessions[sid := l.sessions[sid].(status := Cancelled, enrolledCount := 0)]
              && r.ledger.enrollments == Deactivate(l.enrollments, sid)
              && r.ledger.enrollments.Keys == l.enrollments.Keys
              && ActiveIds(r.ledger.enrollments, sid) == {}
              && (forall e :: e in l.enrollments ==>
                    (r.ledger.enrollments[e] != l.enrollments[e] <==> e in ActiveIds(l.enrollments, sid)))
  {
    if tutor.None? then Step(l, Rejected(NotATutor))
    else if sid !in l.sessions || l.sessions[sid].tutor != tutor.value then Step(l, Rejected(NotFound))
    else
      var s := l.sessions[sid];
      if !IsOpen(s.status) then Step(l, Rejected(SessionClosed))
      else
        Step(l.(sessions := l.sessions[sid := s.(status := Cancelled, enrolledCount := 0)],
                enrollments := Deactivate(l.enrollments, sid)),
             Success)
  }

  // ---------------------------------------------------------------------------
  // available_sessions
  // ---------------------------------------------------------------------------

  /**
   * `available_sessions` without a search term: scheduled sessions the student
   * holds no active enrollment in.
   */
  function AvailableSessions(l: Ledger, student: int): (r: set<int>)
    ensures forall s :: s in r <==>
              s in l.sessions && l.sessions[s].status == Scheduled && !HasActive(l.enrollments, student, s)
  {
    set s | s in l.sessions && l.sessions[s].status == Scheduled && !HasActive(l.enrollments, student, s)
  }

  // ---------------------------------------------------------------------------
  // Ordering by class code
  // ---------------------------------------------------------------------------

  function CodeOf(sessions: map<int, Session>, id: int): string {
    if id in sessions then sessions[id].classCode else ""
  }

  /** `order_by('class_code')` on session primary keys. */
  function ByClassCode(sessions: map<int, Session>): (int, int) -> bool {
    (a: int, b: int) => StrLe(CodeOf(sessions, a), CodeOf(sessions, b))
  }

  lemma ByClassCodeOrders(sessions: map<int, Session>)
    ensures TotalPreorder(ByClassCode(sessions))
  {
    var le := ByClassCode(sessions);
    forall a, b ensures le(a, b) || le(b, a) {
      StrLeTotal(CodeOf(sessions, a), CodeOf(sessions, b));
    }
    forall a, b, c | le(a, b) && le(b, c) ensures le(a, c) {
      StrLeTransitive(CodeOf(sessions, a), CodeOf(sessions, b), CodeOf(sessions, c));
    }
  }

  method OrderByClassCode(sessions: map<int, Session>, ids: set<int>) returns (r: seq<int>)
    ensures multiset(r) == multiset(ids)
    ensures SortedBy(r, ByClassCode(sessions))
  {
    var unordered := SetToSeq(ids);
    r := SortBy(unordered, ByClassCode(sessions));
    ByClassCodeOrders(sessions);
    SortBySorted(unordered, ByClassCode(sessions));
  }

  // ---------------------------------------------------------------------------
  // The in-place store
  // ---------------------------------------------------------------------------

  /** The two tables, updated in place the way the views update them. */
  class SessionStore {
    var sessions: map<int, Session>
    var enrollments: map<int, Enrollment>
    var nextSessionId: int
    var nextEnrollmentId: int

    function Snapshot(): Ledger
      reads this
    {
      Ledger(sessions, enrollments, nextSessionId, nextEnrollmentId)
    }

    ghost predicate Valid()
      reads this
    {
      WellFormed(Snapshot())
    }

    constructor ()
      ensures Valid() && Consistent(Snapshot())
      ensures sessions == map[] && enrollments == map[]
    {
      sessions := map[];
      enrollments := map[];
      nextSessionId := 0;
      nextEnrollmentId := 0;
    }

    method CreateSession(classCode: string, subject: int, tutor: int, days: string,
                         startTime: Time, endTime: Time) returns (id: int)
      requires Valid()
      modifies this
      ensures Valid()
      ensures id == old(nextSessionId)
      ensures Snapshot() == CreateSessionStep(old(Snapshot()), classCode, subject, tutor, days, startTime, endTime).ledger
    {
      id := nextSessionId;
      sessions := sessions[id := NewSession(classCode, subject, tutor, days, startTime, endTime)];
      nextSessionId := nextSessionId + 1;
    }

    method Enroll(student: int, sid: int) returns (outcome: Outcome)
      requires Valid()
      modifies this
      ensures Valid()
      ensures Step(Snapshot(), outcome) == EnrollStep(old(Snapshot()), student, sid)
    {
      if sid !in sessions {
        return Rejected(NotFound);
      }
      var session := sessions[sid];
      if session.enrolledCount >= session.capacity {
        return Rejected(SessionFull);
      }
      if session.status != Scheduled {
        return Rejected(NotScheduled);
      }
      if HasActive(enrollments, student, sid) {
        return Rejected(AlreadyEnrolled);
      }
      if HasRow(enrollments, student, sid) {
        return Rejected(IntegrityError);
      }
      enrollments := enrollments[nextEnrollmentId := NewEnrollment(student, sid)];
      nextEnrollmentId := nextEnrollmentId + 1;
      sessions := sessions[sid := session.(enrolledCount := session.enrolledCount + 1)];
      return Success;
    }

    method CancelEnrollment(student: int, eid: int) returns (outcome: Outcome)
      requires Valid()
      modifies this
      ensures Valid()
      ensures Step(Snapshot(), outcome) == CancelEnrollmentStep(old(Snapshot()), student, eid)
    {
      if eid !in enrollments || enrollments[eid].student != student {
        return Rejected(NotFound);
      }
      var sid := enrollments[eid].session;
      var session := sessions[sid];
      enrollments := enrollments - {eid};
      if session.enrolledCount > 0 {
        sessions := sessions[sid := session.(enrolledCount := session.enrolledCount - 1)];
      }
      return Success;
    }

    /** The GET branch of `reschedule_session`: the checks, then the offered targets. */
    method RescheduleOptions(student: int, eid: int) returns (outcome: Outcome, ids: seq<int>)
      requires Valid()
      ensures outcome == Success <==>
                eid in enrollments && enrollments[eid].student == student &&
                sessions[enrollments[eid].session].status == Ongoing
      ensures outcome == Success ==>
                && multiset(ids) == multiset(RescheduleCandidates(sessions, enrollments[eid].session))
                && SortedBy(ids, ByClassCode(sessions))
      ensures outcome != Success ==> ids == []
    {
      if eid !in enrollments || enrollments[eid].student != student {
        return Rejected(NotFound), [];
      }
      var cur := enrollments[eid].session;
      if sessions[cur].status != Ongoing {
        return Rejected(NotOngoing), [];
      }
      ids := OrderByClassCode(sessions, RescheduleCandidates(sessions, cur));
      outcome := Success;
    }

    /** The POST branch of `reschedule_session`, with the target's status checked. */
    method RescheduleEnrollment(student: int, eid: int, target: int) returns (outcome: Outcome)
      requires Valid()
      modifies this
      ensures Valid()
      ensures Step(Snapshot(), outcome) == Reschedule(old(Snapshot()), student, eid, target)
    {
      if eid !in enrollments || enrollments[eid].student != student {
        return Rejected(NotFound);
      }
      var enrollment := enrollments[eid];
      var current := sessions[enrollment.session];
      if current.status != Ongoing {
        return Rejected(NotOngoing);
      }
      if target !in sessions {
        return Rejected(NotFound);
      }
      var next := sessions[target];
      if next.subject != current.subject {
        return Rejected(SubjectMismatch);
      }
      if next.tutor != current.tutor {
        return Rejected(TutorMismatch);
      }
      if next.enrolledCount >= next.capacity {
        return Rejected(TargetFull);
      }
      if HasActive(enrollments, student, target) {
        return Rejected(AlreadyEnrolled);
      }
      if !IsOpen(next.status) {
        return Rejected(TargetClosed);
      }
      sessions := sessions[enrollment.session := current.(enrolledCount := current.enrolledCount - 1)];
      if ClashesWith(enrollments, eid, student, target) {
        return Rejected(IntegrityError);
      }
      enrollments := enrollments[eid := enrollment.(session := target)];
      sessions := sessions[target := next.(enrolledCount := next.enrolledCount + 1)];
      return Success;
    }

    method TutorReschedule(tutor: Option<int>, sid: int, daysValue: string,
                           startTime: Option<Time>, endTime: Option<Time>) returns (outcome: Outcome)
      requires Valid()
      modifies this
      ensures Valid()
      ensures Step(Snapshot(), outcome) == TutorRescheduleStep(old(Snapshot()), tutor, sid, daysValue, startTime, endTime)
    {
      if sid !in sessions || tutor != Some(sessions[sid].tutor) {
        return Rejected(NotFound);
      }
      var session := sessions[sid];
      if !IsOpen(session.status) {
        return Rejected(SessionClosed);
      }
      if daysValue == "" || startTime.None? || endTime.None? {
        return Rejected(MissingFields);
      }
      session := session.(days := DayLabel(daysValue).GetOr(daysValue));
      session := session.(startTime := startTime.value);
      session := session.(endTime := endTime.value);
      sessions := sessions[sid := session];
      return Success;
    }

    method TutorCancel(tutor: Option<int>, sid: int) returns (outcome: Outcome, studentCount: nat)
      requires Valid()
      modifies this
      ensures Valid()
      ensures Step(Snapshot(), outcome) == TutorCancelStep(old(Snapshot()), tutor, sid)
      ensures outcome == Success ==> studentCount == |ActiveIds(old(enrollments), sid)|
    {
      studentCount := 0;
      if tutor.None? {
        return Rejected(NotATutor), studentCount;
      }
      if sid !in sessions || sessions[sid].tutor != tutor.value {
        return Rejected(NotFound), studentCount;
      }
      var session := sessions[sid];
      if !IsOpen(session.status) {
        return Rejected(SessionClosed), studentCount;
      }
      studentCount := |ActiveIds(enrollments, sid)|;
      sessions := sessions[sid := session.(status := Cancelled, enrolledCount := 0)];
      enrollments := Deactivate(enrollments, sid);
      outcome := Success;
    }

    /** `available_sessions` without a search term, ordered by class code. */
    method AvailableSessionList(student: int) returns (ids: seq<int>)
      requires Valid()
      ensures multiset(ids) == multiset(AvailableSessions(Snapshot(), student))
      ensures SortedBy(ids, ByClassCode(sessions))
    {
      ids := OrderByClassCode(sessions, AvailableSessions(Snapshot(), student));
    }
  }
}
