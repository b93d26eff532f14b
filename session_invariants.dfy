/**
 * What the ledger views promise about each other: every counter stays equal to
 * the number of active enrollments of its session and within capacity, the
 * views accept exactly what their listings offer, and a reschedule moves one
 * seat. Also the two concrete ledgers on which the reschedule view as written
 * breaks the invariant, and which the corrected guard refuses.
 */
module SessionInvariants {
  import opened Common
  import opened SessionModels
  import opened SessionViews

  // ---------------------------------------------------------------------------
  // How `ActiveIds` changes under the writes the views make
  // ---------------------------------------------------------------------------

  /** A write that adds an active row of `sid` under a key that held none adds one to the count. */
  lemma ActiveIdsGrow(es: map<int, Enrollment>, k: int, row: Enrollment, sid: int)
    requires k !in ActiveIds(es, sid)
    requires row.session == sid && row.isActive
    ensures ActiveIds(es[k := row], sid) == ActiveIds(es, sid) + {k}
    ensures |ActiveIds(es[k := row], sid)| == |ActiveIds(es, sid)| + 1
  {
    assert ActiveIds(es[k := row], sid) == ActiveIds(es, sid) + {k};
  }

  /** Overwriting an active row of `sid` with a row of another session removes one. */
  lemma ActiveIdsShrink(es: map<int, Enrollment>, k: int, row: Enrollment, sid: int)
    requires k in ActiveIds(es, sid)
    requires row.session != sid
    ensures ActiveIds(es[k := row], sid) == ActiveIds(es, sid) - {k}
    ensures |ActiveIds(es[k := row], sid)| == |ActiveIds(es, sid)| - 1
  {
    assert ActiveIds(es[k := row], sid) == ActiveIds(es, sid) - {k};
  }

  /** A write that neither adds nor removes an active row of `sid` leaves its set alone. */
  lemma ActiveIdsKeep(es: map<int, Enrollment>, k: int, row: Enrollment, sid: int)
    requires k !in ActiveIds(es, sid)
    requires row.session != sid
    ensures ActiveIds(es[k := row], sid) == ActiveIds(es, sid)
  {
  }

  lemma ActiveIdsAfterDelete(es: map<int, Enrollment>, k: int, sid: int)
    ensures ActiveIds(es - {k}, sid) == ActiveIds(es, sid) - {k}
  {
  }

  lemma ActiveIdsAfterDeactivate(es: map<int, Enrollment>, sid: int, s: int)
    requires s != sid
    ensures ActiveIds(Deactivate(es, sid), s) == ActiveIds(es, s)
  {
  }

  /** Under the invariant, a row of a session that is not cancelled is active. */
  lemma OpenRowsAreActive(l: Ledger, student: int, sid: int)
    requires Consistent(l)
    requires sid in l.sessions && l.sessions[sid].status != Cancelled
    ensures HasRow(l.enrollments, student, sid) <==> HasActive(l.enrollments, student, sid)
  {
    if HasRow(l.enrollments, student, sid) {
      var e :| e in l.enrollments && l.enrollments[e].student == student && l.enrollments[e].session == sid;
      assert l.enrollments[e].isActive;
    }
  }

  // ---------------------------------------------------------------------------
  // Each view keeps the ledger consistent
  // ---------------------------------------------------------------------------

  lemma {:induction false} CreateSessionPreservesConsistency(
    l: Ledger, classCode: string, subject: int, tutor: int, days: string, startTime: Time, endTime: Time)
    requires Consistent(l)
    ensures Consistent(CreateSessionStep(l, classCode, subject, tutor, days, startTime, endTime).ledger)
  {
    var r := CreateSessionStep(l, classCode, subject, tutor, days, startTime, endTime).ledger;
    var n := l.nextSessionId;
    assert n !in l.sessions;
    forall e | e in l.enrollments
      ensures l.enrollments[e].session != n
    {
      assert l.enrollments[e].session in l.sessions;
    }
    assert ActiveIds(l.enrollments, n) == {};
  }

  /** The ledger after the success branch of `enroll_session`. */
  function Enrolled(l: Ledger, student: int, sid: int): Ledger
    requires sid in l.sessions
  {
    l.(sessions := l.sessions[sid := l.sessions[sid].(enrolledCount := l.sessions[sid].enrolledCount + 1)],
       enrollments := l.enrollments[l.nextEnrollmentId := Enrollment(student, sid, true)],
       nextEnrollmentId := l.nextEnrollmentId + 1)
  }

  lemma {:induction false} EnrolledCounts(l: Ledger, student: int, sid: int)
    requires Consistent(l)
    requires sid in l.sessions && l.sessions[sid].status == Scheduled
    requires l.sessions[sid].enrolledCount < l.sessions[sid].capacity
    ensures CountsMatch(Enrolled(l, student, sid))
  {
    var r := Enrolled(l, student, sid);
    var n := l.nextEnrollmentId;
    var row := Enrollment(student, sid, true);
    assert n !in l.enrollments;
    forall s | s in r.sessions
      ensures r.sessions[s].enrolledCount == |ActiveIds(r.enrollments, s)|
    {
      if s == sid {
        ActiveIdsGrow(l.enrollments, n, row, s);
      } else {
        ActiveIdsKeep(l.enrollments, n, row, s);
      }
    }
  }

  lemma {:induction false} EnrolledWellFormed(l: Ledger, student: int, sid: int)
    requires Consistent(l)
    requires sid in l.sessions
    requires !HasRow(l.enrollments, student, sid)
    ensures WellFormed(Enrolled(l, student, sid))
    ensures InactiveInCancelled(Enrolled(l, student, sid))
  {
    var r := Enrolled(l, student, sid);
    var n := l.nextEnrollmentId;
    forall a, b | a in r.enrollments && b in r.enrollments && a != b
      ensures r.enrollments[a].student != r.enrollments[b].student ||
              r.enrollments[a].session != r.enrollments[b].session
    {
      if a == n {
        assert !(l.enrollments[b].student == student && l.enrollments[b].session == sid);
      } else if b == n {
        assert !(l.enrollments[a].student == student && l.enrollments[a].session == sid);
      }
    }
  }

  lemma {:induction false} EnrollPreservesConsistency(l: Ledger, student: int, sid: int)
    requires Consistent(l)
    ensures Consistent(EnrollStep(l, student, sid).ledger)
    ensures EnrollStep(l, student, sid).outcome != Rejected(IntegrityError)
  {
    var step := EnrollStep(l, student, sid);
    if sid in l.sessions && l.sessions[sid].status == Scheduled {
      OpenRowsAreActive(l, student, sid);
    }
    if step.outcome == Success {
      assert step.ledger == Enrolled(l, student, sid);
      EnrolledCounts(l, student, sid);
      EnrolledWellFormed(l, student, sid);
    }
  }

  lemma {:induction false} CancelEnrollmentPreservesConsistency(l: Ledger, student: int, eid: int)
    requires Consistent(l)
    ensures Consistent(CancelEnrollmentStep(l, student, eid).ledger)
  {
    var step := CancelEnrollmentStep(l, student, eid);
    if step.outcome == Success {
      var r := step.ledger;
      var sid := l.enrollments[eid].session;
      forall s | s in r.sessions
        ensures r.sessions[s].enrolledCount == |ActiveIds(r.enrollments, s)|
      {
        ActiveIdsAfterDelete(l.enrollments, eid, s);
        if s == sid && l.enrollments[eid].isActive {
          assert eid in ActiveIds(l.enrollments, s);
        } else {
          assert eid !in ActiveIds(l.enrollments, s);
          assert ActiveIds(r.enrollments, s) == ActiveIds(l.enrollments, s);
        }
      }
    }
  }

  /** The ledger after the success branch of the reschedule view, for a target other than the current session. */
  function Moved(l: Ledger, eid: int, target: int): Ledger
    requires eid in l.enrollments && l.enrollments[eid].session in l.sessions && target in l.sessions
  {
    var cur := l.enrollments[eid].session;
    l.(sessions := l.sessions
         [cur := l.sessions[cur].(enrolledCount := l.sessions[cur].enrolledCount - 1)]
         [target := l.sessions[target].(enrolledCount := l.sessions[target].enrolledCount + 1)],
       enrollments := l.enrollments[eid := l.enrollments[eid].(session := target)])
  }

  lemma {:induction false} MovedCounts(l: Ledger, eid: int, target: int)
    requires Consistent(l)
    requires eid in l.enrollments && l.enrollments[eid].isActive
    requires target in l.sessions && IsOpen(l.sessions[target].status)
    requires l.sessions[target].enrolledCount < l.sessions[target].capacity
    requires target != l.enrollments[eid].session
    ensures CountsMatch(Moved(l, eid, target))
  {
    var r := Moved(l, eid, target);
    var cur := l.enrollments[eid].session;
    var moved := l.enrollments[eid].(session := target);
    forall s | s in r.sessions
      ensures r.sessions[s].enrolledCount == |ActiveIds(r.enrollments, s)|
    {
      if s == cur {
        ActiveIdsShrink(l.enrollments, eid, moved, s);
      } else if s == target {
        ActiveIdsGrow(l.enrollments, eid, moved, s);
      } else {
        ActiveIdsKeep(l.enrollments, eid, moved, s);
      }
    }
  }

  lemma {:induction false} MovedWellFormed(l: Ledger, student: int, eid: int, target: int)
    requires Consistent(l)
    requires eid in l.enrollments && l.enrollments[eid].student == student && l.enrollments[eid].isActive
    requires target in l.sessions
    requires !ClashesWith(l.enrollments, eid, student, target)
    ensures WellFormed(Moved(l, eid, target))
    ensures InactiveInCancelled(Moved(l, eid, target))
  {
    var r := Moved(l, eid, target);
    forall a, b | a in r.enrollments && b in r.enrollments && a != b
      ensures r.enrollments[a].student != r.enrollments[b].student ||
              r.enrollments[a].session != r.enrollments[b].session
    {
      if a == eid {
        assert !(l.enrollments[b].student == student && l.enrollments[b].session == target);
      } else if b == eid {
        assert !(l.enrollments[a].student == student && l.enrollments[a].session == target);
      }
    }
  }

  /**
   * The corrected reschedule keeps the ledger consistent, and on a consistent
   * ledger the unique constraint never fires: every row of an open session is
   * active, so the active-enrollment check already caught it.
   */
  lemma {:induction false} ReschedulePreservesConsistency(l: Ledger, student: int, eid: int, target: int)
    requires Consistent(l)
    ensures Consistent(Reschedule(l, student, eid, target).ledger)
    ensures Reschedule(l, student, eid, target).outcome != Rejected(IntegrityError)
  {
    var step := Reschedule(l, student, eid, target);
    if ReschedulePasses(l, student, eid, target) && IsOpen(l.sessions[target].status) {
      var cur := l.enrollments[eid].session;
      assert l.enrollments[eid].isActive;
      assert target != cur by {
        assert HasActive(l.enrollments, student, cur);
      }
      assert !ClashesWith(l.enrollments, eid, student, target) by {
        OpenRowsAreActive(l, student, target);
      }
      assert step.ledger == Moved(l, eid, target);
      MovedCounts(l, eid, target);
      MovedWellFormed(l, student, eid, target);
    }
  }

  lemma {:induction false} TutorCancelPreservesConsistency(l: Ledger, tutor: Option<int>, sid: int)
    requires Consistent(l)
    ensures Consistent(TutorCancelStep(l, tutor, sid).ledger)
    ensures TutorCancelStep(l, tutor, sid).outcome == Success ==>
              |ActiveIds(l.enrollments, sid)| == l.sessions[sid].enrolledCount
  {
    var step := TutorCancelStep(l, tutor, sid);
    if step.outcome == Success {
      var r := step.ledger;
      forall s | s in r.sessions
        ensures r.sessions[s].enrolledCount == |ActiveIds(r.enrollments, s)|
      {
        if s != sid {
          ActiveIdsAfterDeactivate(l.enrollments, sid, s);
        }
      }
      forall e | e in r.enrollments && !r.enrollments[e].isActive
        ensures r.sessions[r.enrollments[e].session].status == Cancelled
      {
        if l.enrollments[e].session != sid {
          assert r.enrollments[e] == l.enrollments[e];
        }
      }
    }
  }

  // ---------------------------------------------------------------------------
  // The views accept exactly what their listings offer
  // ---------------------------------------------------------------------------

  /**
   * On a consistent ledger, enrolling succeeds exactly for a session that
   * `available_sessions` lists and that still has room.
   */
  lemma {:induction false} EnrollSucceedsIffAvailable(l: Ledger, student: int, sid: int)
    requires Consistent(l)
    ensures EnrollStep(l, student, sid).outcome == Success <==>
            sid in AvailableSessions(l, student) && l.sessions[sid].enrolledCount < l.sessions[sid].capacity
  {
    if sid in l.sessions && l.sessions[sid].status == Scheduled {
      OpenRowsAreActive(l, student, sid);
    }
  }

  /**
   * On a consistent ledger, the corrected reschedule of an enrollment in an
   * ongoing session succeeds exactly for a target the GET branch offers and
   * that the student is not already actively enrolled in.
   */
  lemma {:induction false} RescheduleSucceedsIffCandidate(l: Ledger, student: int, eid: int, target: int)
    requires Consistent(l)
    requires eid in l.enrollments && l.enrollments[eid].student == student
    requires l.sessions[l.enrollments[eid].session].status == Ongoing
    ensures Reschedule(l, student, eid, target).outcome == Success <==>
            target in RescheduleCandidates(l.sessions, l.enrollments[eid].session) &&
            !HasActive(l.enrollments, student, target)
  {
    var cur := l.enrollments[eid].session;
    assert HasActive(l.enrollments, student, cur) by {
      assert l.enrollments[eid].isActive;
    }
    if target in RescheduleCandidates(l.sessions, cur) && !HasActive(l.enrollments, student, target) {
      assert !ClashesWith(l.enrollments, eid, student, target) by {
        OpenRowsAreActive(l, student, target);
      }
    }
  }

  // ---------------------------------------------------------------------------
  // A reschedule moves one seat
  // ---------------------------------------------------------------------------

  /** The seat change of moving one active enrollment from `cur` to `target`. */
  function SeatDelta(s: int, cur: int, target: int): int {
    (if s == target then 1 else 0) - (if s == cur then 1 else 0)
  }

  /**
   * A successful reschedule on a consistent ledger frees one seat in the old
   * session, takes one in the target, and changes no other counter.
   */
  lemma {:induction false} RescheduleMovesOneSeat(l: Ledger, student: int, eid: int, target: int)
    requires Consistent(l)
    requires Reschedule(l, student, eid, target).outcome == Success
    ensures var r := Reschedule(l, student, eid, target).ledger;
            var cur := l.enrollments[eid].session;
            && target != cur
            && r.sessions.Keys == l.sessions.Keys
            && r.enrollments[eid].session == target
            && forall s :: s in l.sessions ==>
                 r.sessions[s].enrolledCount == l.sessions[s].enrolledCount + SeatDelta(s, cur, target)
  {
    var cur := l.enrollments[eid].session;
    assert HasActive(l.enrollments, student, cur) by {
      assert l.enrollments[eid].isActive;
    }
  }

  /** Two reschedules in a row add up: the seat ends in the last target. */
  lemma {:induction false} RescheduleTwice(l: Ledger, student: int, eid: int, b: int, c: int)
    requires Consistent(l)
    requires Reschedule(l, student, eid, b).outcome == Success
    requires Reschedule(Reschedule(l, student, eid, b).ledger, student, eid, c).outcome == Success
    ensures var r := Reschedule(Reschedule(l, student, eid, b).ledger, student, eid, c).ledger;
            var a := l.enrollments[eid].session;
            && Consistent(r)
            && r.enrollments[eid].session == c
            && forall s :: s in l.sessions ==>
                 r.sessions[s].enrolledCount == l.sessions[s].enrolledCount + SeatDelta(s, a, c)
  {
    var m := Reschedule(l, student, eid, b).ledger;
    RescheduleMovesOneSeat(l, student, eid, b);
    ReschedulePreservesConsistency(l, student, eid, b);
    RescheduleMovesOneSeat(m, student, eid, c);
    ReschedulePreservesConsistency(m, student, eid, c);
  }

  // ---------------------------------------------------------------------------
  // The reschedule view as written: a cancelled target is accepted
  // ---------------------------------------------------------------------------

  /**
   * Session 1 is ongoing with student 7 enrolled (enrollment 1); session 2 has
   * the same subject and tutor but is cancelled. `withOldRow` adds the inactive
   * enrollment 2 that cancelling session 2 left behind for student 7.
   */
  function FindingLedger(withOldRow: bool): Ledger {
    var current := Session("MATH101-A", 1, 1, "0-2", Time(9, 0, 0), Time(11, 0, 0), 30, 1, Ongoing);
    var cancelled := Session("MATH101-B", 1, 1, "1-3", Time(9, 0, 0), Time(11, 0, 0), 30, 0, Cancelled);
    var rows := if withOldRow then map[1 := Enrollment(7, 1, true), 2 := Enrollment(7, 2, false)]
                else map[1 := Enrollment(7, 1, true)];
    Ledger(map[1 := current, 2 := cancelled], rows, 3, 3)
  }

  lemma {:induction false} FindingLedgerConsistent(withOldRow: bool)
    ensures Consistent(FindingLedger(withOldRow))
  {
    var l := FindingLedger(withOldRow);
    assert ActiveIds(l.enrollments, 1) == {1};
    assert ActiveIds(l.enrollments, 2) == {};
  }

  /**
   * As written, moving enrollment 1 into the cancelled session 2 succeeds and
   * leaves an active enrollment, and a counter of 1, in a cancelled session;
   * the corrected view refuses it and writes nothing.
   */
  lemma {:induction false} RescheduleAsWrittenAcceptsCancelledTarget()
    ensures Consistent(FindingLedger(false))
    ensures RescheduleAsWritten(FindingLedger(false), 7, 1, 2).outcome == Success
    ensures RescheduleAsWritten(FindingLedger(false), 7, 1, 2).ledger.sessions[2].status == Cancelled
    ensures RescheduleAsWritten(FindingLedger(false), 7, 1, 2).ledger.sessions[2].enrolledCount == 1
    ensures !Consistent(RescheduleAsWritten(FindingLedger(false), 7, 1, 2).ledger)
    ensures Reschedule(FindingLedger(false), 7, 1, 2) == Step(FindingLedger(false), Rejected(TargetClosed))
  {
    var l := FindingLedger(false);
    FindingLedgerConsistent(false);
    assert !HasActive(l.enrollments, 7, 2);
    assert !ClashesWith(l.enrollments, 1, 7, 2);
  }

  /**
   * As written, when the student still has the inactive row in the cancelled
   * target, the unique constraint fires after the old session's counter was
   * already saved: session 1 keeps its active enrollment but counts 0.
   */
  lemma {:induction false} RescheduleAsWrittenLosesSeat()
    ensures Consistent(FindingLedger(true))
    ensures RescheduleAsWritten(FindingLedger(true), 7, 1, 2).outcome == Rejected(IntegrityError)
    ensures RescheduleAsWritten(FindingLedger(true), 7, 1, 2).ledger.sessions[1].enrolledCount == 0
    ensures RescheduleAsWritten(FindingLedger(true), 7, 1, 2).ledger.enrollments[1] == Enrollment(7, 1, true)
    ensures !Consistent(RescheduleAsWritten(FindingLedger(true), 7, 1, 2).ledger)
    ensures Reschedule(FindingLedger(true), 7, 1, 2) == Step(FindingLedger(true), Rejected(TargetClosed))
  {
    var l := FindingLedger(true);
    FindingLedgerConsistent(true);
    assert !HasActive(l.enrollments, 7, 2);
    assert ClashesWith(l.enrollments, 1, 7, 2) by {
      assert l.enrollments[2].student == 7 && l.enrollments[2].session == 2;
    }
    var r := RescheduleAsWritten(l, 7, 1, 2).ledger;
    assert 1 in ActiveIds(r.enrollments, 1);
  }
}
