/**
 * The student `dashboard`: the sessions of the student's active enrollments
 * that meet today, by start time, and the active advising sessions of those
 * classes in the coming week, by date and start time.
 *
 * Dates are day numbers counted like Python's `date.toordinal()`; "today" is
 * a parameter.
 */
module StudentViews {
  import opened Common
  import opened SessionModels
  import opened SessionViews

  /** The student's active enrollments, as primary keys. */
  function ActiveEnrollments(l: Ledger, student: int): set<int> {
    set e | e in l.enrollments && l.enrollments[e].student == student && l.enrollments[e].isActive
  }

  /** `enrolled_session_ids`: the sessions of the student's active enrollments. */
  function EnrolledSessionIds(l: Ledger, student: int): (r: set<int>)
    ensures forall sid :: sid in r <==>
              exists e :: e in l.enrollments && l.enrollments[e] == Enrollment(student, sid, true)
  {
    set e | e in ActiveEnrollments(l, student) :: l.enrollments[e].session
  }

  /** Python's `today_code in session.days.split('-')`. */
  predicate ListsDay(days: string, name: string) {
    name in Split(days, '-')
  }

  /** The session is open and its `days` lists today's weekday name. */
  predicate MeetsToday(s: Session, today: int) {
    IsOpen(s.status) && ListsDay(s.days, WeekdayName(today))
  }

  /** `today_sessions`, as a set of session ids. */
  function StudentTodaySessions(l: Ledger, student: int, today: int): (r: set<int>)
    ensures forall sid :: sid in r <==>
              sid in EnrolledSessionIds(l, student) && sid in l.sessions && MeetsToday(l.sessions[sid], today)
  {
    set sid | sid in EnrolledSessionIds(l, student) && sid in l.sessions && MeetsToday(l.sessions[sid], today)
  }

  /** `upcoming_advising`, as a set: active advising of an enrolled class, dated today to a week ahead. */
  function StudentUpcomingAdvising(advising: map<int, Advising>, enrolled: set<int>, today: int): (r: set<int>)
    ensures forall id :: id in r <==>
              id in advising && advising[id].mainSession in enrolled && InAdvisingWindow(advising[id], today)
  {
    set id | id in advising && advising[id].mainSession in enrolled && InAdvisingWindow(advising[id], today)
  }

  /** The enrollment row `e` exists and its session is open and meets today. */
  predicate RowMeetsToday(l: Ledger, e: int, today: int) {
    e in l.enrollments && l.enrollments[e].session in l.sessions &&
    MeetsToday(l.sessions[l.enrollments[e].session], today)
  }

  /** Two different rows of one student name two different sessions. */
  lemma DistinctRowsDistinctSessions(l: Ledger, a: int, b: int)
    requires WellFormed(l)
    requires a in l.enrollments && b in l.enrollments && a != b
    requires l.enrollments[a].student == l.enrollments[b].student
    ensures l.enrollments[a].session != l.enrollments[b].session
  {
  }

  /**
   * The loop of the student `dashboard` over the active enrollments: the
   * session of each one that meets today is appended. Because a student is
   * enrolled in a session at most once, no session is listed twice.
   */
  method TodaysSessions(l: Ledger, student: int, today: int) returns (found: seq<int>)
    requires WellFormed(l)
    ensures multiset(found) == multiset(StudentTodaySessions(l, student, today))
  {
    var rows := SetToSeq(ActiveEnrollments(l, student));
    SetSeqFacts(rows, ActiveEnrollments(l, student));
    forall j | 0 <= j < |rows| ensures rows[j] in l.enrollments && l.enrollments[rows[j]].student == student {
      assert rows[j] in rows;
    }
    found := CollectToday(l, student, today, rows);
    RowsCoverToday(l, student, today, rows);
    forall sid ensures sid in found <==> sid in StudentTodaySessions(l, student, today) {
    }
    DistinctSeqMultiset(found, StudentTodaySessions(l, student, today));
  }

  /** The loop itself, over the student's rows in the order the query returns them. */
  method CollectToday(l: Ledger, student: int, today: int, rows: seq<int>) returns (found: seq<int>)
    requires WellFormed(l)
    requires NoDuplicates(rows)
    requires forall j :: 0 <= j < |rows| ==> rows[j] in l.enrollments && l.enrollments[rows[j]].student == student
    ensures NoDuplicates(found)
    ensures forall sid :: sid in found <==>
              exists j :: 0 <= j < |rows| && RowMeetsToday(l, rows[j], today) && l.enrollments[rows[j]].session == sid
  {
    found := [];
    ghost var origin: seq<int> := [];
    var i := 0;
    while i < |rows|
      invariant 0 <= i <= |rows|
      invariant forall sid :: sid in found <==>
                  exists j :: 0 <= j < i && RowMeetsToday(l, rows[j], today) && l.enrollments[rows[j]].session == sid
      invariant |origin| == |found|
      invariant forall k :: 0 <= k < |found| ==> 0 <= origin[k] < i && l.enrollments[rows[origin[k]]].session == found[k]
      invariant NoDuplicates(found)
    {
      var e := rows[i];
      var sid := l.enrollments[e].session;
      if RowMeetsToday(l, e, today) {
        forall k | 0 <= k < |found| ensures found[k] != sid {
          DistinctRowsDistinctSessions(l, rows[origin[k]], e);
        }
        found := found + [sid];
        origin := origin + [i];
      }
      i := i + 1;
    }
  }

  /** Walking the student's active enrollments, in any order, meets exactly today's sessions. */
  lemma RowsCoverToday(l: Ledger, student: int, today: int, rows: seq<int>)
    requires WellFormed(l)
    requires forall e :: e in rows <==> e in ActiveEnrollments(l, student)
    ensures forall sid :: sid in StudentTodaySessions(l, student, today) <==>
              exists j :: 0 <= j < |rows| && RowMeetsToday(l, rows[j], today) && l.enrollments[rows[j]].session == sid
  {
    forall sid | sid in StudentTodaySessions(l, student, today)
      ensures exists j :: 0 <= j < |rows| && RowMeetsToday(l, rows[j], today) && l.enrollments[rows[j]].session == sid
    {
      var e :| e in l.enrollments && l.enrollments[e] == Enrollment(student, sid, true);
      assert e in ActiveEnrollments(l, student);
      var j :| 0 <= j < |rows| && rows[j] == e;
      assert RowMeetsToday(l, rows[j], today);
    }
    forall sid, j | 0 <= j < |rows| && RowMeetsToday(l, rows[j], today) && l.enrollments[rows[j]].session == sid
      ensures sid in StudentTodaySessions(l, student, today)
    {
      var e := rows[j];
      assert e in rows;
      assert e in ActiveEnrollments(l, student);
      assert l.enrollments[e] == Enrollment(student, sid, true);
    }
  }

  /** The student `dashboard`: today's sessions by start time, upcoming advising by date and start time. */
  method StudentDashboard(l: Ledger, advising: map<int, Advising>, student: int, today: int)
    returns (todaySessions: seq<int>, upcoming: seq<int>)
    requires WellFormed(l)
    ensures multiset(todaySessions) == multiset(StudentTodaySessions(l, student, today))
    ensures SortedBy(todaySessions, ByStartTime(l.sessions))
    ensures multiset(upcoming) == multiset(StudentUpcomingAdvising(advising, EnrolledSessionIds(l, student), today))
    ensures SortedBy(upcoming, ByDateThenStart(advising))
  {
    var found := TodaysSessions(l, student, today);
    ByStartTimeOrders(l.sessions);
    todaySessions := SortBy(found, ByStartTime(l.sessions));
    SortBySorted(found, ByStartTime(l.sessions));
    ByDateThenStartOrders(advising);
    upcoming := OrderedBy(StudentUpcomingAdvising(advising, EnrolledSessionIds(l, student), today),
                          ByDateThenStart(advising));
  }

  /**
   * A session the student dashboard shows for today also passes the tutor
   * dashboard's substring test.
   */
  lemma StudentMatchIsTutorMatch(s: Session, today: int)
    requires MeetsToday(s, today)
    ensures IsOpen(s.status) && Contains(s.days, WeekdayName(today))
  {
    SplitMemberIsSubstring(s.days, '-', WeekdayName(today));
  }

  lemma NoDashInNames(name: string)
    requires name in WeekdayNames
    ensures '-' !in name
  {
    var k :| 0 <= k < 7 && WeekdayNames[k] == name;
    if k == 0 {} else if k == 1 {} else if k == 2 {} else if k == 3 {} else if k == 4 {} else if k == 5 {} else {}
  }

  /** For `days` written as weekday names joined by '-', today is listed exactly when its name is one of them. */
  lemma ListsDayOfJoinedNames(names: seq<string>, today: int)
    requires |names| >= 1
    requires forall i :: 0 <= i < |names| ==> names[i] in WeekdayNames
    ensures ListsDay(Join(names, "-"), WeekdayName(today)) <==> WeekdayName(today) in names
  {
    forall i | 0 <= i < |names| ensures '-' !in names[i] {
      NoDashInNames(names[i]);
    }
    assert "-" == ['-'];
    SplitJoin(names, '-');
  }

  /** `days` written as day codes ('0'..'6' joined by '-') never lists a weekday name. */
  lemma {:induction false} CodedDaysNeverListed(days: string, today: int)
    requires forall i :: 0 <= i < |days| ==> IsDigit(days[i]) || days[i] == '-'
    ensures !ListsDay(days, WeekdayName(today))
  {
    var name := WeekdayName(today);
    assert |name| > 0 && 'A' <= name[0] <= 'Z';
    forall x | x in Split(days, '-') ensures x != name {
      SplitMemberIsSubstring(days, '-', x);
      ContainsAt(days, x);
      var i :| OccursAt(days, x, i);
      if |x| > 0 {
        assert days[i..i + |x|][0] == days[i];
      }
    }
  }
}
