/**
 * Record shapes of the tutoring-session tables (`Session`, `Enrollment`,
 * `AdvisingSession`), their defaults, the two display helpers
 * `get_days_display` and `capacity_display`, and the weekday and time
 * orderings the dashboards use.
 *
 * Dates are proleptic Gregorian ordinals, as Python's `date.toordinal()`
 * numbers them (day 1 is Monday, 1 January of year 1).
 */
module SessionModels {
  import opened Common

  /** `Session.STATUS_CHOICES`. */
  datatype Status = Scheduled | Ongoing | Completed | Cancelled

  /** A `TimeField` value (microseconds are not modelled). */
  datatype Time = Time(hour: nat, minute: nat, second: nat)

  /** The range of a `datetime.time`. */
  predicate ValidTime(t: Time) {
    t.hour < 24 && t.minute < 60 && t.second < 60
  }

  /** Python's `a <= b` on `datetime.time`: field by field. */
  predicate TimeLe(a: Time, b: Time) {
    a.hour < b.hour ||
    (a.hour == b.hour && (a.minute < b.minute || (a.minute == b.minute && a.second <= b.second)))
  }

  /** `status__in=['scheduled', 'ongoing']`: the statuses a session still runs in. */
  predicate IsOpen(st: Status) {
    st == Scheduled || st == Ongoing
  }

  /** A row of the `Session` table; `subject` and `tutor` are foreign keys. */
  datatype Session = Session(
    classCode: string,
    subject: int,
    tutor: int,
    days: string,
    startTime: Time,
    endTime: Time,
    capacity: int,
    enrolledCount: int,
    status: Status)

  /** A row of the `Enrollment` table; `session` is a foreign key. */
  datatype Enrollment = Enrollment(student: int, session: int, isActive: bool)

  /** The model default of `Session.capacity`. */
  const DefaultCapacity: int := 30

  /**
   * `Session.objects.create(...)` with the model defaults: a new session has
   * room, nobody enrolled and is open for enrollment.
   */
  function NewSession(classCode: string, subject: int, tutor: int, days: string,
                      startTime: Time, endTime: Time): (s: Session)
    ensures s.status == Scheduled
    ensures 0 == s.enrolledCount < s.capacity == DefaultCapacity
    ensures CapacityDisplay(s) == "0/30"
  {
    Session(classCode, subject, tutor, days, startTime, endTime, DefaultCapacity, 0, Scheduled)
  }

  /** `Enrollment.objects.create(student=..., session=...)`: active by default. */
  function NewEnrollment(student: int, session: int): Enrollment {
    Enrollment(student, session, true)
  }

  /** Day names, indexed by `date.weekday()` and by the `DAY_CHOICES` codes. */
  const WeekdayNames: seq<string> :=
    ["Monday", "Tuesday", "Wednesday", "Thursday", "Friday", "Saturday", "Sunday"]

  /** `dict(Session.DAY_CHOICES).get(code)`: codes '0'..'6' name a weekday. */
  function DayLabel(code: string): (r: Option<string>)
    ensures r.Some? <==> |code| == 1 && '0' <= code[0] <= '6'
    ensures r.Some? ==> r.value in WeekdayNames
  {
    if |code| == 1 && '0' <= code[0] <= '6' then Some(WeekdayNames[code[0] as int - '0' as int])
    else None
  }

  /** The code of weekday `d` in `DAY_CHOICES`. */
  function DayCode(d: nat): string
    requires d < 7
  {
    [DigitChar(d)]
  }

  /** The labels of a list of codes, each of which is known. */
  function Labels(codes: seq<string>): (r: seq<string>)
    requires forall i :: 0 <= i < |codes| ==> DayLabel(codes[i]).Some?
    ensures |r| == |codes|
    ensures forall i :: 0 <= i < |codes| ==> r[i] == DayLabel(codes[i]).value
  {
    seq(|codes|, i requires 0 <= i < |codes| => DayLabel(codes[i]).value)
  }

  /**
   * `Session.get_days_display()`: the `days` codes separated by '-', each
   * replaced by its weekday name and joined with ", ". A segment that is not a
   * code raises `KeyError` in the source; here the result is `None`.
   */
  function DaysDisplay(days: string): (r: Option<string>)
    ensures r.Some? <==>
            forall i :: 0 <= i < |Split(days, '-')| ==>
              |Split(days, '-')[i]| == 1 && '0' <= Split(days, '-')[i][0] <= '6'
  {
    var codes := Split(days, '-');
    if forall i :: 0 <= i < |codes| ==> DayLabel(codes[i]).Some? then Some(Join(Labels(codes), ", "))
    else None
  }

  /**
   * For a non-empty list of weekdays written as codes joined by '-', the display
   * is exactly their names joined by ", ".
   */
  lemma DaysDisplayOfCodes(ds: seq<nat>)
    requires |ds| >= 1
    requires forall i :: 0 <= i < |ds| ==> ds[i] < 7
    ensures DaysDisplay(Join(seq(|ds|, i requires 0 <= i < |ds| => DayCode(ds[i])), "-"))
         == Some(Join(seq(|ds|, i requires 0 <= i < |ds| => WeekdayNames[ds[i]]), ", "))
  {
    var codes := seq(|ds|, i requires 0 <= i < |ds| => DayCode(ds[i]));
    SplitJoin(codes, '-');
    assert Split(Join(codes, "-"), '-') == codes;
    assert Labels(codes) == seq(|ds|, i requires 0 <= i < |ds| => WeekdayNames[ds[i]]);
  }

  /** A weekday name, as `tutor_reschedule_session` stores it, is not a day code. */
  lemma DayNameHasNoDisplay(d: nat)
    requires d < 7
    ensures DaysDisplay(WeekdayNames[d]) == None
  {
    SplitNoSeparator(WeekdayNames[d], '-');
  }

  /**
   * `Session.capacity_display`: f"{enrolled_count}/{capacity}". It splits at
   * its single '/' into the two numbers it was made of.
   */
  function CapacityDisplay(s: Session): (r: string)
    ensures |Split(r, '/')| == 2
    ensures ParseInt(Split(r, '/')[0]) == Some(s.enrolledCount)
    ensures ParseInt(Split(r, '/')[1]) == Some(s.capacity)
  {
    var a, b := IntToDecimal(s.enrolledCount), IntToDecimal(s.capacity);
    SplitAtSeparator(a, b, '/');
    SplitNoSeparator(b, '/');
    IntRoundTrip(s.enrolledCount);
    IntRoundTrip(s.capacity);
    assert a + "/" + b == a + ['/'] + b;
    a + "/" + b
  }

  // ---------------------------------------------------------------------------
  // Advising sessions, weekdays and orderings
  // ---------------------------------------------------------------------------

  /** A row of the `AdvisingSession` table: an extra class attached to a main session. */
  datatype Advising = Advising(
    mainSession: int,
    tutor: int,
    date: int,
    startTime: Time,
    endTime: Time,
    location: string,
    notes: string,
    isActive: bool)

  /** `AdvisingSession.objects.create(...)`: active by default. */
  function NewAdvising(mainSession: int, tutor: int, date: int, startTime: Time, endTime: Time,
                       location: string, notes: string): (a: Advising)
    ensures a.isActive
    ensures a.mainSession == mainSession && a.tutor == tutor && a.date == date
  {
    Advising(mainSession, tutor, date, startTime, endTime, location, notes, true)
  }

  /** `weekday_map[d.weekday()]` for the date with ordinal `ord`: `weekday()` is `(ord + 6) % 7`. */
  function WeekdayName(ord: int): (r: string)
    ensures r == WeekdayNames[(ord + 6) % 7]
    ensures ord % 7 == 1 ==> r == "Monday"
    ensures ord % 7 == 0 ==> r == "Sunday"
  {
    WeekdayNames[(ord + 6) % 7]
  }

  /** Seven days on, the weekday is the same. */
  lemma WeekdayNameWeekly(ord: int)
    ensures WeekdayName(ord + 7) == WeekdayName(ord)
  {
    assert (ord + 7 + 6) % 7 == (ord + 6) % 7;
  }

  /** `TimeLe` orders all times: total and transitive. */
  lemma TimeLeOrders(a: Time, b: Time, c: Time)
    ensures TimeLe(a, b) || TimeLe(b, a)
    ensures TimeLe(a, b) && TimeLe(b, c) ==> TimeLe(a, c)
  {
  }

  function StartOf(sessions: map<int, Session>, id: int): Time {
    if id in sessions then sessions[id].startTime else Time(0, 0, 0)
  }

  /** `order_by('start_time')` / `sort(key=lambda s: s.start_time)` on session primary keys. */
  function ByStartTime(sessions: map<int, Session>): (int, int) -> bool {
    (a: int, b: int) => TimeLe(StartOf(sessions, a), StartOf(sessions, b))
  }

  lemma ByStartTimeOrders(sessions: map<int, Session>)
    ensures TotalPreorder(ByStartTime(sessions))
  {
    var le := ByStartTime(sessions);
    forall a, b, c ensures le(a, b) || le(b, a)
                   ensures le(a, b) && le(b, c) ==> le(a, c) {
      TimeLeOrders(StartOf(sessions, a), StartOf(sessions, b), StartOf(sessions, c));
    }
  }

  /** `(date, start_time)` ascending, as `order_by('date', 'start_time')` sorts. */
  predicate AdvisingLe(a: Advising, b: Advising) {
    a.date < b.date || (a.date == b.date && TimeLe(a.startTime, b.startTime))
  }

  function AdvisingOf(rows: map<int, Advising>, id: int): Advising {
    if id in rows then rows[id] else Advising(0, 0, 0, Time(0, 0, 0), Time(0, 0, 0), "", "", false)
  }

  /** `order_by('date', 'start_time')` on advising primary keys. */
  function ByDateThenStart(rows: map<int, Advising>): (int, int) -> bool {
    (a: int, b: int) => AdvisingLe(AdvisingOf(rows, a), AdvisingOf(rows, b))
  }

  lemma ByDateThenStartOrders(rows: map<int, Advising>)
    ensures TotalPreorder(ByDateThenStart(rows))
  {
    var le := ByDateThenStart(rows);
    forall a, b, c ensures le(a, b) || le(b, a)
                   ensures le(a, b) && le(b, c) ==> le(a, c) {
      var x, y, z := AdvisingOf(rows, a), AdvisingOf(rows, b), AdvisingOf(rows, c);
      TimeLeOrders(x.startTime, y.startTime, z.startTime);
    }
  }

  /** An active advising session within `today <= date <= today + 7`. */
  predicate InAdvisingWindow(a: Advising, today: int) {
    a.isActive && today <= a.date <= today + 7
  }
}
