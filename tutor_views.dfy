/**
 * The tutor-side views outside the enrollment ledger: the weekly availability
 * table (`set_availability`, `delete_availability`, `availability_schedule`),
 * `update_expertise`, the checks of `create_advising_session`, and the
 * selection made by the tutor `dashboard`.
 *
 * Form fields the view converts with `int(...)` arrive as optional strings;
 * time fields arrive already parsed, `None` standing for a missing or
 * unparsable value.
 */
module TutorViews {
  import opened Common
  import opened SessionModels

  // ---------------------------------------------------------------------------
  // The availability table
  // ---------------------------------------------------------------------------

  /** A `TutorAvailability` row; `subject` is a nullable foreign key. */
  datatype Availability = Availability(
    tutor: int,
    weekday: int,
    startTime: Time,
    endTime: Time,
    status: string,
    subject: Option<int>)

  /** The two rows occupy the same slot `(tutor, weekday, start_time)`. */
  predicate SameSlot(x: Availability, y: Availability) {
    x.tutor == y.tutor && x.weekday == y.weekday && x.startTime == y.startTime
  }

  /** `unique_together = ['tutor', 'weekday', 'start_time']`. */
  predicate UniqueSlots(rows: map<int, Availability>) {
    forall i, j :: i in rows && j in rows && i != j ==> !SameSlot(rows[i], rows[j])
  }

  /** Every primary key in use is below the next one to be handed out. */
  predicate FreshIds(rows: map<int, Availability>, nextId: int) {
    forall k :: k in rows ==> k < nextId
  }

  /** Some row already occupies `a`'s slot. */
  predicate SlotTaken(rows: map<int, Availability>, a: Availability) {
    exists k :: k in rows && SameSlot(rows[k], a)
  }

  /** The table with the occupant of `a`'s slot replaced by `a`. */
  function Overwritten(rows: map<int, Availability>, a: Availability): (r: map<int, Availability>)
    ensures r.Keys == rows.Keys
  {
    map k | k in rows :: if SameSlot(rows[k], a) then a else rows[k]
  }

  /** The table, and the next free id, after storing `a` in its slot: get-or-create, then update. */
  function Upserted(rows: map<int, Availability>, nextId: int, a: Availability): (map<int, Availability>, int) {
    if SlotTaken(rows, a) then (Overwritten(rows, a), nextId) else (rows[nextId := a], nextId + 1)
  }

  /** Storing a row keeps the slots unique and the ids fresh. */
  lemma {:induction false} UpsertKeepsUnique(rows: map<int, Availability>, nextId: int, a: Availability)
    requires UniqueSlots(rows) && FreshIds(rows, nextId)
    ensures UniqueSlots(Upserted(rows, nextId, a).0)
    ensures FreshIds(Upserted(rows, nextId, a).0, Upserted(rows, nextId, a).1)
  {
    var after := Upserted(rows, nextId, a).0;
    if SlotTaken(rows, a) {
      var k :| k in rows && SameSlot(rows[k], a);
    } else {
      assert nextId !in rows;
      forall i, j | i in after && j in after && i != j ensures !SameSlot(after[i], after[j]) {
        if i != nextId && j != nextId {
          assert after[i] == rows[i] && after[j] == rows[j];
        }
      }
    }
  }

  /**
   * After storing `a` the table holds `a`, every row of `a`'s slot is `a`,
   * rows of other slots are untouched, and at most one id is new.
   */
  lemma {:induction false} UpsertStores(rows: map<int, Availability>, nextId: int, a: Availability)
    requires FreshIds(rows, nextId)
    ensures var after := Upserted(rows, nextId, a).0;
            && (exists k :: k in after && after[k] == a)
            && (forall k :: k in after && SameSlot(after[k], a) ==> after[k] == a)
            && (forall k :: k in rows && !SameSlot(rows[k], a) ==> k in after && after[k] == rows[k])
            && after.Keys <= rows.Keys + {nextId}
  {
    var after := Upserted(rows, nextId, a).0;
    if SlotTaken(rows, a) {
      var k :| k in rows && SameSlot(rows[k], a);
      assert after[k] == a;
    } else {
      assert after[nextId] == a;
    }
  }

  /** Storing the same row again changes nothing. */
  lemma {:induction false} UpsertIdempotent(rows: map<int, Availability>, nextId: int, a: Availability)
    requires FreshIds(rows, nextId)
    ensures var (after, next) := Upserted(rows, nextId, a);
            Upserted(after, next, a) == (after, next)
  {
    var (after, next) := Upserted(rows, nextId, a);
    UpsertStores(rows, nextId, a);
    var k :| k in after && after[k] == a;
    assert SlotTaken(after, a);
    assert forall m :: m in after ==> Overwritten(after, a)[m] == after[m];
    assert Overwritten(after, a) == after;
  }

  /** `subject_id if subject_id else None`, with the id then read as an integer. */
  function SubjectChoice(field: Option<string>): Option<Option<int>> {
    if field.None? || field.value == "" then Some(None)
    else match PyInt(field.value)
      case Some(id) => Some(Some(id))
      case None => None
  }

  /** What `set_availability` and `delete_availability` answer. */
  datatype Reply = Saved(id: int, status: string, subject: Option<int>) | Deleted | BadRequest | NotFound

  class AvailabilityTable {
    var rows: map<int, Availability>
    var nextId: int

    ghost predicate Valid()
      reads this
    {
      UniqueSlots(rows) && FreshIds(rows, nextId)
    }

    constructor ()
      ensures Valid() && rows == map[]
    {
      rows := map[];
      nextId := 0;
    }

    /**
     * `set_availability`: get-or-create on `(tutor, weekday, start_time)`; a
     * found row gets the given end time, status (default "available") and
     * subject (empty means none). A field that cannot be converted answers 400
     * and changes nothing.
     */
    method SetAvailability(tutor: int, weekdayField: Option<string>, startTime: Option<Time>,
                           endTime: Option<Time>, subjectField: Option<string>, statusField: Option<string>)
      returns (reply: Reply)
      requires Valid()
      modifies this
      ensures Valid()
      ensures reply.BadRequest? <==>
                weekdayField.None? || PyInt(weekdayField.value).None? || startTime.None? || endTime.None? ||
                SubjectChoice(subjectField).None?
      ensures reply.BadRequest? ==> rows == old(rows) && nextId == old(nextId)
      ensures reply.Saved? ==>
                var a := Availability(tutor, PyInt(weekdayField.value).value, startTime.value, endTime.value,
                                      statusField.GetOr("available"), SubjectChoice(subjectField).value);
                && (rows, nextId) == Upserted(old(rows), old(nextId), a)
                && reply.id in rows && rows[reply.id] == a
                && reply.status == a.status && reply.subject == a.subject
      ensures reply.BadRequest? || reply.Saved?
    {
      if weekdayField.None? || startTime.None? || endTime.None? {
        return BadRequest;
      }
      var parsedWeekday := PyInt(weekdayField.value);
      var parsedSubject := SubjectChoice(subjectField);
      if parsedWeekday.None? || parsedSubject.None? {
        return BadRequest;
      }
      var a := Availability(tutor, parsedWeekday.value, startTime.value, endTime.value,
                            statusField.GetOr("available"), parsedSubject.value);
      reply := Store(a);
    }

    /** The get-or-create and update of `set_availability`, once the fields are converted. */
    method Store(a: Availability) returns (reply: Reply)
      requires Valid()
      modifies this
      ensures Valid()
      ensures (rows, nextId) == Upserted(old(rows), old(nextId), a)
      ensures reply.Saved? && reply.id in rows && rows[reply.id] == a
      ensures reply.status == a.status && reply.subject == a.subject
    {
      UpsertKeepsUnique(rows, nextId, a);
      if k :| k in rows && SameSlot(rows[k], a) {
        var existing := rows[k];
        existing := existing.(endTime := a.endTime, status := a.status, subject := a.subject);
        assert existing == a;
        assert rows[k := existing] == Overwritten(rows, a) by {
          forall m | m in rows && SameSlot(rows[m], a) ensures m == k { }
        }
        rows := rows[k := existing];
        reply := Saved(k, existing.status, existing.subject);
      } else {
        rows := rows[nextId := a];
        reply := Saved(nextId, a.status, a.subject);
        nextId := nextId + 1;
      }
    }

    /**
     * `delete_availability`: removes the row with that id only if it belongs
     * to the requesting tutor; otherwise 404 and nothing changes.
     */
    method DeleteAvailability(tutor: int, idField: Option<string>) returns (reply: Reply)
      requires Valid()
      modifies this
      ensures Valid()
      ensures nextId == old(nextId)
      ensures idField.Some? && PyInt(idField.value).None? <==> reply == BadRequest
      ensures reply == Deleted <==>
                idField.Some? && PyInt(idField.value).Some? &&
                PyInt(idField.value).value in old(rows) && old(rows)[PyInt(idField.value).value].tutor == tutor
      ensures reply == Deleted ==> rows == old(rows) - {PyInt(idField.value).value}
      ensures reply != Deleted ==> rows == old(rows)
      ensures reply == Deleted || reply == NotFound || reply == BadRequest
    {
      if idField.None? {
        return NotFound;
      }
      var parsed := PyInt(idField.value);
      if parsed.None? {
        return BadRequest;
      }
      var id := parsed.value;
      if id !in rows || rows[id].tutor != tutor {
        return NotFound;
      }
      rows := rows - {id};
      return Deleted;
    }
  }

  /** Row values with a real clock time, as `TimeField` stores them. */
  predicate ValidTimes(rows: map<int, Availability>) {
    forall k :: k in rows ==> ValidTime(rows[k].startTime)
  }

  /** `TutorAvailability.objects.filter(tutor=tutor)`: the tutor's row ids in the table's order. */
  method TutorRowsInOrder(rows: map<int, Availability>, tutor: int) returns (ids: seq<int>)
    ensures forall j :: 0 <= j < |ids| ==> ids[j] in rows && rows[ids[j]].tutor == tutor
    ensures forall k :: k in rows && rows[k].tutor == tutor ==> k in ids
    ensures NoDuplicates(ids)
    ensures SortedBy(ids, ByWeekdayStart(rows))
  {
    var mine := set k | k in rows && rows[k].tutor == tutor;
    ByWeekdayStartOrders(rows);
    ids := OrderedBy(mine, ByWeekdayStart(rows));
    SetSeqFacts(ids, mine);
    forall j | 0 <= j < |ids| ensures ids[j] in rows && rows[ids[j]].tutor == tutor {
      assert ids[j] in ids;
    }
  }

  /**
   * `schedule_data` of `availability_schedule`: the tutor's rows, visited in
   * the table's (weekday, start time) order, keyed "<weekday>_<HH:MM>"; a
   * later row with the same key replaces an earlier one, so each key ends up
   * with the row (given by its id) whose start time is latest.
   */
  method ScheduleData(rows: map<int, Availability>, tutor: int) returns (data: map<string, int>)
    requires ValidTimes(rows)
    ensures data.Keys == set k | k in rows && rows[k].tutor == tutor :: ScheduleKey(rows[k])
    ensures forall x :: x in data ==> data[x] in rows && rows[data[x]].tutor == tutor && ScheduleKey(rows[data[x]]) == x
    ensures forall k :: k in rows && rows[k].tutor == tutor ==>
              TimeLe(rows[k].startTime, rows[data[ScheduleKey(rows[k])]].startTime)
  {
    var ids := TutorRowsInOrder(rows, tutor);
    data := KeyedByStart(rows, ids);
    forall k | k in rows && rows[k].tutor == tutor ensures ScheduleKey(rows[k]) in data {
      var j :| 0 <= j < |ids| && ids[j] == k;
    }
  }

  /**
   * The loop of `schedule_data` over rows given in table order: each row is
   * stored under its key, overwriting the previous one.
   */
  method KeyedByStart(rows: map<int, Availability>, ids: seq<int>) returns (data: map<string, int>)
    requires ValidTimes(rows)
    requires forall j :: 0 <= j < |ids| ==> ids[j] in rows
    requires SortedBy(ids, ByWeekdayStart(rows))
    ensures forall x :: x in data ==> data[x] in ids && ScheduleKey(rows[data[x]]) == x
    ensures forall j :: 0 <= j < |ids| ==>
              ScheduleKey(rows[ids[j]]) in data &&
              TimeLe(rows[ids[j]].startTime, rows[data[ScheduleKey(rows[ids[j]])]].startTime)
  {
    data := map[];
    var i := 0;
    while i < |ids|
      invariant 0 <= i <= |ids|
      invariant forall x :: x in data ==> data[x] in ids && ScheduleKey(rows[data[x]]) == x
      invariant forall j :: 0 <= j < i ==>
                  ScheduleKey(rows[ids[j]]) in data &&
                  TimeLe(rows[ids[j]].startTime, rows[data[ScheduleKey(rows[ids[j]])]].startTime)
    {
      var key, id := ScheduleKey(rows[ids[i]]), ids[i];
      var next := data[key := id];
      forall j | 0 <= j <= i
        ensures ScheduleKey(rows[ids[j]]) in next
        ensures TimeLe(rows[ids[j]].startTime, rows[next[ScheduleKey(rows[ids[j]])]].startTime)
      {
        if j < i && ScheduleKey(rows[ids[j]]) == key {
          assert ByWeekdayStart(rows)(ids[j], id);
          LaterRowWins(rows, ids[j], id);
        }
      }
      data := next;
      i := i + 1;
    }
  }

  /**
   * In the table's order, a later row with the same key as an earlier one
   * starts no earlier.
   */
  lemma LaterRowWins(rows: map<int, Availability>, x: int, y: int)
    requires x in rows && y in rows && ValidTime(rows[x].startTime) && ValidTime(rows[y].startTime)
    requires ByWeekdayStart(rows)(x, y)
    requires ScheduleKey(rows[x]) == ScheduleKey(rows[y])
    ensures TimeLe(rows[x].startTime, rows[y].startTime)
  {
    ScheduleKeyInjective(rows[x], rows[y]);
  }

  function AvailabilityOf(rows: map<int, Availability>, id: int): Availability {
    if id in rows then rows[id] else Availability(0, 0, Time(0, 0, 0), Time(0, 0, 0), "", None)
  }

  /** `ordering = ['weekday', 'start_time']` on availability primary keys. */
  function ByWeekdayStart(rows: map<int, Availability>): (int, int) -> bool {
    (a: int, b: int) =>
      var x, y := AvailabilityOf(rows, a), AvailabilityOf(rows, b);
      x.weekday < y.weekday || (x.weekday == y.weekday && TimeLe(x.startTime, y.startTime))
  }

  lemma ByWeekdayStartOrders(rows: map<int, Availability>)
    ensures TotalPreorder(ByWeekdayStart(rows))
  {
    var le := ByWeekdayStart(rows);
    forall a, b, c ensures le(a, b) || le(b, a)
                   ensures le(a, b) && le(b, c) ==> le(a, c) {
      var x, y, z := AvailabilityOf(rows, a), AvailabilityOf(rows, b), AvailabilityOf(rows, c);
      TimeLeOrders(x.startTime, y.startTime, z.startTime);
    }
  }

  // ---------------------------------------------------------------------------
  // Slots and keys of `availability_schedule`
  // ---------------------------------------------------------------------------

  /** One row of the weekly grid. */
  datatype Slot = Slot(start: Time, end: Time, caption: string)

  /** f"{hour:02d}h00-{hour:02d}h50". */
  function SlotLabel(hour: nat): string {
    Pad2(hour) + "h00-" + Pad2(hour) + "h50"
  }

  /** A slot label is eleven characters whose two-digit fields both spell the hour. */
  lemma SlotLabelReadsBack(hour: nat)
    requires hour < 100
    ensures var r := SlotLabel(hour);
            && |r| == 11
            && r[2..6] == "h00-" && r[8..] == "h50"
            && r[..2] == r[6..8] == Pad2(hour)
            && DecimalValue(r[..2]) == hour
  {
    var r := SlotLabel(hour);
    assert r[..2] == Pad2(hour);
    assert r[6..8] == Pad2(hour);
    Pad2RoundTrip(hour);
  }

  /** `time_slots`: one 50-minute slot per hour from 7 to 20. */
  method TimeSlots() returns (slots: seq<Slot>)
    ensures |slots| == 14
    ensures forall i :: 0 <= i < |slots| ==>
              && slots[i].start == Time(7 + i, 0, 0)
              && slots[i].end == Time(7 + i, 50, 0)
              && slots[i].caption == SlotLabel(7 + i)
    ensures forall i :: 0 <= i < |slots| ==> ValidTime(slots[i].start) && TimeLe(slots[i].start, slots[i].end)
    ensures forall i :: 0 <= i < |slots| - 1 ==>
              TimeLe(slots[i].end, slots[i + 1].start) && slots[i].end != slots[i + 1].start
  {
    slots := [];
    var hour := 7;
    while hour < 21
      invariant 7 <= hour <= 21
      invariant |slots| == hour - 7
      invariant forall i :: 0 <= i < |slots| ==>
                  slots[i] == Slot(Time(7 + i, 0, 0), Time(7 + i, 50, 0), SlotLabel(7 + i))
    {
      slots := slots + [Slot(Time(hour, 0, 0), Time(hour, 50, 0), SlotLabel(hour))];
      hour := hour + 1;
    }
  }

  /** `start_time.strftime('%H:%M')`: seconds are dropped. */
  function ClockText(t: Time): (r: string)
    ensures '_' !in r
    ensures ValidTime(t) ==> |r| == 5 && r[..2] == Pad2(t.hour) && r[2] == ':' && r[3..] == Pad2(t.minute)
  {
    var r := Pad2(t.hour) + ":" + Pad2(t.minute);
    assert forall i :: 0 <= i < |r| ==> r[i] == ':' || IsDigit(r[i]);
    r
  }

  /** Two valid times print alike exactly when their hours and minutes agree. */
  lemma ClockTextInjective(s: Time, t: Time)
    requires ValidTime(s) && ValidTime(t)
    ensures ClockText(s) == ClockText(t) <==> s.hour == t.hour && s.minute == t.minute
  {
    if ClockText(s) == ClockText(t) {
      Pad2RoundTrip(s.hour);
      Pad2RoundTrip(t.hour);
      Pad2RoundTrip(s.minute);
      Pad2RoundTrip(t.minute);
    }
  }

  /** The weekday printed before '_' is recovered by splitting there. */
  lemma {:induction false} KeyPartsInjective(v: int, x: string, w: int, y: string)
    requires '_' !in x && '_' !in y
    ensures IntToDecimal(v) + "_" + x == IntToDecimal(w) + "_" + y <==> v == w && x == y
  {
    if IntToDecimal(v) + "_" + x == IntToDecimal(w) + "_" + y {
      assert IntToDecimal(v) + "_" + x == IntToDecimal(v) + ['_'] + x;
      assert IntToDecimal(w) + "_" + y == IntToDecimal(w) + ['_'] + y;
      SplitAtSeparator(IntToDecimal(v), x, '_');
      SplitAtSeparator(IntToDecimal(w), y, '_');
      SplitNoSeparator(x, '_');
      SplitNoSeparator(y, '_');
      var parts := Split(IntToDecimal(v) + "_" + x, '_');
      assert parts == [IntToDecimal(v), x] && parts == [IntToDecimal(w), y];
      assert parts[0] == IntToDecimal(v) == IntToDecimal(w);
      IntRoundTrip(v);
      IntRoundTrip(w);
    }
  }

  /** f"{weekday}_{start_time.strftime('%H:%M')}", the key of `schedule_data`. */
  function ScheduleKey(a: Availability): string {
    IntToDecimal(a.weekday) + "_" + ClockText(a.startTime)
  }

  /** Two rows share a key exactly when they share weekday, hour and minute. */
  lemma ScheduleKeyInjective(a: Availability, b: Availability)
    requires ValidTime(a.startTime) && ValidTime(b.startTime)
    ensures ScheduleKey(a) == ScheduleKey(b) <==>
            a.weekday == b.weekday && a.startTime.hour == b.startTime.hour && a.startTime.minute == b.startTime.minute
  {
    KeyPartsInjective(a.weekday, ClockText(a.startTime), b.weekday, ClockText(b.startTime));
    ClockTextInjective(a.startTime, b.startTime);
  }

  // ---------------------------------------------------------------------------
  // update_expertise
  // ---------------------------------------------------------------------------

  predicate StrictlyAscending(s: seq<int>) {
    forall i, j :: 0 <= i < j < |s| ==> s[i] < s[j]
  }

  /** Past its head, a strictly ascending list holds exactly its other members. */
  lemma TailMembers(s: seq<int>, x: int)
    requires StrictlyAscending(s) && |s| > 0
    ensures x in s[1..] <==> x in s && x != s[0]
  {
    if x in s && x != s[0] {
      var j :| 0 <= j < |s| && s[j] == x;
      assert s[1..][j - 1] == x;
    }
  }

  /** Two strictly ascending lists of the same numbers are the same list. */
  lemma {:induction false} AscendingUnique(a: seq<int>, b: seq<int>)
    requires StrictlyAscending(a) && StrictlyAscending(b)
    requires forall x :: x in a <==> x in b
    ensures a == b
    decreases |a|
  {
    if |a| > 0 {
      assert a[0] in a;
    }
    if |b| > 0 {
      assert b[0] in b;
    }
    if |a| > 0 && |b| > 0 {
      assert a[0] in a && b[0] in b;
      assert a[0] == b[0] by {
        var i :| 0 <= i < |b| && b[i] == a[0];
        var j :| 0 <= j < |a| && a[j] == b[0];
        assert i > 0 ==> b[0] < b[i];
        assert j > 0 ==> a[0] < a[j];
      }
      forall x ensures x in a[1..] <==> x in b[1..] {
        TailMembers(a, x);
        TailMembers(b, x);
      }
      AscendingUnique(a[1..], b[1..]);
    }
  }

  /** A sorted list without repeats is strictly ascending. */
  lemma SortedDistinctAscending(s: seq<int>)
    requires SortedBy(s, (a: int, b: int) => a <= b) && NoDuplicates(s)
    ensures StrictlyAscending(s)
  {
    forall i, j | 0 <= i < j < |s| ensures s[i] < s[j] {
      assert ((a: int, b: int) => a <= b)(s[i], s[j]);
    }
  }

  /** The names of the subjects listed in `order`. */
  function SubjectNames(subjects: map<int, string>, order: seq<int>): (r: seq<string>)
    requires forall i :: 0 <= i < |order| ==> order[i] in subjects
    ensures |r| == |order| && forall i :: 0 <= i < |order| ==> r[i] == subjects[order[i]]
  {
    seq(|order|, i requires 0 <= i < |order| => subjects[order[i]])
  }

  /** The JSON `expertise` string: the names joined by ", ", or "N/A" for none. */
  function ExpertiseDisplay(names: seq<string>): (r: string)
    ensures |names| == 0 ==> r == "N/A"
    ensures |names| == 1 ==> r == names[0]
    ensures |names| > 1 ==> r == names[0] + ", " + Join(names[1..], ", ")
  {
    if |names| == 0 then "N/A" else Join(names, ", ")
  }

  /** A tutor's subject set, as far as `update_expertise` touches it. */
  class Tutor {
    var expertise: set<int>

    constructor (expertise: set<int>)
      ensures this.expertise == expertise
    {
      this.expertise := expertise;
    }

    /**
     * `update_expertise`: the set is cleared and then set to the existing
     * subjects among the given ids; the answer lists the new set's names in
     * ascending id order.
     */
    method UpdateExpertise(subjects: map<int, string>, ids: seq<int>) returns (display: string, listed: seq<int>)
      modifies this
      ensures expertise == set i | i in ids && i in subjects
      ensures StrictlyAscending(listed) && (forall x :: x in listed <==> x in expertise)
      ensures forall i :: 0 <= i < |listed| ==> listed[i] in subjects
      ensures display == ExpertiseDisplay(SubjectNames(subjects, listed))
      ensures forall order :: StrictlyAscending(order) && (forall x :: x in order <==> x in expertise) ==>
                (forall i :: 0 <= i < |order| ==> order[i] in subjects) &&
                display == ExpertiseDisplay(SubjectNames(subjects, order))
    {
      expertise := {};
      if |ids| > 0 {
        expertise := set i | i in ids && i in subjects;
      }
      var order := OrderedBy(expertise, (a: int, b: int) => a <= b);
      SetSeqFacts(order, expertise);
      SortedDistinctAscending(order);
      forall i | 0 <= i < |order| ensures order[i] in subjects {
        assert order[i] in order;
      }
      forall other | StrictlyAscending(other) && (forall x :: x in other <==> x in expertise)
        ensures other == order
      {
        AscendingUnique(other, order);
      }
      display := ExpertiseDisplay(SubjectNames(subjects, order));
      listed := order;
    }
  }

  // ---------------------------------------------------------------------------
  // create_advising_session
  // ---------------------------------------------------------------------------

  /** The POST fields of `create_advising_session`; `None` is a missing or empty field. */
  datatype AdvisingForm = AdvisingForm(
    mainSession: Option<int>,
    date: Option<int>,
    startTime: Option<Time>,
    endTime: Option<Time>,
    location: string,
    notes: string)

  datatype AdvisingOutcome = Created(row: Advising) | MissingFields | PastDate | SessionNotFound

  predicate Complete(f: AdvisingForm) {
    f.mainSession.Some? && f.date.Some? && f.startTime.Some? && f.endTime.Some?
  }

  /**
   * `create_advising_session` (POST): all four required fields, then a date
   * not before today, then a main session owned by this tutor; the start and
   * end times are not compared, and the main session's status is not checked.
   */
  function CreateAdvising(f: AdvisingForm, today: int, sessions: map<int, Session>, tutor: int): (r: AdvisingOutcome)
    ensures !Complete(f) ==> r == MissingFields
    ensures Complete(f) && f.date.value < today ==> r == PastDate
    ensures r.Created? <==>
              Complete(f) && f.date.value >= today &&
              f.mainSession.value in sessions && sessions[f.mainSession.value].tutor == tutor
    ensures r.Created? ==>
              r.row == NewAdvising(f.mainSession.value, tutor, f.date.value, f.startTime.value, f.endTime.value,
                                   f.location, f.notes)
  {
    if !Complete(f) then MissingFields
    else if f.date.value < today then PastDate
    else if f.mainSession.value !in sessions || sessions[f.mainSession.value].tutor != tutor then SessionNotFound
    else Created(NewAdvising(f.mainSession.value, tutor, f.date.value, f.startTime.value, f.endTime.value,
                             f.location, f.notes))
  }

  /** The checks accept an advising session that ends before it starts. */
  lemma CreateAdvisingAllowsReversedTimes(sessions: map<int, Session>, tutor: int, main: int, today: int)
    requires main in sessions && sessions[main].tutor == tutor
    ensures CreateAdvising(AdvisingForm(Some(main), Some(today), Some(Time(11, 0, 0)), Some(Time(9, 0, 0)), "", ""),
                           today, sessions, tutor).Created?
  {
  }

  // ---------------------------------------------------------------------------
  // The tutor dashboard
  // ---------------------------------------------------------------------------

  /** `today_sessions`: the tutor's open sessions whose `days` contains today's weekday name. */
  function TutorTodaySessions(sessions: map<int, Session>, tutor: int, today: int): (r: set<int>)
    ensures forall id :: id in r <==>
              id in sessions && sessions[id].tutor == tutor && IsOpen(sessions[id].status) &&
              Contains(sessions[id].days, WeekdayName(today))
  {
    set id | id in sessions && sessions[id].tutor == tutor && IsOpen(sessions[id].status) &&
             Contains(sessions[id].days, WeekdayName(today))
  }

  /** `upcoming_advising`: the tutor's active advising sessions dated today to a week ahead. */
  function TutorUpcomingAdvising(advising: map<int, Advising>, tutor: int, today: int): (r: set<int>)
    ensures forall id :: id in r <==>
              id in advising && advising[id].tutor == tutor && InAdvisingWindow(advising[id], today)
  {
    set id | id in advising && advising[id].tutor == tutor && InAdvisingWindow(advising[id], today)
  }

  /** The tutor `dashboard`: today's sessions by start time, upcoming advising by date and start time. */
  method TutorDashboard(sessions: map<int, Session>, advising: map<int, Advising>, tutor: int, today: int)
    returns (todaySessions: seq<int>, upcoming: seq<int>)
    ensures multiset(todaySessions) == multiset(TutorTodaySessions(sessions, tutor, today))
    ensures SortedBy(todaySessions, ByStartTime(sessions))
    ensures multiset(upcoming) == multiset(TutorUpcomingAdvising(advising, tutor, today))
    ensures SortedBy(upcoming, ByDateThenStart(advising))
  {
    ByStartTimeOrders(sessions);
    todaySessions := OrderedBy(TutorTodaySessions(sessions, tutor, today), ByStartTime(sessions));
    ByDateThenStartOrders(advising);
    upcoming := OrderedBy(TutorUpcomingAdvising(advising, tutor, today), ByDateThenStart(advising));
  }

  /**
   * `days` written as day codes ('0'..'6' joined by '-'), as the session
   * model's choices describe it, never contains a weekday name, so such a
   * session never appears among the tutor's sessions of the day.
   */
  lemma {:induction false} CodedDaysNeverToday(days: string, today: int)
    requires forall i :: 0 <= i < |days| ==> IsDigit(days[i]) || days[i] == '-'
    ensures !Contains(days, WeekdayName(today))
  {
    var name := WeekdayName(today);
    assert |name| > 0 && 'A' <= name[0] <= 'Z';
    forall i ensures !OccursAt(days, name, i) {
      if 0 <= i && i + |name| <= |days| {
        assert days[i..i + |name|][0] == days[i];
      }
    }
    ContainsAt(days, name);
  }
}
