/**
 * The feedback app's models: the rating choices of `Feedback`, the time check
 * of `SessionRequest.clean`, the resolve state of `TechnicalReport`, and the
 * one-record-per-(student, session) rule of `StudentProgress`.
 */
module FeedbackModels {
  import opened Common
  import opened SessionModels

  /** The outcome of a Django validator: the cleaned value, or the `ValidationError` message. */
  datatype Checked<T> = Valid(value: T) | Invalid(message: string)

  // ---------------------------------------------------------------------------
  // Feedback
  // ---------------------------------------------------------------------------

  /** `RATING_CHOICES = [(i, i) for i in range(1, 6)]`, as the stored values. */
  const RatingChoices: seq<int> := seq(5, i => i + 1)

  /** The rating choices are exactly the whole numbers one to five, each once, in increasing order. */
  lemma RatingChoicesAreOneToFive(rating: int)
    ensures |RatingChoices| == 5
    ensures rating in RatingChoices <==> 1 <= rating <= 5
    ensures forall i, j :: 0 <= i < j < |RatingChoices| ==> RatingChoices[i] < RatingChoices[j]
  {
    if 1 <= rating <= 5 {
      assert RatingChoices[rating - 1] == rating;
    }
  }

  // ---------------------------------------------------------------------------
  // SessionRequest
  // ---------------------------------------------------------------------------

  datatype DeliveryMode = Online | Offline | Hybrid

  /** A `SessionRequest` row as the validators see it; a time not filled in is `None`. */
  datatype SessionRequest = SessionRequest(
    student: int,
    subject: string,
    deliveryMode: DeliveryMode,
    date: int,
    startTime: Option<Time>,
    endTime: Option<Time>)

  /** Both times are given and the start is not before the end (`start_time >= end_time`). */
  predicate TimesOutOfOrder(startTime: Option<Time>, endTime: Option<Time>) {
    startTime.Some? && endTime.Some? && TimeLe(endTime.value, startTime.value)
  }

  /** `SessionRequest.clean`: rejects a request whose end is not after its start. */
  function SessionRequestClean(r: SessionRequest): (c: Checked<SessionRequest>)
    ensures c.Invalid? <==> r.startTime.Some? && r.endTime.Some? && TimeLe(r.endTime.value, r.startTime.value)
    ensures c.Invalid? ==> c.message == "End time must be after start time"
    ensures c.Valid? ==> c.value == r
  {
    if TimesOutOfOrder(r.startTime, r.endTime) then Invalid("End time must be after start time") else Valid(r)
  }

  /** A request that passes `clean` with both times given ends strictly after it starts. */
  lemma CleanRequestIsOrdered(r: SessionRequest)
    requires SessionRequestClean(r).Valid? && r.startTime.Some? && r.endTime.Some?
    ensures TimeLe(r.startTime.value, r.endTime.value) && r.startTime.value != r.endTime.value
  {
    TimeLeOrders(r.startTime.value, r.endTime.value, r.startTime.value);
  }

  /** A request missing either time passes `clean` whatever the other time is. */
  lemma MissingTimePasses(r: SessionRequest)
    requires r.startTime.None? || r.endTime.None?
    ensures SessionRequestClean(r) == Valid(r)
  {
  }

  // ---------------------------------------------------------------------------
  // TechnicalReport
  // ---------------------------------------------------------------------------

  /** A `TechnicalReport` row; `resolvedAt` is a caller-supplied timestamp. */
  class TechnicalReport {
    var user: int
    var problemDescription: string
    var status: string
    var priority: string
    var resolvedAt: Option<int>
    var adminNotes: Option<string>

    /** `TechnicalReport.objects.create(user=..., problem_description=...)` with the model defaults. */
    constructor (user: int, problemDescription: string)
      ensures this.user == user && this.problemDescription == problemDescription
      ensures status == "pending" && priority == "medium"
      ensures resolvedAt.None? && adminNotes.None?
      ensures !IsResolved()
    {
      this.user := user;
      this.problemDescription := problemDescription;
      status := "pending";
      priority := "medium";
      resolvedAt := None;
      adminNotes := None;
    }

    /** `is_resolved()`. */
    predicate IsResolved()
      reads this
    {
      status == "resolved"
    }

    /** `mark_as_resolved()`: status becomes "resolved" and `resolved_at` the current time; nothing else changes. */
    method MarkAsResolved(now: int)
      modifies this
      ensures IsResolved()
      ensures status == "resolved" && resolvedAt == Some(now)
      ensures user == old(user) && problemDescription == old(problemDescription)
      ensures priority == old(priority) && adminNotes == old(adminNotes)
    {
      status := "resolved";
      resolvedAt := Some(now);
    }
  }

  // ---------------------------------------------------------------------------
  // StudentProgress
  // ---------------------------------------------------------------------------

  /** A `StudentProgress` row: the four metrics default to 0. */
  datatype Progress = Progress(
    enrollment: int,
    student: int,
    session: int,
    tutor: int,
    attendance: int,
    topicsCovered: int,
    comprehensionLevel: int,
    goalsAchieved: int)

  /** `unique_together = ('student', 'session')`. */
  predicate UniqueProgress(rows: map<int, Progress>) {
    forall a, b :: a in rows && b in rows && a != b ==>
      rows[a].student != rows[b].student || rows[a].session != rows[b].session
  }

  /** Some record already exists for the pair. */
  predicate HasProgress(rows: map<int, Progress>, student: int, session: int) {
    exists k :: k in rows && rows[k].student == student && rows[k].session == session
  }

  /**
   * Saving a new record: the database refuses a second record for the same
   * (student, session) pair, and otherwise stores it under `nextId`.
   */
  function InsertProgress(rows: map<int, Progress>, nextId: int, p: Progress): (r: Option<map<int, Progress>>)
    requires nextId !in rows
    ensures r.None? <==> HasProgress(rows, p.student, p.session)
    ensures r.Some? ==> r.value == rows[nextId := p]
  {
    if HasProgress(rows, p.student, p.session) then None else Some(rows[nextId := p])
  }

  /** An accepted insert keeps the pairs unique, and the new record is the pair's only one. */
  lemma {:induction false} InsertProgressKeepsUnique(rows: map<int, Progress>, nextId: int, p: Progress)
    requires nextId !in rows && UniqueProgress(rows)
    ensures InsertProgress(rows, nextId, p).Some? ==> UniqueProgress(InsertProgress(rows, nextId, p).value)
    ensures InsertProgress(rows, nextId, p).Some? ==>
              forall k :: (k in InsertProgress(rows, nextId, p).value &&
                           InsertProgress(rows, nextId, p).value[k].student == p.student &&
                           InsertProgress(rows, nextId, p).value[k].session == p.session) ==> k == nextId
  {
    if !HasProgress(rows, p.student, p.session) {
      var after := rows[nextId := p];
      forall a, b | a in after && b in after && a != b
        ensures after[a].student != after[b].student || after[a].session != after[b].session
      {
        if a == nextId {
          assert b in rows && after[b] == rows[b];
        } else if b == nextId {
          assert a in rows && after[a] == rows[a];
        }
      }
    }
  }
}
