/**
 * The validators of the feedback forms: `SessionRequestForm.clean_date` and
 * `clean`, and `TechnicalReportForm.clean_problem_description`.
 *
 * Dates are day numbers and "today" is a parameter. Each validator receives
 * what `cleaned_data` holds for its field(s), `None` when the field is absent.
 */
module FeedbackForms {
  import opened Common
  import opened SessionModels
  import opened FeedbackModels

  // ---------------------------------------------------------------------------
  // TechnicalReportForm
  // ---------------------------------------------------------------------------

  /** The limit `clean_problem_description` enforces (the model field's `max_length` too). */
  const MaxDescription: nat := 150

  /**
   * `clean_problem_description`: missing, empty or blank text is refused;
   * then text longer than 150 characters, counted before stripping; otherwise
   * the stripped text is the cleaned value.
   */
  function CleanProblemDescription(description: Option<string>): (c: Checked<string>)
    ensures c.Invalid? <==>
              description.None? || Strip(description.value) == "" || |description.value| > MaxDescription
    ensures (description.None? || Strip(description.value) == "") ==>
              c == Invalid("Please describe your technical problem!")
    ensures description.Some? && Strip(description.value) != "" && |description.value| > MaxDescription ==>
              c == Invalid("Description must not exceed 150 characters!")
    ensures c.Valid? ==> c.value == Strip(description.value)
  {
    if description.None? || description.value == "" || Strip(description.value) == "" then
      Invalid("Please describe your technical problem!")
    else if |description.value| > MaxDescription then
      Invalid("Description must not exceed 150 characters!")
    else
      Valid(Strip(description.value))
  }

  /** An accepted description is non-empty, at most 150 characters, and has no white space at either end. */
  lemma CleanDescriptionShape(description: Option<string>)
    requires CleanProblemDescription(description).Valid?
    ensures var d := CleanProblemDescription(description).value;
            && 0 < |d| <= MaxDescription
            && !IsSpace(d[0]) && !IsSpace(d[|d| - 1])
            && CleanProblemDescription(Some(d)) == Valid(d)
  {
    StripProperties(description.value);
  }

  /** The method checks the length of the text as it receives it: 150 letters and a trailing space are refused. */
  lemma PaddedDescriptionRefused()
    ensures var typed := seq(MaxDescription, _ => 'a') + " ";
            && |Strip(typed)| == MaxDescription
            && CleanProblemDescription(Some(typed)).Invalid?
  {
    var letters := seq(MaxDescription, _ => 'a');
    var typed := letters + " ";
    assert StripStart(typed) == typed;
    assert typed[..|typed| - 1] == letters;
    assert StripEnd(letters) == letters;
  }

  // ---------------------------------------------------------------------------
  // SessionRequestForm
  // ---------------------------------------------------------------------------

  /** `clean_date`: a date before today is refused; a missing date passes through. */
  function CleanDate(date: Option<int>, today: int): (c: Checked<Option<int>>)
    ensures c.Invalid? <==> date.Some? && date.value < today
    ensures c.Invalid? ==> c.message == "Date cannot be in the past"
    ensures c.Valid? ==> c.value == date && (date.Some? ==> today <= date.value)
  {
    if date.Some? && date.value < today then Invalid("Date cannot be in the past") else Valid(date)
  }

  /** `SessionRequestForm.clean`: the same time check as the model's `clean`, on the form's cleaned times. */
  function CleanTimes(startTime: Option<Time>, endTime: Option<Time>): (c: Checked<(Option<Time>, Option<Time>)>)
    ensures c.Invalid? <==> startTime.Some? && endTime.Some? && TimeLe(endTime.value, startTime.value)
    ensures c.Invalid? ==> c.message == "End time must be after start time"
    ensures c.Valid? ==> c.value == (startTime, endTime)
  {
    if TimesOutOfOrder(startTime, endTime) then Invalid("End time must be after start time")
    else Valid((startTime, endTime))
  }

  /** The form refuses a request's times exactly when the model's `clean` would. */
  lemma FormAgreesWithModel(r: SessionRequest)
    ensures CleanTimes(r.startTime, r.endTime).Invalid? <==> SessionRequestClean(r).Invalid?
  {
  }
}
