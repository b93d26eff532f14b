# Tutoring centre: a Dafny model of its enrollment ledger, notifications and small record logic

This project models the core of a Django tutoring-centre application.

Students enroll in tutoring sessions, cancel and reschedule their enrollments and see a daily dashboard. Tutors:
- cancel or re-time their sessions;
- keep a weekly availability table;
- set their subject expertise;
- create advising (extra) sessions.

A notification service fans events out to users and to subscribed observers. Users list their notifications, count the unread ones and mark them read. Around these sit the feedback validators, the technical-report resolve state and the library material counters.

The model is written in the source's own form:

- **Enrollment/capacity ledger** (`SessionViews`, `SessionInvariants`).
  - The `Session` and `Enrollment` tables are a `Ledger` value: maps from primary key to row.
  - Each view is a step function that returns the next ledger and an outcome: success, or the named reason the view redirects with.
  - `SessionViews.SessionStore` is a class whose methods write the tables field by field, as the views do. Each method is proved equal to its step function.
  - `SessionStore.RescheduleEnrollment` implements the corrected `reschedule_session`, which also refuses a target that is not scheduled or ongoing. The view as written is `SessionViews.RescheduleAsWritten` (see "## Findings").
  - The ledger invariant `Consistent` says:
    - every counter equals the number of active enrollments of its session and stays within capacity;
    - a cancelled session counts zero;
    - only cancelled sessions hold inactive enrollments;
    - each (student, session) pair has at most one row.
  - Every view except `reschedule_session` as written (see "## Findings") is proved to preserve `Consistent`.
- **Notification store** (`NotificationModels`, `NotificationService`, `NotificationViews`).
  - Notifications are a sequence; a row's index is its primary key and its creation order.
  - Observers are a sequence in insertion order.
  - `NotificationStore` holds both tables. Its methods append, update and deactivate rows.
  - Unread counts and listings are functions over the sequence.
- **Tutor views** (`TutorViews`):
  - the availability upsert and owner-scoped delete, on a class holding the table;
  - the hourly slot list and the `schedule_data` keys of `availability_schedule`, built in loops;
  - `update_expertise`, on a class holding the tutor's subject set;
  - the checks of `create_advising_session`;
  - the tutor dashboard's selection and order.
- **Student dashboard** (`StudentViews`): the loop over active enrollments that collects today's sessions, the sort by start time, and the seven-day advising window.
- **Feedback** (`FeedbackModels`, `FeedbackForms`):
  - the rating choices;
  - the time check shared by `SessionRequest.clean` and the form's `clean`;
  - `clean_date`;
  - `clean_problem_description`, with Python's `str.strip` written out;
  - `TechnicalReport` as a class with `mark_as_resolved`;
  - the `StudentProgress` uniqueness rule.
- **Library** (`LibraryModels`): `Material` as a class with its two counters, `has_file` and `has_external_url`, and `authors_display`.

How the environment is represented:
- Dates are proleptic Gregorian day numbers, as Python's `date.toordinal()` counts them. "Today" and "now" are parameters.
- Times are `Time(hour, minute, second)`, compared field by field.
- Form fields that the views convert with `int(...)` arrive as optional strings. The conversion is `Common.PyInt`: it ignores white space around the number and accepts a '+' or '-' sign and single underscores between digits, as Python's `int()` does.

Points where the model follows the code closely:
- The docstring of `notify` (notification/notification_service.py:32) says observers are used when `recipients` is None. The code tests `if recipients:`, so an empty recipient list also falls through to observer resolution, and the model follows the code.
- `notify` tests `if session_id:`, so a session id of `0` is falsy and selects the general observers.
- `reschedule_session` checks that the current session is ongoing before anything else.

## Model

| member | source | states |
|---|---|---|
| SessionModels.NewSession | tutoring_sessions/models.py:37-39 | a new session is scheduled, has nobody enrolled, capacity 30, so it has room and displays "0/30" |
| SessionModels.DayLabel | tutoring_sessions/models.py:21-29 | a day value has a label exactly when it is one character '0'..'6', and the label is a weekday name |
| SessionModels.DaysDisplayOfCodes | tutoring_sessions/models.py:45-47 | days written as codes joined by '-' display as their weekday names joined by ", ", in order |
| SessionModels.DaysDisplay | tutoring_sessions/models.py:45-47 | the display exists exactly when every '-'-separated part of `days` is a code '0'..'6'; any other part is the source's `KeyError` |
| SessionModels.DayNameHasNoDisplay | tutoring_sessions/models.py:45-47 | a weekday name stored in `days` (as the tutor reschedule view stores it) has no display |
| SessionModels.CapacityDisplay | tutoring_sessions/models.py:49-51 | the capacity display splits at its one '/' into the enrolled count and the capacity, both read back exactly |
| SessionModels.NewAdvising | tutoring_sessions/models.py:76-83 | a new advising session is active and keeps its main session, tutor and date |
| SessionModels.WeekdayName | students/views.py:24-34 | the weekday name of a date is Python's `weekday()` mapped Monday..Sunday (ordinal 1 is a Monday) |
| SessionModels.WeekdayNameWeekly | students/views.py:34 | the weekday name repeats every seven days |
| SessionModels.TimeLeOrders | students/views.py:53 | comparison of times is total and transitive |
| SessionModels.ByStartTimeOrders | students/views.py:53 | ordering sessions by start time is a total preorder |
| SessionModels.ByDateThenStartOrders | students/views.py:68 | ordering advising sessions by (date, start time) is a total preorder |
| SessionViews.CreateSessionStep | tutoring_sessions/models.py:31-39 | creating a session adds exactly one defaulted row and leaves enrollments alone |
| SessionViews.EnrollStep | tutoring_sessions/views.py:72-107 | guards in order: no such session, full, not scheduled, already actively enrolled, then the unique constraint on an inactive row; any refusal changes nothing; success adds one active enrollment and raises that counter by one, never past capacity |
| SessionViews.CancelEnrollmentStep | tutoring_sessions/views.py:24-34 | only the student's own enrollment is deleted; its session's counter drops by one unless already zero, so it never goes negative |
| SessionViews.RescheduleCandidates | tutoring_sessions/views.py:121-129 | a session is offered iff same subject, same tutor, scheduled or ongoing, not the current one, and not full |
| SessionViews.RescheduleAsWritten | tutoring_sessions/views.py:131-164 | the POST branch as written: it writes exactly when every check passes; the old counter drops by one with no floor; the enrollment is repointed and the target's counter rises by one; a refusal by the unique constraint keeps the decrement |
| SessionViews.Reschedule | tutoring_sessions/views.py:131-164 | the POST branch with the target's status also checked: a success passes every check, targets an open session and repoints the enrollment; other refusals change nothing |
| SessionViews.TutorRescheduleStep | tutoring_sessions/views.py:176-201 | only the tutor's own open session with all fields filled is changed, and only its days (a code becomes its weekday name) and times; the ledger invariant is kept |
| SessionViews.Deactivate | tutoring_sessions/views.py:233-242 | the bulk update turns exactly the session's active enrollments inactive, deleting none |
| SessionViews.TutorCancelStep | tutoring_sessions/views.py:216-250 | not a tutor, then not the tutor's own session (404), then not scheduled or ongoing, each refused without change; otherwise the session becomes cancelled with a zero counter and the enrollments become `Deactivate`'s: exactly its active rows turn inactive |
| SessionViews.AvailableSessions | tutoring_sessions/views.py:42-52 | listed iff scheduled and the student holds no active enrollment in it |
| SessionViews.ByClassCodeOrders | tutoring_sessions/views.py:129 | ordering by class code is a total preorder |
| SessionViews.OrderByClassCode | tutoring_sessions/views.py:52 | the result lists exactly the given sessions, once each, sorted by class code |
| SessionViews.SessionStore.constructor | tutoring_sessions/models.py:53-60 | empty tables satisfy the ledger invariant |
| SessionViews.SessionStore.CreateSession | tutoring_sessions/models.py:31-39 | the new tables equal the creation step's, under a fresh key |
| SessionViews.SessionStore.Enroll | tutoring_sessions/views.py:77-104 | the field-by-field writes leave exactly the enroll step's ledger and report its outcome |
| SessionViews.SessionStore.CancelEnrollment | tutoring_sessions/views.py:24-32 | the writes leave exactly the cancel step's ledger |
| SessionViews.SessionStore.RescheduleOptions | tutoring_sessions/views.py:110-129 | the GET branch: refused unless the student's enrollment is in an ongoing session; otherwise exactly the candidates, sorted by class code |
| SessionViews.SessionStore.RescheduleEnrollment | tutoring_sessions/views.py:131-164 | the writes, in the view's order, leave exactly the corrected reschedule's ledger |
| SessionViews.SessionStore.TutorReschedule | tutoring_sessions/views.py:177-198 | the writes leave exactly the tutor reschedule step's ledger |
| SessionViews.SessionStore.TutorCancel | tutoring_sessions/views.py:216-242 | the writes leave exactly the tutor cancel step's ledger, and the reported student count is the number of active enrollments before |
| SessionViews.SessionStore.AvailableSessionList | tutoring_sessions/views.py:37-52 | exactly the available sessions, once each, ordered by class code |
| SessionInvariants.OpenRowsAreActive | tutoring_sessions/models.py:59-60 | under the invariant, a student's row in a session that is not cancelled exists iff an active one does |
| SessionInvariants.CreateSessionPreservesConsistency | tutoring_sessions/models.py:37-39 | creating a session keeps the ledger invariant |
| SessionInvariants.EnrollPreservesConsistency | tutoring_sessions/views.py:81-104 | enrolling keeps every counter equal to its active enrollments and within capacity, and never trips the unique constraint |
| SessionInvariants.CancelEnrollmentPreservesConsistency | tutoring_sessions/views.py:27-32 | cancelling an enrollment keeps the ledger invariant |
| SessionInvariants.ReschedulePreservesConsistency | tutoring_sessions/views.py:131-164 | the corrected reschedule keeps the ledger invariant and never trips the unique constraint |
| SessionInvariants.TutorCancelPreservesConsistency | tutoring_sessions/views.py:228-242 | a tutor cancel keeps the ledger invariant |
| SessionInvariants.EnrollSucceedsIffAvailable | tutoring_sessions/views.py:81-93 | on a consistent ledger enrolling succeeds exactly for a session the available list shows and that has room |
| SessionInvariants.RescheduleSucceedsIffCandidate | tutoring_sessions/views.py:121-151 | from an ongoing session, the corrected reschedule succeeds exactly for an offered candidate the student is not actively enrolled in |
| SessionInvariants.RescheduleMovesOneSeat | tutoring_sessions/views.py:155-164 | a successful reschedule frees one seat in the old session, takes one in the target and changes no other counter |
| SessionInvariants.RescheduleTwice | tutoring_sessions/views.py:155-164 | two reschedules in a row compose: the enrollment ends in the last target |
| SessionInvariants.RescheduleAsWrittenAcceptsCancelledTarget | tutoring_sessions/views.py:131-164 | as written, a move into a cancelled session succeeds and breaks the invariant; the corrected view refuses it |
| SessionInvariants.RescheduleAsWrittenLosesSeat | tutoring_sessions/views.py:153-160 | as written, when the unique constraint refuses the move the old counter stays decremented while the enrollment stays active |
| NotificationModels.NewNotification | notification/models.py:39-44 | a new notification is unread with no read time and carries the given fields |
| NotificationModels.MarkedRead | notification/models.py:62-67 | the result is read; an unread one gets read time now; a read one is unchanged; no other field changes |
| NotificationModels.MarkedReadIdempotent | notification/models.py:62-67 | marking twice is marking once, so the first read time stays |
| NotificationModels.Label | notification/models.py:58-60 | the text is the type, an arrow, the recipient name and the title, each at its place |
| NotificationModels.BroadcastLabel | notification/models.py:59 | a notification without a user names "ALL USERS" |
| NotificationModels.ObserverLabel | notification/models.py:83-85 | the observer text starts with the user and event type and has no suffix exactly when the session id is falsy |
| NotificationModels.ObserverLabelNamesSession | notification/models.py:84 | for a truthy session id the suffix ends in ')' and its number reads back as the session id |
| NotificationService.ObserverUsers | notification/notification_service.py:55-60 | a user is listed iff some active observer of the event type and session id is theirs |
| NotificationService.SessionObserversDistinct | notification/models.py:79 | under the unique constraint a session's observer list names each user at most once |
| NotificationService.FindObserver | notification/notification_service.py:182-187 | the lookup finds a row with that user, event type and session id, or there is none |
| NotificationService.Deactivated | notification/notification_service.py:193-197 | exactly the matching rows become inactive and none is removed |
| NotificationService.SubscribeKeepsUnique | notification/notification_service.py:182-188 | subscribing keeps the observer table unique, and subscribing again changes nothing |
| NotificationService.SubscribeDelivers | notification/notification_service.py:182-188 | after subscribing the user receives the session's events iff there was no row or the row was active: an unsubscribed row is not reactivated |
| NotificationService.UnsubscribeStopsDelivery | notification/notification_service.py:191-197 | after unsubscribing the user no longer receives that session's events, and every other (user, event, session) delivery is unchanged |
| NotificationService.PersonalRows | notification/notification_service.py:89-104 | one unread personal row per list element, in list order, with the given fields |
| NotificationService.BroadcastRow | notification/notification_service.py:114-123 | the broadcast row has no user, is a broadcast, is unread, and has no related object |
| NotificationService.NotifyShape | notification/notification_service.py:40-76 | a broadcast writes exactly one recipient-less row whatever the recipients; otherwise one personal row per resolved recipient, in the given list's order |
| NotificationService.Recipients | notification/notification_service.py:46-76 | a non-empty recipient list is used as given; otherwise a user is a recipient iff an active observer of theirs matches the event type and, for a truthy session id, that session, else no session |
| NotificationService.UserNotifications | notification/notification_service.py:199-214 | exactly the user's personal rows and all broadcasts, unread ones only when asked, newest first |
| NotificationService.PersonalUnread | notification/notification_service.py:219 | at most one per row, and zero iff every row addressed to the user is read |
| NotificationService.BroadcastUnread | notification/notification_service.py:220 | at most one per row, and zero iff every broadcast is read |
| NotificationService.UnreadCount | notification/notification_service.py:216-221 | zero iff every row addressed to the user and every broadcast is read |
| NotificationService.UnreadCountIsListLength | notification/notification_service.py:216-221 | personal unread plus broadcast unread equals the length of the unread listing |
| NotificationService.PersonalRowsCount | notification/notification_service.py:91-103 | a user named k times in the list gains k unread rows; duplicates are kept |
| NotificationService.NotifyRaisesUnread | notification/notification_service.py:40-76 | one notify raises every user's unread count by one for a broadcast, otherwise by the number of times the resolved recipients name them |
| NotificationService.BroadcastReachesEveryone | notification/notification_service.py:200-214 | a new broadcast heads every user's listing exactly once |
| NotificationService.NotificationStore.constructor | notification/models.py:78-79 | empty tables satisfy the observer uniqueness |
| NotificationService.NotificationStore.NotifyUsers | notification/notification_service.py:78-104 | the loop appends exactly the personal rows for the list and returns their new keys in order |
| NotificationService.NotificationStore.Notify | notification/notification_service.py:13-76 | the four branches in order: broadcast, explicit recipients, session observers, general observers; exactly their rows are appended |
| NotificationService.NotificationStore.Subscribe | notification/notification_service.py:179-188 | get-or-create: the table becomes the subscribed table and the returned row matches the request |
| NotificationService.NotificationStore.Unsubscribe | notification/notification_service.py:190-197 | the table becomes the deactivated table; notifications are untouched |
| NotificationService.NotificationStore.RegisterObserver | notification/models.py:78-79 | a second row with the same user, event type and non-null session is refused and nothing changes; otherwise it is appended |
| NotificationViews.AllRead | notification/views.py:53 | exactly the requester's personal unread rows become read, without a read time |
| NotificationViews.AllReadClearsPersonal | notification/views.py:48-54 | afterwards the requester has no personal unread rows; broadcasts, other users' counts and read times are unchanged |
| NotificationViews.MarkReadLowersCount | notification/views.py:36-41 | marking one row read lowers a user's unread count by one iff they saw it unread |
| NotificationViews.MarkNotificationRead | notification/views.py:32-45 | success (200) iff the row exists and is the requester's or a broadcast, and then it is marked read; otherwise 404 and nothing changes |
| NotificationViews.MarkAllRead | notification/views.py:48-54 | always success; the table becomes the all-read table and observers are untouched |
| NotificationViews.BaseTemplate | notification/views.py:14-19 | the tutor layout and tutor dashboard iff the role is "tutor"; every other role the student pair |
| TutorViews.UpsertKeepsUnique | tutors/models.py:47 | storing a row keeps (tutor, weekday, start time) unique and ids fresh |
| TutorViews.UpsertStores | tutors/views.py:216-232 | after storing, the row is present, its slot holds only it, other slots' rows are untouched, and at most one id is new |
| TutorViews.UpsertIdempotent | tutors/views.py:216-232 | storing the same row twice is storing it once |
| TutorViews.AvailabilityTable.constructor | tutors/models.py:46-47 | an empty table is valid |
| TutorViews.AvailabilityTable.SetAvailability | tutors/views.py:205-247 | 400 and no change iff the weekday, a time or the subject cannot be read by `int()` (`Common.PyInt`); otherwise get-or-create then update; the status defaults to "available", an empty subject becomes none, and the reply names the stored row |
| TutorViews.AvailabilityTable.Store | tutors/views.py:215-231 | the table becomes the upserted table, stays valid, and the reply names the stored row |
| TutorViews.AvailabilityTable.DeleteAvailability | tutors/views.py:252-278 | the row is deleted iff the id, read as `int()` reads it, names a row of the requesting tutor; an id `int()` refuses is 400; otherwise 404 and no change |
| Common.PyIntExtendsParseInt | tutors/views.py:209 | `int()` reads every plain decimal numeral (optional '-', then digits) as its value |
| Common.PyIntPlus | tutors/views.py:209 | `int()` accepts a '+' before the digits |
| Common.PyIntIgnoresBlanks | tutors/views.py:209 | a blank before or after the text does not change what `int()` reads |
| Common.PyIntDigitGroups | tutors/views.py:209 | two digit groups joined by one underscore read as their digits together |
| Common.StripBlanks | tutors/views.py:209 | `strip()` removes a blank added at either end |
| TutorViews.TutorRowsInOrder | tutors/views.py:169 | exactly the tutor's rows, once each, in the table's (weekday, start time) order |
| TutorViews.ByWeekdayStartOrders | tutors/models.py:48 | the table's ordering is a total preorder |
| TutorViews.ScheduleData | tutors/views.py:184-188 | one key per distinct "weekday_HH:MM" of the tutor's rows; each key holds a tutor's row with that key, and the latest-starting one wins |
| TutorViews.KeyedByStart | tutors/views.py:185-188 | the loop over rows in table order leaves, under each key, a row with that key starting no earlier than any row with the same key |
| TutorViews.LaterRowWins | tutors/views.py:188 | in table order, a later row with the same key starts no earlier |
| TutorViews.SlotLabelReadsBack | tutors/views.py:180 | a slot label is 11 characters "HHh00-HHh50" whose two-digit fields spell the hour |
| TutorViews.TimeSlots | tutors/views.py:172-181 | 14 slots for hours 7..20, each from hh:00 to hh:50 with its label, strictly ordered without touching |
| TutorViews.ClockText | tutors/views.py:186 | "HH:MM" with both fields zero-padded and no '_' |
| TutorViews.ClockTextInjective | tutors/views.py:186 | two times print alike iff hours and minutes agree |
| TutorViews.KeyPartsInjective | tutors/views.py:187 | the weekday before '_' and the text after it are recovered from the key |
| TutorViews.ScheduleKeyInjective | tutors/views.py:186-187 | two rows share a key iff they share weekday, hour and minute |
| TutorViews.ExpertiseDisplay | tutors/views.py:151 | "N/A" for no names, the name itself for one, otherwise the names joined by ", " |
| TutorViews.Tutor.UpdateExpertise | tutors/views.py:137-156 | the set becomes exactly the given ids that name subjects; the method returns the new set's ids strictly ascending, the only such listing, and the reply is their names in that order |
| TutorViews.CreateAdvising | tutors/views.py:356-386 | missing fields first, then a past date, then a main session not owned by the tutor; created iff all pass, with the given fields and active |
| TutorViews.CreateAdvisingAllowsReversedTimes | tutors/views.py:365-386 | an advising session that ends before it starts is accepted |
| TutorViews.TutorTodaySessions | tutors/views.py:37-41 | the tutor's open sessions whose `days` contains today's weekday name as a substring |
| TutorViews.TutorUpcomingAdvising | tutors/views.py:44-50 | the tutor's active advising sessions dated from today to a week ahead |
| TutorViews.TutorDashboard | tutors/views.py:14-61 | exactly those two sets, once each, by start time and by (date, start time) |
| TutorViews.CodedDaysNeverToday | tutors/views.py:40 | `days` written as codes never contains a weekday name, so such a session never shows on the tutor's dashboard |
| StudentViews.EnrolledSessionIds | students/views.py:37-40 | a session is enrolled iff the student has an active enrollment row for it |
| StudentViews.StudentTodaySessions | students/views.py:43-50 | an enrolled open session whose `days` split on '-' lists today's weekday name |
| StudentViews.StudentUpcomingAdvising | students/views.py:57-68 | active advising of an enrolled session dated from today to a week ahead |
| StudentViews.TodaysSessions | students/views.py:43-50 | the loop over active enrollments yields exactly today's sessions, each once |
| StudentViews.CollectToday | students/views.py:43-50 | the loop lists a session iff one of the given rows is in it and it meets today, and lists none twice when the rows are one student's |
| StudentViews.RowsCoverToday | students/views.py:44-50 | walking the active enrollments in any order meets exactly today's sessions |
| StudentViews.StudentDashboard | students/views.py:12-79 | today's sessions by start time and upcoming advising by (date, start time), exactly and once each |
| StudentViews.StudentMatchIsTutorMatch | students/views.py:48-49 | a session the student sees today also passes the tutor dashboard's substring test |
| StudentViews.ListsDayOfJoinedNames | students/views.py:48-49 | for weekday names joined by '-', today is listed iff its name is one of them |
| StudentViews.CodedDaysNeverListed | students/views.py:48-49 | `days` written as codes never lists a weekday name |
| FeedbackModels.RatingChoicesAreOneToFive | feedback/models.py:9 | the ratings are exactly 1..5, once each, increasing |
| FeedbackModels.SessionRequestClean | feedback/models.py:41-44 | refused iff both times are given and the start is not before the end |
| FeedbackModels.CleanRequestIsOrdered | feedback/models.py:41-44 | an accepted request with both times ends strictly after it starts |
| FeedbackModels.MissingTimePasses | feedback/models.py:42 | a request missing a time always passes |
| FeedbackModels.TechnicalReport.constructor | feedback/models.py:74-89 | a new report is pending, medium priority, unresolved, with no resolve time |
| FeedbackModels.TechnicalReport.MarkAsResolved | feedback/models.py:114-119 | the report becomes resolved at the given time; user, description, priority and notes are unchanged |
| FeedbackModels.InsertProgress | feedback/models.py:142-143 | a second record for the same (student, session) is refused; otherwise it is stored under the fresh key |
| FeedbackModels.InsertProgressKeepsUnique | feedback/models.py:143 | an accepted insert keeps pairs unique and is its pair's only record |
| Common.StripStart | feedback/forms.py:79 | the suffix left after exactly the leading white space |
| Common.StripEnd | feedback/forms.py:79 | the prefix left after exactly the trailing white space |
| Common.StripProperties | feedback/forms.py:75-79 | strip gives a piece of the text with only white space around it and none at its ends; empty iff all white space; stripping twice is stripping once |
| FeedbackForms.CleanProblemDescription | feedback/forms.py:73-79 | refused iff missing or blank, or longer than 150 before stripping, each with its message; otherwise the stripped text |
| FeedbackForms.CleanDescriptionShape | feedback/forms.py:73-79 | an accepted description is 1..150 characters, has no white space at its ends, and is accepted unchanged again |
| FeedbackForms.PaddedDescriptionRefused | feedback/forms.py:77-78 | the method measures the text it receives before stripping: 150 letters plus a space are refused although the stripped text fits |
| FeedbackForms.CleanDate | feedback/forms.py:39-43 | refused iff a date is given and is before today; otherwise the date is passed through |
| FeedbackForms.CleanTimes | feedback/forms.py:45-54 | refused iff both times are given and the start is not before the end |
| FeedbackForms.FormAgreesWithModel | feedback/forms.py:50-52 | the form refuses exactly the times the model's check refuses |
| LibraryModels.AuthorsDisplay | library/models.py:64-67 | empty iff there are no authors (or one unnamed); a single author is shown as is |
| LibraryModels.AuthorsDisplayReadsBack | library/models.py:64-67 | when no name holds a comma, cutting the display at commas gives back the names, each after the first behind one space |
| LibraryModels.Material.constructor | library/models.py:33-50 | a new material is a book in English, active, with zero views and downloads and no file or link |
| LibraryModels.Material.IncrementViewCount | library/models.py:69-72 | the view count rises by exactly one and no other field changes |
| LibraryModels.Material.IncrementDownloadCount | library/models.py:74-77 | the download count rises by exactly one and no other field changes |
| LibraryModels.Material.HasFile | library/models.py:79-82 | true iff a non-empty file name is set |
| LibraryModels.Material.HasExternalUrl | library/models.py:84-87 | true iff a non-empty link is set |

## Left out

- Request plumbing is not modelled: rendering, redirects, flash messages, JSON responses and login checks. Only the outcome kind is kept. URL routing and the admin registrations are left out as well.
- The simulated single sign-on flow in `accounts/views.py` is not part of this model.
- `feedback/views.py`, `library/views.py` and the template tags are not part of this model. The template tags are template glue.
- File uploads are not modelled: session materials, avatars and their forms.
- `notification/context_processors.py` is not part of this model.
- SessionViews.AvailableSessions: the search branch of `available_sessions` is not modelled. Its case-insensitive matching depends on the database collation.
- Concurrency is not modelled: each request is one atomic step. The read-modify-write races on `enrolled_count` are out of scope.
- LibraryModels.Material.IncrementViewCount and LibraryModels.Material.IncrementDownloadCount: lost updates between two concurrent requests are not modelled, because each call is sequential here.
- Wall-clock time is a parameter: `timezone.now()` and `date.today()` are passed in. `created_at` ordering is insertion order.
- Microseconds of time values are not modelled.
- Parsing of time strings is not modelled. A time field arrives already parsed, or as `None` when missing or unreadable.
- SessionViews.TutorRescheduleStep: the start and end times arrive as optional parsed times, and a missing or unreadable time is refused with `MissingFields`. In the source, an unreadable non-empty time such as "9am" passes the `all([...])` check (tutoring_sessions/views.py:189). It is assigned and then `session.save()` raises a server error (tutoring_sessions/views.py:196-198), and nothing is written. The model does not capture that crash.
- SessionViews.RescheduleAsWritten and SessionViews.Reschedule take the target session id as an integer. A non-integer `new_session_id` such as "abc" makes `get_object_or_404` raise a server error in the source (tutoring_sessions/views.py:132-133). The model cannot represent that input.
- TutorViews.CreateAdvising: the date arrives as a day number, the main-session id as an optional integer and the times as optional parsed times. A field that is missing or unreadable arrives as `None` and is refused with `MissingFields`. The source lets three unreadable inputs past its `all([...])` check and then fails with a server error; the model does not capture these crashes:
  - a malformed date string, which fails in `strptime` (tutors/views.py:370);
  - a non-empty `main_session` that is not an integer, such as "abc", which fails in `get_object_or_404` (tutors/views.py:375);
  - an unreadable time string, which fails in `AdvisingSession.objects.create` (tutors/views.py:378-386).
- TutorViews.AvailabilityTable.SetAvailability and TutorViews.AvailabilityTable.DeleteAvailability read their integer fields with `Common.PyInt`, which is narrower than Python's `int()` in two ways. It accepts only the ASCII digits '0'..'9', while `int()` also takes decimal digits of other scripts. It has no limit on the number of digits, while `int()` refuses strings over 4300 digits.
- Two orders are representation choices rather than facts of the source:
  - the observer query in `notify` is taken to return rows in insertion order, which fixes the order of observer-resolved notification rows; the source's query has no `order_by`;
  - `order_by('class_code')` is modelled as code-point order (`Common.StrLe`), while the database orders text by its collation.
- TutorViews.AvailabilityTable.SetAvailability makes three simplifications:
  - it does not check that a subject id names an existing subject, because the foreign key table is not modelled;
  - the reply's `subject_name` lookup is left out;
  - an end time before the start time is stored, as in the source.
- TutorViews.Tutor.UpdateExpertise makes two simplifications:
  - the reply lists names in ascending subject id order, while the source lists them in the database's unspecified order, since `Subject` declares none;
  - non-integer ids are not modelled. In the source they fail after the set was already cleared.
- LibraryModels.AuthorsDisplay takes the authors in the caller's order. The `Author` table's ordering by name is not modelled.
- FeedbackForms.CleanProblemDescription models the method on the value it receives. Django's own field cleaning runs before it and is not modelled: trimming, the required check and the maximum length.
- TutorViews.TutorTodaySessions: `days__contains` is modelled as a case-sensitive substring test. Some databases compare case-insensitively.
- SessionModels.DaysDisplay returns nothing where the source raises `KeyError` for an unknown code.
- NotificationService: the convenience wrappers are not modelled separately. Examples are `notify_session_request_created` and `broadcast_announcement`. They only call `notify` with fixed arguments, which `NotificationService.NotificationStore.Notify` covers.
- NotificationViews: of `notifications_list`, only the template choice is modelled. The listing and count it shows are `UserNotifications` and `UnreadCount`.
- The tutor `student_progress` view's get-or-create is not modelled. Only the `StudentProgress` uniqueness rule it relies on is kept.

## Findings

| source | as written | input that shows it | evidently intended | confidence | as-written member | corrected member |
|---|---|---|---|---|---|---|
| tutoring_sessions/views.py:131-164 | the POST branch of `reschedule_session` never checks the target session's status | An enrollment of student 7 in ongoing session 1 is moved to session 2. Session 2 has the same subject and tutor, but it is cancelled and has room. The move succeeds and leaves an active enrollment counted in a cancelled session. If the student still holds the inactive row in session 2, the unique constraint fails only after session 1's counter was already decremented. | refuse a target that is not scheduled or ongoing, as the candidate list offered by the same view does | not executed | SessionInvariants.RescheduleAsWrittenAcceptsCancelledTarget | SessionInvariants.ReschedulePreservesConsistency |
