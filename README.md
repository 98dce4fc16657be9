# Tutoring-session confirmation emailer: a Dafny model

The emailer reads the next day's calendar events and a spreadsheet roster of students.
For each tutoring session it sends the student a confirmation message.
This project models the reconciliation pipeline of its main routine (`main()` in `app.py`).
The steps are:

- The **session filter** keeps the events whose description has the tutoring marker and whose summary does not contain `Canceled`. If none remain, the run stops.
- The **roster index** maps each student's email to their name, timezone hint and zoom link. A row too short for the configured columns is skipped, and a later row with the same email overwrites an earlier one.
- The **counterpart** of a session is the last attendee whose address is not the tutor's; it is `""` when there is none.
- The **prompt loop** asks the operator for an address until the answer is `skip` or a roster key. `skip` drops the session.
- The **timezone** comes from the first of `CST`, `EST`, `MST`, `PST` that occurs in the roster hint (case-sensitive substring). When none occurs, the operator names a zone.
- Each **message** has the first name (the text before the first space), the start, the end (always 50 minutes later) and the zoom link. In test mode it goes to the test address with no cc. Otherwise it goes to the student, with the support address in cc.

Configuration constants are fields of `Pipeline.Config`.
Inputs and outside services are parameters of `Pipeline.Run`:

- The fetched events are a sequence of `Sessions.Event`.
- The fetched roster rows are a sequence of `Roster.Row`.
- The operator's console answers are `script`, read front to back. One position index is threaded through the whole run, since both prompts read from the same console.
- The tz database is a function `lookup` from a name to an optional zone.

`Pipeline.Run` must equal the function `Pipeline.RunSpec`. The lemmas about `RunSpec` and about each step's function carry the properties. Because the run is given by a function, two runs on the same inputs give the same messages.

Several inputs stop a run early.

- pytz raises `UnknownTimeZoneError` for a name it does not know. Nothing catches it (app.py:193), so the run stops (`Aborted` with `UnknownZone`).
- The code reads the console with `input()`, which raises at end of input. A prompt with no answer left therefore stops the run (`InputExhausted`).
- A session whose start is a bare date fails the start-time parse and also stops the run (`UnparsableStart`).
- Messages handed to the mail service before such a stop stay sent. `Aborted` keeps them.

## Model

| member | source | states |
|---|---|---|
| `Sessions.FilterSessions` | app.py:130-141 | the filter loop computes `Filter`: the events are checked in order and only the qualifying ones are appended |
| `Sessions.FilterMembers` | app.py:133-141 | an event is in the filtered list exactly when it is an input event whose description contains the marker and whose summary does not contain `Canceled` |
| `Sessions.FilterAppend` | app.py:133-141 | filtering a concatenation gives the concatenation of the filtered parts, so the relative order of the kept events is preserved |
| `Text.ContainsEmbedded` | app.py:183-190 | a fragment embedded anywhere in a longer string is found by the substring test; so each abbreviation inside a longer hint is recognized |
| `Roster.BuildIndex` | app.py:152-160 | the roster loop computes `Index` over the rows in order; a short row is skipped without ending the build |
| `Roster.IndexKeys` | app.py:156-160 | the roster keys are exactly the email cells of the rows that have a cell at each of the four configured columns |
| `Roster.IndexLastWins` | app.py:156-158 | the record stored under an email is the (name, tz, zoom) of the last complete row with that email |
| `Roster.IndexIgnoresIncomplete` | app.py:157-160 | a row too short for some column, wherever it stands, leaves the index as if the row were absent |
| `Attendees.Counterpart` | app.py:164-167 | the attendee scan computes `LastOther` |
| `Attendees.LastOtherIsLastNonTutor` | app.py:164-167 | the counterpart is `""` when every attendee is the tutor, and otherwise a non-tutor attendee after whom only the tutor appears |
| `Attendees.Answer` | app.py:169-178 | when the prompt loop finds an address, it is a roster key other than `skip`, so the three lookups after the loop cannot fail; the answers read stay within the script |
| `Attendees.AnswerAtFirstSettled` | app.py:169-173 | from an unsettled address, the loop reads answers up to and including the first one that is `skip` or a roster key; `skip` skips the session even if it is a roster key, and any other such answer is the match |
| `Attendees.AnswerNeverSettled` | app.py:169-171 | when no answer is ever `skip` or a roster key, the loop reads all answers and the console runs out |
| `Attendees.Reconcile` | app.py:169-173 | the `while` prompt loop computes `Answer` |
| `Timezones.ZoneForFirstMatch` | app.py:183-190 | `ZoneFor`, the `if`/`elif` chain, gives the zone of the first table entry (CST, EST, MST, PST in this order) whose abbreviation occurs in the hint, whatever later entries also occur |
| `Timezones.ZoneForNone` | app.py:183-191 | `ZoneFor` gives no zone exactly when none of the four abbreviations occurs in the hint |
| `Timezones.ResolveZone` | app.py:182-193 | the operator is asked for a zone exactly when no abbreviation occurs. A recognized hint reads no answer and takes the table's zone. An unrecognized hint reads exactly one answer when one is left and looks it up in the tz database, reporting an unknown name. It fails with `NoAnswer` only when no answer is left |
| `Render.FirstName` | app.py:180 | the first name is a prefix of the full name that has no space and is the whole name or is followed by a space |
| `Render.FirstNameOfFullName` | app.py:180 | a given name without spaces, followed by a space and anything else, yields that given name |
| `Pipeline.SessionStep` | app.py:163-215 | the whole outcome of one session follows from its prompt loop. If the answers run out it fails with `InputExhausted`. If the loop ends in `skip` the session is dropped with no message. If the loop matches an address: a timezone prompt with no answer left fails with `InputExhausted`; an unknown zone name fails with `UnknownZone`; a date-only start fails with `UnparsableStart`; otherwise a message is sent. A sent message is rendered for the matched address, with that student's first name and zoom link, the event's own start, the end given by `EndTime` (start + 50), the zone `ResolveZone` settles, and the envelope `Address` gives for the matched address (app.py:209-213). Answers are read only forward and stay within the script |
| `Pipeline.StepSentFor` | app.py:164-213 | the message a session step sends meets every clause of `SentFor` for that session at the position the step starts from: its address is where that session's prompt loop ends, and its start, end, zone, content and envelope are as `RunSends` states |
| `Pipeline.SentForUnique` | app.py:164-213 | `SentFor` admits at most one message for a given session and position |
| `Pipeline.ProcessSession` | app.py:164-215 | the body of the per-session loop computes `SessionStep` |
| `Pipeline.PositionBefore` | app.py:163-173 | the answer position when a session is reached never passes the end of the script |
| `Pipeline.StoppedStaysStopped` | app.py:163-215 | once a session stops the run (an uncaught error), no later session is reached |
| `Pipeline.StopHasCause` | app.py:163-215 | a session that is not reached comes after a reached session whose step failed |
| `Pipeline.SentBeforeFromSteps` | app.py:163-215 | the messages sent before a session number at most one per earlier session. Each is the `SentFor` message of a reached session, at the position the run had there |
| `Pipeline.ReachedSendsUnskipped` | app.py:163-215 | when a session is reached, every earlier session was handled without failing, and one message was sent for each earlier session whose prompt loop did not end in `skip` |
| `Pipeline.ProcessFromFollowsSteps` | app.py:163-215 | the session loop from a reached session either finishes with the messages of all sessions, or stops at a failing session with the messages sent before it |
| `Pipeline.RunSends` | app.py:163-213 | every message is the `SentFor` message of a qualifying event, at the position the run had reached there. It is rendered for the address that event's prompt loop reconciled its counterpart to: a roster key other than `skip`. It carries that student's first name and zoom link. Its start is the event's start, and its end is 50 minutes later, whatever the event's own end. Its zone is the table's for a recognized hint and otherwise that of the operator's answer. It is from the configured sender with no bcc. In test mode it goes to the test address with cc `""`; otherwise it goes to the reconciled student with the support cc. At most one message is sent per qualifying event |
| `Pipeline.RunFollowsSteps` | app.py:163-218 | a run with a qualifying session either finishes with the messages of all sessions, in session order, or stops at a failing session with the messages of the sessions before it |
| `Pipeline.RunFinished` | app.py:163-218 | in a run that finishes, every session was either sent or dropped, and dropped exactly when its prompt loop ended in `skip`. One message went out per session not skipped, in session order |
| `Pipeline.RunStopsEarly` | app.py:130-145 | a run ends with `NoSessions` (no roster or console read, nothing sent) exactly when no event qualifies |
| `Pipeline.Run` | app.py:130-218 | the main routine computes `RunSpec` |

## Left out

- Authentication and credential storage (`auth`, app.py:85-107): file and network I/O.
- Building the Google services and fetching calendar events and sheet values (app.py:116-128, 148-150): network I/O. The fetched events and rows are inputs.
- `CreateMessage` and `SendMessage` (app.py:38-78): MIME and base64 encoding, and the HTTP send with its error printing. The model stops at the message handed to the mail service. Send failures are not modelled.
- Localizing the start into the zone, and the strftime formatting of date and times (app.py:197-202): these are tz-database calls. A message carries its start and end as instants in minutes, plus the zone.
- The end is shown with the start's UTC offset and abbreviation, not by the zone's own rules. The code adds 50 minutes to a pytz-localized datetime without `normalize()`, so a daylight-saving change inside those 50 minutes is not reflected in the end. The model does not capture how either time is shown.
- Loading the templates and `Template.substitute` (app.py:26-35, 204-207): library code. A message carries the values substituted into the body and subject. The failure raised when a template names a placeholder that is not supplied is not modelled.
- pytz's name lookup (including its case-insensitive matching) is the `lookup` parameter. The four table zones are taken to exist.
- `print` diagnostics: the "no events", "no sheet data" and short-row messages, and the closing test-mode line.
- Events missing the `description`, `summary`, `start` or `attendees` key: the code raises on them. The model assumes every event has all four.
- Column positions are natural numbers. Negative (from-the-end) Python indices are not modelled.
- app.py:24 fixes `IS_IN_TEST_MODE = True`, so the program as written never takes the live branch (app.py:212-213). The model generalizes this to the configuration flag `testMode` and covers both branches.
- The unused `start` computed at app.py:134 has no effect and is not modelled.
