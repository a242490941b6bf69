# Notes, calendar and roadmap: a verified model

This project models the data layer of a small Flask web application. Each logged-in user
keeps three kinds of records:

- **notes**: free text with a timestamp;
- **calendar events**: a date, optional start and end times, a colour, and an optional
  link to a note;
- **roadmap goals**: an ordered list of targets with optional deadlines and completion
  state.

Every table is a map from primary key to record. A JSON handler is a module-level method
that takes the `Models.Database` object as a parameter and changes only the tables its
`modifies` clause names. Each handler is proved
equal to a pure function that returns the reply and the table as committed. The
properties are proved as lemmas about those functions.

All handlers share one ownership guard: a record is read or changed only when its
`user_id` is the caller's. Every error path leaves the tables as they were, because the
handlers roll back.

Modules:

- `Optional`: the `Option` type.
- `Chrono`: the date and time arithmetic and formats the handlers use.
  - Python's `strptime` with '%Y-%m-%d' (the full-date form of section 5.6 of RFC 3339,
    with Python's extra leniency) and with '%H:%M'.
  - `strftime`, date comparison, and `(d1 - d2).days` through day ordinals.
- `Models`: the four record types, their defaults, the shared `Reply` and `Step` shapes,
  primary-key allocation, the delete cascades, and the `Database` class.
- `Roadmap`: the goal store of `website/roadmap.py`.
  - The list view with `days_remaining` and `is_overdue`, create-at-end, and partial
    update.
  - Delete with renumbering to 1..n, reorder, and statistics.
- `Calendar`: the event store of `website/calendar.py`.
  - The calendar-widget list view and the single-event detail.
  - Create, partial update and delete, the note picker, and statistics.
- `Views`: the note handlers of `website/views.py`: adding a note from the home page
  form, deleting a note, and editing a note.

Modelling choices that follow the code rather than a reading of its intent:

- **Tie order in `ORDER BY position`.** SQL leaves ties unordered. The model breaks ties
  by primary key, and a query without `ORDER BY` lists rows by ascending key.
- **New primary keys.** A new row gets one more than the largest key in its table.
- **`get_or_404`.** It raises `NotFound`, and each handler's catch-all decides the status:
  - the calendar's single-event read answers 404;
  - update and delete, of events and goals alike, answer 400.
- **`hasNote`.** It is Python's `bool(note_id)`, so a note id of 0 counts as no note.
  For the same reason `edit_note` answers 400 for note id 0.
- **Note previews ignore ownership.** The list view's `noteContent` follows an event's
  note link whoever owns the note. `create_event` stores `noteId` unchecked, so a user's
  event list can show another user's note. `Calendar.ForeignNoteShown` states this.
- **Deleting a note.** The link has no delete cascade, so events that link the deleted
  note stay and their link becomes null. Deleting a user deletes the user's events and
  goals. The user's notes stay, with a null owner.
- **Goal column defaults.** `create_goal` sets `position` and `is_completed` itself, so
  the defaults 0 and false never apply on the paths modelled here.

## Model

| member | source | states |
|---|---|---|
| `Chrono.BeforeIffNegativeDays` | website/roadmap.py:30-32 | For real dates, `a < b` holds iff `(a - b).days` is negative, and the dates are equal iff it is 0. This ties the list view's day count to the stats' date comparison. |
| `Chrono.ParseDate` | website/calendar.py:80 | `strptime(s, '%Y-%m-%d')` yields only valid Gregorian dates in years 1..9999. |
| `Chrono.ParseTime` | website/calendar.py:86 | `strptime(s, '%H:%M').time()` yields only valid times, and their seconds are zero. |
| `Chrono.ParseFormattedDate` | website/calendar.py:129 | Reading back a date printed with '%Y-%m-%d' gives the same date. |
| `Chrono.ParseFormattedTime` | website/calendar.py:130-131 | Reading back a time printed with '%H:%M' gives that time with its seconds dropped. |
| `Chrono.FormatParsedTime` | website/calendar.py:44-45 | A five-character time that parses prints back as typed with '%H:%M', and as typed plus ":00" with '%H:%M:%S'. |
| `Chrono.OneDigitDateAccepted` | website/calendar.py:80 | strptime accepts one-digit month and day fields. |
| `Chrono.SpacePaddedDayAccepted` | website/calendar.py:80 | strptime accepts a day written as a space and one digit. |
| `Chrono.OneDigitTimeAccepted` | website/calendar.py:86 | strptime accepts one-digit hour and minute fields. |
| `Chrono.LeapDayAccepted` | website/roadmap.py:64 | February 29 parses in a leap year. |
| `Chrono.LeapDayRefused` | website/roadmap.py:64-66 | February 29 of a common year is refused. |
| `Chrono.YearZeroRefused` | website/roadmap.py:64-66 | Year 0 does not parse. |
| `Chrono.HourTwentyFourRefused` | website/calendar.py:86 | Hour 24 does not parse. |
| `Chrono.EmptyRefused` | website/calendar.py:159 | Empty text is neither a date nor a time. |
| `Models.Ascending` | website/calendar.py:25 | Lists a table's keys strictly ascending, each exactly once: the row order of a query without ORDER BY. |
| `Models.NextId` | website/roadmap.py:77-83 | A new row's key is fresh, at least 1, and above every existing key. |
| `Models.UnlinkNote` | website/models.py:25-26 | Deleting a note keeps every event. Only the events that linked that note change, and only their link, which becomes null. |
| `Models.Database.constructor` | website/models.py:6-50 | A new database has four empty tables. |
| `Models.Database.DeleteUser` | website/models.py:48-50 | Removes the user and, by the cascade, the user's events and goals. The user's notes stay with a null owner, and nothing else changes. |
| `Roadmap.ByPosition` | website/roadmap.py:23 | Lists a set of goals, each exactly once, in ascending position order, ties by key. |
| `Roadmap.ByPositionIndexOrder` | website/roadmap.py:141 | In that list, one goal comes before another iff its index is smaller. |
| `Roadmap.ListOrder` | website/roadmap.py:141 | Lists exactly the caller's goals: one entry per goal, each owned by the caller, none missing. The same order backs `User.roadmap_goals` (website/models.py:50). |
| `Roadmap.ListOrderSorted` | website/roadmap.py:141 | The list has no repeats and runs by non-decreasing position. |
| `Roadmap.GetGoals` | website/roadmap.py:21-47 | The loop's reply is the view of each of the caller's goals in list order. |
| `Roadmap.GoalViewsShowGoals` | website/roadmap.py:23-45 | There are as many views as the caller has goals, and each view shows one of the caller's goals. |
| `Roadmap.GoalViewsCoverGoals` | website/roadmap.py:23-26 | Every goal of the caller appears in the list. |
| `Roadmap.GoalViewsListCallersGoals` | website/roadmap.py:23-45 | The list holds exactly the caller's goals, with their stored position and completion. |
| `Roadmap.GoalViewsByPosition` | website/roadmap.py:23 | The listed goals are distinct and in non-decreasing position. |
| `Roadmap.OverdueMeansPastDeadline` | website/roadmap.py:27-32 | `is_overdue` holds iff there is a deadline before today and the goal is not completed. `days_remaining` is positive iff the deadline is after today, and then equals `(deadline - today).days`. |
| `Roadmap.MaxPositionBounds` | website/roadmap.py:58-59 | `MaxPosition` bounds every position the caller holds, and one of the caller's goals reaches it. With no goals it is 0, so the first goal gets position 1. |
| `Roadmap.CreateGoal` | website/roadmap.py:52-88 | Parses the deadline first, then reads the title, then appends the goal at the highest position plus 1. The reply and the new table are those of `GoalCreated`. |
| `Roadmap.CreateGoalAppends` | website/roadmap.py:58-88 | Creation fails with 400 exactly on a missing title or an unparseable non-empty deadline, and then stores nothing. Otherwise it adds one goal under a fresh key: the caller's, not completed, stamped now, with the title sent and the description sent (or ""). Its deadline is the parsed date when a non-empty one was sent, else none. Its position is the caller's highest plus 1, so it comes after all the caller's other goals (position 1 when it is the first). No other goal changes. |
| `Roadmap.CreateKeepsDense` | website/roadmap.py:58-73 | If the caller's positions were 1..n, they are 1..n+1 after a create. |
| `Roadmap.UpdateGoal` | website/roadmap.py:93-124 | Assigns the present keys one by one; the reply and the new table are those of `GoalUpdated`. |
| `Roadmap.UpdateGoalChangesOnlyPresentKeys` | website/roadmap.py:96-113 | A missing goal answers 400, another user's 403, and both leave the table unchanged. For the owner it fails, with 400, exactly on an unparseable non-empty deadline. On success only the target changes. A present title, description or position is stored as sent, and a non-empty deadline as its parsed date; an empty deadline clears it; absent keys keep their values. Completing stamps `completed_at` with now, and un-completing clears it. A position edit leaves other goals alone. |
| `Roadmap.ReorderedSetsListedPositions` | website/roadmap.py:162-167 | Reordering changes only positions. Unknown ids, other users' goals and unlisted goals keep theirs. A listed goal of the caller ends at 1 + the last index of its id. |
| `Roadmap.ReorderedPositionOfListed` | website/roadmap.py:164-167 | In a list without repeats, the caller's goal at index i gets position i + 1. |
| `Roadmap.ReorderedStep` | website/roadmap.py:164-167 | One more pass of the loop sets one more position, and only if that id exists and is the caller's. |
| `Roadmap.ReorderGoals` | website/roadmap.py:158-178 | The loop's final table is `Reordered` of the old table and the list, and the reply is success. |
| `Roadmap.ReorderPermutationIsDense` | website/roadmap.py:162-167 | If the list is a permutation of the caller's goal ids, the caller's positions become exactly 1..n. |
| `Roadmap.PartialReorderBreaksDensity` | website/roadmap.py:162-167 | Reordering A@1, B@2, C@3 with [C, A] gives C@1 and A@2, and leaves B at 2: positions are no longer 1..n. |
| `Roadmap.Renumber` | website/roadmap.py:141-144 | The renumbering loop gives the goal at index i of the reloaded list position i + 1. |
| `Roadmap.DeleteGoal` | website/roadmap.py:129-153 | Removes the goal, reloads the caller's goals and renumbers them. The reply and the new table are those of `GoalDeleted`. |
| `Roadmap.DeleteLeavesDense` | website/roadmap.py:137-144 | After a delete, whatever gaps or repeats there were, the caller's remaining goals hold positions exactly 1..n-1. |
| `Roadmap.RenumberKeepsOrder` | website/roadmap.py:141-143 | Renumbering the caller's goals in list order keeps that order. |
| `Roadmap.DeleteKeepsRelativeOrder` | website/roadmap.py:137-144 | Of two surviving goals, the one listed first before the delete has the smaller position after it. |
| `Roadmap.DeleteTouchesOnlyCallersGoals` | website/roadmap.py:132-144 | A missing goal answers 400 and another user's 403, both with no change. A delete removes only the target; the caller's other goals change at most their position, and other users' goals do not change. |
| `Roadmap.DeleteMiddleGoal` | website/roadmap.py:137-144 | Deleting B from A@1, B@2, C@3 leaves exactly A@1 and C@2. |
| `Roadmap.StatsBounds` | website/roadmap.py:187-194 | completed ≤ total. pending = total − completed, the number of goals not completed. overdue ≤ pending. The completion rate lies between 0 and 100 percent, is 0 with no goals, and is 100 when all goals are done. |
| `Roadmap.StatsOverdueAgreesWithList` | website/roadmap.py:190 | A goal counts as overdue in the stats iff its list view says `is_overdue`. |
| `Calendar.Preview` | website/calendar.py:57-58 | Text of at most n characters comes back unchanged. Longer text is cut to its first n characters followed by "...". |
| `Calendar.GetAllEvents` | website/calendar.py:22-62 | The loop's reply is the view of each of the caller's events, by ascending key. |
| `Calendar.EventViewsListCallersEvents` | website/calendar.py:25-60 | There are as many views as the caller has events, each showing one of the caller's events, in strictly ascending key order. |
| `Calendar.EventViewsCoverEvents` | website/calendar.py:25-28 | Every event of the caller appears in the list. |
| `Calendar.EventViewTiming` | website/calendar.py:42-53 | `allDay` holds iff there is no start time, and then `start` is the date alone. Otherwise `start` is the date, "T" and HH:MM:SS. `end` is present iff an end time is set, and then is the same date, "T" and the end's HH:MM:SS, with `endTime` its HH:MM. The first ten characters of `start` parse back to the event's date. |
| `Calendar.EventViewDefaults` | website/calendar.py:32-37 | An empty title shows as "Untitled" and an empty colour as '#007bff'. `hasNote` holds iff the note id is set and non-zero, and `noteId` is shown exactly then. |
| `Calendar.EventViewNoteContent` | website/calendar.py:56-58 | `noteContent` is present iff the link is truthy and the note exists. It is the note's text when that has at most 200 characters, and otherwise its first 200 characters plus "...". |
| `Calendar.ForeignNoteShown` | website/calendar.py:56-58 | An event of one user that links another user's note lists that note's text. |
| `Calendar.CreateEvent` | website/calendar.py:72-112 | Checks the title and date, then parses the date and the given times, then stores the event. The reply and the new table are those of `EventCreated`. |
| `Calendar.CreateEventStoresRequest` | website/calendar.py:77-99 | Creation fails with 400 exactly when the title or date is missing or empty, or the date or a given time does not parse, and then stores nothing. Otherwise it adds one well-formed event of the caller's under a fresh key. The title, description, colour and note id are stored as sent; the description defaults to "" and the colour to '#007bff'. A start or end time is stored as its parsed value when given, and there is none iff none was given. |
| `Calendar.CreatedEventListsAsTyped` | website/calendar.py:80-99 | A created event lists on the date sent. With an HH:MM start it has `start` = that date, "T", the typed time and ":00", `startTime` as typed, and is not all-day; without a start it is all-day. With an HH:MM end, `end` = the same date, "T", the typed end and ":00", and `endTime` as typed; without an end there is no `end`. |
| `Calendar.SingleEventReadsBack` | website/calendar.py:117-139 | A missing event answers 404 and another user's 403; the reply succeeds exactly for the owner. The detail's date and times parse back to the stored values, and an empty time string means the time is unset. |
| `Calendar.UpdateEvent` | website/calendar.py:144-175 | Assigns the present keys one by one; the reply and the new table are those of `EventUpdated`. |
| `Calendar.UpdateEventChangesOnlyPresentKeys` | website/calendar.py:147-167 | A missing event answers 400 and another user's 403, both with no change. For the owner it fails, with 400, exactly when a sent date or a non-empty sent time does not parse. On success only the target changes. A present title, description, colour or note id is stored as sent, a date or non-empty time as its parsed value, and an empty time clears that time; absent keys keep their values. The event stays well formed. |
| `Calendar.EmptyPatchChangesNothing` | website/calendar.py:154-169 | An owner's update naming no keys succeeds and leaves the table unchanged. |
| `Calendar.UpdateWithOwnDetailChangesNothing` | website/calendar.py:125-167 | Sending an event's own detail back as the update body leaves the table unchanged. |
| `Calendar.DeleteEvent` | website/calendar.py:180-195 | The reply and the new table are those of `EventDeleted`. |
| `Calendar.DeleteEventRemovesOnlyTarget` | website/calendar.py:183-195 | The delete succeeds exactly for the owner. A missing event answers 400 and another user's 403, both with no change. On success only the target goes, and the caller has one event fewer. |
| `Calendar.GetUserNotes` | website/calendar.py:200-213 | The loop's reply is the preview of each of the caller's notes, by ascending key. |
| `Calendar.NotePreviewsShowCallersNotes` | website/calendar.py:202-211 | Lists every note of the caller and no other, by strictly ascending id, so each once, with its full text. The preview is at most 103 characters: the note itself when that has at most 100 characters, else its first 100 characters followed by "...". |
| `Calendar.StatsNested` | website/calendar.py:220-231 | today ≤ month ≤ total. |
| `Views.Home` | website/views.py:14-24 | The POST branch; the outcome and the new notes table are those of `NoteSubmitted`. |
| `Views.HomeStoresNonEmptyNote` | website/views.py:16-24 | A note is added iff the form field is present and non-empty. It is stored as typed, owned by the caller, under a fresh key, and no other note changes. Otherwise nothing is stored. |
| `Views.WhitespaceNoteAccepted` | website/views.py:18 | The text is not trimmed: a note of one space is added. |
| `Views.DeleteNote` | website/views.py:31-40 | The reply and the new notes and events tables are those of `NoteDeleted`. |
| `Views.DeleteNoteRemovesOnlyTarget` | website/views.py:32-40 | A body without `noteId` raises KeyError: a server error (500) with no change. Every other request answers `{}`. Only an existing note of the caller's goes. Otherwise nothing changes. Other notes stay, no event is deleted, and only the events linking the deleted note change, losing the link. |
| `Views.DeleteNoteIdempotent` | website/views.py:34-38 | Deleting the same note twice has the effect of deleting it once. |
| `Views.EditNote` | website/views.py:46-80 | Checks in order, then overwrites the text and timestamp. The reply and the new table are those of `NoteEdited`. |
| `Views.EditErrorPrecedence` | website/views.py:52-61 | 400 iff the id is missing or 0 or the text is missing or empty, before any lookup. Then 404 iff the note does not exist, then 403 iff it is another user's. Success exactly otherwise. Every failure leaves the notes unchanged. |
| `Views.EditStoresNewData` | website/views.py:65-76 | On success the target note holds the new text and now, keeps its owner, and no other note changes. The reply echoes the stored text and timestamp. |
| `Views.EditAfterDeleteNotFound` | website/views.py:55-58 | Once a note is deleted, editing it answers 404. |

## Left out

- The Flask layer: routing, `login_required`, templates, `flash`, `jsonify` and the page
  and test routes. A reply is a status or a record datatype.
- `delete_note` has no `login_required`, so an anonymous caller could reach it.
  Anonymous callers are not modelled: the caller is always a user id.
- The SQLAlchemy session. Each handler is one atomic step that commits its new table or
  leaves the old one. The state between the two commits of `delete_goal`
  (website/roadmap.py:138 and 144) is not modelled.
- Clocks. `date.today()`, `datetime.now()` and `func.now()` are parameters, and time
  zones are not modelled.
- Roadmap.Stats: `completion_rate` is kept as the fraction completed·100 / total. Its
  rounding to one decimal place as a float is not modelled.
- Calendar.GetAllEvents: the catch-all that answers an empty list on an error
  (website/calendar.py:64-67) is not modelled. Every step of building a view is total
  here, so no modelled input reaches it.
- JSON bodies are typed. A text field is a string or absent, an id is an integer or
  absent, and `is_completed` is a boolean.
- Not modelled: a body that is not an object, a `null` where text is expected, a string
  where an id is expected, and the errors those raise. The `noteId` key of an event
  update is the exception: an explicit null is modelled. An explicit null `noteId` sent
  to `delete_note` is not: the model has only an integer or an absent key there.
- `strptime` also accepts non-ASCII Unicode digits. The model accepts ASCII digits only.
- `strftime('%Y')` of years below 1000 is platform-dependent. The model always prints
  four digits.
- The `String(n)` length limits of the columns, which SQLite does not enforce.
- The home page's GET rendering, website/static/index.js and website/__init__.py:
  browser code and application bootstrapping.
- Concurrent requests: races between reorder and delete are left to the database.
