# Serenify booking engine, in Dafny

A model of the appointment booking engine of the Serenify mental-wellness web
application, together with the small pure rules around it. A client asks a
professional for a (date, time slot). The request is refused if the professional
does not exist, if the date is before today, if the slot is already held by a
pending or accepted booking, or if the professional already has five non-declined
bookings that day. Otherwise it is stored as `pending`. The professional then
accepts or declines it, which overwrites the status. The professional's dashboard
lists the bookings from today on, ordered by date and slot, with counters. The
client's support page shows, per professional, the client's latest booking.
Alongside sit the comment rule (blank and duplicate comments are ignored) and the
distress quiz's scoring.

The database is an immutable `seq<Booking>` in row-id order. Every operation is a
pure function from the store to a reply and a new store. Dates are integer day
numbers, and "today", the current time and the set of existing professional ids are
parameters.

Modules, one per file:

- `Wrappers` (`wrappers.dfy`): `Option` and `Result`.
- `Seqs` (`seqs.dfy`): generic `Count`/`Filter` with counting lemmas, and SQLite's
  row-id rule for new primary keys.
- `Text` (`text.dfy`): Python's `str.strip()` and SQLite's text ordering.
- `Bookings` (`bookings.dfy`): the `Appointment` record, the cap of 5, and the store
  invariants.
- `Engine` (`engine.dfy`): booking requests and accept/decline responses.
- `Invariants` (`invariants.dfy`): which operations keep the store valid.
- `Dashboard` (`dashboard.dfy`): the upcoming list and its counters.
- `Lookup` (`lookup.dfy`): the per-professional map on the support page.
- `Comments` (`comments.dfy`): posting a comment.
- `Quiz` (`quiz.dfy`): scoring the quiz.
- `Scenarios` (`scenarios.dfy`): concrete runs (full day, taken slot, freed place,
  past date).

The store is `Valid` when three things hold. Ids are unique. At most one pending or
accepted booking exists per (professional, date, slot). At most 5 non-declined
bookings exist per (professional, date). Requests and declines preserve `Valid`,
over any sequence of them (`Invariants.RunPreservesValid`). Accept is proved to
preserve it when the booking still held its slot (`Invariants.AcceptHeldPreservesValid`).
Accepting a declined booking skips both checks and can break it:
`Invariants.AcceptCanDoubleBook` exhibits a valid store in which it double-books a slot.

Two behaviours of the code are kept as written:

- Responses overwrite the status whatever it was. The code has no one-way
  pending → accepted/declined state machine, so accepted → declined and
  declined → accepted are both possible.
- The professional lookup (a 404) comes before the past-date check, because the code
  fetches the professional before reading the form.

Time slots are opaque labels ordered as SQLite orders text, code point by code
point. So with labels such as "9:00 AM" and "10:00 AM", the dashboard lists
"10:00 AM" first.

## Model

| member | source | states |
|---|---|---|
| `Bookings.Find` | serenify.py:544 | the lookup by primary key returns the row with that id, and returns nothing exactly when no row has that id |
| `Bookings.NextId` | serenify.py:60 | a new appointment's id is positive and differs from every id already in the store |
| `Bookings.DailyCount` | serenify.py:642-646 | the number of the professional's non-declined bookings on that date, never more than the store holds |
| `Bookings.DailyCountIsRowCount` | serenify.py:642-646 | the daily count equals the number of rows the same filter returns, and each such row is a non-declined booking of that professional on that date |
| `Bookings.IsTaken` | serenify.py:630-635 | a slot is taken exactly when the count of pending or accepted bookings with that professional, date and slot label is positive |
| `Engine.NewBooking` | serenify.py:653-663 | the inserted row is `pending`, carries the request's requester, professional, name, mobile, date, slot and notes, and has a fresh id |
| `Engine.RequestBooking` | serenify.py:606-666 | checks in order, first failure wins: an unknown professional is a not-found error; a date before today is refused; a pending or accepted booking on the same (professional, date, slot) is refused as taken, naming slot and date; 5 or more non-declined bookings that day are refused as fully booked; each outcome holds exactly under its condition; every refusal leaves the store unchanged; success appends exactly the new pending booking and keeps every existing row |
| `Engine.ActionStatus` | serenify.py:685 | the action "accept" gives accepted and every other action gives declined; it never gives pending |
| `Engine.SetStatus` | serenify.py:685 | the rows with the given id get the new status; all other rows are unchanged; the length is unchanged |
| `Engine.Respond` | serenify.py:679-688 | an id with no row is a not-found error that leaves the store unchanged; otherwise the booking gets the new status whatever its old status, and no other row changes |
| `Engine.Accept` | serenify.py:542-547 | the accept route fails exactly when no row has the id, and then with a not-found error and the store unchanged; otherwise that booking becomes accepted and no other row changes |
| `Engine.Decline` | serenify.py:550-555 | the decline route fails exactly when no row has the id, and then with a not-found error and the store unchanged; otherwise that booking becomes declined and no other row changes |
| `Engine.UpdateStatus` | serenify.py:679-688 | the update route with action "accept" behaves as the accept route, and with any other action as the decline route |
| `Invariants.RequestPreservesValid` | serenify.py:628-666 | from a valid store, any request (accepted or refused) leaves ids unique, no slot held twice and no day over 5 non-declined bookings |
| `Invariants.OverwriteNeverAdds` | serenify.py:684-685 | a status overwrite that declines, or that touches only holding bookings, raises no daily count and occupies no new slot |
| `Invariants.DeclineNeverAdds` | serenify.py:550-555 | declining never increases any professional's daily count and never makes a free slot taken |
| `Invariants.OverwritePreservesValid` | serenify.py:679-688 | an overwrite that declines, or that touches only pending/accepted bookings, keeps the store valid |
| `Invariants.DeclinePreservesValid` | serenify.py:550-555 | declining any id, found or not, keeps the store valid |
| `Invariants.AcceptHeldPreservesValid` | serenify.py:542-547 | accepting keeps the store valid when the booking was pending or accepted |
| `Invariants.DeclineFreesPlace` | serenify.py:641-646 | declining a pending or accepted booking lowers its professional's count for that day by exactly one |
| `Invariants.RebookAfterDecline` | serenify.py:641-649 | on a day at the cap of 5, a request for a free slot is refused as fully booked, and once one holding booking of that day is declined the same request succeeds |
| `Invariants.AcceptCanDoubleBook` | serenify.py:542-547 | some valid store has a declined booking whose acceptance leaves two holders of one slot |
| `Invariants.RunPreservesValid` | serenify.py:628-666 | any sequence of requests (on any days) and declines keeps a valid store valid |
| `Text.LexLeMatchesDefinition` | serenify.py:707 | the slot ordering agrees with the index definition of lexicographic order: a prefix comes first, and otherwise the smaller character at the first difference decides |
| `Text.LexLeTotal` | serenify.py:707 | any two slot labels are comparable |
| `Text.LexLeTransitive` | serenify.py:707 | the slot ordering is transitive |
| `Dashboard.KeyLe` | serenify.py:707 | orders bookings by date first and, on the same date, by slot label |
| `Dashboard.KeyLeTotal` | serenify.py:707 | any two bookings are comparable by (date, slot) |
| `Dashboard.KeyLeTransitive` | serenify.py:707 | the (date, slot) order is transitive |
| `Dashboard.UpcomingFor` | serenify.py:704-706 | selects the professional's bookings dated today or later |
| `Dashboard.Insert` | serenify.py:707 | inserting into a list ordered by (date, slot) keeps it ordered and adds exactly that booking |
| `Dashboard.SortByKey` | serenify.py:707 | the result is ordered by date and then slot label, and is a permutation of the input |
| `Dashboard.Upcoming` | serenify.py:704-707 | the upcoming list holds exactly the professional's bookings dated today or later, with their multiplicities, ordered by (date ascending, slot ascending) |
| `Dashboard.ProfessionalDashboard` | serenify.py:709-720 | the total is the list length; the today count is the professional's bookings dated today; the pending count is their pending bookings from today on; all three agree with a direct count over the store; both counters are at most the total |
| `Dashboard.CountsFromStore` | serenify.py:710-711 | counting over the sorted upcoming list gives the same numbers as counting over the whole store |
| `Lookup.ApptMap` | serenify.py:578-581 | the map's keys are exactly the professionals the requester has booked; each maps to the requester's last booking with that professional in store order |
| `Text.Strip` | serenify.py:462 | the result is a middle part of the text between two all-whitespace margins; it neither starts nor ends with whitespace; it is empty exactly when the text is all whitespace |
| `Text.StripIdempotent` | serenify.py:462 | stripping an already stripped text changes nothing |
| `Comments.ParentOf` | serenify.py:471-472 | a missing or empty parent field means a top-level comment; any other value is kept |
| `Comments.HasDuplicate` | serenify.py:466-470 | a duplicate exists exactly when the count of comments with that topic, user and text is positive |
| `Comments.AddComment` | serenify.py:462-482 | all-whitespace text adds nothing; a comment with the same topic, user and stripped text adds nothing; otherwise exactly one comment is appended with the stripped text, topic, user, normalised parent, time and a fresh id |
| `Comments.AddCommentIdempotent` | serenify.py:464-482 | posting the same comment twice, at any times and under any parents, gives the same comments as posting it once |
| `Comments.AddCommentPreservesNoDuplicates` | serenify.py:465-482 | posting keeps (topic, user, text) unique among comments |
| `Quiz.TotalScore` | serenify.py:437-453 | a malformed answer anywhere makes the result an error; otherwise the score is the sum of the answers, with missing ones counting 0 |
| `Quiz.Classify` | serenify.py:444-449 | below 20 is low distress, 45 or more is high, and the rest is moderate |
| `Quiz.ClassifyMonotone` | serenify.py:444-449 | a higher score never falls in a lower band |
| `Quiz.SumBounds` | serenify.py:426-431 | with every answer one of the offered options 0-3, the score is between 0 and 3 per question, so at most 78 over the 26 questions |
| `Scenarios.SixthRequestIsFullyBooked` | serenify.py:642-649 | with five pending bookings on a day, a request for a sixth, free slot is refused as fully booked and the store is unchanged |
| `Scenarios.SecondRequestForSlotIsTaken` | serenify.py:630-638 | a second request for a held (professional, date, slot) is refused as taken, naming "10:00" and the date |
| `Scenarios.DeclineThenRebook` | serenify.py:641-646 | after one of five bookings on a full day is declined, the refused request succeeds |
| `Scenarios.YesterdayIsRefused` | serenify.py:622-623 | a request dated yesterday is refused as a past date, and the store is unchanged whatever it holds |

## Left out

- Flask routing, sessions, redirects, flash messages and templates. The logged-in user and the current professional are explicit parameters. The session checks (`username`, `professional_username`, `professional_id`) are not modelled, and neither is the redirect to login.
- Who may respond: none of the accept, decline and update routes checks that the booking belongs to the acting professional. The model takes only the booking id, as the routes do.
- The requester's own lookup (`first_or_404` on the user): this is authentication. The requester id arrives as part of the request.
- SQLAlchemy persistence: the store is a sequence in row-id order. `.all()` without `ORDER BY` is assumed to return rows in that order.
- Column widths (`String(15)`, `String(20)`, `String(100)`, `String(500)`): SQLite does not enforce them, so no truncation is modelled.
- The check-then-insert race between concurrent requests: each call is modelled as one atomic step.
- Parsing the date with `strptime`: dates are day numbers. A malformed date string (a server error in the source) is not modelled.
- Missing form fields (`request.form["full_name"]`, `["mobile"]`, `["time_slot"]`), which raise a client error in the source: the request always carries them.
- Quiz answer parsing: `int()` on the form text is abstracted to an answer that is missing, a parsed integer, or malformed.
- Dashboard.Upcoming: the order among bookings with equal date and slot is not specified, because the SQL query leaves it unspecified. The model keeps store order, but the contract promises only the (date, slot) order and the contents.
- The bare appointments list (`appointments`, ordered by date descending), delete_comment, the professional application, chat, diary, yoga and meditation pages: record-level CRUD or view code with nothing to verify.
- Login, signup and password hashing: authentication through a foreign library.
- The Gemini chatbot: a network call.
- Certificate, image and video uploads: file I/O.
- The chat-polling HTML built by hand: view code.
- The `verified` flag of a professional: booking does not check it in the source, and the model does not either.
