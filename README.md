# Felicity event management — a Dafny model of the backend core

This project models the business logic of the Felicity event-management
backend, with the MongoDB collections held in memory:

- **Events and registrations** (`event_*.dfy`, `registration_model.dfy`,
  `store_invariant.dfy`). `EventWorkflows.EventStore` is a class. Its fields
  are the event map, the order the events were created in, and the
  registration collection, where a registration's id is its position. The
  methods are the handlers of `eventController.js`:
  - the status derived from the clock, written back;
  - creating, publishing, deleting and editing a draft or a live event;
  - registering against the registration limit;
  - the merchandise order state machine (pending, then approved or
    rejected, with per-variant stock);
  - attendance by ticket scan or by manual override;
  - cancellation;
  - the organizer and participant dashboards.

  Every handler's guards, in the order the handler checks them, are a pure
  decision function in `EventDecisions`. The method applies what that
  function returns, as the handler is written. `StoreState.StoreInvariant`
  holds the schema validators, both unique indexes, and
  `0 <= totalRegistrations <= registrationLimit` for every event's counter.
  Every method of the store preserves it, over integer numbers (see
  "Left out" for fractional ones).

  That the counter equals the number of rows holding a place is a separate
  predicate, `StoreState.PlacesCounted`, which the handlers as written do
  not keep. Cancelling a pending merchandise order lowers the counter
  although the order holds no place. A later approval of another order
  then passes the limit check, and the event holds one place more than its
  limit while the counter reads the limit
  (`EventDecisions.PendingCancelOversellsAsWritten`). For the corrected
  cancellation and review (`EventDecisions.CancelOutcome`,
  `EventDecisions.Review`) and for every other decision, the `...Counts`
  lemmas prove that `PlacesCounted` is kept. Where it holds, no event holds
  more places than its limit (`StoreState.CountedWithinLimit`). The
  read-only folds (analytics, dashboard revenue, the dashboard shelves, the
  browse search and recommendation ranking) are functions in
  `EventQueries`.
- **Accounts** (`user_model.dfy`, `reset_request_model.dfy`,
  `accounts.dfy`, `auth.dfy`). `Accounts.AccountStore` holds the users
  and the password-reset requests. Its methods are:
  - profile merge;
  - the password-change checks;
  - organizer creation with the derived login e-mail;
  - enable, disable and delete;
  - follow and unfollow;
  - the reset-request state machine, keeping at most one pending request
    per organizer.

  `Auth` holds participant signup with the IIIT domain rule, and the login
  guard chain with password comparison as a parameter.
- **Discussion and notifications** (`discussion_model.dfy`,
  `discussion.dfy`, `notification_model.dfy`, `notifications.dfy`).
  `Discussion.Board` holds the messages and `Notifications.Inbox` the
  notifications. Posting inserts one notice per recipient. The model also
  covers the reaction toggle, the pin toggle, the one-level delete cascade,
  the newest-first listing of a user's notifications, and mark-as-read.

Mongoose behaviour is written out:
- `trim` and `lowercase` setters are applied when a field is assigned;
- `required`, `maxlength`, `min` and `enum` validators are checked on save
  and fail with `ServerError(ValidationFailed)`;
- unique indexes fail with `ServerError(DuplicateKey)`;
- a `populate` that finds nothing, when the handler then dereferences it,
  fails with `ServerError(MissingReference)`.

The clock, fresh ids, ticket strings, generated passwords and password
hashes are parameters. The caller's id and role come from the
authenticated request and are parameters too. String lengths are measured
in UTF-16 code units, as JavaScript measures them.

## Model

| member | source | states |
|---|---|---|
| Common.RemoveAll | backend/controllers/userController.js:229-231 | The filter removes every occurrence of the id and keeps every other element as often as it was. A list without the id is unchanged, and distinct elements stay distinct. |
| Common.RemoveAllConcat | backend/controllers/userController.js:229-231 | The filter keeps the order of what it keeps: it distributes over concatenation. |
| Common.RemoveAllAppended | backend/controllers/userController.js:229-231 | Removing an id right after appending it to a list that lacked it gives back the list. |
| Common.NoDuplicatesAppend | backend/controllers/userController.js:209-215 | Appending an id that is not yet present keeps the list free of duplicates. |
| Text.TrimIdempotent | backend/models/Event.js:56-61 | The `trim` setter applied twice is applied once. |
| Text.TrimIsTrimmed | backend/models/Event.js:56-61 | A trimmed value has no leading or trailing white space and is no longer than the input. |
| Text.TrimEmptyIffBlank | backend/controllers/discussionController.js:12-14 | `trim() === ""` holds exactly for strings made only of white space. |
| Text.ToLower | backend/models/User.js:25-33 | Lower-casing keeps the length and maps every character. |
| Text.ToLowerIdempotent | backend/models/User.js:25-33 | Lower-casing twice is lower-casing once. |
| Text.LowerTrimCommute | backend/models/User.js:25-33 | The `lowercase` and `trim` setters give the same value in either order. |
| Text.JsLength | backend/models/DiscussionMessage.js:35-40 | The `maxlength` length counts UTF-16 code units: between the number of characters and twice that. |
| Text.RemoveSpaces | backend/controllers/userController.js:115-116 | The result has no white space, keeps only characters of the input, and equals the input when there was none to remove. |
| Text.NormalizeList | backend/models/Event.js:120-127 | Tags and interests are stored element by element trimmed and lower-cased; a value that is not an array is stored as `[]`. |
| Text.NormalizeListIdempotent | backend/models/User.js:70-77 | Setting the stored list again leaves it unchanged. |
| EventModel.ParseEventType | backend/models/Event.js:70-75 | Exactly "normal" and "merchandise" name an event type. |
| EventModel.NewFormField | backend/models/Event.js:3-28 | A stored form field has its label trimmed, `required` defaulting to false and `options` to `[]`. |
| EventModel.NewVariant | backend/models/Event.js:30-52 | A stored variant has size and color trimmed, and stock defaulting to 0. |
| EventModel.NewMerchandiseDetails | backend/models/Event.js:146-157 | The purchase limit is the one sent, defaulting to 1; the variants are the ones sent, each through `NewVariant`, defaulting to `[]`. |
| EventModel.TakeOne | backend/controllers/eventController.js:692 | `stock -= 1` lowers the chosen variant's stock by one and leaves every other variant untouched. |
| EventModel.TakeOneKeepsVariantsValid | backend/models/Event.js:30-52 | Taking from a variant that is in stock keeps every variant valid, with `stock >= 0`. |
| EventModel.FindVariant | backend/controllers/eventController.js:586-588 | `findIndex` gives the first variant with this size and color, or none when no variant matches. |
| RegistrationModel.NewRegistration | backend/models/Registration.js:31-36 | A new row defaults to payment not required, status registered, not attended and no ticket. |
| RegistrationModel.AppendKeepsIndexes | backend/models/Registration.js:94-97 | An insert admitted by both unique indexes (event and participant pair; sparse ticket) keeps both satisfied. |
| RegistrationModel.ReplaceKeepsIndexes | backend/models/Registration.js:44-49 | Saving a row with the same pair and a ticket no other row holds keeps both indexes satisfied. |
| RegistrationModel.FindByTicket | backend/controllers/eventController.js:772-778 | `findOne({ ticketId })` finds a row carrying the ticket, and finds none exactly when no row carries it. |
| RegistrationModel.FindByTicketUnique | backend/models/Registration.js:44-49 | Under the ticket index the row found is the only one with that ticket. |
| RegistrationModel.CountedReplace | backend/controllers/eventController.js:1022-1031 | Replacing one row changes the number of place-holding rows by what that row counted before and after. |
| RegistrationModel.CountedAppend | backend/controllers/eventController.js:447-456 | An appended row adds one to the count exactly when it holds a place. |
| RegistrationModel.CountRegistered | backend/controllers/eventController.js:600-605 | The count equals the number of the participant's `registered` rows for the event (`RegisteredRows`); it is positive iff such a row exists. |
| EventLifecycle.DeriveStatus | backend/controllers/eventController.js:47-62 | Draft and completed never change. Published becomes ongoing once started. Published or ongoing becomes completed once the end has passed. All four directions are stated as if-and-only-if. |
| EventLifecycle.DeriveNeverBackwards | backend/controllers/eventController.js:47-62 | Deriving never moves a status backwards along draft, published, ongoing, completed. |
| EventLifecycle.DeriveIdempotent | backend/controllers/eventController.js:47-62 | Deriving twice at the same instant is deriving once. |
| EventLifecycle.DeriveComposes | backend/controllers/eventController.js:47-62 | Deriving at an earlier and then a later instant is deriving at the later one. |
| EventLifecycle.DeriveBoundaries | backend/controllers/eventController.js:51-59 | The start instant makes a published event ongoing; one past the end makes it completed; the end instant itself does not. |
| EventLifecycle.Synced | backend/controllers/eventController.js:47-67 | Only the status changes, to the derived one, and never backwards. Writing it back again at the same instant changes nothing. |
| EventDecisions.CreateEventCheck | backend/controllers/eventController.js:309-362 | Accepted iff the type is known, the limit is given, the fee is not negative, start is before end, the deadline is not after the start, and the type's details are given. Each failure gives its own message, first failure first, including the deadline message and the missing form fields or variants of each type. |
| EventDecisions.NewEvent | backend/controllers/eventController.js:364-380 | The new event is a draft with no registrations, the strings trimmed, the dates and limit sent, the fee defaulting to 0, tags normalised, and only the details of its own type. |
| EventDecisions.NewFormFields | backend/models/Event.js:3-28 | Every form field sent is stored through the schema defaults, in order. |
| EventDecisions.DraftPatch | backend/controllers/eventController.js:1233 | A draft edit changes only the fields sent, through their setters: name, description, type, eligibility, dates, limit, fee, tags, form fields and merchandise. It never changes the status, the counter, the owner or the form lock. An unknown type is refused. |
| EventDecisions.PublishedEdit | backend/controllers/eventController.js:1242-1270 | A published event takes a new description, a strictly later deadline, a strictly larger limit and the move to completed, and nothing else; an accepted edit stores exactly the deadline and the limit sent, or keeps the old ones. Any other deadline or limit is refused with its own message, the deadline first. |
| EventDecisions.DraftEdit | backend/controllers/eventController.js:1225-1240 | Form fields are locked once the draft has registrations. Otherwise the edit is accepted iff the type sent is known and `DraftPatch`'s result passes the validators, and the event saved is exactly that patch. It keeps status, owner and counter. |
| EventDecisions.SavedEdit | backend/controllers/eventController.js:1233-1234 | An edit is saved exactly when the validators accept the edited event. |
| EventDecisions.EditOutcome | backend/controllers/eventController.js:1225-1289 | A draft takes `DraftEdit`. A published event takes `PublishedEdit`, saved only if the validators accept it, so it only extends. An ongoing one accepts only the move to completed and refuses anything else with its own message. A completed event refuses every edit. No edit moves the status backwards, out of draft or into draft. |
| EventDecisions.DraftNeverLocked | backend/controllers/eventController.js:1227-1231 | A stored draft holds no registrations, so the form lock never answers a draft edit. |
| EventDecisions.EditKeepsEventOk | backend/controllers/eventController.js:1208-1294 | An accepted edit keeps a stored event valid, including `totalRegistrations <= registrationLimit`. |
| EventDecisions.Admission | backend/controllers/eventController.js:409-454 | Registration is accepted iff the event is published, the deadline has not passed, the limit is not reached, no row exists for the pair, and the ticket is unused. Each refusal gives its message in order, including "Registration deadline passed" and "Registration limit reached". An open event with an active row for the pair answers "Already registered for this event", and a cancelled row only hits the unique index. The row admitted holds a place. |
| EventDecisions.OrderRow | backend/controllers/eventController.js:613-620 | An order row is registered and pending, has no ticket and no attendance, and carries the variant key and proof path given. |
| EventDecisions.PurchaseLimit | backend/controllers/eventController.js:600-601 | `purchaseLimitPerUser \|\| 1`: the stored limit when it is at least 1, and never 0. |
| EventDecisions.Placement | backend/controllers/eventController.js:543-620 | An order is placed only when every check passes: published, before the deadline, a variant sent and in stock, under the purchase limit, no row yet. The row stored is the order row with the variant key and the proof path trimmed. |
| EventDecisions.PlacementAnswers | backend/controllers/eventController.js:571-620 | An order is placed iff every check passes. Each refusal has the message of the first check that fails: "Event not open", "Deadline passed", "Variant information required", "Invalid variant selected", "Selected variant is out of stock", "Purchase limit reached", then the duplicate key. |
| EventDecisions.OneOrderPerParticipant | backend/controllers/eventController.js:600-611 | A placed order means the participant had no registered row for the event. For a stored event the limit read is its own `purchaseLimitPerUser`, at least 1, so a limit above one is never reached. |
| EventDecisions.OrderVariant | backend/controllers/eventController.js:668-676 | The index found names a variant with the order's size and color. |
| EventDecisions.ReviewApply | backend/controllers/eventController.js:663-753 | After the pending guard: accepted iff the event is published or ongoing, the variant is found, and for approval the limit is not reached, the variant is in stock and the ticket is free. Approve lowers that stock by one, raises the counter and issues the ticket. Reject marks the row rejected and changes no counter. "Event is not active", "Variant not found" (also for a row without a variant), "Registration limit reached", "Stock exhausted" and "Invalid action" are answered as such. |
| EventDecisions.ReviewAsWritten | backend/controllers/eventController.js:645-753 | Only the owner, and only an order whose payment is pending, whatever the row's status; then `ReviewApply`. A reviewed row is no longer pending. |
| EventDecisions.Review | backend/controllers/eventController.js:645-753 | The intended review: the same, except that a cancelled order is refused as "Order already processed". On a row that is not cancelled it answers as the handler does. |
| EventDecisions.ReviewOnce | backend/controllers/eventController.js:659-661 | An order reviewed by the handler is refused as "Order already processed" by both reviews. |
| EventDecisions.Attended | backend/controllers/eventController.js:806-810 | Attendance sets the flag and the four audit fields and nothing else. |
| EventDecisions.ScanNoteValid | backend/models/Registration.js:76-80 | The scan's audit note passes the note validators. |
| EventDecisions.ScanOutcome | backend/controllers/eventController.js:781-810 | A scan is accepted iff the caller owns the event, it is ongoing, and the row is registered and not yet attended. An attended row gives "Duplicate scan detected". |
| EventDecisions.ScanOnce | backend/controllers/eventController.js:800-804 | A second scan of a scanned ticket is refused as a duplicate. |
| EventDecisions.OverrideText | backend/controllers/eventController.js:858-859 | The stored note is trimmed, and is the default note when none is sent. |
| EventDecisions.OverrideTextIsTrimmedChoice | backend/controllers/eventController.js:858-859 | The stored note is the setter's trim of `note \|\| "Manual attendance override"`. |
| EventDecisions.OverrideOutcome | backend/controllers/eventController.js:836-859 | The override needs only the owner and an ongoing event; it checks neither the row's status nor earlier attendance. A note over 1000 characters fails the save. |
| EventDecisions.CancelRefusal | backend/controllers/eventController.js:1004-1020 | No refusal iff the caller owns the row, the event has not started, the payment is not approved and the row is not cancelled; otherwise the message of the first check that fails. |
| EventDecisions.CancelOutcomeAsWritten | backend/controllers/eventController.js:1002-1031 | Accepted iff `CancelRefusal` has none. The row becomes cancelled and holds no place. Only the event's counter changes: it drops by one exactly when it was positive and the row is registered and not rejected, pending orders included, so it never goes negative. |
| EventDecisions.CancelOutcome | backend/controllers/eventController.js:1002-1031 | The intended cancellation: accepted in the same cases, and the counter drops by one exactly when it was positive and the row held a place. Except on a registered pending order it answers as the handler does. |
| EventDecisions.PendingCancelMiscountsAsWritten | backend/controllers/eventController.js:1022-1027 | The handler's own decrement also fires for a pending order, which holds no place, and leaves the counter one below the rows that hold one. |
| EventDecisions.CancelledOrderReviewableAsWritten | backend/controllers/eventController.js:659-661 | A cancelled order still passes the handler's pending check, and approving it raises the counter and issues a ticket for a row that holds no place; the intended review refuses it. |
| EventDecisions.AdmissionCounts | backend/controllers/eventController.js:447-456 | An admitted registration with the counter raised by one keeps every counter equal to the places held. |
| EventDecisions.PlacementCounts | backend/controllers/eventController.js:613-620 | Inserting an order row while the counter stays keeps every counter equal to the places held. |
| EventDecisions.AttendedCounts | backend/controllers/eventController.js:806-810 | Marking a row attended moves no place. |
| EventDecisions.ReviewCounts | backend/controllers/eventController.js:679-708 | The intended review keeps every counter equal to the places held. |
| EventDecisions.ReviewAsWrittenCounts | backend/controllers/eventController.js:659-661 | The handler's review keeps every counter equal to the places held when the order was not cancelled. |
| EventDecisions.CancelCounts | backend/controllers/eventController.js:1022-1031 | The intended cancellation keeps every counter equal to the places held. |
| EventDecisions.CancelAsWrittenCounts | backend/controllers/eventController.js:1022-1027 | The handler's cancellation keeps every counter equal to the places held unless the row is a registered pending order. |
| EventDecisions.PendingCancelOversellsAsWritten | backend/controllers/eventController.js:1022-1027 | In a full event, cancelling one pending order and then approving another both succeed. The counter then reads the limit while one place more than the limit is held. |
| StoreState.CountedWithinLimit | backend/models/Event.js:101-105 | In a valid store whose counters equal the places held, no event has more place-holding rows than its registration limit. |
| StoreState.DraftHasNoRows | backend/controllers/eventController.js:409-415 | In a valid store no row refers to a draft. |
| StoreState.SaveEventKeeps | backend/controllers/eventController.js:47-67 | Saving a valid event that stays out of draft once out keeps the store invariant. |
| StoreState.SaveEventCounts | backend/controllers/eventController.js:47-67 | Saving an event with its counter as it was keeps every counter equal to the places held. |
| StoreState.SaveRowKeeps | backend/controllers/eventController.js:704-708 | Saving a valid row with the same pair and a ticket no other row holds, together with its valid event past draft, keeps the store invariant. |
| StoreState.SaveRowCounts | backend/controllers/eventController.js:704-708 | Saving a row with its event's counter moved by what the row counted before and after keeps every counter equal to the places held. |
| StoreState.InsertRowKeeps | backend/controllers/eventController.js:447-456 | Inserting a row the indexes admit, together with its valid event past draft, keeps the store invariant. |
| StoreState.InsertRowCounts | backend/controllers/eventController.js:447-456 | Inserting a row with the counter raised exactly when the row holds a place keeps every counter equal to the places held. |
| StoreState.InsertPendingRowKeeps | backend/controllers/eventController.js:613-620 | Inserting a pending order row, which holds no place and no ticket, for an event past draft keeps the store invariant without touching any event. |
| StoreState.AddEventKeeps | backend/controllers/eventController.js:364-380 | Creating a draft with no registrations under a fresh id keeps the store invariant. |
| StoreState.AddEventCounts | backend/controllers/eventController.js:364-380 | A new event with a zero counter under a fresh id keeps every counter equal to the places held. |
| StoreState.RemoveEventKeeps | backend/controllers/eventController.js:30-37 | Deleting a draft keeps the store invariant, as no row refers to it. |
| StoreState.RemoveEventCounts | backend/controllers/eventController.js:30-37 | Deleting an event keeps every other counter equal to the places held. |
| StoreState.SyncedWhere | backend/controllers/eventController.js:882-884 | Exactly the events in the set get their derived status written back; the others are unchanged. |
| StoreState.SyncStep | backend/controllers/eventController.js:882-884 | Writing back one more event's status extends the set written back. |
| StoreState.SyncedCounts | backend/controllers/eventController.js:882-884 | Writing back derived statuses moves no counter, so counters stay equal to the places held. |
| EventWorkflows.EventStore.UpdateEventStatus | backend/controllers/eventController.js:47-67 | Only that event's status changes, to the derived one. |
| EventWorkflows.EventStore.CreateEvent | backend/controllers/eventController.js:291-390 | `CreateEventCheck` decides. A valid draft is stored under the fresh id and appended to the order; otherwise nothing changes. |
| EventWorkflows.EventStore.PublishEvent | backend/controllers/eventController.js:72-97 | Refusals are not found, not the owner, or not a draft, and leave nothing changed. Otherwise the event becomes published, then gets its derived status. |
| EventWorkflows.EventStore.DeleteEvent | backend/controllers/eventController.js:15-44 | Refusals are not found, not the owner, or not a draft. Otherwise the event is removed from the map and the order. |
| EventWorkflows.EventStore.EditEvent | backend/controllers/eventController.js:1208-1294 | The derived status is written back first; then `EditOutcome` decides what is saved. |
| EventWorkflows.EventStore.RegisterForEvent | backend/controllers/eventController.js:397-481 | `Admission` decides. On success exactly one row is appended and the counter rises by exactly one; a refusal changes nothing but the derived status. |
| EventWorkflows.EventStore.PlaceMerchandiseOrder | backend/controllers/eventController.js:539-630 | A missing proof or malformed variant is refused. Otherwise `Placement` decides. A placed order appends one pending row and changes neither stock nor counter. |
| EventWorkflows.EventStore.UpdateMerchandiseOrderStatus | backend/controllers/eventController.js:636-758 | An unknown order is not found. Otherwise `ReviewAsWritten` decides, and the row and event it returns are saved. |
| EventWorkflows.EventStore.MarkAttendance | backend/controllers/eventController.js:764-822 | A missing ticket and an unknown ticket are refused. Otherwise the ticket's row is updated as `ScanOutcome` says. |
| EventWorkflows.EventStore.ManualAttendanceOverride | backend/controllers/eventController.js:827-871 | An unknown registration is not found. Otherwise the row is updated as `OverrideOutcome` says. |
| EventWorkflows.EventStore.CancelRegistration | backend/controllers/eventController.js:997-1038 | An unknown registration is not found. Otherwise the row and its event are saved as `CancelOutcomeAsWritten` says. |
| EventWorkflows.EventStore.EventAnalytics | backend/controllers/eventController.js:929-992 | Only the owner gets the event's `AnalyticsOf`; the derived status is written back first. |
| EventWorkflows.EventStore.SyncEvents | backend/controllers/eventController.js:882-884 | Each listed event, and only those, gets its derived status written back. |
| EventWorkflows.EventStore.OrganizerDashboard | backend/controllers/eventController.js:876-924 | Answers `DashboardOf` over the events as found, and writes back the derived status of exactly the organizer's events. |
| EventWorkflows.EventStore.MyRegistrations | backend/controllers/eventController.js:489-531 | The loop puts every listed row on the shelf `ShelfOf` picks and on its type's list, and writes back the derived status of exactly those rows' events. |
| EventQueries.RowsOf | backend/controllers/eventController.js:945 | The rows of the event are exactly the stored rows with that event id. |
| EventQueries.PaymentCountsBounded | backend/controllers/eventController.js:952-966 | The approved, rejected and pending counts sum to at most the number of rows. |
| EventQueries.AnalyticsOf | backend/controllers/eventController.js:948-974 | Revenue is approved payments times the fee, and is non-negative. The rate is absent exactly when no row is registered; otherwise it is attended over registered. The counts are bounded. |
| EventQueries.OrganizerEvents | backend/controllers/eventController.js:879-880 | The organizer's events are exactly the stored events they own, listed once each. |
| EventQueries.DashboardRevenueIsSumOfEventRevenue | backend/controllers/eventController.js:896-901 | The dashboard's revenue fold equals the sum over the organizer's events of each event's analytics revenue. |
| EventQueries.RevenueNonNegative | backend/controllers/eventController.js:896-901 | With non-negative fees the dashboard revenue is never negative. |
| EventQueries.UpcomingAndCompletedDisjoint | backend/controllers/eventController.js:904-905 | With start before end, no event counts as both upcoming and completed. |
| EventQueries.TopIndex | backend/controllers/eventController.js:907-911 | The top event has the most registrations, and is the first such in order, as the stable descending sort puts it. |
| EventQueries.DashboardOf | backend/controllers/eventController.js:876-924 | The dashboard counts the organizer's events. Its registrations, revenue, upcoming and completed figures are the folds over exactly those events (`RegisteredIn`, `RevenueOf`, `UpcomingCount`, `CompletedCount`). There is a top event iff there are events, and it has the most registrations of them. |
| EventQueries.ShelfOf | backend/controllers/eventController.js:517-523 | Cancelled and rejected rows go to the cancelled shelf. Others go to completed when their event has ended and to upcoming otherwise, each as an if-and-only-if. |
| EventQueries.ShelvesPartition | backend/controllers/eventController.js:508-524 | Each row with an event lands on exactly one of the three shelves and exactly one of the normal and merchandise lists; other rows land on none. |
| EventQueries.Select | backend/controllers/eventController.js:173-203 | A filter keeps exactly the listings that satisfy it. |
| EventQueries.Score | backend/controllers/eventController.js:247-272 | The score is at most 6: at least 3 for a followed organizer that still exists, at most 3 otherwise. |
| EventQueries.RankedIsPermutation | backend/controllers/eventController.js:277 | Ranking is a permutation of the listings. |
| EventQueries.RankedOrder | backend/controllers/eventController.js:277 | The ranking is sorted by descending score. An unfollowed event ranks above a followed one only when both score 3. |
| EventQueries.RankedMembers | backend/controllers/eventController.js:277 | Ranking neither adds nor drops a listing. |
| EventQueries.SyncListing | backend/controllers/eventController.js:170 | Only the status changes, never backwards, so a listing the base query admits is still admitted. |
| EventQueries.SyncListings | backend/controllers/eventController.js:170 | Each listing, in order, gets its derived status written back, and each result comes from a listing given. |
| EventQueries.Matching | backend/controllers/eventController.js:149-201 | Every listing kept is a stored event the base query admits (not a draft; type, eligibility and start-date range), with its status written back, that passes the search and, under followed-only, has an existing followed organizer. |
| EventQueries.MatchingComplete | backend/controllers/eventController.js:149-201 | Every stored event the base query admits and whose synced listing passes both filters is kept. |
| EventQueries.Browse | backend/controllers/eventController.js:137-284 | The answer is a permutation of the matching listings: sorted by score for a participant, as matched otherwise. |
| EventQueries.BrowseExactly | backend/controllers/eventController.js:149-201 | A listing is in the answer iff it is a stored event the base query admits, with its status written back, that passes the search and the followed-only filter. |
| UserModel.ParseParticipantType | backend/models/User.js:50-56 | Exactly "IIIT" and "Non-IIIT" name a participant type. |
| UserModel.NormalizeEmailIdempotent | backend/models/User.js:25-33 | A stored e-mail passes the setters again unchanged. |
| UserModel.Trimmed | backend/models/User.js:89-124 | A field assigned through `trim` is present iff sent, and trimmed. |
| ResetRequestModel.NewResetRequest | backend/models/PasswordResetRequest.js:12-24 | A new request is pending, with the reason trimmed and nothing processed. |
| ResetRequestModel.FileKeepsOnePending | backend/controllers/userController.js:308-317 | Filing for an organizer with no pending request keeps at most one pending request per organizer. |
| ResetRequestModel.ProcessKeepsOnePending | backend/controllers/userController.js:383-422 | Processing a request keeps at most one pending request per organizer. |
| ResetRequestModel.CommentOr | backend/controllers/userController.js:394-415 | The comment stored is the one sent, trimmed, when it is truthy, and the default otherwise. |
| ResetRequestModel.Decide | backend/controllers/userController.js:383-422 | Only a pending request is processed. Approve sets approved, the comment sent trimmed (default "Approved"), the password and the time. Reject sets rejected and its comment, trimmed (default "Rejected"). Any other action is refused. |
| ResetRequestModel.ProcessedOnce | backend/controllers/userController.js:383-386 | A processed request is refused as "Already processed", whatever is sent. |
| Accounts.Merge | backend/controllers/userController.js:26-65 | `sent ?? current`: a missing field keeps its value, and a sent one is stored trimmed. |
| Accounts.MergeProfile | backend/controllers/userController.js:26-65 | The merge never touches e-mail, password, role or active flag, and never touches the other role's fields. An admin's record is unchanged. |
| Accounts.MergeProfileIdempotent | backend/controllers/userController.js:26-65 | Sending the same profile twice saves what sending it once saved. |
| Accounts.PasswordFieldsCheck | backend/controllers/userController.js:86-90 | Passes iff both passwords are sent and the new one has at least 6 characters. |
| Accounts.OrganizerEmail | backend/controllers/userController.js:115-116 | The login e-mail has no white space and ends with "@felicity.com". |
| Accounts.OrganizerEmailStored | backend/controllers/userController.js:115-120 | The derived e-mail passes the e-mail setters unchanged, so the duplicate check and the stored record agree. |
| Accounts.OrganizerEmailShaped | backend/models/User.js:25-33 | The derived e-mail matches the e-mail pattern iff the name has a non-space character. |
| Accounts.OrganizerEmailIgnoresCase | backend/controllers/userController.js:115-120 | Names differing only in letter case give the same e-mail, so the second organizer is refused. |
| Accounts.NewOrganizer | backend/controllers/userController.js:124-134 | The new organizer is active, has the derived e-mail and the hash, and has its fields through the setters. |
| Accounts.NewOrganizerCheck | backend/controllers/userController.js:111-146 | A taken e-mail is refused as "Organizer already exists". Otherwise the organizer is accepted iff the validators accept it. |
| Accounts.UnfollowAfterFollow | backend/controllers/userController.js:212-231 | Unfollowing right after following gives back the list. |
| Accounts.OrganizerDirectory | backend/controllers/userController.js:242-263 | Lists exactly the active organizers, each flagged iff the caller follows it. |
| Accounts.AccountStore.UpdateProfile | backend/controllers/userController.js:20-78 | The caller's record becomes `MergeProfile` when the validators accept it; otherwise nothing changes. |
| Accounts.AccountStore.ChangePassword | backend/controllers/userController.js:82-107 | The body is checked before the user is read, then the current password. Only the password hash changes. |
| Accounts.AccountStore.CreateOrganizer | backend/controllers/userController.js:111-146 | `NewOrganizerCheck` decides; an accepted organizer is stored under the fresh id with its credentials answered. |
| Accounts.AccountStore.SetOrganizerActive | backend/controllers/userController.js:150-180 | Only an organizer's `isActive` changes; any other target is "Organizer not found". |
| Accounts.AccountStore.DeleteOrganizer | backend/controllers/userController.js:184-196 | Only an organizer's record is removed; any other target is not found. |
| Accounts.AccountStore.FollowOrganizer | backend/controllers/userController.js:200-223 | Only an active organizer not yet followed is appended, once. Each refusal changes nothing. |
| Accounts.AccountStore.UnfollowOrganizer | backend/controllers/userController.js:225-239 | Every occurrence of the id is removed from the caller's list, and nothing else changes. |
| Accounts.AccountStore.RequestPasswordReset | backend/controllers/userController.js:300-327 | Refused for non-organizers, an empty reason, or an existing pending request. Otherwise one pending request is appended. |
| Accounts.AccountStore.HandlePasswordReset | backend/controllers/userController.js:369-427 | Admin only. An unknown request is not found. Otherwise `Decide` decides, and approval sets the organizer's new password. |
| Auth.StoredEmailOnIiitDomain | backend/controllers/authController.js:55-72 | An e-mail accepted on an IIIT domain is still on one after the e-mail setters. |
| Auth.NewParticipant | backend/controllers/authController.js:76-86 | A created user is an active participant with the normalised e-mail and the hash. |
| Auth.SignupCheck | backend/controllers/authController.js:45-72 | Missing fields, a registered e-mail, and an IIIT participant off the IIIT domains are refused, in that order. Otherwise the validators decide. |
| Auth.RegisterParticipant | backend/controllers/authController.js:33-95 | `SignupCheck` decides; an accepted participant is stored under the fresh id. |
| Auth.LoginUser | backend/controllers/authController.js:98-140 | Checks missing fields, then an unknown e-mail as "Invalid credentials", then a disabled account before the password, then a wrong password as "Invalid credentials". |
| NotificationModel.ContentsValid | backend/models/Notification.js:30-35 | The three contents the handlers write pass the content validators. |
| NotificationModel.Notices | backend/controllers/discussionController.js:69-79 | One unread notice per recipient, in order. |
| NotificationModel.NoticesValid | backend/models/Notification.js:30-41 | A batch whose content is valid is valid throughout. |
| NotificationModel.HandlerNoticesValid | backend/controllers/discussionController.js:69-78 | A batch with one of the handlers' three contents passes the validators throughout, so the inserts never fail validation. |
| NotificationModel.NoticesAddressees | backend/controllers/discussionController.js:69-79 | A batch reaches exactly its recipients, each as often as listed. |
| NotificationModel.Latest | backend/controllers/notificationController.js:6-10 | Only the user's notifications, newest first, at most the limit. Any of the user's notifications left out is older than all of those listed. |
| NotificationModel.LatestIgnoresReadFlag | backend/controllers/notificationController.js:6-10 | A listing depends only on whom each notification is addressed to. |
| NotificationModel.LatestIgnoresOthers | backend/controllers/notificationController.js:6-10 | Notifications inserted for other users do not change a user's listing. |
| NotificationModel.LatestIgnoresTail | backend/controllers/notificationController.js:6-10 | Notifications for other users after position `k` do not enter a user's listing. |
| Notifications.Inbox.Insert | backend/controllers/discussionController.js:78 | The batch is appended in order. |
| Notifications.Inbox.MyNotifications | backend/controllers/notificationController.js:4-16 | The caller's latest notifications, newest first, at most 50; everything left out is older. |
| Notifications.Inbox.MarkAsRead | backend/controllers/notificationController.js:19-42 | An unknown id is not found and another user's notification is forbidden; both change nothing. Otherwise the notification is read, an already-read one is unchanged, and no other notification changes. |
| Notifications.MarkAsReadKeepsListings | backend/controllers/notificationController.js:33-36 | Marking a notification read leaves every user's listing unchanged. |
| DiscussionModel.NewMessage | backend/models/DiscussionMessage.js:35-61 | A new message has its text trimmed, no reactions, and is not pinned. |
| DiscussionModel.ToggleAsWritten | backend/controllers/discussionController.js:242-261 | The handler's toggle: a reaction matching the emoji as sent is removed, otherwise the emoji is appended trimmed. For an emoji sent already trimmed it is `Toggle`. |
| DiscussionModel.ToggleAsWrittenTrims | backend/models/DiscussionMessage.js:10-15 | The handler's toggle keeps every stored emoji trimmed. |
| DiscussionModel.PaddedEmojiDuplicatedAsWritten | backend/controllers/discussionController.js:242-261 | An emoji with surrounding spaces, sent twice, is stored twice, so a user then has two reactions with one emoji. |
| DiscussionModel.PaddedEmojiExample | backend/models/DiscussionMessage.js:10-15 | " x" is such an emoji: its trim differs from it. |
| DiscussionModel.Toggle | backend/controllers/discussionController.js:242-261 | The user's reaction with the stored emoji is present afterwards iff absent before. Every other reaction is kept as often as it was. One reaction per user and emoji is preserved. |
| DiscussionModel.ToggleTwice | backend/controllers/discussionController.js:248-261 | Toggling twice from absent gives back the reactions. |
| DiscussionModel.TogglePaddedSame | backend/models/DiscussionMessage.js:10-15 | The emoji sent with or without surrounding spaces toggles the same reaction. |
| DiscussionModel.RegisteredParticipants | backend/controllers/discussionController.js:60-67 | Lists exactly the participants with a registered row for the event. |
| DiscussionModel.RegisteredParticipantsDistinct | backend/models/Registration.js:94-97 | Under the unique pair index, each participant is listed once. |
| DiscussionModel.Recipients | backend/controllers/discussionController.js:65-67 | Exactly the registered participants other than the sender. |
| DiscussionModel.RecipientsDistinct | backend/controllers/discussionController.js:65-79 | Under the unique pair index, each recipient gets exactly one notice. |
| DiscussionModel.Cascade | backend/controllers/discussionController.js:189-191 | Removes the message and its direct replies; every other message is kept unchanged. |
| DiscussionModel.CascadeOneLevel | backend/controllers/discussionController.js:189-191 | A reply to a reply of the deleted message stays, and its parent is gone. |
| Discussion.PostCheck | backend/controllers/discussionController.js:12-52 | In order: a blank text, an unknown event, an unregistered participant, a parent outside the event. Otherwise accepted iff the validators accept the trimmed message. |
| Discussion.AnnounceCheck | backend/controllers/discussionController.js:101-119 | In order: a blank text, an unknown event, a caller who is not the owner. Otherwise the validators decide. |
| Discussion.OwnerCheck | backend/controllers/discussionController.js:181-187 | In order: an unknown message, an event that is gone, a caller who is not the owner. Accepted iff none applies. |
| Discussion.ReactCheck | backend/controllers/discussionController.js:233-263 | An invalid emoji, then an unknown message, are refused. Otherwise the message toggled as the handler toggles is saved iff the validators accept it. |
| Discussion.BlankEmojiRefused | backend/controllers/discussionController.js:233-263 | An emoji of spaces passes the handler's check but fails the save. |
| Discussion.AddKeeps | backend/controllers/discussionController.js:37-52 | Storing a valid message with trimmed emojis, whose parent is in its event, under a fresh id keeps the board valid. |
| Discussion.ReplaceKeeps | backend/controllers/discussionController.js:263 | Saving a stored message again, valid, with trimmed emojis and the same event and parent, keeps the board valid. |
| Discussion.CascadeKeeps | backend/controllers/discussionController.js:189-191 | The delete cascade keeps the board valid. |
| Discussion.Board.PostMessage | backend/controllers/discussionController.js:7-93 | `PostCheck` decides. A posted message is stored, and every registered participant other than the sender gets one "new message" notice. |
| Discussion.Board.PostAnnouncement | backend/controllers/discussionController.js:96-155 | `AnnounceCheck` decides. Every registered participant gets one "announcement" notice. |
| Discussion.Board.Publish | backend/controllers/discussionController.js:47-78 | The message is stored under its fresh id and one notice per recipient is appended, and both collections stay valid. |
| Discussion.Board.DeleteMessage | backend/controllers/discussionController.js:173-197 | `OwnerCheck` decides; the message is removed together with its direct replies. |
| Discussion.Board.TogglePinMessage | backend/controllers/discussionController.js:200-225 | `OwnerCheck` decides; only the pin flag flips, so two toggles restore it. |
| Discussion.Board.ToggleReaction | backend/controllers/discussionController.js:228-287 | `ReactCheck` decides. The author, when not the caller, gets one "reaction" notice, and otherwise gets none. |

## Left out

- Numbers are integers. The schema's `Number` fields (`registrationLimit`, `registrationFee`, a variant's `stock`, `purchaseLimitPerUser`) accept fractions, and the model does not represent them. With a fractional limit the source admits up to ⌈limit⌉ places, so its counter can exceed the limit, which `StoreState.StoreInvariant` rules out for the model. With a fractional stock an approval can save the approved row and then fail the event's `min: 0` validator, leaving the counter unraised. Fractional fees are not summed by the revenue folds.
- I/O and plumbing are not modelled:
  - HTTP routes and the auth middleware (the caller's id and role are parameters);
  - Socket.io emits;
  - e-mail sending;
  - QR image generation;
  - the Discord webhook of `publishEvent`;
  - CSV and `.ics` exports;
  - `getAdminAnalytics` and `createAdminIfNotExists`;
  - the frontend.
- The auth middleware's check that the caller's record exists and is active is not modelled. The caller's id is a parameter, so the `ServerError(MissingReference)` answers of Accounts.OrganizerDirectory, Accounts.AccountStore.FollowOrganizer and Accounts.AccountStore.UnfollowOrganizer, for a caller with no record, are reachable in the model. In the source they are reachable only when the record is deleted between the middleware and the handler.
- bcrypt and JWT are not modelled: password hashes are parameters and password comparison is a function parameter.
- The clock, `Date.now()` ticket ids, `Math.random` passwords and database ids are parameters. Ticket uniqueness comes only from the sparse unique index.
- Concurrency is not modelled: each handler is one atomic step here. In the source the capacity check and the increment are separate steps, so concurrent requests can oversell as well. Overselling does not need concurrency, though: the handlers as written already oversell when run one after another (see Findings).
- Text.ToLower: lower-cases the ASCII letters `A`-`Z` only, one character for one. JavaScript's `toLowerCase` maps all of Unicode, and can change the length ("İ" becomes two code units). UserModel.NormalizeEmail, Accounts.OrganizerEmail, Text.NormalizeList and the browse search inherit this restriction.
- EventDecisions.CreateEventCheck: the dates and numbers of the body are taken as already parsed. A date or number that is missing or does not parse (an `Invalid Date` or `NaN`) is not represented. In the source every comparison with it is false, so the checks let it through, and `Event.create` then fails on the `required` validator or the cast with a server error.
- EventQueries.AnalyticsOf: the attendance rate is a numerator and denominator pair, not the `toFixed(2)` string.
- EventQueries.Browse: the trending aggregation pipeline of `getEvents` is left out. Ties in score keep the listing order, as the stable sort does. The participant's record is read once for the followed-only filter and the score.
- EventQueries.Browse: `getEvents` also saves each listed event's derived status back to the store (backend/controllers/eventController.js:170); Browse returns the synced listings without that write. Nothing observable is lost: every handler that reads a status derives it first, and `DeriveComposes` makes an earlier write-back irrelevant.
- `getMessages` and its sort are left out: the discussion board is a map.
- Notifications.Inbox.MyNotifications: newest first is taken as reverse insertion order. Notifications created in the same millisecond are not modelled.
- Discussion.ReactCheck: an emoji that is not a string (the `typeof` test) is a missing emoji.
- Timestamps other than attendance and reset processing (`createdAt`, `updatedAt`) are left out.
- Accounts.OrganizerDirectory: returns a map keyed by organizer id, so the order in which `getAllOrganizers` lists the organizers (as the database returns them) is not modelled.
- EventDecisions.DraftPatch: `Object.assign` copies any field sent. The model patches only the content fields, never the status, the counter or the owner.
- The following behaviours of the source are kept as written:
  - re-registering after a cancel is refused by the unique pair index as a duplicate key;
  - `registerForEvent` does not check the event type;
  - the manual override marks any row, attended or not, registered or not;
  - the IIIT domain test is made on the e-mail as sent;
  - `handlePasswordReset` saves the new password before the request is validated;
  - `deleteOrganizer` leaves follower ids and reset requests in place;
  - `updateProfile` stores any `followedOrganizers` list sent;
  - a reaction notification is sent whether the reaction was added or removed;
  - the delete cascade is one level deep, so grand-replies stay without their parent;
  - a participant whose only row is a pending order counts as registered for posting.

## Findings

| source | as written | input that shows it | evidently intended | confidence | as-written member | corrected member |
|---|---|---|---|---|---|---|
| backend/controllers/eventController.js:1022-1027 | `cancelRegistration` decrements `totalRegistrations` for any registered row whose payment is not rejected, including a pending merchandise order. | A pending order (placed with no increment at lines 613-620) is cancelled while the event holds other registrations; the counter ends one below the rows that hold a place. | Only rows that hold a place give it back. | not executed | EventDecisions.PendingCancelMiscountsAsWritten | EventDecisions.CancelOutcome |
| backend/controllers/eventController.js:1022-1027 | The decrement for a pending order lowers the counter below the places held, and the approval's limit check reads that counter. | In an event whose counter equals its limit, one pending order is cancelled and another is approved: both succeed, and one place more than the limit is held while the counter reads the limit. | The registration limit bounds the places held. | not executed | EventDecisions.PendingCancelOversellsAsWritten | EventDecisions.CancelCounts |
| backend/controllers/eventController.js:659-661 | `updateMerchandiseOrderStatus` checks only `paymentStatus === "pending"`, so a cancelled order is still reviewable. | A pending order cancelled by the participant and then approved: its stock is taken and a ticket is issued for a cancelled row. | Only pending orders that are not cancelled are reviewed. | not executed | EventDecisions.CancelledOrderReviewableAsWritten | EventDecisions.Review |
| backend/controllers/discussionController.js:242-261 | `toggleReaction` compares the emoji as sent with the stored emoji, which the setter trimmed. | The emoji " x" sent twice by the same user stores the reaction (user, "x") twice. | Toggling the same emoji twice restores the reactions, with one reaction per user and emoji. | not executed | DiscussionModel.PaddedEmojiDuplicatedAsWritten | DiscussionModel.Toggle |

The store methods apply the handlers as written (`CancelOutcomeAsWritten`,
`ReviewAsWritten`, `ToggleAsWritten`). The corrected members are proved
beside them: `CancelCounts` and `ReviewCounts` keep every counter equal to
the places held, from which `StoreState.CountedWithinLimit` bounds the
places by the limit, and `Toggle` keeps one reaction per user and emoji.
