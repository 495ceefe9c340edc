# Webinar registration and payment pipeline, in Dafny

This project models the core of a webinar platform's back end, a Django REST service.
Accounts hold one of three roles: admin, host or attendee. Hosts publish webinars. Signed-in
attendees and anonymous guests register for them; a paid webinar is paid through a payment
gateway before the registration succeeds.

The model covers:

- the **registration handler**: a fixed sequence of admission checks, the inserted
  registration row, the free path (immediately successful) and the paid path (a gateway
  order for the price in paise under the receipt `webinar_<w>_reg_<r>`, with a compensating
  delete when the order cannot be created);
- the **payment-verification handler**: payload validation, the ownership lookup, and the
  state change driven by the gateway's signature verdict;
- the **cancellation handler**: the two time-window guards, then a refund that marks the row
  failed, or the deletion of the row;
- the **capacity rules**: only successful registrations take a seat;
- the **three reminder sweeps**: the window arithmetic, the registrations sent to, and the
  count of delivered messages;
- the **permission predicates**, the **start-time, host and payment-payload validators**,
  the **sign-up role validator** and the **display-name fallback**;
- the **status lookup** and the **attendee and host dashboards**.

Conventions:

- Time is an integer number of seconds (UTC). Money is an integer number of paise, so a
  price with two decimals converted to paise is the identity.
- The store is the class `Store.RegistrationStore`:
  - the webinar catalogue is a constant map, and the registration table is a map keyed by
    row id;
  - row ids are assigned in increasing order;
  - confirmation e-mails requested so far are a sequence of registration ids.
- The class invariant `Valid()` keeps several facts:
  - every row names a catalogued webinar;
  - ids are consistent;
  - every webinar is well formed (duration and capacity at least 1, price within ten digits);
  - no webinar has two rows for the same registrant. For accounts this is the (user, webinar)
    `unique_together` constraint; for guests, whose rows have no user, it is the handler's own
    check for an existing row with the same guest e-mail.
- The gateway and the mail sender are oracles passed in as parameters:
  - the order reply (`Option<string>`);
  - the refund reply;
  - a signature-validity predicate;
  - a `send` predicate for the sweeps.
- The current time is a parameter.
- A database query that the source iterates is modelled by `IdLists.SelectIds`. It scans ids
  in increasing order and returns exactly the ids that pass the filter.

Modules: `Results`, `Text`, `IdLists`, `Models`, `Receipts`, `WebinarSerializers`,
`AccountSerializers`, `Permissions`, `Admission`, `Reconcile`, `Store`, `Reminders`,
`Dashboard`.

## Model

| member | source | states |
|---|---|---|
| Models.RegisteredCount | webinar/models.py:35-37 | the registered count is the size of the set of the webinar's successful rows, and never more than the number of rows |
| Models.RegisteredCountIsSuccessOnly | webinar/models.py:35-37 | a row of the webinar is counted if and only if its status is success |
| Models.CountIgnoresUnpaidWrite | webinar/models.py:35-37 | writing a non-successful row over a non-successful (or absent) one leaves every webinar's count unchanged |
| Models.CountIgnoresUnpaidDelete | webinar/models.py:35-37 | deleting a non-successful row leaves every webinar's count unchanged |
| Models.CountGainsOnSuccess | webinar/models.py:35-37 | turning a non-successful row into a successful one adds exactly one to its webinar's count |
| Models.CountLosesOnFailure | webinar/models.py:35-37 | marking a successful row failed takes exactly one off its webinar's count |
| Models.WellFormedWebinar | webinar/models.py:11-13 | a webinar lasts at least one minute, has at least one seat, and its price has at most ten digits (in paise, magnitude below 10^10) |
| Models.IsPaid | webinar/views.py:148 | a webinar is paid exactly when its price is positive; the cancellation handler uses the same test |
| Models.SameRegistrant | webinar/views.py:98-119 | two registrants are the same when they are the same account, or guests with the same e-mail; an account never matches a guest |
| Models.UniqueRegistrants | webinar/models.py:62 | no webinar has two rows for the same registrant |
| Models.IsFull | webinar/models.py:29-33 | a webinar is full when its registered count (successful rows only) reaches its capacity |
| Models.NewRegistration | webinar/models.py:40-59 | a new row is pending, has no order id, payment id or signature, and records its id, webinar, registrant and time |
| Models.SuccessfulOfOneMore | webinar/models.py:35-37 | the successful rows of one more webinar are the old ones plus that webinar's own, disjoint from them, so the total grows by that webinar's registered count |
| Admission.Registrant | webinar/views.py:84-123 | a signed-in caller registers as the account whatever guest fields came along; an anonymous caller needs valid guest details (otherwise the validator's 400), and then registers as the guest with that e-mail and name |
| Admission.IsRegistered | webinar/views.py:98-119 | some row of the webinar, of any status, belongs to the same account, or to a guest with the same e-mail |
| Admission.Check | webinar/views.py:80-136 | an admitted request yields the registrant determined by the caller and the guest details |
| Admission.CheckAdmitsExactly | webinar/views.py:80-136 | a request is admitted if and only if the webinar exists, the registrant is identified, no row of the webinar is theirs, the webinar is not full and its start is after now |
| Admission.CheckErrorOrder | webinar/views.py:80-136 | the first failing check decides the error, in the order not found (404), invalid guest details, already registered, full, already started |
| Admission.AnyRowBlocksReregistration | webinar/views.py:98-119 | any existing row of the webinar for the same account or guest e-mail, whatever its payment status, makes the request fail as already registered |
| Admission.PendingRowsNeverFill | webinar/models.py:29-33 | inserting a pending row never changes whether a webinar is full |
| Admission.AdmissionKeepsRegistrantsUnique | webinar/models.py:62 | inserting the row of an admitted request keeps every webinar's registrants unique |
| Store.RegistrationStore.constructor | webinar/models.py:6-63 | an empty table over a well-formed catalogue satisfies the invariant |
| Store.RegistrationStore.Register | webinar/views.py:78-206 | a refused request returns the check's error and leaves the table, the id counter and the confirmations unchanged; a free webinar gains exactly one successful row and one confirmation, with no gateway order; a paid webinar asks for an order of its price in paise, in INR, under the receipt of the two ids; with a reply the new row is pending and stores the order id, without one the request fails with the table as before; the invariant is kept |
| Store.RegistrationStore.Insert | webinar/views.py:139-145 | the table gains exactly the new row under the next id, which advances by one; the invariant is kept |
| Store.RegistrationStore.Save | webinar/views.py:164-165 | exactly one row is replaced by a version with the same id, webinar and registrant; the invariant is kept |
| Store.RegistrationStore.Delete | webinar/views.py:178 | the row with that id, if any, is removed and no other row changes; the invariant is kept |
| Store.RegistrationStore.VerifyPayment | webinar/views.py:212-276 | a refused request returns its error and changes nothing; otherwise only the addressed row changes, to success with the payment id and signature plus a confirmation when the signature is valid, and to failed with an invalid-signature error when it is not; the invariant is kept |
| Store.RegistrationStore.Cancel | webinar/views.py:482-542 | a refused request returns its error and changes nothing; a successful row of a paid webinar asks for a refund of the price against the stored payment id, is marked failed (and kept) on success, and is left unchanged on failure; every other row is deleted; the invariant is kept |
| Store.InsertKeepsTable | webinar/models.py:62 | inserting a row under the next id with a new registrant keeps the table invariant |
| Store.RewriteKeepsTable | webinar/models.py:62 | rewriting a row without changing its id, webinar or registrant keeps the table invariant |
| Store.DeleteKeepsTable | webinar/models.py:62 | deleting a row keeps the table invariant |
| Store.UniqueAfterSameRegistrantWrite | webinar/models.py:62 | rewriting a row with the same webinar and registrant keeps registrants unique |
| Receipts.Receipt | webinar/views.py:153 | the receipt text: `webinar_`, the webinar id, `_reg_`, the registration id, both in decimal |
| Receipts.ParseNatToString | webinar/views.py:153 | the decimal rendering of a number reads back as the same number |
| Receipts.DigitRunStopsAfterDigits | webinar/views.py:153 | the leading run of digits of a digit string followed by a non-digit ends exactly at that non-digit |
| Receipts.ParseIdsRoundTrip | webinar/views.py:153 | two digit strings joined by `_reg_` read back as the two numbers |
| Receipts.ReceiptRoundTrip | webinar/views.py:153 | every receipt reads back as the webinar id and registration id it was made from |
| Receipts.ReceiptInjective | webinar/views.py:153 | different pairs of ids give different receipts |
| Reconcile.VerifyTarget | webinar/views.py:213-227 | a registration is reached if and only if the payload is valid, the row exists, and a signed-in caller owns it; a bad payload gives the validator's errors, a missing or foreign row gives not found |
| Reconcile.ApplyVerification | webinar/views.py:236-267 | a valid signature sets success, the payment id and the signature from any prior status; an invalid one sets failed and keeps the payment fields; no other field changes |
| Reconcile.ForeignCallerSeesNotFound | webinar/views.py:223-227 | a signed-in caller who does not own the registration gets not found |
| Reconcile.AnonymousCallerReachesAnyRegistration | webinar/views.py:222-223 | an anonymous caller reaches any existing registration |
| Reconcile.StoredOrderIsNotConsulted | webinar/views.py:218-234 | which registration a request reaches does not depend on the order id stored on the row |
| Reconcile.VerificationCanOverfill | webinar/views.py:236-247 | verifying a pending registration of a full webinar still succeeds and puts the count above capacity |
| Reconcile.FailedVerificationTakesNoSeat | webinar/views.py:260-262 | a rejected signature takes no seat, and frees one when the row was successful |
| Reconcile.CancelCheck | webinar/views.py:487-502 | a cancellation that passes its guards returns the caller's own row with that id |
| Reconcile.CancelActionFor | webinar/views.py:505-537 | a refund is requested if and only if the webinar is paid and the row is successful; every other row is deleted |
| Reconcile.CancelOnlyWellBeforeStart | webinar/views.py:487-502 | the guards pass if and only if the caller owns the row and the start is at least 24 hours away |
| Reconcile.CancelErrorOrder | webinar/views.py:486-542 | the guards fail in order: a missing or foreign row (404), a started webinar, then the 24-hour deadline |
| Reconcile.RefundedCancellationBlocksReregistration | webinar/views.py:517-518 | a refunded cancellation keeps the row, now failed, so while that row exists the same account's next registration fails as already registered |
| Reconcile.RefundedRowCanBeCancelledAgain | webinar/views.py:486-537 | a refunded row, cancelled again while the start is a full day away, passes the guards and is deleted, since it is no longer successful; afterwards the account has no row of that webinar |
| Reconcile.DeletedCancellationAllowsReregistration | webinar/views.py:534 | a deleted cancellation leaves the account with no row of that webinar |
| Reconcile.RefundedCancellationFreesSeat | webinar/views.py:517-518 | a refunded cancellation gives its seat back |
| Reminders.Tomorrow | webinar/tasks.py:11-18 | the 24-hour window: from the midnight after now's day (included) to a day later (excluded) |
| Reminders.AboutAnHourAhead | webinar/tasks.py:36-42 | the 1-hour window: an hour from now, five minutes either side, both ends included |
| Reminders.StartingNow | webinar/tasks.py:60-66 | the starting window: five minutes ago to ten minutes ahead, both ends included |
| Reminders.TomorrowIsNextCalendarDay | webinar/tasks.py:11-18 | the 24-hour sweep selects a start time if and only if it falls on the calendar day after now's |
| Reminders.TomorrowIsFixedForTheDay | webinar/tasks.py:11-18 | every run during one calendar day uses the same 24-hour window |
| Reminders.AboutAnHourAheadBounds | webinar/tasks.py:36-42 | the 1-hour sweep selects a start time if and only if it lies 55 to 65 minutes ahead, both ends included |
| Reminders.HourWindowRepeats | webinar/tasks.py:36-42 | with runs five minutes apart, one webinar is selected at 65, 60 and 55 minutes before its start, and not at 70 or 50 |
| Reminders.StartingWindowRepeats | webinar/tasks.py:60-66 | with runs five minutes apart, one webinar is selected at 10 and 5 minutes before, at, and 5 minutes after its start, and not 15 minutes before or 10 after |
| Reminders.DeliveredAtMostSent | webinar/tasks.py:20-30 | the delivered count never exceeds the number of sends |
| Reminders.SweepStep | webinar/tasks.py:21-28 | the sends for one more webinar extend the sends so far to that webinar's successful rows, without repeats |
| Reminders.Sweep | webinar/tasks.py:20-28 | one sweep sends exactly once to every successful registration of every selected webinar and to nothing else; the count equals the number of sends reported delivered, at most the number of eligible registrations; nothing is modified |
| Reminders.SendDayBeforeReminders | webinar/tasks.py:8-30 | the 24-hour sweep sends once to each successful registration of the webinars starting tomorrow and counts the delivered ones |
| Reminders.SendHourBeforeReminders | webinar/tasks.py:33-54 | the 1-hour sweep sends once to each successful registration of the webinars starting 55 to 65 minutes ahead and counts the delivered ones |
| Reminders.SendStartingNotifications | webinar/tasks.py:57-78 | the starting sweep sends once to each successful registration of the webinars starting from 5 minutes ago to 10 minutes ahead and counts the delivered ones |
| Reminders.DayBeforeRemindersRepeat | webinar/tasks.py:8-30 | all runs during one calendar day address the same registrations, since nothing records a sent reminder |
| Permissions.IsAdminUser | webinar/permissions.py:9-10 | granted to a signed-in caller whose role is admin, and to nobody else |
| Permissions.IsHostUser | webinar/permissions.py:18-19 | granted to a signed-in caller whose role is host, and to nobody else |
| Permissions.IsAttendeeUser | webinar/permissions.py:43-44 | granted to a signed-in caller whose role is attendee, and to nobody else |
| Permissions.MayManage | webinar/permissions.py:27-35 | an object-level request passes when both the role check and the object check grant it |
| Permissions.AdminOrHost | webinar/permissions.py:27-28 | granted if and only if the caller is signed in as an admin or a host; never for an attendee |
| Permissions.OwnerOrAdmin | webinar/permissions.py:30-35 | an admin is always granted, a host only on their own webinar, every other role is denied |
| Permissions.MayManageExactly | webinar/permissions.py:27-35 | both checks together grant a signed-in admin on every webinar and a signed-in host on exactly their own |
| Permissions.AnonymousIsDenied | webinar/permissions.py:9-44 | an anonymous caller passes none of the role checks |
| Permissions.ExactlyOneRole | webinar/permissions.py:9-44 | a signed-in caller passes exactly one of the admin, host and attendee checks |
| Permissions.AcceptedHostMayManage | webinar/permissions.py:18-34 | a user the host validator accepts passes the host check and may manage the webinars they host |
| Permissions.ForeignHostIsDenied | webinar/permissions.py:33-34 | a host may not manage a webinar someone else hosts |
| WebinarSerializers.ValidateStartTime | webinar/serializers.py:31-34 | a start time is accepted if and only if it is after now, and returned unchanged |
| WebinarSerializers.ValidateHost | webinar/serializers.py:36-39 | a host is accepted if and only if their role is host, and returned unchanged |
| WebinarSerializers.ValidatePaymentVerification | webinar/serializers.py:96-100 | valid if and only if the three gateway fields are non-blank strings and the registration id is an integer; the result holds their trimmed values; otherwise the set of exactly the fields that are missing or malformed, never empty |
| WebinarSerializers.VerificationRoundTrip | webinar/serializers.py:96-100 | a verification with trimmed, non-blank texts, encoded as a body and validated, comes back unchanged |
| Text.Trim | webinar/serializers.py:97-99 | trimming never lengthens, leaves no whitespace at either end, and keeps an already trimmed text |
| Text.TrimSlice | webinar/serializers.py:97-99 | the trimmed text is a slice of the input with only white space before and after it |
| Text.TrimAllSpace | accounts/serializers.py:77-78 | a text of whitespace only trims to the empty text |
| Text.TrimIdempotent | webinar/serializers.py:97-99 | trimming twice is trimming once |
| AccountSerializers.ParseRole | accounts/models.py:11-22 | a parsed role is named by exactly the text parsed |
| AccountSerializers.ParseRoleName | accounts/models.py:11-22 | every role's stored name parses back to the role |
| AccountSerializers.ValidateRole | accounts/serializers.py:28-35 | an accepted role is returned unchanged |
| AccountSerializers.ValidateRoleOfRole | accounts/serializers.py:31-34 | a role's name is accepted at sign-up if and only if the role is not admin |
| AccountSerializers.SignUpNeverGrantsAdmin | accounts/serializers.py:31-35 | every accepted value names the host or the attendee role |
| AccountSerializers.FullName | accounts/serializers.py:77-78 | first name, a space and last name, with the white space at both ends removed |
| AccountSerializers.DisplayName | accounts/serializers.py:77-78 | the display name is the full name when that is not empty, otherwise the username, and is empty only when the username is |
| AccountSerializers.BlankNamesShowUsername | accounts/serializers.py:77-78 | when first and last name are blank, the username is shown |
| AccountSerializers.FirstNameOnlyShowsFirstName | accounts/serializers.py:77-78 | an account with a first name and an empty last name is shown under the first name alone |
| AccountSerializers.TrimmedNamesShowFullName | accounts/serializers.py:77-78 | with trimmed names, the full name (first, space, last) is shown |
| IdLists.SelectIds | webinar/tasks.py:16-24 | a query returns exactly the ids that pass its filter, each once, in increasing order |
| Dashboard.RegistrationStatus | webinar/views.py:547-571 | an unknown id is not found; otherwise the title, status and start of the row's webinar, and its link if and only if the payment succeeded and the webinar has one |
| Dashboard.VerifiedRegistrationShowsLink | webinar/views.py:560-564 | after a valid signature, the status lookup shows the webinar's link |
| Dashboard.RejectedRegistrationHidesLink | webinar/views.py:560-564 | after a rejected signature, the status lookup shows no link, whatever the status was before |
| Dashboard.AttendeePartition | webinar/views.py:294-308 | the upcoming and past registrations of an account are disjoint and together are all its successful ones |
| Dashboard.AttendeeDashboard | webinar/views.py:285-317 | the upcoming list holds exactly the account's successful registrations whose webinar starts after now, the past list exactly the others, both in id order, and the total equals the number of successful registrations and the sum of the two lengths |
| Dashboard.AttendeeTotals | webinar/views.py:294-317 | filtering the account's registrations by start time yields the upcoming and past sets, in order, with lengths adding up to the total |
| Dashboard.HostEntryFor | webinar/views.py:329-369 | the entry of a hosted webinar shows its fields, exactly its successful registrations in id order, their count and count times price as revenue |
| Dashboard.HostDashboard | webinar/views.py:319-379 | one entry per webinar the host hosts, in id order; the number of webinars; the total attendees equals the number of successful registrations over the hosted webinars; the total revenue is the sum of the entries' revenues |
| Dashboard.ZeroPricedHostingEarnsNothing | webinar/views.py:354-356 | a host whose webinars all have a zero price earns nothing |
| Dashboard.UnpaidHostingEarnsNothing | webinar/views.py:354-356 | a host none of whose webinars is paid (price zero or less) has no positive total revenue |
| Dashboard.MaxPrice | webinar/views.py:354-356 | the largest price magnitude of the entries: every entry's price lies within it and some entry reaches it (0 when there are none) |
| Dashboard.RevenueBounds | webinar/views.py:354-356 | the total revenue lies within the total attendees times the largest price magnitude of the entries, that price is below the ten-digit limit PriceBound of webinar/models.py:13, so the revenue also lies within attendees times PriceBound |
| Dashboard.RevenueWithin | webinar/views.py:354-356 | when each entry earns its count times its price, the total revenue lies within the total attendees times any bound on the price magnitudes |

## Left out

- E-mail: template rendering and SMTP are not modelled. A requested confirmation is an
  entry in the store's `confirmations`, and a reminder is a call of the `send` oracle.
- The post-save signal that mails a confirmation (webinar/signals.py) is not part of this
  model. The model therefore misses what it does on every save of a successful row:
  - it mails a second confirmation to a signed-in attendee;
  - on a guest row, whose user is empty, it fails while building the message, after the row
    is written. The free path of the registration handler and a valid payment verification
    then answer 500 instead of success, and skip their own confirmation. The model answers
    success and records the confirmation, with the row as written.
- Payment gateway:
  - order creation is the `gatewayReply` parameter and a refund is `refundReply`;
  - signature verification (webinar/utils.py, HMAC-SHA256) is the uninterpreted
    `signatureValid` predicate;
  - the order's `notes` field is not modelled.
- Concurrency: the model is sequential. The source takes no lock between the capacity check
  and the insert, and the model claims no atomicity.
- Floating point: `float(total_revenue)` and `int(price * 100)` are not modelled. Prices are
  integer paise throughout.
- The guest-details serializer (`AnonymousRegistrationSerializer`) is not part of this model.
  Its verdict is the `guest` parameter: `None` for rejected details. A missing phone is
  stored as the empty text.
- The registration record follows the handlers, not the model class as shown. The
  registration handler stores guest e-mail, name and phone and a row without a user, and the
  status lookup reads a webinar link; the model class in webinar/models.py declares none of these. An attendee is therefore an account or
  a guest.
- Query order:
  - the model visits webinars and registrations in increasing id order;
  - the source's default orderings are newest start time and newest registration first;
  - the model's contracts about lists state membership, distinctness and counts, which do
    not depend on order, plus the id order of the model itself;
  - `webinarIdLimit` stands in for the database's id sequence of webinars.
- IdLists.SelectIds: a query is modelled as a scan of ids below a bound, not as an indexed lookup.
- The generic catch-all error paths (500 with the exception text) are not modelled, apart
  from the order-creation and refund failures.
- Response payloads are abstracted:
  - the host name, durations and registration times in the attendee dashboard are left out,
    and so are the attendee name, e-mail and phone in the host dashboard;
  - both dashboards list registration ids instead.
- The admin branch of the dashboard (global statistics and recent activity) and the
  dashboard's role dispatch are not modelled; the attendee and host dashboards are separate
  methods.
- Time has whole-second resolution. Microseconds and time zones other than UTC are not modelled.
- Text.Trim: removes ASCII whitespace only. DRF's `CharField` and Django's name handling
  strip all Unicode whitespace.
- Framework declarations are not modelled: routing, the celery beat configuration, the admin
  site, serializer field lists and the generic list and detail views.
- The account model (accounts/models.py) is folded into the `Role` datatype and the `User`
  record.
- WebinarSerializers.ValidatePaymentVerification: DRF's coercions (a numeric string accepted
  as an integer, a number accepted as text) and length limits are not modelled. Text must be
  a JSON string and the id a JSON number.
