/**
 * The decision halves of the payment-verification and cancellation handlers:
 * which registration a request reaches, in which order its guards run, and the
 * row a verification leaves behind.
 */
module Reconcile {
  import opened Results
  import opened Models
  import opened WebinarSerializers
  import Admission

  datatype VerifyError =
    | InvalidPayload(fields: set<string>)   // 400 with the serializer's errors
    | VerifyNotFound                        // 404 "Registration not found."
    | InvalidSignature                      // 400 "Invalid payment signature."

  /**
   * Validates the request body, looks the registration up by id and, for a signed-in
   * caller, masks someone else's registration as not found. An anonymous caller reaches
   * any registration. The stored order id is not compared with the request's.
   */
  function VerifyTarget(rows: map<int, Registration>, caller: Caller, data: map<string, Value>)
    : (r: Result<PaymentVerification, VerifyError>)
    ensures r.Ok? ==> ValidatePaymentVerification(data) == Ok(r.value)
    ensures var p := ValidatePaymentVerification(data);
      r.Ok? <==> && p.Ok? && p.value.registrationId in rows
                 && (caller.SignedIn? ==> rows[p.value.registrationId].attendee == Member(caller.user.id))
    ensures var p := ValidatePaymentVerification(data);
      p.Err? ==> r == Err(InvalidPayload(p.error))
    ensures var p := ValidatePaymentVerification(data);
      p.Ok? && r.Err? ==> r == Err(VerifyNotFound)
  {
    match ValidatePaymentVerification(data)
    case Err(fields) => Err(InvalidPayload(fields))
    case Ok(v) =>
      if v.registrationId !in rows then Err(VerifyNotFound)
      else if caller.SignedIn? && rows[v.registrationId].attendee != Member(caller.user.id) then Err(VerifyNotFound)
      else Ok(v)
  }

  /**
   * The row after the gateway's signature verdict. A valid signature makes the row
   * successful and records the payment id and signature, from whatever status it had;
   * an invalid one marks it failed. No other field changes.
   */
  function ApplyVerification(row: Registration, v: PaymentVerification, valid: bool): (r: Registration)
    ensures valid ==> r.status == Success && r.paymentId == Some(v.paymentId) && r.signature == Some(v.signature)
    ensures !valid ==> r.status == Failed && r.paymentId == row.paymentId && r.signature == row.signature
    ensures && r.id == row.id && r.webinarId == row.webinarId && r.attendee == row.attendee
            && r.orderId == row.orderId && r.registeredAt == row.registeredAt
  {
    if valid then row.(status := Success, paymentId := Some(v.paymentId), signature := Some(v.signature))
    else row.(status := Failed)
  }

  /** A signed-in caller who does not own the registration is told it does not exist. */
  lemma ForeignCallerSeesNotFound(rows: map<int, Registration>, u: User, data: map<string, Value>)
    requires ValidatePaymentVerification(data).Ok?
    requires ValidatePaymentVerification(data).value.registrationId in rows
    requires rows[ValidatePaymentVerification(data).value.registrationId].attendee != Member(u.id)
    ensures VerifyTarget(rows, SignedIn(u), data) == Err(VerifyNotFound)
  {
  }

  /** Without a signed-in caller no ownership is checked: any existing registration is reached. */
  lemma AnonymousCallerReachesAnyRegistration(rows: map<int, Registration>, data: map<string, Value>)
    requires ValidatePaymentVerification(data).Ok?
    requires ValidatePaymentVerification(data).value.registrationId in rows
    ensures VerifyTarget(rows, Anonymous, data).Ok?
  {
  }

  /** Which registration a request reaches does not depend on the order id stored on it. */
  lemma StoredOrderIsNotConsulted(rows: map<int, Registration>, id: int, order: Option<string>,
                                  caller: Caller, data: map<string, Value>)
    requires id in rows
    ensures VerifyTarget(rows[id := rows[id].(orderId := order)], caller, data) == VerifyTarget(rows, caller, data)
  {
  }

  /**
   * Verification never checks capacity: when a webinar is already full, verifying one more
   * of its pending registrations still succeeds and takes it past its capacity.
   */
  lemma VerificationCanOverfill(rows: map<int, Registration>, w: Webinar, v: PaymentVerification)
    requires v.registrationId in rows
    requires rows[v.registrationId].webinarId == w.id && rows[v.registrationId].status == Pending
    requires IsFull(rows, w)
    ensures RegisteredCount(rows[v.registrationId := ApplyVerification(rows[v.registrationId], v, true)], w.id)
         > w.capacity
  {
    var r := ApplyVerification(rows[v.registrationId], v, true);
    CountGainsOnSuccess(rows, v.registrationId, r);
  }

  /** A failed verification never takes a seat and, on a successful row, frees one. */
  lemma FailedVerificationTakesNoSeat(rows: map<int, Registration>, v: PaymentVerification)
    requires v.registrationId in rows
    ensures var row := rows[v.registrationId];
      RegisteredCount(rows[v.registrationId := ApplyVerification(row, v, false)], row.webinarId)
      == RegisteredCount(rows, row.webinarId) - (if row.status == Success then 1 else 0)
  {
    var row := rows[v.registrationId];
    if row.status == Success {
      CountLosesOnFailure(rows, v.registrationId);
    } else {
      CountIgnoresUnpaidWrite(rows, v.registrationId, ApplyVerification(row, v, false), row.webinarId);
    }
  }

  datatype CancelError =
    | CancelNotFound       // 404 "Registration not found."
    | CancelAfterStart     // 400 "Cannot cancel registration for started webinars."
    | DeadlinePassed       // 400 "Cancellation deadline has passed."
    | RefundFailed         // 500 "Refund failed: ..."

  /** Cancellations close this many seconds (24 hours) before the webinar starts. */
  const CancellationWindow: int := 24 * 60 * 60

  /**
   * The guards of a cancellation, in the handler's order: the registration with this id
   * belongs to the caller's account, its webinar has not started, and the cancellation
   * deadline (24 hours before the start) has not passed. On success, the registration.
   */
  function CancelCheck(webinars: map<int, Webinar>, rows: map<int, Registration>, id: int, u: User, now: int)
    : (r: Result<Registration, CancelError>)
    requires RefersToCatalogue(webinars, rows)
    ensures r.Ok? ==> id in rows && r.value == rows[id] && r.value.attendee == Member(u.id)
  {
    if id !in rows || rows[id].attendee != Member(u.id) then Err(CancelNotFound)
    else
      var w := webinars[rows[id].webinarId];
      if w.startTime <= now then Err(CancelAfterStart)
      else if now > w.startTime - CancellationWindow then Err(DeadlinePassed)
      else Ok(rows[id])
  }

  /** A cancellation either asks the gateway for a refund or deletes the row. */
  datatype CancelAction = RequestRefund | DeleteRow

  /** Only a successful registration of a paid webinar is refunded; every other one is deleted. */
  function CancelActionFor(w: Webinar, row: Registration): (a: CancelAction)
    ensures a == RequestRefund <==> IsPaid(w) && row.status == Success
  {
    if w.pricePaise > 0 && row.status == Success then RequestRefund else DeleteRow
  }

  /** A cancellation passes its guards exactly when the caller owns the row and the start is a full day away. */
  lemma CancelOnlyWellBeforeStart(webinars: map<int, Webinar>, rows: map<int, Registration>, id: int, u: User, now: int)
    requires RefersToCatalogue(webinars, rows)
    ensures CancelCheck(webinars, rows, id, u, now).Ok? <==>
      id in rows && rows[id].attendee == Member(u.id)
      && webinars[rows[id].webinarId].startTime - now >= CancellationWindow
  {
  }

  /** The guards fail in order: a foreign or missing row, then a started webinar, then the deadline. */
  lemma CancelErrorOrder(webinars: map<int, Webinar>, rows: map<int, Registration>, id: int, u: User, now: int)
    requires RefersToCatalogue(webinars, rows)
    ensures (id !in rows || rows[id].attendee != Member(u.id)) ==>
      CancelCheck(webinars, rows, id, u, now) == Err(CancelNotFound)
    ensures (id in rows && rows[id].attendee == Member(u.id) && webinars[rows[id].webinarId].startTime <= now) ==>
      CancelCheck(webinars, rows, id, u, now) == Err(CancelAfterStart)
    ensures (&& id in rows && rows[id].attendee == Member(u.id)
             && now < webinars[rows[id].webinarId].startTime < now + CancellationWindow) ==>
      CancelCheck(webinars, rows, id, u, now) == Err(DeadlinePassed)
  {
  }

  /**
   * A refunded cancellation keeps the (now failed) row, so while that row exists the same
   * account cannot register for that webinar again.
   */
  lemma RefundedCancellationBlocksReregistration(webinars: map<int, Webinar>, rows: map<int, Registration>,
                                                 id: int, u: User, guest: Option<Admission.GuestDetails>, now: int)
    requires RefersToCatalogue(webinars, rows)
    requires id in rows && rows[id].attendee == Member(u.id)
    ensures Admission.Check(webinars, rows[id := rows[id].(status := Failed)], rows[id].webinarId, SignedIn(u), guest, now)
         == Err(Admission.AlreadyRegistered)
  {
    var rows' := rows[id := rows[id].(status := Failed)];
    Admission.AnyRowBlocksReregistration(webinars, rows', id, SignedIn(u), guest, now);
  }

  /**
   * A deleted cancellation removes the account's only row of that webinar, so the
   * duplicate guard no longer stands in the way of registering again.
   */
  lemma DeletedCancellationAllowsReregistration(rows: map<int, Registration>, id: int, u: User)
    requires UniqueRegistrants(rows)
    requires id in rows && rows[id].attendee == Member(u.id)
    ensures !Admission.IsRegistered(rows - {id}, rows[id].webinarId, Member(u.id))
  {
    var w := rows[id].webinarId;
    forall k | k in rows - {id} && rows[k].webinarId == w
      ensures !SameRegistrant(rows[k].attendee, Member(u.id))
    {
      assert !SameRegistrant(rows[k].attendee, rows[id].attendee);
    }
  }

  /** A refunded cancellation gives its seat back. */
  lemma RefundedCancellationFreesSeat(rows: map<int, Registration>, id: int)
    requires id in rows && rows[id].status == Success
    ensures RegisteredCount(rows[id := rows[id].(status := Failed)], rows[id].webinarId)
         == RegisteredCount(rows, rows[id].webinarId) - 1
  {
    CountLosesOnFailure(rows, id);
  }

  /**
   * A refunded row can be cancelled a second time while the start is still a full day away:
   * it is no longer successful, so the second cancellation deletes it, and afterwards the
   * account has no row of that webinar and may register again.
   */
  lemma RefundedRowCanBeCancelledAgain(webinars: map<int, Webinar>, rows: map<int, Registration>,
                                       id: int, u: User, now: int)
    requires RefersToCatalogue(webinars, rows) && UniqueRegistrants(rows)
    requires id in rows && rows[id].attendee == Member(u.id)
    requires webinars[rows[id].webinarId].startTime - now >= CancellationWindow
    ensures var rows' := rows[id := rows[id].(status := Failed)];
      && RefersToCatalogue(webinars, rows')
      && CancelCheck(webinars, rows', id, u, now) == Ok(rows'[id])
      && CancelActionFor(webinars[rows[id].webinarId], rows'[id]) == DeleteRow
      && !Admission.IsRegistered(rows' - {id}, rows[id].webinarId, Member(u.id))
  {
    var rows' := rows[id := rows[id].(status := Failed)];
    var w := rows[id].webinarId;
    forall k | k in rows' - {id} && rows'[k].webinarId == w
      ensures !SameRegistrant(rows'[k].attendee, Member(u.id))
    {
      assert rows'[k] == rows[k];
      assert !SameRegistrant(rows[k].attendee, rows[id].attendee);
    }
  }
}
