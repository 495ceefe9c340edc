/**
 * The registration store and the three request handlers that change it: register,
 * verify a payment, cancel. The gateway's answers (order created or not, signature
 * valid or not, refund made or not) are parameters, so every outcome is covered.
 */
module Store {
  import opened Results
  import opened Models
  import opened Receipts
  import opened Admission
  import opened WebinarSerializers
  import opened Reconcile

  /** The order a paid registration asks the gateway for. */
  datatype OrderRequest = OrderRequest(amountPaise: int, currency: string, receipt: string)

  /** A successful registration response: the new row's id and, for a paid webinar, the gateway order. */
  datatype Admitted = Admitted(registrationId: int, orderId: Option<string>)

  /** The refund a cancellation asks the gateway for. */
  datatype RefundRequest = RefundRequest(paymentId: Option<string>, amountPaise: int)

  datatype Cancelled = Refunded(refundId: string) | Deleted

  class RegistrationStore {
    /** The webinar catalogue, keyed by id; the pipeline only reads it. */
    const webinars: map<int, Webinar>
    /** Every catalogued webinar's id lies below this one (ids are assigned in increasing order). */
    const webinarIdLimit: int
    /** The registration table, keyed by id. */
    var rows: map<int, Registration>
    /** The id the next inserted row receives (ids are never reused). */
    var nextId: nat
    /** The registrations a confirmation e-mail was requested for, in order. */
    var confirmations: seq<int>

    ghost predicate Valid()
      reads this
    {
      && webinarIdLimit >= 1 && (forall w | w in webinars :: w < webinarIdLimit)
      && TableValid(webinars, rows, nextId)
    }

    constructor (catalogue: map<int, Webinar>, idLimit: int)
      requires idLimit >= 1
      requires forall w | w in catalogue :: 1 <= w < idLimit && catalogue[w].id == w && WellFormedWebinar(catalogue[w])
      ensures Valid()
      ensures webinars == catalogue && webinarIdLimit == idLimit
      ensures rows == map[] && nextId == 1 && confirmations == []
    {
      webinars := catalogue;
      webinarIdLimit := idLimit;
      rows := map[];
      nextId := 1;
      confirmations := [];
    }

    /**
     * Registration. The checks of `Admission.Check` run first; a refused request changes
     * nothing. Otherwise a pending row is inserted. A free webinar's row becomes successful
     * at once and a confirmation is requested, without any gateway call. A paid webinar asks
     * the gateway for an order of its price under the receipt made of the two ids; when the
     * gateway answers (`gatewayReply`), the row stays pending with the order id, and when it
     * fails the row is deleted again, leaving the table as it was.
     */
    method Register(webinarId: int, caller: Caller, guest: Option<GuestDetails>, now: int,
                    gatewayReply: Option<string>)
      returns (result: Result<Admitted, RegisterError>, order: Option<OrderRequest>)
      requires Valid()
      modifies this`rows, this`nextId, this`confirmations
      ensures Valid()
      ensures var c := Check(webinars, old(rows), webinarId, caller, guest, now);
        c.Err? ==> && result == Err(c.error) && order == None
                   && rows == old(rows) && nextId == old(nextId) && confirmations == old(confirmations)
      ensures var c := Check(webinars, old(rows), webinarId, caller, guest, now);
        c.Ok? && !IsPaid(webinars[webinarId]) ==>
          var row := NewRegistration(old(nextId), webinarId, c.value, now).(status := Success);
          && nextId == old(nextId) + 1 && order == None
          && result == Ok(Admitted(old(nextId), None))
          && rows == old(rows)[old(nextId) := row]
          && confirmations == old(confirmations) + [old(nextId)]
      ensures var c := Check(webinars, old(rows), webinarId, caller, guest, now);
        c.Ok? && IsPaid(webinars[webinarId]) ==>
          var row := NewRegistration(old(nextId), webinarId, c.value, now).(orderId := gatewayReply);
          && nextId == old(nextId) + 1 && confirmations == old(confirmations)
          && order == Some(OrderRequest(webinars[webinarId].pricePaise, "INR", Receipt(webinarId, old(nextId))))
          && (gatewayReply.Some? ==> result == Ok(Admitted(old(nextId), gatewayReply))
                                     && rows == old(rows)[old(nextId) := row])
          && (gatewayReply.None? ==> result == Err(OrderCreationFailed) && rows == old(rows))
    {
      var check := Check(webinars, rows, webinarId, caller, guest, now);
      if check.Err? {
        return Err(check.error), None;
      }
      var w := webinars[webinarId];
      var id := nextId;
      var registration := NewRegistration(id, webinarId, check.value, now);
      AdmissionKeepsRegistrantsUnique(webinars, rows, webinarId, caller, guest, now, id, registration);
      Insert(registration);
      if w.pricePaise > 0 {
        order := Some(OrderRequest(w.pricePaise, "INR", Receipt(webinarId, id)));
        if gatewayReply.Some? {
          registration := registration.(orderId := gatewayReply);
          Save(registration);
          OverwriteTwice(old(rows), id, NewRegistration(id, webinarId, check.value, now), registration);
          result := Ok(Admitted(id, gatewayReply));
        } else {
          // the compensating delete: the order could not be created
          Delete(id);
          assert rows == old(rows);
          result := Err(OrderCreationFailed);
        }
      } else {
        registration := registration.(status := Success);
        Save(registration);
        OverwriteTwice(old(rows), id, NewRegistration(id, webinarId, check.value, now), registration);
        confirmations := confirmations + [id];
        order := None;
        result := Ok(Admitted(id, None));
      }
    }

    /** Inserts a new row under the next id; the invariant holds if the row's registrant is new to its webinar. */
    method Insert(r: Registration)
      requires Valid()
      requires r.id == nextId && r.webinarId in webinars
      requires UniqueRegistrants(rows[nextId := r])
      modifies this`rows, this`nextId
      ensures Valid()
      ensures rows == old(rows)[old(nextId) := r] && nextId == old(nextId) + 1
    {
      InsertKeepsTable(webinars, rows, nextId, r);
      rows := rows[nextId := r];
      nextId := nextId + 1;
    }

    /** Overwrites a row with a version of the same id, webinar and registrant. */
    method Save(r: Registration)
      requires Valid()
      requires r.id in rows && rows[r.id].webinarId == r.webinarId && rows[r.id].attendee == r.attendee
      modifies this`rows
      ensures Valid()
      ensures rows == old(rows)[r.id := r]
    {
      RewriteKeepsTable(webinars, rows, nextId, r);
      rows := rows[r.id := r];
    }

    /** Deletes a row. */
    method Delete(id: int)
      requires Valid()
      modifies this`rows
      ensures Valid()
      ensures rows == old(rows) - {id}
    {
      DeleteKeepsTable(webinars, rows, nextId, id);
      rows := rows - {id};
    }

    /**
     * Payment verification. The request's target is decided by `VerifyTarget`; a refused
     * request changes nothing. Otherwise the gateway judges the request's own (order,
     * payment, signature) triple: a valid signature makes the row successful with the
     * payment id and signature and requests a confirmation; an invalid one marks the row
     * failed and reports it. No other row and no other field changes.
     */
    method VerifyPayment(caller: Caller, data: map<string, Value>, signatureValid: (string, string, string) -> bool)
      returns (result: Result<Registration, VerifyError>)
      requires Valid()
      modifies this`rows, this`confirmations
      ensures Valid()
      ensures var t := VerifyTarget(old(rows), caller, data);
        t.Err? ==> result == Err(t.error) && rows == old(rows) && confirmations == old(confirmations)
      ensures var t := VerifyTarget(old(rows), caller, data);
        t.Ok? ==>
          var v := t.value;
          var valid := signatureValid(v.orderId, v.paymentId, v.signature);
          var row := ApplyVerification(old(rows)[v.registrationId], v, valid);
          && rows == old(rows)[v.registrationId := row]
          && (valid ==> result == Ok(row) && confirmations == old(confirmations) + [v.registrationId])
          && (!valid ==> result == Err(InvalidSignature) && confirmations == old(confirmations))
    {
      var target := VerifyTarget(rows, caller, data);
      if target.Err? {
        return Err(target.error);
      }
      var v := target.value;
      var registration := rows[v.registrationId];
      var valid := signatureValid(v.orderId, v.paymentId, v.signature);
      registration := ApplyVerification(registration, v, valid);
      Save(registration);
      if valid {
        confirmations := confirmations + [v.registrationId];
        result := Ok(registration);
      } else {
        result := Err(InvalidSignature);
      }
    }

    /**
     * Cancellation by a signed-in account. The guards of `CancelCheck` run first; a refused
     * request changes nothing. A successful registration of a paid webinar asks the gateway
     * to refund the webinar's price against the stored payment id: on success the row is
     * marked failed (and kept), on failure nothing changes. Every other registration is deleted.
     */
    method Cancel(registrationId: int, u: User, now: int, refundReply: Option<string>)
      returns (result: Result<Cancelled, CancelError>, refund: Option<RefundRequest>)
      requires Valid()
      modifies this`rows
      ensures Valid()
      ensures var c := CancelCheck(webinars, old(rows), registrationId, u, now);
        c.Err? ==> result == Err(c.error) && refund == None && rows == old(rows)
      ensures var c := CancelCheck(webinars, old(rows), registrationId, u, now);
        c.Ok? && CancelActionFor(webinars[c.value.webinarId], c.value) == DeleteRow ==>
          result == Ok(Deleted) && refund == None && rows == old(rows) - {registrationId}
      ensures var c := CancelCheck(webinars, old(rows), registrationId, u, now);
        c.Ok? && CancelActionFor(webinars[c.value.webinarId], c.value) == RequestRefund ==>
          && refund == Some(RefundRequest(c.value.paymentId, webinars[c.value.webinarId].pricePaise))
          && (refundReply.Some? ==> result == Ok(Refunded(refundReply.value))
                                    && rows == old(rows)[registrationId := c.value.(status := Failed)])
          && (refundReply.None? ==> result == Err(RefundFailed) && rows == old(rows))
    {
      var check := CancelCheck(webinars, rows, registrationId, u, now);
      if check.Err? {
        return Err(check.error), None;
      }
      var registration := check.value;
      var w := webinars[registration.webinarId];
      if w.pricePaise > 0 && registration.status == Success {
        refund := Some(RefundRequest(registration.paymentId, w.pricePaise));
        if refundReply.Some? {
          registration := registration.(status := Failed);
          Save(registration);
          result := Ok(Refunded(refundReply.value));
        } else {
          result := Err(RefundFailed);
        }
      } else {
        Delete(registrationId);
        refund := None;
        result := Ok(Deleted);
      }
    }
  }

  /**
   * The table's invariant: every webinar is stored under its own id and well formed, every
   * row is stored under its own id below `nextId` and names a catalogued webinar, and no
   * webinar has two rows for the same registrant.
   */
  ghost predicate TableValid(webinars: map<int, Webinar>, rows: map<int, Registration>, nextId: nat) {
    && (forall w | w in webinars :: w >= 1 && webinars[w].id == w && WellFormedWebinar(webinars[w]))
    && nextId >= 1
    && (forall id | id in rows :: 1 <= id < nextId && rows[id].id == id)
    && RefersToCatalogue(webinars, rows)
    && UniqueRegistrants(rows)
  }

  /** Inserting a row under the next id, for a catalogued webinar, keeps the invariant if it keeps registrants unique. */
  lemma InsertKeepsTable(webinars: map<int, Webinar>, rows: map<int, Registration>, nextId: nat, r: Registration)
    requires TableValid(webinars, rows, nextId)
    requires r.id == nextId && r.webinarId in webinars
    requires UniqueRegistrants(rows[nextId := r])
    ensures TableValid(webinars, rows[nextId := r], nextId + 1)
  {
  }

  lemma OverwriteTwice<K, V>(m: map<K, V>, k: K, first: V, second: V)
    ensures m[k := first][k := second] == m[k := second]
  {
  }

  /** Rewriting a row without changing its id, webinar or registrant keeps the invariant. */
  lemma RewriteKeepsTable(webinars: map<int, Webinar>, rows: map<int, Registration>, nextId: nat, r: Registration)
    requires TableValid(webinars, rows, nextId)
    requires r.id in rows && rows[r.id].webinarId == r.webinarId && rows[r.id].attendee == r.attendee
    ensures TableValid(webinars, rows[r.id := r], nextId)
  {
    UniqueAfterSameRegistrantWrite(rows, r.id, r);
  }

  /** Deleting a row keeps the invariant. */
  lemma DeleteKeepsTable(webinars: map<int, Webinar>, rows: map<int, Registration>, nextId: nat, id: int)
    requires TableValid(webinars, rows, nextId)
    ensures TableValid(webinars, rows - {id}, nextId)
  {
  }

  /** Rewriting a row without changing its webinar or registrant keeps registrants unique. */
  lemma UniqueAfterSameRegistrantWrite(rows: map<int, Registration>, id: int, r: Registration)
    requires UniqueRegistrants(rows)
    requires id in rows && rows[id].webinarId == r.webinarId && rows[id].attendee == r.attendee
    ensures UniqueRegistrants(rows[id := r])
  {
    var rows' := rows[id := r];
    forall a, b | a in rows' && b in rows' && a != b && rows'[a].webinarId == rows'[b].webinarId
      ensures !SameRegistrant(rows'[a].attendee, rows'[b].attendee)
    {
      assert rows'[a].webinarId == rows[a].webinarId && rows'[a].attendee == rows[a].attendee;
      assert rows'[b].webinarId == rows[b].webinarId && rows'[b].attendee == rows[b].attendee;
    }
  }
}
