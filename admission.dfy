/**
 * The decision half of the registration handler: the fixed sequence of checks a
 * registration request goes through before any row is written. The first check
 * that fails decides the error.
 */
module Admission {
  import opened Results
  import opened Models

  /** The guest details of an anonymous request, as the guest-details validator returns them. */
  datatype GuestDetails = GuestDetails(email: string, name: string, phone: Option<string>)

  datatype RegisterError =
    | WebinarNotFound       // 404 "Webinar not found."
    | InvalidGuestDetails   // 400 with the validator's errors
    | AlreadyRegistered     // 400, same account or same guest e-mail
    | WebinarFull           // 400 "Webinar is full."
    | AlreadyStarted        // 400 "Cannot register for past webinars."
    | OrderCreationFailed   // 500, the gateway refused the order

  /**
   * Who is registering. A signed-in caller registers as the account, whatever guest
   * fields came along; an anonymous caller needs valid guest details (`None` when the
   * guest-details validator rejected the request). A missing phone is stored as "".
   */
  function Registrant(caller: Caller, guest: Option<GuestDetails>): (r: Result<Attendee, RegisterError>)
    ensures caller.SignedIn? ==> r == Ok(Member(caller.user.id))
    ensures caller.Anonymous? && guest.None? ==> r == Err(InvalidGuestDetails)
    ensures caller.Anonymous? && guest.Some? ==>
      r.Ok? && r.value.Guest? && r.value.email == guest.value.email && r.value.name == guest.value.name
  {
    match caller
    case SignedIn(u) => Ok(Member(u.id))
    case Anonymous =>
      match guest
      case None => Err(InvalidGuestDetails)
      case Some(g) => Ok(Guest(g.email, g.name, if g.phone.Some? then g.phone.value else ""))
  }

  /** Some row of the webinar already belongs to this registrant, whatever its payment status. */
  predicate IsRegistered(rows: map<int, Registration>, webinarId: int, who: Attendee) {
    exists id | id in rows :: rows[id].webinarId == webinarId && SameRegistrant(rows[id].attendee, who)
  }

  /**
   * The checks of a registration request, in the handler's order: the webinar exists,
   * the registrant is identified, no row of the webinar is theirs yet, the webinar is
   * not full, and it has not started. On success, the registrant to store.
   */
  function Check(webinars: map<int, Webinar>, rows: map<int, Registration>, webinarId: int,
                 caller: Caller, guest: Option<GuestDetails>, now: int): (r: Result<Attendee, RegisterError>)
    ensures r.Ok? ==> r == Registrant(caller, guest)
  {
    if webinarId !in webinars then Err(WebinarNotFound)
    else
      var w := webinars[webinarId];
      var who :- Registrant(caller, guest);
      if IsRegistered(rows, webinarId, who) then Err(AlreadyRegistered)
      else if IsFull(rows, w) then Err(WebinarFull)
      else if w.startTime <= now then Err(AlreadyStarted)
      else Ok(who)
  }

  /** A request is admitted exactly when all five checks pass. */
  lemma CheckAdmitsExactly(webinars: map<int, Webinar>, rows: map<int, Registration>, webinarId: int,
                           caller: Caller, guest: Option<GuestDetails>, now: int)
    ensures Check(webinars, rows, webinarId, caller, guest, now).Ok? <==>
      && webinarId in webinars
      && Registrant(caller, guest).Ok?
      && !IsRegistered(rows, webinarId, Registrant(caller, guest).value)
      && !IsFull(rows, webinars[webinarId])
      && webinars[webinarId].startTime > now
  {
  }

  /** The first failing check decides the error, whatever the later checks would say. */
  lemma CheckErrorOrder(webinars: map<int, Webinar>, rows: map<int, Registration>, webinarId: int,
                        caller: Caller, guest: Option<GuestDetails>, now: int)
    ensures webinarId !in webinars ==>
      Check(webinars, rows, webinarId, caller, guest, now) == Err(WebinarNotFound)
    ensures (webinarId in webinars && Registrant(caller, guest).Err?) ==>
      Check(webinars, rows, webinarId, caller, guest, now) == Err(InvalidGuestDetails)
    ensures (&& webinarId in webinars && Registrant(caller, guest).Ok?
             && IsRegistered(rows, webinarId, Registrant(caller, guest).value)) ==>
      Check(webinars, rows, webinarId, caller, guest, now) == Err(AlreadyRegistered)
    ensures (&& webinarId in webinars && Registrant(caller, guest).Ok?
             && !IsRegistered(rows, webinarId, Registrant(caller, guest).value)
             && IsFull(rows, webinars[webinarId])) ==>
      Check(webinars, rows, webinarId, caller, guest, now) == Err(WebinarFull)
    ensures (&& webinarId in webinars && Registrant(caller, guest).Ok?
             && !IsRegistered(rows, webinarId, Registrant(caller, guest).value)
             && !IsFull(rows, webinars[webinarId]) && webinars[webinarId].startTime <= now) ==>
      Check(webinars, rows, webinarId, caller, guest, now) == Err(AlreadyStarted)
  {
  }

  /**
   * Any existing row of the webinar for the same registrant blocks a new registration,
   * including a pending one whose payment never completed and a failed one.
   */
  lemma AnyRowBlocksReregistration(webinars: map<int, Webinar>, rows: map<int, Registration>, id: int,
                                   caller: Caller, guest: Option<GuestDetails>, now: int)
    requires id in rows && rows[id].webinarId in webinars
    requires Registrant(caller, guest).Ok?
    requires SameRegistrant(rows[id].attendee, Registrant(caller, guest).value)
    ensures Check(webinars, rows, rows[id].webinarId, caller, guest, now) == Err(AlreadyRegistered)
  {
    assert IsRegistered(rows, rows[id].webinarId, Registrant(caller, guest).value);
  }

  /** Pending rows never make a webinar full: adding one cannot turn an admission into WebinarFull. */
  lemma PendingRowsNeverFill(rows: map<int, Registration>, id: int, r: Registration, w: Webinar)
    requires id !in rows && r.status == Pending
    ensures IsFull(rows[id := r], w) == IsFull(rows, w)
  {
    CountIgnoresUnpaidWrite(rows, id, r, w.id);
  }

  /** The row an admitted request inserts keeps registrants unique. */
  lemma AdmissionKeepsRegistrantsUnique(webinars: map<int, Webinar>, rows: map<int, Registration>,
                                        webinarId: int, caller: Caller, guest: Option<GuestDetails>,
                                        now: int, id: int, r: Registration)
    requires UniqueRegistrants(rows)
    requires Check(webinars, rows, webinarId, caller, guest, now).Ok?
    requires id !in rows
    requires r.webinarId == webinarId && r.attendee == Check(webinars, rows, webinarId, caller, guest, now).value
    ensures UniqueRegistrants(rows[id := r])
  {
    var rows' := rows[id := r];
    forall a, b | a in rows' && b in rows' && a != b && rows'[a].webinarId == rows'[b].webinarId
      ensures !SameRegistrant(rows'[a].attendee, rows'[b].attendee)
    {
      if a == id {
        assert !(rows[b].webinarId == webinarId && SameRegistrant(rows[b].attendee, r.attendee));
        SameRegistrantSymmetric(rows[b].attendee, r.attendee);
      } else if b == id {
        assert !(rows[a].webinarId == webinarId && SameRegistrant(rows[a].attendee, r.attendee));
      }
    }
  }

  lemma SameRegistrantSymmetric(a: Attendee, b: Attendee)
    ensures SameRegistrant(a, b) == SameRegistrant(b, a)
  {
  }
}
