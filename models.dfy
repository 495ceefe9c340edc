/**
 * The records the registration pipeline reads and writes: users and their roles,
 * webinars, and registrations, together with the capacity rules of a webinar.
 * Time is an integer number of seconds (UTC); money is an integer number of paise.
 */
module Models {
  import opened Results

  /** Role of an account; the only three choices an account can hold. */
  datatype Role = Admin | Host | Attendee

  /** An account: the fields of the account table the core reads. */
  datatype User = User(id: int, username: string, firstName: string, lastName: string, role: Role)

  /** Who sends a request: nobody signed in, or an authenticated account. */
  datatype Caller = Anonymous | SignedIn(user: User)

  /** A price has at most 10 digits, 2 of them after the point: its magnitude in paise stays below 10^10. */
  const PriceBound: int := 10_000_000_000

  datatype Webinar = Webinar(
    id: int,
    title: string,
    startTime: int,
    durationMinutes: int,
    capacity: int,
    pricePaise: int,
    hostId: int,
    link: Option<string>)

  /** The field validators of a webinar: at least one minute long, at least one seat, price within its digits. */
  predicate WellFormedWebinar(w: Webinar) {
    && w.durationMinutes >= 1
    && w.capacity >= 1
    && -PriceBound < w.pricePaise < PriceBound
  }

  /** A webinar is paid exactly when its price is positive; a zero (or negative) price is treated as free. */
  predicate IsPaid(w: Webinar) {
    w.pricePaise > 0
  }

  datatype PaymentStatus = Pending | Success | Failed

  /** The registrant: an account, or a guest identified by e-mail. Exactly one of the two by construction. */
  datatype Attendee = Member(userId: int) | Guest(email: string, name: string, phone: string)

  datatype Registration = Registration(
    id: int,
    webinarId: int,
    attendee: Attendee,
    status: PaymentStatus,
    orderId: Option<string>,
    paymentId: Option<string>,
    signature: Option<string>,
    registeredAt: int)

  /** A freshly created registration: status defaults to pending, no gateway data yet, stamped with the creation time. */
  function NewRegistration(id: int, webinarId: int, attendee: Attendee, now: int): (r: Registration)
    ensures r.status == Pending
    ensures r.orderId == None && r.paymentId == None && r.signature == None
    ensures r.id == id && r.webinarId == webinarId && r.attendee == attendee && r.registeredAt == now
  {
    Registration(id, webinarId, attendee, Pending, None, None, None, now)
  }

  /**
   * Two registrants are the same for duplicate detection: the same account, or two guests
   * with the same e-mail address. An account and a guest are never the same registrant.
   */
  predicate SameRegistrant(a: Attendee, b: Attendee) {
    match (a, b)
    case (Member(u), Member(v)) => u == v
    case (Guest(e, _, _), Guest(f, _, _)) => e == f
    case _ => false
  }

  /** At most one registration per (webinar, account) and per (webinar, guest e-mail). */
  ghost predicate UniqueRegistrants(rows: map<int, Registration>) {
    forall a, b | a in rows && b in rows && a != b && rows[a].webinarId == rows[b].webinarId ::
      !SameRegistrant(rows[a].attendee, rows[b].attendee)
  }

  /** Every registration refers to a webinar of the catalogue (the foreign key). */
  ghost predicate RefersToCatalogue(webinars: map<int, Webinar>, rows: map<int, Registration>) {
    forall id | id in rows :: rows[id].webinarId in webinars
  }

  /** The ids of the webinar's registrations whose payment succeeded. */
  function SuccessIds(rows: map<int, Registration>, webinarId: int): set<int> {
    set id | id in rows && rows[id].webinarId == webinarId && rows[id].status == Success
  }

  /** The successful registrations of the webinars in `ws`. */
  function SuccessfulOf(rows: map<int, Registration>, ws: set<int>): set<int> {
    set id | id in rows && rows[id].status == Success && rows[id].webinarId in ws
  }

  /** One more webinar adds its own successful registrations, which no other webinar shares. */
  lemma SuccessfulOfOneMore(rows: map<int, Registration>, ws: set<int>, w: int)
    requires w !in ws
    ensures SuccessfulOf(rows, ws + {w}) == SuccessfulOf(rows, ws) + SuccessIds(rows, w)
    ensures SuccessfulOf(rows, ws) !! SuccessIds(rows, w)
    ensures |SuccessfulOf(rows, ws + {w})| == |SuccessfulOf(rows, ws)| + RegisteredCount(rows, w)
  {
    assert SuccessfulOf(rows, ws + {w}) == SuccessfulOf(rows, ws) + SuccessIds(rows, w);
  }

  /** The number of the webinar's registrations that count as seats taken. */
  function RegisteredCount(rows: map<int, Registration>, webinarId: int): (n: nat)
    ensures n <= |rows|
  {
    var s := SuccessIds(rows, webinarId);
    assert s <= rows.Keys;
    SubsetCardinality(s, rows.Keys);
    |s|
  }

  /** The webinar is full once its successful registrations reach its capacity. */
  predicate IsFull(rows: map<int, Registration>, w: Webinar) {
    RegisteredCount(rows, w.id) >= w.capacity
  }

  lemma SubsetCardinality<T>(a: set<T>, b: set<T>)
    requires a <= b
    ensures |a| <= |b|
  {
    assert b == a + (b - a);
  }

  /** A registration that is not successful is not counted, whether it is pending or failed. */
  lemma RegisteredCountIsSuccessOnly(rows: map<int, Registration>, webinarId: int, id: int)
    requires id in rows && rows[id].webinarId == webinarId
    ensures id in SuccessIds(rows, webinarId) <==> rows[id].status == Success
  {
  }

  /**
   * Writing a row that is not successful over a row that was not successful (or into a free id)
   * leaves every webinar's count as it was: pending and failed rows never take a seat.
   */
  lemma CountIgnoresUnpaidWrite(rows: map<int, Registration>, id: int, r: Registration, webinarId: int)
    requires r.status != Success
    requires id in rows ==> rows[id].status != Success
    ensures RegisteredCount(rows[id := r], webinarId) == RegisteredCount(rows, webinarId)
  {
    assert SuccessIds(rows[id := r], webinarId) == SuccessIds(rows, webinarId);
  }

  /** Deleting a row that is not successful leaves every webinar's count as it was. */
  lemma CountIgnoresUnpaidDelete(rows: map<int, Registration>, id: int, webinarId: int)
    requires id in rows ==> rows[id].status != Success
    ensures RegisteredCount(rows - {id}, webinarId) == RegisteredCount(rows, webinarId)
  {
    assert SuccessIds(rows - {id}, webinarId) == SuccessIds(rows, webinarId);
  }

  /** Turning a row of the webinar into a successful one takes exactly one more seat of that webinar. */
  lemma CountGainsOnSuccess(rows: map<int, Registration>, id: int, r: Registration)
    requires id in rows ==> rows[id].status != Success
    requires r.status == Success
    ensures RegisteredCount(rows[id := r], r.webinarId) == RegisteredCount(rows, r.webinarId) + 1
  {
    assert SuccessIds(rows[id := r], r.webinarId) == SuccessIds(rows, r.webinarId) + {id};
  }

  /** Turning a successful row into a failed one frees exactly one seat of its webinar. */
  lemma CountLosesOnFailure(rows: map<int, Registration>, id: int)
    requires id in rows && rows[id].status == Success
    ensures RegisteredCount(rows[id := rows[id].(status := Failed)], rows[id].webinarId)
         == RegisteredCount(rows, rows[id].webinarId) - 1
  {
    var w := rows[id].webinarId;
    assert SuccessIds(rows[id := rows[id].(status := Failed)], w) == SuccessIds(rows, w) - {id};
  }
}
