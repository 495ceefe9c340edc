/**
 * The read-only views over the store: the public registration-status lookup, and the
 * attendee and host dashboards with their loops over successful registrations.
 */
module Dashboard {
  import opened Results
  import opened Models
  import opened IdLists
  import opened Store
  import Reconcile

  /** What the status lookup shows about a registration. */
  datatype StatusView = StatusView(
    registrationId: int,
    webinarTitle: string,
    status: PaymentStatus,
    webinarStartTime: int,
    webinarLink: Option<string>)

  /**
   * The status of a registration, for anyone who knows its id. The webinar's link is shown
   * only once the payment succeeded; an unknown id is reported as not found (`None`).
   */
  function RegistrationStatus(webinars: map<int, Webinar>, rows: map<int, Registration>, id: int)
    : (r: Option<StatusView>)
    requires RefersToCatalogue(webinars, rows)
    ensures r.None? <==> id !in rows
    ensures r.Some? ==> && r.value.registrationId == id && r.value.status == rows[id].status
                        && r.value.webinarTitle == webinars[rows[id].webinarId].title
                        && r.value.webinarStartTime == webinars[rows[id].webinarId].startTime
    ensures r.Some? ==> (r.value.webinarLink.Some? <==> rows[id].status == Success && webinars[rows[id].webinarId].link.Some?)
    ensures r.Some? && r.value.webinarLink.Some? ==> r.value.webinarLink == webinars[rows[id].webinarId].link
  {
    if id !in rows then None
    else
      var row := rows[id];
      var w := webinars[row.webinarId];
      Some(StatusView(id, w.title, row.status, w.startTime, if row.status == Success then w.link else None))
  }

  /** A verification with a valid signature makes the status lookup show the webinar's link. */
  lemma VerifiedRegistrationShowsLink(webinars: map<int, Webinar>, rows: map<int, Registration>,
                                      v: WebinarSerializers.PaymentVerification)
    requires RefersToCatalogue(webinars, rows)
    requires v.registrationId in rows
    ensures var rows' := rows[v.registrationId := Reconcile.ApplyVerification(rows[v.registrationId], v, true)];
      RefersToCatalogue(webinars, rows')
      && RegistrationStatus(webinars, rows', v.registrationId).value.webinarLink
         == webinars[rows[v.registrationId].webinarId].link
  {
  }

  /** A rejected signature hides the link again, whatever the status was before. */
  lemma RejectedRegistrationHidesLink(webinars: map<int, Webinar>, rows: map<int, Registration>,
                                      v: WebinarSerializers.PaymentVerification)
    requires RefersToCatalogue(webinars, rows)
    requires v.registrationId in rows
    ensures var rows' := rows[v.registrationId := Reconcile.ApplyVerification(rows[v.registrationId], v, false)];
      RefersToCatalogue(webinars, rows')
      && RegistrationStatus(webinars, rows', v.registrationId).value.webinarLink == None
  {
  }

  /** The account's successful registrations. */
  function MemberSuccessIds(rows: map<int, Registration>, userId: int): set<int> {
    set id | id in rows && rows[id].attendee == Member(userId) && rows[id].status == Success
  }

  /** Those of the account's successful registrations whose webinar starts after `now` (or not). */
  function MemberUpcoming(webinars: map<int, Webinar>, rows: map<int, Registration>, userId: int, now: int,
                          upcoming: bool): set<int> {
    set id | id in MemberSuccessIds(rows, userId) && rows[id].webinarId in webinars
             && (webinars[rows[id].webinarId].startTime > now) == upcoming
  }

  /** The upcoming and past registrations of an account split its successful ones. */
  lemma AttendeePartition(webinars: map<int, Webinar>, rows: map<int, Registration>, userId: int, now: int)
    requires RefersToCatalogue(webinars, rows)
    ensures MemberUpcoming(webinars, rows, userId, now, true) !! MemberUpcoming(webinars, rows, userId, now, false)
    ensures MemberUpcoming(webinars, rows, userId, now, true) + MemberUpcoming(webinars, rows, userId, now, false)
         == MemberSuccessIds(rows, userId)
  {
    forall id | id in MemberSuccessIds(rows, userId)
      ensures id in MemberUpcoming(webinars, rows, userId, now, true) + MemberUpcoming(webinars, rows, userId, now, false)
    {
      assert rows[id].webinarId in webinars;
    }
  }

  /**
   * The attendee dashboard: the account's successful registrations, in the order of their
   * ids, split into those whose webinar starts after `now` and the others, and their number.
   * Each listed registration stands for the entry built from it and its webinar.
   */
  method AttendeeDashboard(store: RegistrationStore, u: User, now: int)
    returns (upcoming: seq<int>, past: seq<int>, totalRegistrations: nat)
    requires store.Valid()
    ensures Members(upcoming) == MemberUpcoming(store.webinars, store.rows, u.id, now, true)
    ensures Members(past) == MemberUpcoming(store.webinars, store.rows, u.id, now, false)
    ensures Increasing(upcoming) && Increasing(past)
    ensures totalRegistrations == |MemberSuccessIds(store.rows, u.id)| == |upcoming| + |past|
  {
    var webinars, rows := store.webinars, store.rows;
    var registrations := SelectIds(store.nextId, x => x in rows && rows[x].attendee == Member(u.id) && rows[x].status == Success);
    assert Members(registrations) == MemberSuccessIds(rows, u.id);
    var isUpcoming := x => x in rows && rows[x].webinarId in webinars && webinars[rows[x].webinarId].startTime > now;
    var isPast := x => !isUpcoming(x);
    upcoming, past := [], [];
    for i := 0 to |registrations|
      invariant upcoming == Filter(registrations[..i], isUpcoming)
      invariant past == Filter(registrations[..i], isPast)
    {
      var id := registrations[i];
      assert id in Members(registrations);
      assert registrations[..i + 1][..i] == registrations[..i];
      if webinars[rows[id].webinarId].startTime > now {
        upcoming := upcoming + [id];
      } else {
        past := past + [id];
      }
    }
    assert registrations[..|registrations|] == registrations;
    totalRegistrations := |registrations|;
    AttendeeTotals(webinars, rows, u.id, now, registrations, isUpcoming, isPast);
  }

  /** What the attendee dashboard's split of the account's registrations amounts to. */
  lemma AttendeeTotals(webinars: map<int, Webinar>, rows: map<int, Registration>, userId: int, now: int,
                       registrations: seq<int>, isUpcoming: int -> bool, isPast: int -> bool)
    requires RefersToCatalogue(webinars, rows)
    requires Members(registrations) == MemberSuccessIds(rows, userId) && Increasing(registrations)
    requires forall x :: isUpcoming(x) == (x in rows && rows[x].webinarId in webinars && webinars[rows[x].webinarId].startTime > now)
    requires forall x :: isPast(x) == !isUpcoming(x)
    ensures Members(Filter(registrations, isUpcoming)) == MemberUpcoming(webinars, rows, userId, now, true)
    ensures Members(Filter(registrations, isPast)) == MemberUpcoming(webinars, rows, userId, now, false)
    ensures Increasing(Filter(registrations, isUpcoming)) && Increasing(Filter(registrations, isPast))
    ensures |registrations| == |MemberSuccessIds(rows, userId)|
         == |Filter(registrations, isUpcoming)| + |Filter(registrations, isPast)|
  {
    UpcomingMembers(webinars, rows, userId, now, registrations, isUpcoming, true);
    UpcomingMembers(webinars, rows, userId, now, registrations, isPast, false);
    FilterIncreasing(registrations, isUpcoming);
    FilterIncreasing(registrations, isPast);
    FilterSplitsLength(registrations, isUpcoming, isPast);
    IncreasingIsDistinct(registrations);
    DistinctCardinality(registrations);
  }

  /** Filtering the account's registrations by start time gives the upcoming (or past) ones. */
  lemma UpcomingMembers(webinars: map<int, Webinar>, rows: map<int, Registration>, userId: int, now: int,
                        registrations: seq<int>, chosen: int -> bool, upcoming: bool)
    requires RefersToCatalogue(webinars, rows)
    requires Members(registrations) == MemberSuccessIds(rows, userId)
    requires forall x | x in MemberSuccessIds(rows, userId) ::
               chosen(x) == ((webinars[rows[x].webinarId].startTime > now) == upcoming)
    ensures Members(Filter(registrations, chosen)) == MemberUpcoming(webinars, rows, userId, now, upcoming)
  {
    FilterMembers(registrations, chosen);
    forall x
      ensures (x in registrations && chosen(x)) == (x in MemberUpcoming(webinars, rows, userId, now, upcoming))
    {
      assert x in registrations <==> x in Members(registrations);
    }
  }

  /** The webinars the account hosts. */
  function HostedBy(webinars: map<int, Webinar>, hostId: int): set<int> {
    set w | w in webinars && webinars[w].hostId == hostId
  }

  /** One row of the host dashboard: a hosted webinar, its successful registrations and the revenue from them. */
  datatype HostEntry = HostEntry(
    webinarId: int,
    title: string,
    startTime: int,
    capacity: int,
    registeredCount: nat,
    pricePaise: int,
    revenuePaise: int,
    attendees: seq<int>)

  /**
   * The entry shows the stored webinar: its fields, its successful registrations in the
   * order of their ids, their number, and that number times the price as its revenue.
   */
  ghost predicate Describes(webinars: map<int, Webinar>, rows: map<int, Registration>, e: HostEntry) {
    && e.webinarId in webinars
    && e.title == webinars[e.webinarId].title
    && e.startTime == webinars[e.webinarId].startTime
    && e.capacity == webinars[e.webinarId].capacity
    && e.pricePaise == webinars[e.webinarId].pricePaise
    && Members(e.attendees) == SuccessIds(rows, e.webinarId) && Increasing(e.attendees)
    && e.registeredCount == RegisteredCount(rows, e.webinarId)
    && e.revenuePaise == e.registeredCount * e.pricePaise
  }

  /** The webinars of the entries, in order. */
  function EntryIds(entries: seq<HostEntry>): (ids: seq<int>)
    ensures |ids| == |entries|
    ensures forall k | 0 <= k < |entries| :: ids[k] == entries[k].webinarId
  {
    if entries == [] then [] else EntryIds(entries[..|entries| - 1]) + [entries[|entries| - 1].webinarId]
  }

  /** The number of attendees over all entries. */
  function TotalRegistered(entries: seq<HostEntry>): nat {
    if entries == [] then 0
    else TotalRegistered(entries[..|entries| - 1]) + entries[|entries| - 1].registeredCount
  }

  /** The revenue over all entries. */
  function TotalRevenue(entries: seq<HostEntry>): int {
    if entries == [] then 0
    else TotalRevenue(entries[..|entries| - 1]) + entries[|entries| - 1].revenuePaise
  }

  /**
   * The entry of one hosted webinar: its successful registrations, queried in the order of
   * their ids, one attendee each, then their number and number times price.
   */
  method HostEntryFor(store: RegistrationStore, w: int) returns (e: HostEntry)
    requires store.Valid() && w in store.webinars
    ensures e.webinarId == w && Describes(store.webinars, store.rows, e)
  {
    var rows := store.rows;
    var webinar := store.webinars[w];
    var registrations := SelectIds(store.nextId, x => x in rows && rows[x].webinarId == w && rows[x].status == Success);
    assert Members(registrations) == SuccessIds(rows, w);
    // one attendee entry per successful registration; the entry's contents are not modelled
    var attendees := [];
    for j := 0 to |registrations|
      invariant attendees == registrations[..j]
    {
      attendees := attendees + [registrations[j]];
    }
    assert registrations[..|registrations|] == registrations;
    IncreasingIsDistinct(registrations);
    DistinctCardinality(registrations);
    var count := |registrations|;
    e := HostEntry(w, webinar.title, webinar.startTime, webinar.capacity, count, webinar.pricePaise,
                   count * webinar.pricePaise, attendees);
  }

  /**
   * The host dashboard: one entry per webinar the account hosts, in the order of their ids,
   * with the number of webinars, the number of attendees over all of them and the revenue
   * over all of them.
   */
  method HostDashboard(store: RegistrationStore, u: User)
    returns (entries: seq<HostEntry>, totalWebinars: nat, totalAttendees: nat, totalRevenue: int)
    requires store.Valid()
    ensures Members(EntryIds(entries)) == HostedBy(store.webinars, u.id) && Increasing(EntryIds(entries))
    ensures forall k | 0 <= k < |entries| :: Describes(store.webinars, store.rows, entries[k])
    ensures totalWebinars == |entries| == |HostedBy(store.webinars, u.id)|
    ensures totalAttendees == TotalRegistered(entries) == |SuccessfulOf(store.rows, HostedBy(store.webinars, u.id))|
    ensures totalRevenue == TotalRevenue(entries)
  {
    var webinars, rows := store.webinars, store.rows;
    var hosted := SelectIds(store.webinarIdLimit, x => x in webinars && webinars[x].hostId == u.id);
    assert Members(hosted) == HostedBy(webinars, u.id);
    entries, totalAttendees, totalRevenue := [], 0, 0;
    for i := 0 to |hosted|
      invariant EntryIds(entries) == hosted[..i]
      invariant forall k | 0 <= k < |entries| :: Describes(webinars, rows, entries[k])
      invariant totalAttendees == TotalRegistered(entries) == |SuccessfulOf(rows, Members(hosted[..i]))|
      invariant totalRevenue == TotalRevenue(entries)
    {
      var w := hosted[i];
      assert w in Members(hosted);
      var e := HostEntryFor(store, w);
      HostStep(webinars, rows, hosted, i, entries, e);
      AppendKeepsDescribed(webinars, rows, entries, e);
      entries := entries + [e];
      totalAttendees := totalAttendees + e.registeredCount;
      totalRevenue := totalRevenue + e.revenuePaise;
    }
    assert hosted[..|hosted|] == hosted;
    totalWebinars := |entries|;
    IncreasingIsDistinct(hosted);
    DistinctCardinality(hosted);
  }

  /** Appending the entry of the next hosted webinar extends the ids, the attendees and the revenue. */
  lemma HostStep(webinars: map<int, Webinar>, rows: map<int, Registration>, hosted: seq<int>, i: nat,
                 entries: seq<HostEntry>, e: HostEntry)
    requires Increasing(hosted) && i < |hosted|
    requires EntryIds(entries) == hosted[..i]
    requires TotalRegistered(entries) == |SuccessfulOf(rows, Members(hosted[..i]))|
    requires e.webinarId == hosted[i] && Describes(webinars, rows, e)
    ensures EntryIds(entries + [e]) == hosted[..i + 1]
    ensures TotalRegistered(entries + [e]) == TotalRegistered(entries) + e.registeredCount
         == |SuccessfulOf(rows, Members(hosted[..i + 1]))|
    ensures TotalRevenue(entries + [e]) == TotalRevenue(entries) + e.revenuePaise
  {
    assert (entries + [e])[..|entries|] == entries;
    IncreasingPrefixExcludes(hosted, i);
    SuccessfulOfOneMore(rows, Members(hosted[..i]), hosted[i]);
    MembersOfLongerPrefix(hosted, i);
  }

  lemma AppendKeepsDescribed(webinars: map<int, Webinar>, rows: map<int, Registration>,
                             entries: seq<HostEntry>, e: HostEntry)
    requires forall k | 0 <= k < |entries| :: Describes(webinars, rows, entries[k])
    requires Describes(webinars, rows, e)
    ensures forall k | 0 <= k < |entries + [e]| :: Describes(webinars, rows, (entries + [e])[k])
  {
    forall k | 0 <= k < |entries + [e]|
      ensures Describes(webinars, rows, (entries + [e])[k])
    {
      if k < |entries| {
        assert (entries + [e])[k] == entries[k];
      }
    }
  }

  /** A host whose webinars all have a zero price earns nothing. */
  lemma {:induction false} ZeroPricedHostingEarnsNothing(webinars: map<int, Webinar>, rows: map<int, Registration>,
                                                   entries: seq<HostEntry>)
    requires forall k | 0 <= k < |entries| :: Describes(webinars, rows, entries[k]) && entries[k].pricePaise == 0
    ensures TotalRevenue(entries) == 0
  {
    if entries != [] {
      ZeroPricedHostingEarnsNothing(webinars, rows, entries[..|entries| - 1]);
    }
  }

  /** A host none of whose webinars is paid (a price of zero or less) earns no positive revenue. */
  lemma {:induction false} UnpaidHostingEarnsNothing(webinars: map<int, Webinar>, rows: map<int, Registration>,
                                                     entries: seq<HostEntry>)
    requires forall k | 0 <= k < |entries| ::
               Describes(webinars, rows, entries[k]) && !IsPaid(webinars[entries[k].webinarId])
    ensures TotalRevenue(entries) <= 0
  {
    if entries != [] {
      var e := entries[|entries| - 1];
      UnpaidHostingEarnsNothing(webinars, rows, entries[..|entries| - 1]);
      CountTimesUnpaidPrice(e.registeredCount, e.pricePaise);
    }
  }

  lemma CountTimesUnpaidPrice(count: nat, price: int)
    requires price <= 0
    ensures count * price <= 0
  {
    assert count * price == -(count * -price);
  }

  /** The magnitude of a price. */
  function Magnitude(x: int): nat {
    if x < 0 then -x else x
  }

  /** The largest price magnitude over the entries, 0 for none. */
  function MaxPrice(entries: seq<HostEntry>): (m: nat)
    ensures forall k | 0 <= k < |entries| :: -(m as int) <= entries[k].pricePaise <= m
    ensures entries == [] ==> m == 0
    ensures entries != [] ==> exists k | 0 <= k < |entries| :: Magnitude(entries[k].pricePaise) == m
  {
    if entries == [] then 0
    else
      var rest := MaxPrice(entries[..|entries| - 1]);
      var last := Magnitude(entries[|entries| - 1].pricePaise);
      assert forall k | 0 <= k < |entries| - 1 :: entries[k] == entries[..|entries| - 1][k];
      if last > rest then last else rest
  }

  /**
   * The revenue never exceeds, in magnitude, the number of attendees times the largest price
   * of the entries, and that price stays below PriceBound, the limit of ten digits the price
   * field allows.
   */
  lemma RevenueBounds(webinars: map<int, Webinar>, rows: map<int, Registration>, entries: seq<HostEntry>)
    requires forall w | w in webinars :: WellFormedWebinar(webinars[w])
    requires forall k | 0 <= k < |entries| :: Describes(webinars, rows, entries[k])
    ensures MaxPrice(entries) < PriceBound
    ensures -(TotalRegistered(entries) * MaxPrice(entries)) <= TotalRevenue(entries) <= TotalRegistered(entries) * MaxPrice(entries)
    ensures -(TotalRegistered(entries) * PriceBound) <= TotalRevenue(entries) <= TotalRegistered(entries) * PriceBound
  {
    var m := MaxPrice(entries);
    if entries != [] {
      var k :| 0 <= k < |entries| && Magnitude(entries[k].pricePaise) == m;
      assert WellFormedWebinar(webinars[entries[k].webinarId]);
    }
    RevenueWithin(entries, m);
    CountTimesBoundGrows(TotalRegistered(entries), m, PriceBound);
  }

  /** Revenue within attendees times any bound on the entries' price magnitudes, when each entry earns its count times its price. */
  lemma {:induction false} RevenueWithin(entries: seq<HostEntry>, m: nat)
    requires forall k | 0 <= k < |entries| :: entries[k].revenuePaise == entries[k].registeredCount * entries[k].pricePaise
    requires forall k | 0 <= k < |entries| :: -(m as int) <= entries[k].pricePaise <= m
    ensures -(TotalRegistered(entries) * m) <= TotalRevenue(entries) <= TotalRegistered(entries) * m
  {
    if entries != [] {
      var e := entries[|entries| - 1];
      var init := entries[..|entries| - 1];
      assert forall k | 0 <= k < |init| :: init[k] == entries[k];
      RevenueWithin(init, m);
      CountTimesPriceBounds(e.registeredCount, e.pricePaise, m);
      SumTimesBound(TotalRegistered(init), e.registeredCount, m);
    }
  }

  lemma SumTimesBound(a: nat, b: nat, m: nat)
    ensures (a + b) * m == a * m + b * m
  {
  }

  lemma CountTimesBoundGrows(count: nat, m: nat, bound: nat)
    requires m <= bound
    ensures count * m <= count * bound
  {
    assert count * bound - count * m == count * (bound - m);
  }

  lemma CountTimesPriceBounds(count: nat, price: int, m: nat)
    requires -(m as int) <= price <= m
    ensures -(count * m) <= count * price <= count * m
  {
    assert count * price + count * m == count * (price + m);
    assert count * m - count * price == count * (m - price);
  }
}
