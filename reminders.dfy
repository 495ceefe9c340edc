/**
 * The three periodic reminder sweeps. Each selects the webinars whose start time lies in
 * a window computed from the current time, sends one message to every successful
 * registration of each selected webinar, and counts the sends that the sender reports
 * as delivered. Sweeps only read the store, and nothing records that a message was sent.
 */
module Reminders {
  import opened Models
  import opened IdLists
  import opened Store

  const Minute: int := 60
  const Hour: int := 60 * Minute
  const Day: int := 24 * Hour

  /** A range of start times: from `from` (included) to `until`, included or not. */
  datatype Window = Window(from: int, until: int, untilIncluded: bool) {
    predicate Contains(t: int) {
      from <= t && (if untilIncluded then t <= until else t < until)
    }
  }

  /** Midnight (UTC) at which the day after `now`'s day begins. */
  function StartOfTomorrow(now: int): int {
    ((now + Day) / Day) * Day
  }

  /** The 24-hour sweep: webinars starting during tomorrow's calendar day. */
  function Tomorrow(now: int): Window {
    Window(StartOfTomorrow(now), StartOfTomorrow(now) + Day, false)
  }

  /** The 1-hour sweep: webinars starting within five minutes either side of an hour from now. */
  function AboutAnHourAhead(now: int): Window {
    Window(now + Hour - 5 * Minute, now + Hour + 5 * Minute, true)
  }

  /** The starting sweep: webinars that started up to five minutes ago or start within ten minutes. */
  function StartingNow(now: int): Window {
    Window(now - 5 * Minute, now + 10 * Minute, true)
  }

  /** A start time is in the 24-hour sweep's window exactly when it falls on the calendar day after `now`'s. */
  lemma TomorrowIsNextCalendarDay(start: int, now: int)
    ensures Tomorrow(now).Contains(start) <==> start / Day == now / Day + 1
  {
    var d := now / Day;
    assert (now + Day) / Day == d + 1 by {
      assert now + Day == (d + 1) * Day + now % Day;
    }
    var q := start / Day;
    assert start == q * Day + start % Day && 0 <= start % Day < Day;
    if q <= d {
      assert q * Day <= d * Day;
    } else if q >= d + 2 {
      assert q * Day >= (d + 2) * Day;
    }
  }

  /** Every run of the 24-hour sweep during one calendar day selects the same webinars. */
  lemma TomorrowIsFixedForTheDay(start: int, now1: int, now2: int)
    requires now1 / Day == now2 / Day
    ensures Tomorrow(now1).Contains(start) == Tomorrow(now2).Contains(start)
  {
    TomorrowIsNextCalendarDay(start, now1);
    TomorrowIsNextCalendarDay(start, now2);
  }

  /** The 1-hour window covers start times 55 to 65 minutes ahead, both ends included. */
  lemma AboutAnHourAheadBounds(start: int, now: int)
    ensures AboutAnHourAhead(now).Contains(start) <==> 55 * Minute <= start - now <= 65 * Minute
  {
  }

  /**
   * The 1-hour window is ten minutes wide with both ends included, so runs five minutes apart
   * select the same webinar up to three times: when they fall at 65, 60 and 55 minutes before
   * its start; otherwise twice.
   */
  lemma HourWindowRepeats(start: int)
    ensures AboutAnHourAhead(start - 65 * Minute).Contains(start)
    ensures AboutAnHourAhead(start - 60 * Minute).Contains(start)
    ensures AboutAnHourAhead(start - 55 * Minute).Contains(start)
    ensures !AboutAnHourAhead(start - 70 * Minute).Contains(start) && !AboutAnHourAhead(start - 50 * Minute).Contains(start)
  {
  }

  /**
   * The starting window is fifteen minutes wide, so runs five minutes apart select the same
   * webinar up to four times: at 10 and 5 minutes before its start, at its start, and 5 minutes after.
   */
  lemma StartingWindowRepeats(start: int)
    ensures StartingNow(start - 10 * Minute).Contains(start)
    ensures StartingNow(start - 5 * Minute).Contains(start)
    ensures StartingNow(start).Contains(start)
    ensures StartingNow(start + 5 * Minute).Contains(start)
    ensures !StartingNow(start - 15 * Minute).Contains(start) && !StartingNow(start + 10 * Minute).Contains(start)
  {
  }

  /** The webinars whose start time lies in the window. */
  function Selected(webinars: map<int, Webinar>, window: Window): set<int> {
    set w | w in webinars && window.Contains(webinars[w].startTime)
  }

  /** The registrations a sweep over `window` sends to. */
  function Eligible(webinars: map<int, Webinar>, rows: map<int, Registration>, window: Window): set<int> {
    SuccessfulOf(rows, Selected(webinars, window))
  }

  /** The number of sends in `s` that the sender reported as delivered. */
  function Delivered(s: seq<int>, send: int -> bool): nat {
    if s == [] then 0
    else Delivered(s[..|s| - 1], send) + (if send(s[|s| - 1]) then 1 else 0)
  }

  lemma {:induction false} DeliveredAtMostSent(s: seq<int>, send: int -> bool)
    ensures Delivered(s, send) <= |s|
  {
    if s != [] {
      DeliveredAtMostSent(s[..|s| - 1], send);
    }
  }

  /** Appending the sends for one more webinar to those for the webinars `done`. */
  lemma SweepStep(rows: map<int, Registration>, done: set<int>, w: int, sentTo: seq<int>, sent: seq<int>)
    requires w !in done
    requires Members(sentTo) == SuccessfulOf(rows, done) && Distinct(sentTo)
    requires Members(sent) == SuccessIds(rows, w) && Distinct(sent)
    ensures Members(sentTo + sent) == SuccessfulOf(rows, done + {w})
    ensures Distinct(sentTo + sent)
  {
    SuccessfulOfOneMore(rows, done, w);
    DistinctConcat(sentTo, sent);
  }

  /**
   * One sweep over `window`: the selected webinars, then for each of them its successful
   * registrations, both queried in the order of their ids, and one send to each registration.
   * `sentTo` lists the registrations sent to, in the order of sending; `send` is the sender's
   * verdict for each of them. Nothing is modified.
   */
  method Sweep(store: RegistrationStore, window: Window, send: int -> bool)
    returns (sentTo: seq<int>, sentCount: nat)
    requires store.Valid()
    ensures Members(sentTo) == Eligible(store.webinars, store.rows, window)
    ensures Distinct(sentTo)
    ensures sentCount == Delivered(sentTo, send)
    ensures sentCount <= |Eligible(store.webinars, store.rows, window)|
  {
    var webinars, rows := store.webinars, store.rows;
    var selected := SelectIds(store.webinarIdLimit, x => x in webinars && window.Contains(webinars[x].startTime));
    assert Members(selected) == Selected(webinars, window);
    sentTo, sentCount := [], 0;
    for i := 0 to |selected|
      invariant Members(sentTo) == SuccessfulOf(rows, Members(selected[..i]))
      invariant Distinct(sentTo)
      invariant sentCount == Delivered(sentTo, send)
    {
      var w := selected[i];
      var registrations := SelectIds(store.nextId, x => x in rows && rows[x].webinarId == w && rows[x].status == Success);
      assert Members(registrations) == SuccessIds(rows, w);
      ghost var before := sentTo;
      for j := 0 to |registrations|
        invariant sentTo == before + registrations[..j]
        invariant sentCount == Delivered(sentTo, send)
      {
        assert registrations[..j + 1] == registrations[..j] + [registrations[j]];
        assert (sentTo + [registrations[j]])[..|sentTo|] == sentTo;
        sentTo := sentTo + [registrations[j]];
        if send(registrations[j]) {
          sentCount := sentCount + 1;
        }
      }
      assert registrations[..|registrations|] == registrations;
      IncreasingIsDistinct(registrations);
      IncreasingPrefixExcludes(selected, i);
      SweepStep(rows, Members(selected[..i]), w, before, registrations);
      MembersOfLongerPrefix(selected, i);
    }
    assert selected[..|selected|] == selected;
    DistinctCardinality(sentTo);
    DeliveredAtMostSent(sentTo, send);
  }

  /** The 24-hour reminder sweep. */
  method SendDayBeforeReminders(store: RegistrationStore, now: int, send: int -> bool)
    returns (sentTo: seq<int>, sentCount: nat)
    requires store.Valid()
    ensures Members(sentTo) == Eligible(store.webinars, store.rows, Tomorrow(now))
    ensures Distinct(sentTo)
    ensures sentCount == Delivered(sentTo, send)
    ensures sentCount <= |Eligible(store.webinars, store.rows, Tomorrow(now))|
  {
    sentTo, sentCount := Sweep(store, Tomorrow(now), send);
  }

  /** The 1-hour reminder sweep. */
  method SendHourBeforeReminders(store: RegistrationStore, now: int, send: int -> bool)
    returns (sentTo: seq<int>, sentCount: nat)
    requires store.Valid()
    ensures Members(sentTo) == Eligible(store.webinars, store.rows, AboutAnHourAhead(now))
    ensures Distinct(sentTo)
    ensures sentCount == Delivered(sentTo, send)
    ensures sentCount <= |Eligible(store.webinars, store.rows, AboutAnHourAhead(now))|
  {
    sentTo, sentCount := Sweep(store, AboutAnHourAhead(now), send);
  }

  /** The starting-now notification sweep. */
  method SendStartingNotifications(store: RegistrationStore, now: int, send: int -> bool)
    returns (sentTo: seq<int>, sentCount: nat)
    requires store.Valid()
    ensures Members(sentTo) == Eligible(store.webinars, store.rows, StartingNow(now))
    ensures Distinct(sentTo)
    ensures sentCount == Delivered(sentTo, send)
    ensures sentCount <= |Eligible(store.webinars, store.rows, StartingNow(now))|
  {
    sentTo, sentCount := Sweep(store, StartingNow(now), send);
  }

  /**
   * All runs of the 24-hour sweep during one calendar day (say, hourly runs) address exactly
   * the same registrations: nothing records that a reminder was sent.
   */
  lemma DayBeforeRemindersRepeat(webinars: map<int, Webinar>, rows: map<int, Registration>, now1: int, now2: int)
    requires now1 / Day == now2 / Day
    ensures Eligible(webinars, rows, Tomorrow(now1)) == Eligible(webinars, rows, Tomorrow(now2))
  {
    forall w | w in webinars
      ensures Tomorrow(now1).Contains(webinars[w].startTime) == Tomorrow(now2).Contains(webinars[w].startTime)
    {
      TomorrowIsFixedForTheDay(webinars[w].startTime, now1, now2);
    }
    assert Selected(webinars, Tomorrow(now1)) == Selected(webinars, Tomorrow(now2));
  }
}
