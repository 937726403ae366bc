/** `scheduleNotifications`: for the current instant, which participants of which events
    are sent a reminder or a feedback request. The messages themselves are opaque here;
    a dispatch records the event, the normalised phone it is addressed to and its kind.
    Nothing records what was already sent, so every call inside a window sends again. */
module Notifications {

  import opened Wrappers
  import opened Domain
  import opened Phone

  /** `1000 * 60 * 60` milliseconds. */
  const HourMs: int := 1000 * 60 * 60

  datatype Kind = Reminder | FeedbackRequest

  datatype Dispatch = Dispatch(eventId: int, to: string, kind: Kind)

  /** `hoursDiff <= 24 && hoursDiff > 23`, with `hoursDiff` the event's distance from the
      clock in hours. An event without a readable date (NaN) is in no window. */
  predicate InReminderWindow(date: Option<int>, now: int): (b: bool)
    ensures b <==> date.Some? && 23.0 < (date.value - now) as real / HourMs as real <= 24.0
  {
    date.Some? && 23 * HourMs < date.value - now <= 24 * HourMs
  }

  /** `hoursDiff <= -12 && hoursDiff > -13`: from 12 hours after the event (inclusive) to
      13 hours after it (exclusive). */
  predicate InFeedbackWindow(date: Option<int>, now: int): (b: bool)
    ensures b <==> date.Some? && -13.0 < (date.value - now) as real / HourMs as real <= -12.0
  {
    date.Some? && -13 * HourMs < date.value - now <= -12 * HourMs
  }

  predicate InWindow(date: Option<int>, now: int, kind: Kind) {
    match kind
    case Reminder => InReminderWindow(date, now)
    case FeedbackRequest => InFeedbackWindow(date, now)
  }

  /** Reminders go to confirmed participants, feedback requests to those who attended. */
  predicate Qualifies(p: Participant, kind: Kind) {
    match kind
    case Reminder => Truthy(p.confirmed)
    case FeedbackRequest => Truthy(p.attended)
  }

  /** `participants.filter(p => p.confirmed)` or `.filter(p => p.attended)`. */
  function Recipients(ps: seq<Participant>, kind: Kind): (r: seq<Participant>)
    ensures |r| <= |ps|
  {
    if ps == [] then []
    else Recipients(ps[..|ps| - 1], kind) + if Qualifies(ps[|ps| - 1], kind) then [ps[|ps| - 1]] else []
  }

  /** The filter keeps exactly the participants that qualify. */
  lemma {:induction false} RecipientsExactly(ps: seq<Participant>, kind: Kind, p: Participant)
    ensures p in Recipients(ps, kind) <==> p in ps && Qualifies(p, kind)
  {
    if ps != [] {
      var init := ps[..|ps| - 1];
      RecipientsExactly(init, kind, p);
      assert ps == init + [ps[|ps| - 1]];
    }
  }

  /** The filter of a roster extended by one participant. */
  lemma RecipientsStep(ps: seq<Participant>, j: nat, kind: Kind)
    requires j < |ps|
    ensures Recipients(ps[..j + 1], kind) ==
            Recipients(ps[..j], kind) + if Qualifies(ps[j], kind) then [ps[j]] else []
  {
    assert ps[..j + 1][..j] == ps[..j];
  }

  /** The filter keeps every qualifying entry as often as the roster holds it, and no
      other entry. */
  lemma {:induction false} RecipientsCount(ps: seq<Participant>, kind: Kind, p: Participant)
    ensures multiset(Recipients(ps, kind))[p] == if Qualifies(p, kind) then multiset(ps)[p] else 0
  {
    if ps != [] {
      var init := ps[..|ps| - 1];
      RecipientsCount(init, kind, p);
      assert ps == init + [ps[|ps| - 1]];
    }
  }

  /** Filtering a prefix of the roster gives a prefix of the filtered roster. */
  lemma {:induction false} RecipientsPrefix(ps: seq<Participant>, kind: Kind, j: nat)
    requires j <= |ps|
    ensures Recipients(ps[..j], kind) <= Recipients(ps, kind)
    decreases |ps| - j
  {
    if j < |ps| {
      RecipientsPrefix(ps, kind, j + 1);
      RecipientsStep(ps, j, kind);
    } else {
      assert ps[..j] == ps;
    }
  }

  /** The filter keeps roster order: a qualifying entry is preceded in the result by
      exactly the qualifying entries before it in the roster. */
  lemma RecipientsPosition(ps: seq<Participant>, kind: Kind, j: nat)
    requires j < |ps| && Qualifies(ps[j], kind)
    ensures |Recipients(ps[..j], kind)| < |Recipients(ps, kind)|
    ensures Recipients(ps, kind)[|Recipients(ps[..j], kind)|] == ps[j]
  {
    RecipientsStep(ps, j, kind);
    RecipientsPrefix(ps, kind, j + 1);
  }

  /** The dispatches of one `forEach` over the recipients of an event. */
  function Sends(e: Event, ps: seq<Participant>, kind: Kind): seq<Dispatch> {
    seq(|ps|, i requires 0 <= i < |ps| => Dispatch(e.id, NormalizePhone(ps[i].phone), kind))
  }

  /** What one event contributes: reminders inside the reminder window, then feedback
      requests inside the feedback window. Each names the event and falls in the window of
      its kind, and no participant is sent more than one message. */
  function EventDispatches(e: Event, now: int): (r: seq<Dispatch>)
    ensures forall d :: d in r ==> d.eventId == e.id && InWindow(e.date, now, d.kind)
    ensures |r| <= |e.participants|
  {
    (if InReminderWindow(e.date, now) then Sends(e, Recipients(e.participants, Reminder), Reminder) else [])
    + (if InFeedbackWindow(e.date, now)
       then Sends(e, Recipients(e.participants, FeedbackRequest), FeedbackRequest) else [])
  }

  /** Everything one call of `scheduleNotifications` dispatches, event by event. Every
      dispatch names an event of the list that is in the window of its kind. */
  function Dispatches(events: seq<Event>, now: int): (r: seq<Dispatch>)
    ensures forall d :: d in r ==>
              exists i :: 0 <= i < |events| && events[i].id == d.eventId && InWindow(events[i].date, now, d.kind)
  {
    if events == [] then []
    else
      var n := |events| - 1;
      assert forall i :: 0 <= i < n ==> events[..n][i] == events[i];
      Dispatches(events[..n], now) + EventDispatches(events[n], now)
  }

  lemma SendsAppend(e: Event, a: seq<Participant>, b: seq<Participant>, kind: Kind)
    ensures Sends(e, a + b, kind) == Sends(e, a, kind) + Sends(e, b, kind)
  {
  }

  /** One `forEach` of `scheduleNotifications`: a dispatch of the given kind to every
      participant of `event` that qualifies for it, in roster order. */
  method NotifyParticipants(event: Event, kind: Kind) returns (sent: seq<Dispatch>)
    ensures sent == Sends(event, Recipients(event.participants, kind), kind)
  {
    var ps := event.participants;
    sent := [];
    for j := 0 to |ps|
      invariant sent == Sends(event, Recipients(ps[..j], kind), kind)
    {
      RecipientsStep(ps, j, kind);
      if Qualifies(ps[j], kind) {
        SendsAppend(event, Recipients(ps[..j], kind), [ps[j]], kind);
        sent := sent + [Dispatch(event.id, NormalizePhone(ps[j].phone), kind)];
      }
    }
    assert ps[..|ps|] == ps;
  }

  /** `scheduleNotifications(events)` at the instant `now`: for each event in turn, the
      reminders when it is in the reminder window, then the feedback requests when it is
      in the feedback window. */
  method ScheduleNotifications(events: seq<Event>, now: int) returns (sent: seq<Dispatch>)
    ensures sent == Dispatches(events, now)
  {
    sent := [];
    for i := 0 to |events|
      invariant sent == Dispatches(events[..i], now)
    {
      var event := events[i];
      var reminders: seq<Dispatch> := [];
      var requests: seq<Dispatch> := [];
      if InReminderWindow(event.date, now) {
        reminders := NotifyParticipants(event, Reminder);
      }
      if InFeedbackWindow(event.date, now) {
        requests := NotifyParticipants(event, FeedbackRequest);
      }
      assert events[..i + 1][..i] == events[..i];
      sent := sent + (reminders + requests);
    }
    assert events[..|events|] == events;
  }

  /** `d` is the dispatch owed to participant `p` of event `e` at the instant `now`. */
  predicate Due(e: Event, p: Participant, d: Dispatch, now: int) {
    && d == Dispatch(e.id, NormalizePhone(p.phone), d.kind)
    && InWindow(e.date, now, d.kind)
    && Qualifies(p, d.kind)
  }

  /** One `forEach` sends exactly to the participants that qualify for its kind. */
  lemma SendsToRecipients(e: Event, kind: Kind, d: Dispatch)
    requires d.kind == kind
    ensures d in Sends(e, Recipients(e.participants, kind), kind) <==>
              exists j :: 0 <= j < |e.participants| && Qualifies(e.participants[j], kind) &&
                          d == Dispatch(e.id, NormalizePhone(e.participants[j].phone), kind)
  {
    var ps := e.participants;
    var rs := Recipients(ps, kind);
    var s := Sends(e, rs, kind);
    if d in s {
      var k :| 0 <= k < |s| && s[k] == d;
      RecipientsExactly(ps, kind, rs[k]);
      var j :| 0 <= j < |ps| && ps[j] == rs[k];
      assert Qualifies(ps[j], kind) && d == Dispatch(e.id, NormalizePhone(ps[j].phone), kind);
    }
    if exists j :: 0 <= j < |ps| && Qualifies(ps[j], kind) &&
                   d == Dispatch(e.id, NormalizePhone(ps[j].phone), kind) {
      var j :| 0 <= j < |ps| && Qualifies(ps[j], kind) &&
               d == Dispatch(e.id, NormalizePhone(ps[j].phone), kind);
      RecipientsExactly(ps, kind, ps[j]);
      var k :| 0 <= k < |rs| && rs[k] == ps[j];
      assert s[k] == d;
    }
  }

  /** Some participant of `e` is owed `d` at the instant `now`. */
  predicate Owed(e: Event, d: Dispatch, now: int) {
    exists j :: 0 <= j < |e.participants| && Due(e, e.participants[j], d, now)
  }

  /** The dispatches of one event are exactly those owed to its participants. */
  lemma EventDispatchesExactly(e: Event, now: int, d: Dispatch)
    ensures d in EventDispatches(e, now) <==> Owed(e, d, now)
  {
    SendsToRecipients(e, d.kind, d);
    var ps := e.participants;
    if Owed(e, d, now) {
      var j :| 0 <= j < |ps| && Due(e, ps[j], d, now);
      assert InWindow(e.date, now, d.kind);
    }
  }

  /** Some participant of some event in `events` is owed `d`. */
  predicate OwedIn(events: seq<Event>, d: Dispatch, now: int) {
    exists i :: 0 <= i < |events| && Owed(events[i], d, now)
  }

  lemma OwedInLast(events: seq<Event>, d: Dispatch, now: int)
    requires events != []
    ensures OwedIn(events, d, now) <==>
              OwedIn(events[..|events| - 1], d, now) || Owed(events[|events| - 1], d, now)
  {
    var n := |events| - 1;
    var init := events[..n];
    if OwedIn(events, d, now) && !Owed(events[n], d, now) {
      var i :| 0 <= i < |events| && Owed(events[i], d, now);
      assert i < n && init[i] == events[i];
      assert OwedIn(init, d, now);
    }
    if OwedIn(init, d, now) {
      var i :| 0 <= i < n && Owed(init[i], d, now);
      assert events[i] == init[i];
      assert OwedIn(events, d, now);
    }
    if Owed(events[n], d, now) {
      assert OwedIn(events, d, now);
    }
  }

  /** One call dispatches exactly what is owed: a reminder to each confirmed participant
      of each event 23 to 24 hours ahead, a feedback request to each participant who
      attended an event 12 to 13 hours past, and nothing else. */
  lemma {:induction false} DispatchesExactly(events: seq<Event>, now: int, d: Dispatch)
    ensures d in Dispatches(events, now) <==> OwedIn(events, d, now)
  {
    if events != [] {
      var n := |events| - 1;
      DispatchesExactly(events[..n], now, d);
      EventDispatchesExactly(events[n], now, d);
      OwedInLast(events, d, now);
    }
  }

  /** How many roster entries of `e` are owed `d`: one message per entry, so two entries
      with the same normalised number are owed the same dispatch twice. */
  function CountDue(e: Event, ps: seq<Participant>, d: Dispatch, now: int): (n: nat)
    ensures n <= |ps|
  {
    if ps == [] then 0
    else CountDue(e, ps[..|ps| - 1], d, now) + if Due(e, ps[|ps| - 1], d, now) then 1 else 0
  }

  /** How many entries of all the rosters are owed `d`. */
  function TotalDue(events: seq<Event>, d: Dispatch, now: int): nat {
    if events == [] then 0
    else TotalDue(events[..|events| - 1], d, now) + CountDue(events[|events| - 1], events[|events| - 1].participants, d, now)
  }

  /** Inside the window of its kind, one `forEach` sends `d` once per roster entry owed it. */
  lemma {:induction false} SendsCount(e: Event, ps: seq<Participant>, d: Dispatch, now: int)
    requires InWindow(e.date, now, d.kind)
    ensures multiset(Sends(e, Recipients(ps, d.kind), d.kind))[d] == CountDue(e, ps, d, now)
  {
    if ps != [] {
      var n := |ps| - 1;
      var last := ps[n];
      SendsCount(e, ps[..n], d, now);
      var tail := if Qualifies(last, d.kind) then [last] else [];
      SendsAppend(e, Recipients(ps[..n], d.kind), tail, d.kind);
      assert Sends(e, [last], d.kind) == [Dispatch(e.id, NormalizePhone(last.phone), d.kind)];
    }
  }

  /** An event sends `d` exactly once per roster entry owed it. */
  lemma EventDispatchesCount(e: Event, now: int, d: Dispatch)
    ensures multiset(EventDispatches(e, now))[d] == CountDue(e, e.participants, d, now)
  {
    var ps := e.participants;
    var reminders := if InReminderWindow(e.date, now) then Sends(e, Recipients(ps, Reminder), Reminder) else [];
    var requests := if InFeedbackWindow(e.date, now)
                    then Sends(e, Recipients(ps, FeedbackRequest), FeedbackRequest) else [];
    assert EventDispatches(e, now) == reminders + requests;
    if InWindow(e.date, now, d.kind) {
      SendsCount(e, ps, d, now);
      OneKindPerEvent(e, now);
      if d.kind == Reminder {
        assert d !in requests;
      } else {
        assert d !in reminders;
      }
    } else {
      NotDueOutsideWindow(e, ps, d, now);
      assert d !in reminders && d !in requests;
    }
  }

  /** Outside the window of its kind, no entry is owed `d`. */
  lemma {:induction false} NotDueOutsideWindow(e: Event, ps: seq<Participant>, d: Dispatch, now: int)
    requires !InWindow(e.date, now, d.kind)
    ensures CountDue(e, ps, d, now) == 0
  {
    if ps != [] {
      NotDueOutsideWindow(e, ps[..|ps| - 1], d, now);
    }
  }

  /** One call sends `d` exactly once per roster entry, over all events, that is owed it;
      no dispatch is doubled or dropped. */
  lemma {:induction false} DispatchesCount(events: seq<Event>, now: int, d: Dispatch)
    ensures multiset(Dispatches(events, now))[d] == TotalDue(events, d, now)
  {
    if events != [] {
      var n := |events| - 1;
      DispatchesCount(events[..n], now, d);
      EventDispatchesCount(events[n], now, d);
    }
  }

  /** The two windows never overlap, so no event is sent both kinds in one call, and an
      event outside both windows is sent nothing. */
  lemma OneKindPerEvent(e: Event, now: int)
    ensures !(InReminderWindow(e.date, now) && InFeedbackWindow(e.date, now))
    ensures (forall d :: d in EventDispatches(e, now) ==> d.kind == Reminder) ||
            (forall d :: d in EventDispatches(e, now) ==> d.kind == FeedbackRequest)
    ensures !InReminderWindow(e.date, now) && !InFeedbackWindow(e.date, now) ==> EventDispatches(e, now) == []
  {
  }

  /** There is no record of what was sent: a confirmed participant of an event that is in
      the reminder window at two polling instants is sent the reminder at both. */
  lemma RemindersRepeat(events: seq<Event>, i: nat, j: nat, now1: int, now2: int)
    requires i < |events| && j < |events[i].participants|
    requires Truthy(events[i].participants[j].confirmed)
    requires InReminderWindow(events[i].date, now1) && InReminderWindow(events[i].date, now2)
    ensures var d := Dispatch(events[i].id, NormalizePhone(events[i].participants[j].phone), Reminder);
            d in Dispatches(events, now1) && d in Dispatches(events, now2)
  {
    var d := Dispatch(events[i].id, NormalizePhone(events[i].participants[j].phone), Reminder);
    assert Due(events[i], events[i].participants[j], d, now1);
    assert Due(events[i], events[i].participants[j], d, now2);
    DispatchesExactly(events, now1, d);
    DispatchesExactly(events, now2, d);
    assert Owed(events[i], d, now1) && Owed(events[i], d, now2);
  }

  /** A participant with only a phone and the two flags. */
  function Guest(phone: string, confirmed: bool, attended: bool): Participant {
    Participant(None, phone, Some(confirmed), Some(attended), None)
  }

  /** An event 23.5 hours ahead with one confirmed participant: that participant is sent one
      reminder, and is sent it again on the next polling tick a minute later. */
  lemma ReminderScenario(now: int)
    ensures var e := Event(1, None, Some(now + 23 * HourMs + HourMs / 2), None, None,
                           [Guest("0501234567", true, false)], now, now);
            && Dispatches([e], now) == [Dispatch(1, "+972501234567", Reminder)]
            && Dispatches([e], now + 60000) == [Dispatch(1, "+972501234567", Reminder)]
  {
    var e := Event(1, None, Some(now + 23 * HourMs + HourMs / 2), None, None,
                   [Guest("0501234567", true, false)], now, now);
    assert [e][..0] == [];
    assert Recipients(e.participants, Reminder) == e.participants by {
      assert e.participants[..0] == [];
    }
    assert NormalizePhone("0501234567") == "+972501234567";
    forall t | t == now || t == now + 60000
      ensures Dispatches([e], t) == [Dispatch(1, "+972501234567", Reminder)]
    {
      assert InReminderWindow(e.date, t) && !InFeedbackWindow(e.date, t);
      assert EventDispatches(e, t) == Sends(e, e.participants, Reminder);
      assert Dispatches([e], t) == Dispatches([], t) + EventDispatches(e, t);
    }
  }

  /** An event 12.5 hours past with one participant who attended and one who did not:
      only the first is asked for feedback. The window includes its 12-hour end and
      excludes its 13-hour end. */
  lemma FeedbackScenario(now: int)
    ensures var ps := [Guest("0501234567", true, true), Guest("0521234567", true, false)];
            var e := Event(2, None, Some(now - 12 * HourMs - HourMs / 2), None, None, ps, now, now);
            Dispatches([e], now) == [Dispatch(2, "+972501234567", FeedbackRequest)]
    ensures InFeedbackWindow(Some(now - 12 * HourMs), now)
    ensures !InFeedbackWindow(Some(now - 13 * HourMs), now)
  {
    var ps := [Guest("0501234567", true, true), Guest("0521234567", true, false)];
    var e := Event(2, None, Some(now - 12 * HourMs - HourMs / 2), None, None, ps, now, now);
    assert [e][..0] == [];
    assert ps[..1][..0] == [] && ps[..1] == [ps[0]];
    assert Recipients(ps, FeedbackRequest) == [ps[0]];
    assert NormalizePhone("0501234567") == "+972501234567";
    assert EventDispatches(e, now) == Sends(e, [ps[0]], FeedbackRequest);
    assert Dispatches([e], now) == Dispatches([], now) + EventDispatches(e, now);
  }

  /** Phones are deduplicated as typed, but messages go to the normalised number: a roster
      holding one mobile number in its local and its international spelling has no two
      entries with the same phone, yet that number is sent the reminder twice in one call. */
  lemma TwoSpellingsScenario(now: int)
    ensures var ps := [Guest("0501234567", true, false), Guest("+972501234567", true, false)];
            var e := Event(1, None, Some(now + 23 * HourMs + HourMs / 2), None, None, ps, now, now);
            && UniquePhones(ps)
            && Dispatches([e], now) == [Dispatch(1, "+972501234567", Reminder), Dispatch(1, "+972501234567", Reminder)]
  {
    var ps := [Guest("0501234567", true, false), Guest("+972501234567", true, false)];
    var e := Event(1, None, Some(now + 23 * HourMs + HourMs / 2), None, None, ps, now, now);
    assert ps[0].phone != ps[1].phone by { assert ps[0].phone[0] != ps[1].phone[0]; }
    assert [e][..0] == [];
    assert ps[..1][..0] == [] && ps[..1] == [ps[0]] && ps[..2] == ps;
    assert Recipients(ps, Reminder) == ps;
    assert NormalizePhone("0501234567") == "+972501234567";
    assert NormalizePhone("+972501234567") == "+972501234567";
    assert InReminderWindow(e.date, now) && !InFeedbackWindow(e.date, now);
    assert EventDispatches(e, now) == Sends(e, ps, Reminder);
    assert Dispatches([e], now) == Dispatches([], now) + EventDispatches(e, now);
  }
}
