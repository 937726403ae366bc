/** Events, participants and the three operations that build new event snapshots:
    `createEvent`, `updateEvent` and `addParticipant`. Each returns a new value and
    leaves its input as it was; the clock is the parameter `now` (milliseconds). */
module Domain {

  import opened Wrappers

  /** `PRICE_TYPES`: the four price tiers of an event. */
  datatype PriceType = Regular | Discount | FullSubsidyExplain | FullSubsidyStaff

  const PriceCodes: set<string> := {"regular", "discount", "full_subsidy_explain", "full_subsidy_staff"}

  /** The string each tier is stored as. */
  function PriceCode(p: PriceType): (code: string)
    ensures code in PriceCodes
  {
    match p
    case Regular => "regular"
    case Discount => "discount"
    case FullSubsidyExplain => "full_subsidy_explain"
    case FullSubsidyStaff => "full_subsidy_staff"
  }

  /** The tier a stored string stands for; no string outside the four codes is a tier. */
  function ParsePriceCode(s: string): (r: Option<PriceType>)
    ensures r.Some? <==> s in PriceCodes
  {
    if s == "regular" then Some(Regular)
    else if s == "discount" then Some(Discount)
    else if s == "full_subsidy_explain" then Some(FullSubsidyExplain)
    else if s == "full_subsidy_staff" then Some(FullSubsidyStaff)
    else None
  }

  /** The codes and the tiers are in one-to-one correspondence. */
  lemma PriceCodeRoundTrip(p: PriceType, s: string)
    ensures ParsePriceCode(PriceCode(p)) == Some(p)
    ensures ParsePriceCode(s) == Some(p) ==> PriceCode(p) == s
  {
  }

  /** A participant record. `phone` identifies the participant within an event; every
      other key may be absent (`None`), and an absent flag is falsy. The same shape serves
      as the partial record handed to `addParticipant`. */
  datatype Participant = Participant(
    name: Option<string>,
    phone: string,
    confirmed: Option<bool>,
    attended: Option<bool>,
    addedAt: Option<int>)

  /** `{...p, ...q}`: every key `q` has replaces `p`'s; every key `q` lacks, `addedAt`
      among them, keeps `p`'s value. */
  function MergeParticipant(p: Participant, q: Participant): (r: Participant)
    ensures r.phone == q.phone
    ensures r.name == (if q.name.Some? then q.name else p.name)
    ensures r.confirmed == (if q.confirmed.Some? then q.confirmed else p.confirmed)
    ensures r.attended == (if q.attended.Some? then q.attended else p.attended)
    ensures r.addedAt == (if q.addedAt.Some? then q.addedAt else p.addedAt)
  {
    Participant(
      Overlay(p.name, q.name),
      q.phone,
      Overlay(p.confirmed, q.confirmed),
      Overlay(p.attended, q.attended),
      Overlay(p.addedAt, q.addedAt))
  }

  /** An event snapshot. Keys the creating form may leave out are optional. */
  datatype Event = Event(
    id: int,
    name: Option<string>,
    date: Option<int>,
    location: Option<string>,
    priceType: Option<PriceType>,
    participants: seq<Participant>,
    createdAt: int,
    updatedAt: int)

  /** A partial event: the data handed to `createEvent` and the updates handed to
      `updateEvent`. A `None` key is one the object does not have. */
  datatype EventFields = EventFields(
    id: Option<int>,
    name: Option<string>,
    date: Option<int>,
    location: Option<string>,
    priceType: Option<PriceType>,
    participants: Option<seq<Participant>>,
    createdAt: Option<int>,
    updatedAt: Option<int>)

  const NoFields := EventFields(None, None, None, None, None, None, None, None)

  /** `{...a, ...b}` on partial events. */
  function MergeFields(a: EventFields, b: EventFields): EventFields {
    EventFields(
      Overlay(a.id, b.id), Overlay(a.name, b.name), Overlay(a.date, b.date),
      Overlay(a.location, b.location), Overlay(a.priceType, b.priceType),
      Overlay(a.participants, b.participants), Overlay(a.createdAt, b.createdAt),
      Overlay(a.updatedAt, b.updatedAt))
  }

  /** `createEvent`: a clock-derived id, then the data spread over it, then an empty roster
      and both timestamps, which win over any the data carries. */
  function CreateEvent(data: EventFields, now: int): (e: Event)
    ensures e.participants == [] && e.createdAt == now && e.updatedAt == now
    ensures e.id == if data.id.Some? then data.id.value else now
    ensures e.name == data.name && e.date == data.date && e.location == data.location
    ensures e.priceType == data.priceType
  {
    Event(data.id.GetOr(now), data.name, data.date, data.location, data.priceType, [], now, now)
  }

  /** `updateEvent`: `{...event, ...updates, updatedAt: now}`. Every key the updates carry
      is taken from them, every other key is kept, and `updatedAt` is always the clock. */
  function UpdateEvent(e: Event, u: EventFields, now: int): (r: Event)
    ensures r.updatedAt == now
    ensures r.id == (if u.id.Some? then u.id.value else e.id)
    ensures r.name == (if u.name.Some? then u.name else e.name)
    ensures r.date == (if u.date.Some? then u.date else e.date)
    ensures r.location == (if u.location.Some? then u.location else e.location)
    ensures r.priceType == (if u.priceType.Some? then u.priceType else e.priceType)
    ensures r.participants == (if u.participants.Some? then u.participants.value else e.participants)
    ensures r.createdAt == (if u.createdAt.Some? then u.createdAt.value else e.createdAt)
  {
    Event(
      u.id.GetOr(e.id), Overlay(e.name, u.name), Overlay(e.date, u.date),
      Overlay(e.location, u.location), Overlay(e.priceType, u.priceType),
      u.participants.GetOr(e.participants), u.createdAt.GetOr(e.createdAt), now)
  }

  /** An update without keys only refreshes the timestamp. */
  lemma UpdateWithNoFields(e: Event, now: int)
    ensures UpdateEvent(e, NoFields, now) == e.(updatedAt := now)
  {
  }

  /** Two updates in a row are one update with the merged keys, stamped by the later clock. */
  lemma UpdatesCompose(e: Event, u1: EventFields, u2: EventFields, t1: int, t2: int)
    ensures UpdateEvent(UpdateEvent(e, u1, t1), u2, t2) == UpdateEvent(e, MergeFields(u1, u2), t2)
  {
  }

  /** Updating a freshly created event gives the event created from the merged data, as
      long as the updates leave the roster and the creation time alone. */
  lemma UpdateOfCreatedEvent(d: EventFields, u: EventFields, t0: int, t1: int)
    requires u.participants.None? && u.createdAt.None?
    ensures UpdateEvent(CreateEvent(d, t0), u, t1) == CreateEvent(MergeFields(d, u), t0).(updatedAt := t1)
  {
  }

  /** With a clock that does not run backwards, no update moves `updatedAt` back. */
  lemma UpdatedAtNeverDecreases(e: Event, u: EventFields, now: int)
    requires e.updatedAt <= now
    ensures e.updatedAt <= UpdateEvent(e, u, now).updatedAt
  {
  }

  /** `participants.find(p => p.phone === phone)`: the first participant with that phone. */
  function FindByPhone(ps: seq<Participant>, phone: string): (r: Option<Participant>)
    ensures r.None? <==> forall i :: 0 <= i < |ps| ==> ps[i].phone != phone
    ensures r.Some? ==> exists i :: 0 <= i < |ps| && ps[i] == r.value && ps[i].phone == phone &&
                                    forall j :: 0 <= j < i ==> ps[j].phone != phone
  {
    if ps == [] then None
    else if ps[0].phone == phone then Some(ps[0])
    else
      var r := FindByPhone(ps[1..], phone);
      assert r.Some? ==> exists i :: 1 <= i < |ps| && ps[i] == r.value && ps[i].phone == phone &&
                                     forall j :: 0 <= j < i ==> ps[j].phone != phone by {
        if r.Some? {
          var k :| 0 <= k < |ps| - 1 && ps[1..][k] == r.value && ps[1..][k].phone == phone &&
                   forall j :: 0 <= j < k ==> ps[1..][j].phone != phone;
          assert ps[k + 1] == r.value;
          forall j | 0 <= j < k + 1 ensures ps[j].phone != phone {
            if j > 0 { assert ps[j] == ps[1..][j - 1]; }
          }
        }
      }
      r
  }

  /** True when some participant has that phone. */
  predicate HasPhone(ps: seq<Participant>, phone: string) {
    exists i :: 0 <= i < |ps| && ps[i].phone == phone
  }

  /** The roster invariant of an event: no two participants share a phone. */
  predicate UniquePhones(ps: seq<Participant>) {
    forall i, j :: 0 <= i < j < |ps| ==> ps[i].phone != ps[j].phone
  }

  /** `participants.map(p => p.phone === q.phone ? {...p, ...q} : p)`. */
  function MergeMatching(ps: seq<Participant>, q: Participant): (r: seq<Participant>)
    ensures |r| == |ps|
  {
    seq(|ps|, i requires 0 <= i < |ps| => if ps[i].phone == q.phone then MergeParticipant(ps[i], q) else ps[i])
  }

  /** `addParticipant`: upsert `q` into the roster by phone. A known phone has its entries
      overlaid with `q` in place; a new phone is appended with `addedAt` set to the clock.
      Either way only the roster and `updatedAt` change. */
  function AddParticipant(e: Event, q: Participant, now: int): (r: Event)
    ensures r == e.(participants := r.participants, updatedAt := now)
    ensures HasPhone(e.participants, q.phone) ==>
      && |r.participants| == |e.participants|
      && forall i :: 0 <= i < |e.participants| ==>
           r.participants[i] == if e.participants[i].phone == q.phone
                                then MergeParticipant(e.participants[i], q)
                                else e.participants[i]
    ensures !HasPhone(e.participants, q.phone) ==>
      r.participants == e.participants + [q.(addedAt := Some(now))]
  {
    if FindByPhone(e.participants, q.phone).Some? then
      e.(participants := MergeMatching(e.participants, q), updatedAt := now)
    else
      e.(participants := e.participants + [q.(addedAt := Some(now))], updatedAt := now)
  }

  /** The upserted record is what a lookup by its phone finds afterwards: the old entry
      overlaid with `q` (keeping, among others, its `addedAt` when `q` has none), or `q`
      stamped with the clock when the phone was new. */
  lemma {:induction false} FindAfterAddParticipant(e: Event, q: Participant, now: int)
    ensures FindByPhone(AddParticipant(e, q, now).participants, q.phone) ==
      match FindByPhone(e.participants, q.phone)
      case Some(p) => Some(MergeParticipant(p, q))
      case None => Some(q.(addedAt := Some(now)))
  {
    var ps := e.participants;
    var rs := AddParticipant(e, q, now).participants;
    match FindByPhone(ps, q.phone)
    case Some(p) =>
      var i :| 0 <= i < |ps| && ps[i] == p && ps[i].phone == q.phone &&
               forall j :: 0 <= j < i ==> ps[j].phone != q.phone;
      FirstMatchIsFound(rs, q.phone, i);
    case None =>
      assert rs[|ps|] == q.(addedAt := Some(now));
      FirstMatchIsFound(rs, q.phone, |ps|);
  }

  /** `find` returns the element at the first index whose phone matches. */
  lemma {:induction false} FirstMatchIsFound(ps: seq<Participant>, phone: string, i: nat)
    requires i < |ps| && ps[i].phone == phone
    requires forall j :: 0 <= j < i ==> ps[j].phone != phone
    ensures FindByPhone(ps, phone) == Some(ps[i])
  {
    if i > 0 {
      assert ps[1..][i - 1] == ps[i];
      FirstMatchIsFound(ps[1..], phone, i - 1);
    }
  }

  /** Lookups by any other phone see the roster as it was. */
  lemma OtherPhonesUntouched(e: Event, q: Participant, now: int, phone: string)
    requires phone != q.phone
    ensures FindByPhone(AddParticipant(e, q, now).participants, phone) == FindByPhone(e.participants, phone)
  {
    var ps := e.participants;
    var rs := AddParticipant(e, q, now).participants;
    if HasPhone(ps, q.phone) {
      assert rs == MergeMatching(ps, q);
      FindUnaffected(ps, rs, phone);
    } else {
      assert rs == ps + [q.(addedAt := Some(now))];
      FindUnaffected(ps, rs, phone);
    }
  }

  /** A lookup gives the same answer on a roster whose first entries keep their phones,
      whose entries with the looked-up phone are unchanged, and whose extra entries have
      other phones. */
  lemma FindUnaffected(ps: seq<Participant>, rs: seq<Participant>, phone: string)
    requires |ps| <= |rs|
    requires forall i :: 0 <= i < |ps| ==> rs[i].phone == ps[i].phone
    requires forall i :: 0 <= i < |ps| && ps[i].phone == phone ==> rs[i] == ps[i]
    requires forall i :: |ps| <= i < |rs| ==> rs[i].phone != phone
    ensures FindByPhone(rs, phone) == FindByPhone(ps, phone)
  {
    match FindByPhone(ps, phone)
    case Some(p) =>
      var i :| 0 <= i < |ps| && ps[i] == p && ps[i].phone == phone &&
               forall j :: 0 <= j < i ==> ps[j].phone != phone;
      FirstMatchIsFound(rs, phone, i);
    case None =>
  }

  /** Adding a participant keeps the phones of the roster unique, and adds exactly one
      entry when the phone is new and none otherwise. */
  lemma AddParticipantKeepsPhonesUnique(e: Event, q: Participant, now: int)
    requires UniquePhones(e.participants)
    ensures UniquePhones(AddParticipant(e, q, now).participants)
    ensures |AddParticipant(e, q, now).participants| ==
            |e.participants| + (if HasPhone(e.participants, q.phone) then 0 else 1)
  {
    var ps := e.participants;
    var rs := AddParticipant(e, q, now).participants;
    assert forall i :: 0 <= i < |ps| ==> rs[i].phone == ps[i].phone;
  }

  /** Adding the same record again, when it carries no `addedAt`, changes nothing but the
      timestamp: the upsert is idempotent on the roster. */
  lemma AddParticipantTwice(e: Event, q: Participant, t1: int, t2: int)
    requires q.addedAt.None?
    ensures AddParticipant(AddParticipant(e, q, t1), q, t2) == AddParticipant(e, q, t1).(updatedAt := t2)
  {
    if HasPhone(e.participants, q.phone) {
      ReAddKnownPhone(e, q, t1, t2);
    } else {
      ReAddNewPhone(e, q, t1, t2);
    }
  }

  lemma ReAddKnownPhone(e: Event, q: Participant, t1: int, t2: int)
    requires HasPhone(e.participants, q.phone)
    ensures AddParticipant(AddParticipant(e, q, t1), q, t2).participants == AddParticipant(e, q, t1).participants
  {
    var ps := MergeMatching(e.participants, q);
    assert AddParticipant(e, q, t1).participants == ps;
    var i :| 0 <= i < |e.participants| && e.participants[i].phone == q.phone;
    assert ps[i].phone == q.phone;
    assert FindByPhone(ps, q.phone).Some?;
    MergeMatchingTwice(e.participants, q);
  }

  /** Overlaying the same record a second time changes nothing. */
  lemma MergeMatchingTwice(ps: seq<Participant>, q: Participant)
    ensures MergeMatching(MergeMatching(ps, q), q) == MergeMatching(ps, q)
  {
    var ms := MergeMatching(ps, q);
    forall k | 0 <= k < |ps| ensures MergeMatching(ms, q)[k] == ms[k] {
      if ps[k].phone == q.phone {
        assert ms[k] == MergeParticipant(ps[k], q);
      }
    }
  }

  lemma ReAddNewPhone(e: Event, q: Participant, t1: int, t2: int)
    requires !HasPhone(e.participants, q.phone) && q.addedAt.None?
    ensures AddParticipant(AddParticipant(e, q, t1), q, t2).participants == AddParticipant(e, q, t1).participants
  {
    var ps := AddParticipant(e, q, t1).participants;
    var rs := AddParticipant(AddParticipant(e, q, t1), q, t2).participants;
    var n := |e.participants|;
    assert ps[n] == q.(addedAt := Some(t1));
    assert HasPhone(ps, q.phone);
    forall k | 0 <= k < |ps| ensures rs[k] == ps[k] {
      if k < n {
        assert ps[k] == e.participants[k];
      }
    }
  }
}
