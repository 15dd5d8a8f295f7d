/** The event service: creating, publishing and editing events, and taking
    registrations against an event's quota. */
module EventService {

  import opened Wrappers
  import opened Store
  import Slug
  import Lookup
  import opened StatusMachine

  const EventNotFound: Error := NotFound("EVENT_NOT_FOUND")
  const QuotaFull: Error := Invalid(400, "eventId", "Event quota is full")
  const NotOpen: Error := Invalid(400, "eventId", "Event is not open for registration")

  /** Registrations that hold a seat; REJECTED ones do not. */
  const ActiveStatuses: set<string> := {"PENDING_PAYMENT", "CONFIRMED"}

  /** The body a creator sends to create an event (title checked present by
      the handler). */
  datatype EventPayload = EventPayload(
    title: string,
    eventType: Option<string>,
    description: Option<string>,
    location: Option<string>,
    startDatetime: Option<string>,
    endDatetime: Option<string>,
    pricePerPerson: Field<int>,
    quota: Option<int>)

  /** A field of a body: left out, sent as `null`, or sent with a value. */
  datatype Field<T> = Absent | Null | Value(v: T)

  /** `pricePerPerson && Number(pricePerPerson) > 0` is `null` for a price
      sent as `null` and `0` for a price of 0, and the store refuses either
      as the Boolean `isPaid`. A price left out leaves `isPaid` to the
      column's default, taken to be false. */
  predicate PriceRefused(price: Field<int>) {
    price == Null || price == Value(0)
  }

  /** The body of an event update. */
  datatype EventPatch = EventPatch(
    title: Option<string>,
    description: Option<string>,
    location: Option<string>,
    startDatetime: Option<string>,
    endDatetime: Option<string>,
    /** `Some` only when the body's quota is a number */
    quota: Option<int>,
    pricePerPerson: Field<int>)

  predicate PositivePrice(price: Option<int>) {
    price.Some? && price.value > 0
  }

  /** How `isPaid`, the price and the admin fee belong together: an event is
      paid exactly when it has a positive price, a paid event carries the
      configured fee, and a free one has no price and no fee. */
  predicate PricingConsistent(e: Event, fee: int) {
    && (e.isPaid <==> PositivePrice(e.pricePerPerson))
    && (e.isPaid ==> e.adminFee == fee)
    && (!e.isPaid ==> e.pricePerPerson.None? && e.adminFee == 0)
  }

  /** The row createEvent inserts. */
  function NewEvent(id: string, creatorId: string, p: EventPayload, fee: int, now: nat): (e: Event)
    ensures PricingConsistent(e, fee)
    ensures e.isPaid <==> p.pricePerPerson.Value? && p.pricePerPerson.v > 0
    ensures e.isPaid ==> e.pricePerPerson == Some(p.pricePerPerson.v)
    ensures e.quota.None? <==> p.quota.None? || p.quota == Some(0)
    ensures e.quota.Some? ==> e.quota == p.quota
    ensures e.status == "PUBLISHED" && e.publishedAt == Some(now)
    ensures e.eventType == (if p.eventType.Some? && p.eventType.value != "" then p.eventType.value else "MAIN_BARENG")
    ensures e.slug == Slug.SlugOf(p.title, now)
    ensures e.id == id && e.creatorId == creatorId && e.title == p.title
  {
    var paid := p.pricePerPerson.Value? && p.pricePerPerson.v > 0;
    Event(
      id := id,
      creatorId := creatorId,
      title := p.title,
      slug := Slug.SlugOf(p.title, now),
      eventType := Or(p.eventType, Some("MAIN_BARENG")).value,
      description := p.description,
      location := p.location,
      startDatetime := p.startDatetime,
      endDatetime := p.endDatetime,
      isPaid := paid,
      pricePerPerson := if paid then Some(p.pricePerPerson.v) else None,
      adminFee := if paid then fee else 0,
      quota := if p.quota == Some(0) then None else p.quota,
      status := "PUBLISHED",
      publishedAt := Some(now),
      createdAt := now)
  }

  /** createEvent: insert the new event under a fresh id. An id already in
      the table, or an `isPaid` the store refuses, is a store failure. */
  method CreateEvent(db: Db, id: string, creatorId: string, p: EventPayload, fee: int, now: nat)
    returns (r: Result<Event>)
    modifies db`events
    ensures PriceRefused(p.pricePerPerson) || id in old(db.events) ==> r == Fail(Crash) && db.events == old(db.events)
    ensures !PriceRefused(p.pricePerPerson) && id !in old(db.events) ==>
      r == Ok(NewEvent(id, creatorId, p, fee, now)) && db.events == old(db.events)[id := r.value]
  {
    if PriceRefused(p.pricePerPerson) || id in db.events {
      return Fail(Crash);
    }
    var e := NewEvent(id, creatorId, p, fee, now);
    db.events := db.events[id := e];
    return Ok(e);
  }

  /** Only a PUBLISHED event is visible to the public. */
  function PublicOnly(found: Option<Event>): (r: Result<Event>)
    ensures r.Ok? <==> found.Some? && found.value.status == "PUBLISHED"
    ensures r.Ok? ==> r.value == found.value
    ensures r.Fail? ==> r.error == EventNotFound
  {
    if found.Some? && found.value.status == "PUBLISHED" then Ok(found.value) else Fail(EventNotFound)
  }

  function SlugOfEvent(e: Event): string {
    e.slug
  }

  /** getEventPublic: the id-or-slug lookup, then 404 unless PUBLISHED. A
      slug match that is not published is not retried as an id. */
  method GetEventPublic(db: Db, key: string) returns (r: Result<Event>)
    ensures r.Ok? ==> r.value in db.events.Values && r.value.status == "PUBLISHED"
    ensures r.Fail? ==> r.error == EventNotFound
    ensures IdLike(key) ==> r == PublicOnly(Lookup.ById(db.events, key))
    ensures !IdLike(key) && !Lookup.SlugTaken(db.events, key, SlugOfEvent) ==>
      r == PublicOnly(Lookup.ById(db.events, key))
    ensures !IdLike(key) && r.Ok? && Lookup.SlugTaken(db.events, key, SlugOfEvent) ==> r.value.slug == key
    ensures !IdLike(key) && Lookup.SlugTaken(db.events, key, SlugOfEvent) ==>
      exists k :: k in db.events && db.events[k].slug == key && r == PublicOnly(Some(db.events[k]))
    ensures !IdLike(key) && Lookup.SlugTaken(db.events, key, SlugOfEvent) ==>
      (forall k :: k in db.events && db.events[k].slug == key ==> db.events[k].status == "PUBLISHED") ==> r.Ok?
  {
    var found := Lookup.ByIdOrSlug(db.events, key, SlugOfEvent);
    r := PublicOnly(found);
  }

  /** The `??` merge of updateEvent: title, description and location keep
      their value when not sent; the dates change only when sent non-empty;
      the quota only when sent as a number; a sent price (even `null`)
      recomputes `isPaid`, the price and the fee together. */
  function ApplyEventPatch(e: Event, p: EventPatch, fee: int): Event {
    var merged := e.(
      title := Coalesce(p.title, e.title),
      description := Keep(p.description, e.description),
      location := Keep(p.location, e.location),
      startDatetime := if Given(p.startDatetime) then p.startDatetime else e.startDatetime,
      endDatetime := if Given(p.endDatetime) then p.endDatetime else e.endDatetime,
      quota := Keep(p.quota, e.quota));
    match p.pricePerPerson
    case Absent => merged
    case Null => merged.(isPaid := false, pricePerPerson := None, adminFee := 0)
    case Value(price) =>
      var paid := price > 0;
      merged.(isPaid := paid, pricePerPerson := if paid then Some(price) else None, adminFee := if paid then fee else 0)
  }

  const NoChange: EventPatch := EventPatch(None, None, None, None, None, None, Absent)

  /** An update never touches the identity, slug, type, status or
      `publishedAt` of an event, and keeps the pricing consistent. */
  lemma EventPatchFrame(e: Event, p: EventPatch, fee: int)
    requires PricingConsistent(e, fee)
    ensures var e' := ApplyEventPatch(e, p, fee);
      && e'.id == e.id && e'.creatorId == e.creatorId && e'.slug == e.slug
      && e'.eventType == e.eventType && e'.createdAt == e.createdAt
      && e'.status == e.status && e'.publishedAt == e.publishedAt
      && PricingConsistent(e', fee)
  {
  }

  /** A body that sends nothing changes nothing. */
  lemma EmptyPatchKeeps(e: Event, fee: int)
    ensures ApplyEventPatch(e, NoChange, fee) == e
  {
  }

  /** Sending the same update twice has the effect of sending it once. */
  lemma EventPatchIdempotent(e: Event, p: EventPatch, fee: int)
    ensures ApplyEventPatch(ApplyEventPatch(e, p, fee), p, fee) == ApplyEventPatch(e, p, fee)
  {
  }

  /** `findFirst({ where: { id, creatorId } })` finds a row. */
  predicate Owns(events: map<string, Event>, eventId: string, creatorId: string) {
    eventId in events && events[eventId].creatorId == creatorId
  }

  /** updateEvent: 404 unless the caller created the event, else the merge. */
  method UpdateEvent(db: Db, creatorId: string, eventId: string, p: EventPatch, fee: int)
    returns (r: Result<Event>)
    modifies db`events
    ensures !Owns(old(db.events), eventId, creatorId) ==>
      r == Fail(EventNotFound) && db.events == old(db.events)
    ensures Owns(old(db.events), eventId, creatorId) ==>
      && r == Ok(ApplyEventPatch(old(db.events)[eventId], p, fee))
      && db.events == old(db.events)[eventId := r.value]
  {
    if !Owns(db.events, eventId, creatorId) {
      return Fail(EventNotFound);
    }
    var e := ApplyEventPatch(db.events[eventId], p, fee);
    db.events := db.events[eventId := e];
    return Ok(e);
  }

  /** changeEventStatus: the status is validated before the owner-scoped
      lookup; then only the status and `publishedAt` change. */
  method ChangeEventStatus(db: Db, creatorId: string, eventId: string, status: string, now: int)
    returns (r: Result<Event>)
    modifies db`events
    ensures status !in EventStatuses ==> r == Fail(EventStatusError) && db.events == old(db.events)
    ensures status in EventStatuses && !Owns(old(db.events), eventId, creatorId) ==>
      r == Fail(EventNotFound) && db.events == old(db.events)
    ensures status in EventStatuses && Owns(old(db.events), eventId, creatorId) ==>
      && r == Ok(EventWithStatus(old(db.events)[eventId], status, now))
      && db.events == old(db.events)[eventId := r.value]
  {
    if status !in EventStatuses {
      return Fail(EventStatusError);
    }
    if !Owns(db.events, eventId, creatorId) {
      return Fail(EventNotFound);
    }
    var e := EventWithStatus(db.events[eventId], status, now);
    db.events := db.events[eventId := e];
    return Ok(e);
  }

  /** The registrations holding a seat at an event. */
  function ActiveIds(regs: map<string, Registration>, eventId: string): set<string> {
    set id | id in regs && regs[id].eventId == eventId && regs[id].status in ActiveStatuses
  }

  function ActiveCount(regs: map<string, Registration>, eventId: string): nat {
    |ActiveIds(regs, eventId)|
  }

  /** A missing, zero or negative quota sets no limit. */
  predicate Unlimited(e: Event) {
    e.quota.None? || e.quota.value <= 0
  }

  /** ensureEventCapacity: 404 for an unknown event; otherwise the event,
      unless it has a limit that the active registrations already reach. */
  function EnsureEventCapacity(events: map<string, Event>, regs: map<string, Registration>, eventId: string)
    : (r: Result<Event>)
    ensures r.Ok? <==>
      eventId in events && (Unlimited(events[eventId]) || ActiveCount(regs, eventId) < events[eventId].quota.value)
    ensures r.Ok? ==> r.value == events[eventId]
    ensures r.Fail? ==> r.error == (if eventId in events then QuotaFull else EventNotFound)
  {
    if eventId !in events then Fail(EventNotFound)
    else
      var e := events[eventId];
      if Unlimited(e) then Ok(e)
      else if ActiveCount(regs, eventId) >= e.quota.value then Fail(QuotaFull)
      else Ok(e)
  }

  /** What a registrant owes: price plus admin fee for a paid event, else
      nothing. */
  function TotalAmount(e: Event): int {
    if e.isPaid then
      (if e.pricePerPerson.Some? then e.pricePerPerson.value else 0) + e.adminFee
    else 0
  }

  lemma TotalAmountSpec(e: Event, fee: int)
    requires PricingConsistent(e, fee)
    ensures e.isPaid ==> TotalAmount(e) == e.pricePerPerson.value + fee
    ensures !e.isPaid ==> TotalAmount(e) == 0
    ensures e.isPaid && fee >= 0 ==> TotalAmount(e) > 0
  {
  }

  /** The registration row createEventRegistration inserts. */
  function NewRegistration(regId: string, e: Event, userId: string, now: int): (reg: Registration)
    ensures reg.status == "PENDING_PAYMENT" <==> e.isPaid
    ensures reg.status == "CONFIRMED" <==> !e.isPaid
    ensures reg.status in ActiveStatuses
    ensures reg.totalAmount == TotalAmount(e)
    ensures reg.id == regId && reg.eventId == e.id && reg.userId == userId
  {
    Registration(regId, e.id, userId, if e.isPaid then "PENDING_PAYMENT" else "CONFIRMED", TotalAmount(e), now)
  }

  datatype Enrolment = Enrolment(event: Event, registration: Registration)

  /** createEventRegistration: the capacity check (404, then quota full)
      comes before the PUBLISHED check; on success exactly one registration
      is added. */
  method CreateEventRegistration(db: Db, userId: string, eventId: string, regId: string, now: int)
    returns (r: Result<Enrolment>)
    modifies db`registrations
    ensures r.Fail? ==> db.registrations == old(db.registrations)
    ensures old(EnsureEventCapacity(db.events, db.registrations, eventId)).Fail? ==>
      r == Fail(old(EnsureEventCapacity(db.events, db.registrations, eventId)).error)
    ensures (old(EnsureEventCapacity(db.events, db.registrations, eventId)).Ok? &&
             db.events[eventId].status != "PUBLISHED") ==> r == Fail(NotOpen)
    ensures (old(EnsureEventCapacity(db.events, db.registrations, eventId)).Ok? &&
             db.events[eventId].status == "PUBLISHED" && regId in old(db.registrations)) ==> r == Fail(Crash)
    ensures r.Ok? <==>
      && old(EnsureEventCapacity(db.events, db.registrations, eventId)).Ok?
      && db.events[eventId].status == "PUBLISHED"
      && regId !in old(db.registrations)
    ensures r.Ok? ==>
      && r.value.event == db.events[eventId]
      && r.value.registration == NewRegistration(regId, db.events[eventId], userId, now)
      && db.registrations == old(db.registrations)[regId := r.value.registration]
  {
    var capacity := EnsureEventCapacity(db.events, db.registrations, eventId);
    if capacity.Fail? {
      return Fail(capacity.error);
    }
    var e := capacity.value;
    if e.status != "PUBLISHED" {
      return Fail(NotOpen);
    }
    if regId in db.registrations {
      return Fail(Crash);
    }
    var reg := NewRegistration(regId, e, userId, now);
    db.registrations := db.registrations[regId := reg];
    return Ok(Enrolment(e, reg));
  }

  /** Every event row is stored under its own id. */
  predicate KeyedById(events: map<string, Event>) {
    forall k :: k in events ==> events[k].id == k
  }

  /** No event with a positive quota has more active registrations than its
      quota. */
  predicate WithinQuota(events: map<string, Event>, regs: map<string, Registration>) {
    forall k :: k in events && !Unlimited(events[k]) ==> ActiveCount(regs, k) <= events[k].quota.value
  }

  lemma CardAddOne(a: set<string>, b: set<string>, x: string)
    requires b <= a + {x}
    ensures |b| <= |a| + 1
  {
    assert b <= a + {x};
    var u := a + {x};
    assert |u| <= |a| + 1;
    SubsetCard(b, u);
  }

  lemma {:induction false} SubsetCard(b: set<string>, u: set<string>)
    requires b <= u
    ensures |b| <= |u|
    decreases |u|
  {
    if b != {} {
      var x :| x in b;
      SubsetCard(b - {x}, u - {x});
    }
  }

  /** A registration that passed the capacity check keeps every event within
      its quota: under sequential calls active registrations never exceed a
      positive quota. */
  lemma RegistrationKeepsQuota(
    events: map<string, Event>, regs: map<string, Registration>,
    userId: string, eventId: string, regId: string, now: int)
    requires KeyedById(events) && WithinQuota(events, regs)
    requires EnsureEventCapacity(events, regs, eventId).Ok?
    requires regId !in regs
    ensures WithinQuota(events, regs[regId := NewRegistration(regId, events[eventId], userId, now)])
  {
    var reg := NewRegistration(regId, events[eventId], userId, now);
    var regs' := regs[regId := reg];
    forall k | k in events && !Unlimited(events[k])
      ensures ActiveCount(regs', k) <= events[k].quota.value
    {
      if k == eventId {
        assert ActiveIds(regs', k) <= ActiveIds(regs, k) + {regId};
        CardAddOne(ActiveIds(regs, k), ActiveIds(regs', k), regId);
      } else {
        assert ActiveIds(regs', k) == ActiveIds(regs, k);
      }
    }
  }
}
