/** The event endpoints that do more than forward: the create handler's
    required fields, the registration handler's registration-plus-payment
    pair, and the status handler's presence check. */
module EventController {

  import opened Wrappers
  import opened Store
  import opened Validation
  import opened Response
  import EventService
  import PaymentService
  import StatusMachine

  /** The checks createEventHandler makes, in its order. */
  function EventRequirements(p: EventService.EventPayload): seq<Requirement> {
    [ Requirement(p.title != "", Detail("title", "Title is required")),
      Requirement(Given(p.description), Detail("description", "Description is required")),
      Requirement(Given(p.location), Detail("location", "Location is required")),
      Requirement(Given(p.startDatetime), Detail("startDatetime", "Start datetime is required")),
      Requirement(Given(p.endDatetime), Detail("endDatetime", "End datetime is required")) ]
  }

  /** The `missing` list, built by one push per absent field. */
  method MissingEventFields(p: EventService.EventPayload) returns (missing: seq<Detail>)
    ensures missing == Missing(EventRequirements(p))
  {
    var reqs := EventRequirements(p);
    missing := [];
    if p.title == "" {
      missing := missing + [Detail("title", "Title is required")];
    }
    assert missing == Report(reqs[0]);
    if !Given(p.description) {
      missing := missing + [Detail("description", "Description is required")];
    }
    assert missing == Report(reqs[0]) + Report(reqs[1]);
    if !Given(p.location) {
      missing := missing + [Detail("location", "Location is required")];
    }
    assert missing == Report(reqs[0]) + Report(reqs[1]) + Report(reqs[2]);
    if !Given(p.startDatetime) {
      missing := missing + [Detail("startDatetime", "Start datetime is required")];
    }
    assert missing == Report(reqs[0]) + Report(reqs[1]) + Report(reqs[2]) + Report(reqs[3]);
    if !Given(p.endDatetime) {
      missing := missing + [Detail("endDatetime", "End datetime is required")];
    }
    MissingFive(reqs[0], reqs[1], reqs[2], reqs[3], reqs[4]);
  }

  /** The create handler refuses a body exactly when one of the five fields
      is absent, and names each absent one. */
  lemma EventFieldsReported(p: EventService.EventPayload)
    ensures Missing(EventRequirements(p)) == [] <==>
      p.title != "" && Given(p.description) && Given(p.location) && Given(p.startDatetime) && Given(p.endDatetime)
    ensures p.title == "" ==> Detail("title", "Title is required") in Missing(EventRequirements(p))
    ensures !Given(p.endDatetime) ==> Detail("endDatetime", "End datetime is required") in Missing(EventRequirements(p))
  {
    var reqs := EventRequirements(p);
    MissingSpec(reqs);
    assert (forall i :: 0 <= i < |reqs| ==> reqs[i].supplied) <==>
      reqs[0].supplied && reqs[1].supplied && reqs[2].supplied && reqs[3].supplied && reqs[4].supplied;
    assert reqs[0].detail == Detail("title", "Title is required");
    assert reqs[4].detail == Detail("endDatetime", "End datetime is required");
  }

  /** createEventHandler: 422 listing the absent fields, without calling the
      service; otherwise 201 with the new event, or the rendered failure. */
  method CreateEventHandler(db: Db, id: string, creatorId: string, p: EventService.EventPayload, fee: int, now: nat)
    returns (reply: Reply<Event>)
    modifies db`events
    ensures Missing(EventRequirements(p)) != [] ==>
      && reply == ErrorResponse(Some(422), None, Some("VALIDATION_ERROR"), Some(Missing(EventRequirements(p))))
      && db.events == old(db.events)
    ensures Missing(EventRequirements(p)) == [] && !EventService.PriceRefused(p.pricePerPerson) && id !in old(db.events) ==>
      && reply == SuccessResponse(Some(201), Some("Event created successfully"), Some(EventService.NewEvent(id, creatorId, p, fee, now)), None)
      && db.events == old(db.events)[id := EventService.NewEvent(id, creatorId, p, fee, now)]
    ensures Missing(EventRequirements(p)) == [] && (EventService.PriceRefused(p.pricePerPerson) || id in old(db.events)) ==>
      reply == Render(Crash, true) && db.events == old(db.events)
  {
    var missing := MissingEventFields(p);
    if missing != [] {
      return ErrorResponse(Some(422), None, Some("VALIDATION_ERROR"), Some(missing));
    }
    var r := EventService.CreateEvent(db, id, creatorId, p, fee, now);
    if r.Fail? {
      return Render(r.error, true);
    }
    return SuccessResponse(Some(201), Some("Event created successfully"), Some(r.value), None);
  }

  /** The body of a successful registration. */
  datatype Registered = Registered(event: Event, registration: Registration, payment: Option<Payment>)

  /** createEventRegistrationHandler: the registration, then a payment
      exactly when the event is paid. A failure is rendered; a store failure
      while opening the payment leaves the registration in place. The pair
      keeps every event within its quota and payments coupled to
      registrations. */
  method CreateEventRegistrationHandler(db: Db, userId: string, eventId: string, regId: string, paymentId: string, now: int)
    returns (reply: Reply<Registered>)
    modifies db`registrations, db`payments
    ensures reply.body.SuccessBody? ==>
      && reply.status == 201 && reply.body.data.Some? && eventId in old(db.events)
      && var d := reply.body.data.value;
      && d.event == old(db.events[eventId])
      && d.registration == EventService.NewRegistration(regId, d.event, userId, now)
      && (d.payment.Some? <==> d.event.isPaid)
      && (d.payment.Some? ==> d.payment.value == PaymentService.NewPayment(paymentId, userId, d.event, d.registration, now))
      && db.registrations == old(db.registrations)[regId := d.registration]
    ensures old(EventService.EnsureEventCapacity(db.events, db.registrations, eventId)).Fail? ==>
      && reply == Render(old(EventService.EnsureEventCapacity(db.events, db.registrations, eventId)).error, true)
      && db.registrations == old(db.registrations) && db.payments == old(db.payments)
    ensures (old(EventService.EnsureEventCapacity(db.events, db.registrations, eventId)).Ok? &&
             db.events[eventId].status != "PUBLISHED") ==>
      && reply == Render(EventService.NotOpen, true)
      && db.registrations == old(db.registrations) && db.payments == old(db.payments)
    ensures (old(EventService.EnsureEventCapacity(db.events, db.registrations, eventId)).Ok? &&
             db.events[eventId].status == "PUBLISHED" && regId in old(db.registrations)) ==>
      && reply == Render(Crash, true)
      && db.registrations == old(db.registrations) && db.payments == old(db.payments)
    ensures (old(EventService.EnsureEventCapacity(db.events, db.registrations, eventId)).Ok? &&
             db.events[eventId].status == "PUBLISHED" && regId !in old(db.registrations)) ==>
      var e := db.events[eventId];
      var reg := EventService.NewRegistration(regId, e, userId, now);
      var pay := PaymentService.NewPayment(paymentId, userId, e, reg, now);
      && db.registrations == old(db.registrations)[regId := reg]
      && (!e.isPaid ==>
            && reply == SuccessResponse(Some(201), Some("Event registration created successfully"), Some(Registered(e, reg, None)), None)
            && db.payments == old(db.payments))
      && (e.isPaid && paymentId !in old(db.payments) ==>
            && reply == SuccessResponse(Some(201), Some("Event registration created successfully"), Some(Registered(e, reg, Some(pay))), None)
            && db.payments == old(db.payments)[paymentId := pay])
      && (e.isPaid && paymentId in old(db.payments) ==>
            reply == Render(Crash, true) && db.payments == old(db.payments))
    ensures old(EventService.KeyedById(db.events) && EventService.WithinQuota(db.events, db.registrations)) ==>
      EventService.WithinQuota(db.events, db.registrations)
    ensures old(PaymentService.Coupled(db.payments, db.registrations)) ==>
      PaymentService.Coupled(db.payments, db.registrations)
  {
    ghost var events := db.events;
    ghost var regs0 := db.registrations;
    ghost var pays0 := db.payments;
    var r := EventService.CreateEventRegistration(db, userId, eventId, regId, now);
    if r.Fail? {
      return Render(r.error, true);
    }
    var e := r.value.event;
    var reg := r.value.registration;
    if EventService.KeyedById(events) && EventService.WithinQuota(events, regs0) {
      EventService.RegistrationKeepsQuota(events, regs0, userId, eventId, regId, now);
    }
    var payment: Option<Payment> := None;
    if e.isPaid {
      var made := PaymentService.CreatePaymentForEventRegistration(db, paymentId, userId, e, reg, now);
      if made.Fail? {
        return Render(made.error, true);
      }
      payment := made.value;
      if PaymentService.Coupled(pays0, regs0) {
        PaymentService.PairKeepsCoupling(pays0, regs0, paymentId, userId, e, reg, now);
      }
    }
    return SuccessResponse(Some(201), Some("Event registration created successfully"), Some(Registered(e, reg, payment)), None);
  }

  /** changeEventStatusHandler: an absent status is refused before the
      service is called; otherwise the service's answer is rendered. */
  method ChangeEventStatusHandler(db: Db, creatorId: string, eventId: string, status: Option<string>, now: int)
    returns (reply: Reply<Event>)
    modifies db`events
    ensures !Given(status) ==>
      && reply == ErrorResponse(Some(422), None, Some("VALIDATION_ERROR"), Some([Detail("status", "Status is required")]))
      && db.events == old(db.events)
    ensures reply.status == 200 ==>
      && Given(status) && EventService.Owns(old(db.events), eventId, creatorId)
      && reply.body == SuccessResponse(Some(200), Some("Event status updated successfully"),
           Some(StatusMachine.EventWithStatus(old(db.events)[eventId], status.value, now)), None).body
      && db.events == old(db.events)[eventId := StatusMachine.EventWithStatus(old(db.events)[eventId], status.value, now)]
    ensures reply.status != 200 ==> db.events == old(db.events)
    ensures Given(status) && status.value !in StatusMachine.EventStatuses ==>
      reply == Render(StatusMachine.EventStatusError, true)
    ensures Given(status) && status.value in StatusMachine.EventStatuses && !EventService.Owns(old(db.events), eventId, creatorId) ==>
      reply == Render(EventService.EventNotFound, true)
    ensures Given(status) && status.value in StatusMachine.EventStatuses && EventService.Owns(old(db.events), eventId, creatorId) ==>
      reply == SuccessResponse(Some(200), Some("Event status updated successfully"),
        Some(StatusMachine.EventWithStatus(old(db.events)[eventId], status.value, now)), None)
  {
    if !Given(status) {
      return ErrorResponse(Some(422), None, Some("VALIDATION_ERROR"), Some([Detail("status", "Status is required")]));
    }
    var r := EventService.ChangeEventStatus(db, creatorId, eventId, status.value, now);
    if r.Fail? {
      return Render(r.error, true);
    }
    return SuccessResponse(Some(200), Some("Event status updated successfully"), Some(r.value), None);
  }
}
