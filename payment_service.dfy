/** The payment side of event registration: a PENDING payment is opened for
    a paid registration, the payer attaches proof, and an admin's decision
    moves the payment and its registration together. */
module PaymentService {

  import opened Wrappers
  import opened Store
  import Query
  import EventService
  import StatusMachine

  const PaymentNotFound: Error := NotFound("PAYMENT_NOT_FOUND")
  const AlreadyVerified: Error := Invalid(400, "paymentId", "Payment already verified")
  const DecisionError: Error := Invalid(422, "status", "Status must be VERIFIED or REJECTED")
  /** A payment not tied to a registration: 400 with no details. */
  const Unlinked: Error := Err(400, "VALIDATION_ERROR", None)

  /** The payment row opened for a paid registration. */
  function NewPayment(id: string, userId: string, e: Event, reg: Registration, now: int): (p: Payment)
    ensures p.status == "PENDING" && p.paymentType == "EVENT_REGISTRATION"
    ensures p.amount == reg.totalAmount
    ensures p.referenceCode.None? && p.screenshotUrl.None?
    ensures p.verifiedById.None? && p.verifiedAt.None?
    ensures p.eventRegistrationId == Some(reg.id) && p.eventId == Some(e.id)
    ensures p.id == id && p.userId == userId
  {
    Payment(id, userId, "EVENT_REGISTRATION", reg.totalAmount, None, None, "PENDING", None, None, Some(reg.id), Some(e.id), now)
  }

  /** createPaymentForEventRegistration: nothing for a free event; a new
      PENDING payment for a paid one. */
  method CreatePaymentForEventRegistration(db: Db, paymentId: string, userId: string, e: Event, reg: Registration, now: int)
    returns (r: Result<Option<Payment>>)
    modifies db`payments
    ensures !e.isPaid ==> r == Ok(None) && db.payments == old(db.payments)
    ensures e.isPaid && paymentId in old(db.payments) ==> r == Fail(Crash) && db.payments == old(db.payments)
    ensures e.isPaid && paymentId !in old(db.payments) ==>
      && r == Ok(Some(NewPayment(paymentId, userId, e, reg, now)))
      && db.payments == old(db.payments)[paymentId := r.value.value]
  {
    if !e.isPaid {
      return Ok(None);
    }
    if paymentId in db.payments {
      return Fail(Crash);
    }
    var p := NewPayment(paymentId, userId, e, reg, now);
    db.payments := db.payments[paymentId := p];
    return Ok(Some(p));
  }

  /** `payload.x || payment.x` for the two proof fields. */
  function WithProof(p: Payment, referenceCode: Option<string>, screenshotUrl: Option<string>): Payment {
    p.(referenceCode := Or(referenceCode, p.referenceCode), screenshotUrl := Or(screenshotUrl, p.screenshotUrl))
  }

  /** Attaching proof changes only the reference code and the screenshot,
      each taking the sent value when it is non-empty and keeping the old
      one otherwise; attaching the same proof again changes nothing more. */
  lemma WithProofFrame(p: Payment, referenceCode: Option<string>, screenshotUrl: Option<string>)
    ensures var q := WithProof(p, referenceCode, screenshotUrl);
      && q.(referenceCode := p.referenceCode, screenshotUrl := p.screenshotUrl) == p
      && q.referenceCode == (if Given(referenceCode) then referenceCode else p.referenceCode)
      && q.screenshotUrl == (if Given(screenshotUrl) then screenshotUrl else p.screenshotUrl)
      && WithProof(q, referenceCode, screenshotUrl) == q
  {
  }

  /** attachPaymentProof: 404 for an unknown payment, then 403 for someone
      else's, then 400 for a VERIFIED one; PENDING and REJECTED payments
      take the proof. */
  method AttachPaymentProof(db: Db, paymentId: string, userId: string, referenceCode: Option<string>, screenshotUrl: Option<string>)
    returns (r: Result<Payment>)
    modifies db`payments
    ensures r.Fail? ==> db.payments == old(db.payments)
    ensures paymentId !in old(db.payments) ==> r == Fail(PaymentNotFound)
    ensures paymentId in old(db.payments) && old(db.payments)[paymentId].userId != userId ==>
      r == Fail(Forbidden("FORBIDDEN"))
    ensures (paymentId in old(db.payments) && old(db.payments)[paymentId].userId == userId &&
             old(db.payments)[paymentId].status == "VERIFIED") ==> r == Fail(AlreadyVerified)
    ensures r.Ok? <==>
      paymentId in old(db.payments) && old(db.payments)[paymentId].userId == userId &&
      old(db.payments)[paymentId].status != "VERIFIED"
    ensures r.Ok? ==>
      && r.value == WithProof(old(db.payments)[paymentId], referenceCode, screenshotUrl)
      && db.payments == old(db.payments)[paymentId := r.value]
  {
    if paymentId !in db.payments {
      return Fail(PaymentNotFound);
    }
    var p := db.payments[paymentId];
    if p.userId != userId {
      return Fail(Forbidden("FORBIDDEN"));
    }
    if p.status == "VERIFIED" {
      return Fail(AlreadyVerified);
    }
    var q := WithProof(p, referenceCode, screenshotUrl);
    db.payments := db.payments[paymentId := q];
    return Ok(q);
  }

  /** The payment after an admin's decision. */
  function Decided(p: Payment, status: string, adminId: string, now: int): Payment {
    p.(status := status, verifiedById := Some(adminId), verifiedAt := Some(now))
  }

  /** The registration status a decision leads to. */
  function RegistrationStatusFor(decision: string): string {
    if decision == "VERIFIED" then "CONFIRMED" else "REJECTED"
  }

  /** The registration status that goes with each payment status. */
  function Expected(paymentStatus: string): string {
    if paymentStatus == "PENDING" then "PENDING_PAYMENT" else RegistrationStatusFor(paymentStatus)
  }

  /** verifyEventPayment: the decision is validated before the lookup; an
      unknown payment is 404 and one without a registration 400. Otherwise
      the payment is stamped with the decision, the admin and the time, and
      then its registration becomes CONFIRMED or REJECTED. The current
      status is not checked. A registration id that names no row fails in
      the store after the payment has been written. */
  method VerifyEventPayment(db: Db, paymentId: string, adminId: string, status: string, now: int)
    returns (r: Result<Payment>)
    modifies db`payments, db`registrations
    ensures status !in StatusMachine.PaymentDecisions ==>
      r == Fail(DecisionError) && db.payments == old(db.payments) && db.registrations == old(db.registrations)
    ensures status in StatusMachine.PaymentDecisions && paymentId !in old(db.payments) ==>
      r == Fail(PaymentNotFound) && db.payments == old(db.payments) && db.registrations == old(db.registrations)
    ensures (status in StatusMachine.PaymentDecisions && paymentId in old(db.payments) &&
             !Given(old(db.payments)[paymentId].eventRegistrationId)) ==>
      r == Fail(Unlinked) && db.payments == old(db.payments) && db.registrations == old(db.registrations)
    ensures (status in StatusMachine.PaymentDecisions && paymentId in old(db.payments) &&
             Given(old(db.payments)[paymentId].eventRegistrationId)) ==>
      var p := old(db.payments)[paymentId];
      var regId := p.eventRegistrationId.value;
      && db.payments == old(db.payments)[paymentId := Decided(p, status, adminId, now)]
      && (regId in old(db.registrations) ==>
            && r == Ok(Decided(p, status, adminId, now))
            && db.registrations == old(db.registrations)[regId := old(db.registrations)[regId].(status := RegistrationStatusFor(status))])
      && (regId !in old(db.registrations) ==> r == Fail(Crash) && db.registrations == old(db.registrations))
  {
    if status !in StatusMachine.PaymentDecisions {
      return Fail(DecisionError);
    }
    if paymentId !in db.payments {
      return Fail(PaymentNotFound);
    }
    var p := db.payments[paymentId];
    if !Given(p.eventRegistrationId) {
      return Fail(Unlinked);
    }
    var decided := Decided(p, status, adminId, now);
    db.payments := db.payments[paymentId := decided];
    var regId := p.eventRegistrationId.value;
    if regId !in db.registrations {
      return Fail(Crash);
    }
    db.registrations := db.registrations[regId := db.registrations[regId].(status := RegistrationStatusFor(status))];
    return Ok(decided);
  }

  predicate Linked(p: Payment) {
    Given(p.eventRegistrationId)
  }

  /** The coupling between payments and registrations: every linked payment
      has a known status and names an existing registration whose status
      matches it, and no two linked payments name the same registration. */
  predicate Coupled(payments: map<string, Payment>, regs: map<string, Registration>) {
    && (forall id :: id in payments && Linked(payments[id]) ==>
          && payments[id].status in {"PENDING", "VERIFIED", "REJECTED"}
          && payments[id].eventRegistrationId.value in regs
          && regs[payments[id].eventRegistrationId.value].status == Expected(payments[id].status))
    && (forall a, b :: a in payments && b in payments && a != b && Linked(payments[a]) && Linked(payments[b]) ==>
          payments[a].eventRegistrationId != payments[b].eventRegistrationId)
  }

  /** An admin's decision keeps payments and registrations coupled, and
      changes no registration other than the linked one. */
  lemma DecisionKeepsCoupling(payments: map<string, Payment>, regs: map<string, Registration>,
                              paymentId: string, adminId: string, status: string, now: int)
    requires Coupled(payments, regs)
    requires status in StatusMachine.PaymentDecisions
    requires paymentId in payments && Linked(payments[paymentId])
    ensures var p := payments[paymentId];
      var regId := p.eventRegistrationId.value;
      Coupled(payments[paymentId := Decided(p, status, adminId, now)],
              regs[regId := regs[regId].(status := RegistrationStatusFor(status))])
  {
    var p := payments[paymentId];
    var regId := p.eventRegistrationId.value;
    var ps := payments[paymentId := Decided(p, status, adminId, now)];
    var rs := regs[regId := regs[regId].(status := RegistrationStatusFor(status))];
    forall id | id in ps && Linked(ps[id])
      ensures ps[id].eventRegistrationId.value in rs
      ensures rs[ps[id].eventRegistrationId.value].status == Expected(ps[id].status)
    {
      if id != paymentId {
        assert payments[id].eventRegistrationId != payments[paymentId].eventRegistrationId;
      }
    }
  }

  /** Attaching proof keeps payments and registrations coupled. */
  lemma ProofKeepsCoupling(payments: map<string, Payment>, regs: map<string, Registration>,
                           paymentId: string, referenceCode: Option<string>, screenshotUrl: Option<string>)
    requires Coupled(payments, regs)
    requires paymentId in payments
    ensures Coupled(payments[paymentId := WithProof(payments[paymentId], referenceCode, screenshotUrl)], regs)
  {
  }

  /** A fresh registration with its fresh PENDING payment (the registration
      handler's pair) keeps payments and registrations coupled. */
  lemma PairKeepsCoupling(payments: map<string, Payment>, regs: map<string, Registration>,
                          paymentId: string, userId: string, e: Event, reg: Registration, now: int)
    requires Coupled(payments, regs)
    requires reg.id !in regs && paymentId !in payments
    requires reg.status == "PENDING_PAYMENT"
    ensures Coupled(payments[paymentId := NewPayment(paymentId, userId, e, reg, now)], regs[reg.id := reg])
  {
    var ps := payments[paymentId := NewPayment(paymentId, userId, e, reg, now)];
    var rs := regs[reg.id := reg];
    forall a, b | a in ps && b in ps && a != b && Linked(ps[a]) && Linked(ps[b])
      ensures ps[a].eventRegistrationId != ps[b].eventRegistrationId
    {
      if a == paymentId {
        assert payments[b].eventRegistrationId.value in regs;
      } else if b == paymentId {
        assert payments[a].eventRegistrationId.value in regs;
      }
    }
  }

  /** An admin's decision can bring a rejected registration back into the
      active set, so the quota checked at registration time does not bound
      the active registrations afterwards: here a full one-seat event ends
      with two. */
  lemma ReverifyCanOverfill()
    ensures var e := Event("e", "c", "t", "t-1", "MAIN_BARENG", None, None, None, None, true, Some(10), 2, Some(1), "PUBLISHED", Some(0), 0);
      var r1 := Registration("r1", "e", "u1", "REJECTED", 12, 0);
      var r2 := Registration("r2", "e", "u2", "CONFIRMED", 12, 0);
      var regs := map["r1" := r1, "r2" := r2];
      && EventService.WithinQuota(map["e" := e], regs)
      && !EventService.WithinQuota(map["e" := e], regs["r1" := r1.(status := RegistrationStatusFor("VERIFIED"))])
  {
    var e := Event("e", "c", "t", "t-1", "MAIN_BARENG", None, None, None, None, true, Some(10), 2, Some(1), "PUBLISHED", Some(0), 0);
    var r1 := Registration("r1", "e", "u1", "REJECTED", 12, 0);
    var r2 := Registration("r2", "e", "u2", "CONFIRMED", 12, 0);
    var regs := map["r1" := r1, "r2" := r2];
    assert EventService.ActiveIds(regs, "e") == {"r2"};
    var after := regs["r1" := r1.(status := "CONFIRMED")];
    assert EventService.ActiveIds(after, "e") == {"r1", "r2"};
  }

  /** The payments of an event's registrations. */
  function ForEvent(eventId: string): Payment -> bool {
    (p: Payment) => p.eventId == Some(eventId) && p.paymentType == "EVENT_REGISTRATION"
  }

  function CreatedAt(p: Payment): int {
    p.createdAt
  }

  /** listEventPaymentsForCreator: 404 unless the caller created the event;
      otherwise exactly that event's registration payments, newest first. */
  method ListEventPaymentsForCreator(db: Db, eventId: string, creatorId: string) returns (r: Result<seq<Payment>>)
    ensures r.Fail? <==> !EventService.Owns(db.events, eventId, creatorId)
    ensures r.Fail? ==> r.error == EventService.EventNotFound
    ensures r.Ok? ==> forall p :: p in r.value <==>
      p in db.payments.Values && p.eventId == Some(eventId) && p.paymentType == "EVENT_REGISTRATION"
    ensures r.Ok? ==> Query.SortedDesc(r.value, CreatedAt)
    ensures r.Ok? ==> |r.value| == |Query.Matching(db.payments, ForEvent(eventId))|
  {
    if !EventService.Owns(db.events, eventId, creatorId) {
      return Fail(EventService.EventNotFound);
    }
    var rows := Query.Select(db.payments, ForEvent(eventId), CreatedAt);
    return Ok(rows);
  }
}
