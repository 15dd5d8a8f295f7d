/** The payment endpoints: the either-or proof check and the admin's
    decision, each forwarding to the payment service. */
module PaymentController {

  import opened Wrappers
  import opened Store
  import opened Response
  import PaymentService
  import StatusMachine

  const ProofRequired: Detail := Detail("referenceCode", "Reference code or screenshot is required")

  /** attachPaymentProofHandler: 422 when neither a reference code nor a
      screenshot is sent; otherwise the service's answer for the caller's
      own id. Payments stay coupled to their registrations. */
  method AttachPaymentProofHandler(db: Db, paymentId: string, userId: string, referenceCode: Option<string>, screenshotUrl: Option<string>)
    returns (reply: Reply<Payment>)
    modifies db`payments
    ensures !Given(referenceCode) && !Given(screenshotUrl) ==>
      reply == ErrorResponse(Some(422), None, Some("VALIDATION_ERROR"), Some([ProofRequired])) && db.payments == old(db.payments)
    ensures reply.body.SuccessBody? ==>
      && (Given(referenceCode) || Given(screenshotUrl))
      && paymentId in old(db.payments) && old(db.payments)[paymentId].userId == userId
      && old(db.payments)[paymentId].status != "VERIFIED"
      && reply.status == 200
      && reply.body.data == Some(PaymentService.WithProof(old(db.payments)[paymentId], referenceCode, screenshotUrl))
      && db.payments == old(db.payments)[paymentId := reply.body.data.value]
    ensures reply.body.ErrorBody? ==> db.payments == old(db.payments)
    ensures (Given(referenceCode) || Given(screenshotUrl)) && paymentId !in old(db.payments) ==>
      reply == Render(PaymentService.PaymentNotFound, true)
    ensures ((Given(referenceCode) || Given(screenshotUrl)) && paymentId in old(db.payments) &&
             old(db.payments)[paymentId].userId != userId) ==>
      reply == Render(Forbidden("FORBIDDEN"), true)
    ensures ((Given(referenceCode) || Given(screenshotUrl)) && paymentId in old(db.payments) &&
             old(db.payments)[paymentId].userId == userId && old(db.payments)[paymentId].status == "VERIFIED") ==>
      reply == Render(PaymentService.AlreadyVerified, true)
    ensures ((Given(referenceCode) || Given(screenshotUrl)) && paymentId in old(db.payments) &&
             old(db.payments)[paymentId].userId == userId && old(db.payments)[paymentId].status != "VERIFIED") ==>
      var q := PaymentService.WithProof(old(db.payments)[paymentId], referenceCode, screenshotUrl);
      && reply == SuccessResponse(Some(200), Some("Payment proof attached successfully"), Some(q), None)
      && db.payments == old(db.payments)[paymentId := q]
    ensures old(PaymentService.Coupled(db.payments, db.registrations)) ==> PaymentService.Coupled(db.payments, db.registrations)
  {
    if !Given(referenceCode) && !Given(screenshotUrl) {
      return ErrorResponse(Some(422), None, Some("VALIDATION_ERROR"), Some([ProofRequired]));
    }
    ghost var before := db.payments;
    var r := PaymentService.AttachPaymentProof(db, paymentId, userId, referenceCode, screenshotUrl);
    if r.Fail? {
      return Render(r.error, true);
    }
    if PaymentService.Coupled(before, db.registrations) {
      PaymentService.ProofKeepsCoupling(before, db.registrations, paymentId, referenceCode, screenshotUrl);
    }
    return SuccessResponse(Some(200), Some("Payment proof attached successfully"), Some(r.value), None);
  }

  /** verifyEventPaymentHandler: an absent status is refused before the
      service is called; the admin is the authenticated caller. Payments
      stay coupled to their registrations. */
  method VerifyEventPaymentHandler(db: Db, paymentId: string, adminId: string, status: Option<string>, now: int)
    returns (reply: Reply<Payment>)
    modifies db`payments, db`registrations
    ensures !Given(status) ==>
      && reply == ErrorResponse(Some(422), None, Some("VALIDATION_ERROR"), Some([Detail("status", "Status is required")]))
      && db.payments == old(db.payments) && db.registrations == old(db.registrations)
    ensures reply.body.SuccessBody? ==>
      && Given(status) && paymentId in old(db.payments)
      && reply.status == 200
      && reply.body.data == Some(PaymentService.Decided(old(db.payments)[paymentId], status.value, adminId, now))
    ensures Given(status) && status.value !in StatusMachine.PaymentDecisions ==>
      && reply == Render(PaymentService.DecisionError, true)
      && db.payments == old(db.payments) && db.registrations == old(db.registrations)
    ensures Given(status) && status.value in StatusMachine.PaymentDecisions && paymentId !in old(db.payments) ==>
      && reply == Render(PaymentService.PaymentNotFound, true)
      && db.payments == old(db.payments) && db.registrations == old(db.registrations)
    ensures (Given(status) && status.value in StatusMachine.PaymentDecisions && paymentId in old(db.payments) &&
             !Given(old(db.payments)[paymentId].eventRegistrationId)) ==>
      && reply == Render(PaymentService.Unlinked, true)
      && db.payments == old(db.payments) && db.registrations == old(db.registrations)
    ensures (Given(status) && status.value in StatusMachine.PaymentDecisions && paymentId in old(db.payments) &&
             Given(old(db.payments)[paymentId].eventRegistrationId)) ==>
      var p := old(db.payments)[paymentId];
      var d := PaymentService.Decided(p, status.value, adminId, now);
      var regId := p.eventRegistrationId.value;
      && db.payments == old(db.payments)[paymentId := d]
      && (regId in old(db.registrations) ==>
            && reply == SuccessResponse(Some(200), Some("Payment status updated successfully"), Some(d), None)
            && db.registrations == old(db.registrations)[regId := old(db.registrations)[regId].(status := PaymentService.RegistrationStatusFor(status.value))])
      && (regId !in old(db.registrations) ==> reply == Render(Crash, true) && db.registrations == old(db.registrations))
    ensures old(PaymentService.Coupled(db.payments, db.registrations)) ==> PaymentService.Coupled(db.payments, db.registrations)
  {
    if !Given(status) {
      return ErrorResponse(Some(422), None, Some("VALIDATION_ERROR"), Some([Detail("status", "Status is required")]));
    }
    ghost var pays := db.payments;
    ghost var regs := db.registrations;
    var r := PaymentService.VerifyEventPayment(db, paymentId, adminId, status.value, now);
    if PaymentService.Coupled(pays, regs) && db.payments != pays {
      PaymentService.DecisionKeepsCoupling(pays, regs, paymentId, adminId, status.value, now);
    }
    if r.Fail? {
      return Render(r.error, true);
    }
    return SuccessResponse(Some(200), Some("Payment status updated successfully"), Some(r.value), None);
  }
}
