/** The job endpoints that do more than forward: the create handler's
    required fields, the detail endpoint's slug-then-id fallback, and the
    status handler's call into the service. */
module JobController {

  import opened Wrappers
  import opened Store
  import opened Validation
  import opened Response
  import JobService
  import Lookup
  import StatusMachine

  /** The checks createJobHandler makes, in its order. */
  function JobRequirements(businessId: Option<string>, p: JobService.JobPayload): seq<Requirement> {
    [ Requirement(Given(businessId), Detail("businessId", "Business ID is required")),
      Requirement(p.title != "", Detail("title", "Title is required")),
      Requirement(Given(p.locationType), Detail("locationType", "Location type is required")),
      Requirement(Given(p.employmentType), Detail("employmentType", "Employment type is required")),
      Requirement(Given(p.description), Detail("description", "Description is required")) ]
  }

  /** The `missingFields` list, built by one push per absent field. */
  method MissingJobFields(businessId: Option<string>, p: JobService.JobPayload) returns (missing: seq<Detail>)
    ensures missing == Missing(JobRequirements(businessId, p))
  {
    var reqs := JobRequirements(businessId, p);
    missing := [];
    if !Given(businessId) {
      missing := missing + [Detail("businessId", "Business ID is required")];
    }
    assert missing == Report(reqs[0]);
    if p.title == "" {
      missing := missing + [Detail("title", "Title is required")];
    }
    assert missing == Report(reqs[0]) + Report(reqs[1]);
    if !Given(p.locationType) {
      missing := missing + [Detail("locationType", "Location type is required")];
    }
    assert missing == Report(reqs[0]) + Report(reqs[1]) + Report(reqs[2]);
    if !Given(p.employmentType) {
      missing := missing + [Detail("employmentType", "Employment type is required")];
    }
    assert missing == Report(reqs[0]) + Report(reqs[1]) + Report(reqs[2]) + Report(reqs[3]);
    if !Given(p.description) {
      missing := missing + [Detail("description", "Description is required")];
    }
    MissingFive(reqs[0], reqs[1], reqs[2], reqs[3], reqs[4]);
  }

  /** The create handler refuses a body exactly when one of the five fields
      is absent. */
  lemma JobFieldsReported(businessId: Option<string>, p: JobService.JobPayload)
    ensures Missing(JobRequirements(businessId, p)) == [] <==>
      Given(businessId) && p.title != "" && Given(p.locationType) && Given(p.employmentType) && Given(p.description)
    ensures !Given(businessId) ==> Detail("businessId", "Business ID is required") in Missing(JobRequirements(businessId, p))
  {
    var reqs := JobRequirements(businessId, p);
    MissingSpec(reqs);
    assert (forall i :: 0 <= i < |reqs| ==> reqs[i].supplied) <==>
      reqs[0].supplied && reqs[1].supplied && reqs[2].supplied && reqs[3].supplied && reqs[4].supplied;
    assert reqs[0].detail == Detail("businessId", "Business ID is required");
  }

  /** createJobHandler: 422 listing the absent fields without calling the
      service; otherwise 201 with the new job, or the rendered failure. */
  method CreateJobHandler(db: Db, id: string, userId: string, businessId: Option<string>, p: JobService.JobPayload, now: nat)
    returns (reply: Reply<JobPost>)
    modifies db`jobs
    ensures Missing(JobRequirements(businessId, p)) != [] ==>
      && reply == ErrorResponse(Some(422), None, Some("VALIDATION_ERROR"), Some(Missing(JobRequirements(businessId, p))))
      && db.jobs == old(db.jobs)
    ensures reply.body.SuccessBody? ==>
      && Missing(JobRequirements(businessId, p)) == []
      && reply.status == 201 && reply.body.data.Some?
      && reply.body.data.value == JobService.NewJob(id, businessId.value, reply.body.data.value.jobStatusId, p, now)
      && db.jobs == old(db.jobs)[id := reply.body.data.value]
    ensures reply.body.ErrorBody? ==> db.jobs == old(db.jobs)
    ensures Missing(JobRequirements(businessId, p)) == [] && businessId.Some? && !JobService.OwnsBusiness(db.businesses, businessId.value, userId) ==>
      reply == Render(JobService.BusinessNotFound, true)
    ensures (Missing(JobRequirements(businessId, p)) == [] && businessId.Some? && JobService.OwnsBusiness(db.businesses, businessId.value, userId) &&
             db.businesses[businessId.value].status != "APPROVED") ==>
      reply == Render(JobService.BusinessNotApproved, true)
    ensures (Missing(JobRequirements(businessId, p)) == [] && businessId.Some? && JobService.OwnsBusiness(db.businesses, businessId.value, userId) &&
             db.businesses[businessId.value].status == "APPROVED" && "ACTIVE" !in db.jobStatuses.Values) ==>
      reply == Render(JobService.StatusNotConfigured, true)
    ensures (Missing(JobRequirements(businessId, p)) == [] && businessId.Some? && JobService.OwnsBusiness(db.businesses, businessId.value, userId) &&
             db.businesses[businessId.value].status == "APPROVED" && "ACTIVE" in db.jobStatuses.Values) ==>
      && (id in old(db.jobs) ==> reply == Render(Crash, true))
      && (id !in old(db.jobs) ==>
            && reply.body.SuccessBody? && reply.status == 201 && reply.body.data.Some?
            && reply == SuccessResponse(Some(201), Some("Job created successfully"), reply.body.data, None)
            && JobService.StatusCode(db.jobStatuses, reply.body.data.value) == Some("ACTIVE"))
  {
    var missing := MissingJobFields(businessId, p);
    if missing != [] {
      return ErrorResponse(Some(422), None, Some("VALIDATION_ERROR"), Some(missing));
    }
    var r := JobService.CreateJob(db, id, userId, businessId.value, p, now);
    if r.Fail? {
      return Render(r.error, true);
    }
    return SuccessResponse(Some(201), Some("Job created successfully"), Some(r.value), None);
  }

  /** getJobDetail: an id-like key is read by id only; any other key by
      slug, and by id when the slug read fails. A miss is a 404 without
      details. */
  method GetJobDetail(db: Db, key: string) returns (reply: Reply<JobPost>)
    ensures (IdLike(key) || !Lookup.SlugTaken(db.jobs, key, JobService.SlugOfJob)) ==>
      && (key in db.jobs ==> reply == SuccessResponse(Some(200), Some("Job fetched successfully"), Some(db.jobs[key]), None))
      && (key !in db.jobs ==> reply == Render(JobService.JobNotFound, false))
    ensures !IdLike(key) && Lookup.SlugTaken(db.jobs, key, JobService.SlugOfJob) ==>
      && reply.body.SuccessBody? && reply.status == 200 && reply.body.data.Some?
      && reply.body.data.value in db.jobs.Values && reply.body.data.value.slug == key
  {
    var r: Result<JobPost>;
    if IdLike(key) {
      r := JobService.GetJobById(db.jobs, key);
    } else {
      r := JobService.GetJobBySlug(db, key);
      if r.Fail? {
        r := JobService.GetJobById(db.jobs, key);
      }
    }
    if r.Fail? {
      return Render(r.error, false);
    }
    return SuccessResponse(Some(200), Some("Job fetched successfully"), Some(r.value), None);
  }

  /** changeJobStatusHandler as written: it passes the status under the key
      `status`, while the service reads `statusCode`, so the service sees no
      code and every request that gets past the presence check is refused
      with 422, leaving the job untouched. */
  method ChangeJobStatusHandlerAsWritten(db: Db, userId: string, jobId: string, status: Option<string>)
    returns (reply: Reply<JobPost>)
    modifies db`jobs
    ensures reply.status == 422 && reply.body.ErrorBody? && reply.body.errorCode == "VALIDATION_ERROR"
    ensures Given(status) ==> reply == Render(StatusMachine.JobStatusError, true)
    ensures db.jobs == old(db.jobs)
  {
    if !Given(status) {
      return ErrorResponse(Some(422), None, Some("VALIDATION_ERROR"), Some([Detail("status", "Status is required")]));
    }
    var r := JobService.ChangeJobStatus(db, userId, jobId, None);
    if r.Ok? {
      // the service cannot succeed without a code
      assert false;
    }
    return Render(r.error, true);
  }

  /** changeJobStatusHandler with the status passed as `statusCode`: an
      absent status is refused before the service is called; otherwise the
      service's answer is rendered: 422, 404 or 500 with no write, or 200
      with the job whose status reference alone changed. */
  method ChangeJobStatusHandler(db: Db, userId: string, jobId: string, status: Option<string>)
    returns (reply: Reply<JobPost>)
    modifies db`jobs
    ensures !Given(status) ==>
      && reply == ErrorResponse(Some(422), None, Some("VALIDATION_ERROR"), Some([Detail("status", "Status is required")]))
      && db.jobs == old(db.jobs)
    ensures reply.body.SuccessBody? <==>
      Given(status) && JobService.AllowedCode(status) && old(JobService.OwnsJob(db, jobId, userId)) &&
      status.value in db.jobStatuses.Values
    ensures reply.body.SuccessBody? ==>
      && reply.status == 200 && reply.body.data.Some?
      && reply == SuccessResponse(Some(200), Some("Job status updated successfully"), reply.body.data, None)
      && jobId in old(db.jobs)
      && reply.body.data.value == old(db.jobs)[jobId].(jobStatusId := reply.body.data.value.jobStatusId)
      && JobService.StatusCode(db.jobStatuses, reply.body.data.value) == status
      && db.jobs == old(db.jobs)[jobId := reply.body.data.value]
    ensures reply.body.ErrorBody? ==> db.jobs == old(db.jobs)
    ensures Given(status) && !JobService.AllowedCode(status) ==>
      reply == Render(StatusMachine.JobStatusError, true)
    ensures Given(status) && JobService.AllowedCode(status) && !old(JobService.OwnsJob(db, jobId, userId)) ==>
      reply == Render(JobService.JobNotFound, true)
    ensures (Given(status) && JobService.AllowedCode(status) && old(JobService.OwnsJob(db, jobId, userId)) &&
             status.value !in db.jobStatuses.Values) ==>
      reply == Render(JobService.StatusNotConfigured, true)
  {
    if !Given(status) {
      return ErrorResponse(Some(422), None, Some("VALIDATION_ERROR"), Some([Detail("status", "Status is required")]));
    }
    var r := JobService.ChangeJobStatus(db, userId, jobId, status);
    if r.Fail? {
      return Render(r.error, true);
    }
    return SuccessResponse(Some(200), Some("Job status updated successfully"), Some(r.value), None);
  }
}
