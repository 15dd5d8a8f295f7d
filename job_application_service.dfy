/** Job applications: creation with method-specific field checks, the
    owner's listing and the applicant-or-owner read. */
module JobApplicationService {

  import opened Wrappers
  import opened Store
  import Query
  import Validation
  import JobService

  const ApplicationNotFound: Error := NotFound("JOB_APPLICATION_NOT_FOUND")
  const MethodRequired: Error := Invalid(422, "applicationMethod", "Application method is required")

  /** The body of an application; every field may be left out. */
  datatype ApplicationPayload = ApplicationPayload(
    applicationMethod: Option<string>,
    cvUrl: Option<string>,
    resumeUrl: Option<string>,
    portfolioUrl: Option<string>,
    coverLetter: Option<string>,
    externalTarget: Option<string>,
    externalDestination: Option<string>)

  /** The checks a method makes: PLATFORM needs a CV and a portfolio,
      EXTERNAL a target and a destination, each reported by its own detail;
      any other method is not checked. */
  function MethodRequirements(p: ApplicationPayload): seq<Validation.Requirement> {
    if p.applicationMethod == Some("PLATFORM") then
      [Validation.Requirement(Given(p.cvUrl), Detail("cvUrl", "CV URL is required")),
       Validation.Requirement(Given(p.portfolioUrl), Detail("portfolioUrl", "Portfolio URL is required"))]
    else if p.applicationMethod == Some("EXTERNAL") then
      [Validation.Requirement(Given(p.externalTarget), Detail("externalTarget", "External target is required")),
       Validation.Requirement(Given(p.externalDestination), Detail("externalDestination", "External destination is required"))]
    else []
  }

  /** The validation createJobApplication runs once the job is found: a
      missing method first, then the method's own fields. */
  function ValidateApplication(p: ApplicationPayload): Option<Error> {
    if !Given(p.applicationMethod) then Some(MethodRequired)
    else
      var missing := Validation.Missing(MethodRequirements(p));
      if missing == [] then None else Some(Err(422, "VALIDATION_ERROR", Some(missing)))
  }

  /** PLATFORM is refused exactly when the CV or the portfolio is missing,
      and the details list the missing ones, the CV first; EXTERNAL likewise
      for target and destination; any other method passes. */
  lemma ValidationByMethod(p: ApplicationPayload)
    requires Given(p.applicationMethod)
    ensures p.applicationMethod == Some("PLATFORM") ==>
      && (ValidateApplication(p).None? <==> Given(p.cvUrl) && Given(p.portfolioUrl))
      && (ValidateApplication(p).Some? ==> ValidateApplication(p).value == Err(422, "VALIDATION_ERROR", Some(
            (if Given(p.cvUrl) then [] else [Detail("cvUrl", "CV URL is required")]) +
            (if Given(p.portfolioUrl) then [] else [Detail("portfolioUrl", "Portfolio URL is required")]))))
    ensures p.applicationMethod == Some("EXTERNAL") ==>
      && (ValidateApplication(p).None? <==> Given(p.externalTarget) && Given(p.externalDestination))
      && (ValidateApplication(p).Some? ==> ValidateApplication(p).value == Err(422, "VALIDATION_ERROR", Some(
            (if Given(p.externalTarget) then [] else [Detail("externalTarget", "External target is required")]) +
            (if Given(p.externalDestination) then [] else [Detail("externalDestination", "External destination is required")]))))
    ensures p.applicationMethod !in {Some("PLATFORM"), Some("EXTERNAL")} ==> ValidateApplication(p).None?
  {
    var reqs := MethodRequirements(p);
    if |reqs| == 2 {
      Validation.MissingTwo(reqs[0], reqs[1]);
      assert reqs == [reqs[0], reqs[1]];
    }
  }

  /** The row createJobApplication inserts: EXTERNAL applications are
      CLICKED at `now`, every other method is SUBMITTED with no click
      time; the payload's fields are stored as sent. */
  function NewApplication(id: string, jobPostId: string, userId: Option<string>, p: ApplicationPayload, now: int)
    : (a: JobApplication)
    requires p.applicationMethod.Some?
    ensures a.status == "CLICKED" <==> p.applicationMethod == Some("EXTERNAL")
    ensures a.status == "SUBMITTED" <==> p.applicationMethod != Some("EXTERNAL")
    ensures a.externalClickedAt.Some? <==> p.applicationMethod == Some("EXTERNAL")
    ensures a.externalClickedAt.Some? ==> a.externalClickedAt.value == now
    ensures a.jobPostId == jobPostId && a.userId == userId && a.applicationMethod == p.applicationMethod.value
    ensures a.cvUrl == p.cvUrl && a.portfolioUrl == p.portfolioUrl
    ensures a.externalTarget == p.externalTarget && a.externalDestination == p.externalDestination
  {
    var external := p.applicationMethod == Some("EXTERNAL");
    JobApplication(
      id := id, jobPostId := jobPostId, userId := userId,
      applicationMethod := p.applicationMethod.value,
      cvUrl := p.cvUrl, resumeUrl := p.resumeUrl, portfolioUrl := p.portfolioUrl,
      coverLetter := p.coverLetter,
      externalTarget := p.externalTarget, externalDestination := p.externalDestination,
      externalClickedAt := if external then Some(now) else None,
      status := if external then "CLICKED" else "SUBMITTED",
      createdAt := now)
  }

  /** The job guard of createJobApplication as the code has it: it reads
      the job's inline `status` column. */
  predicate OpenAsWritten(job: JobPost) {
    job.status == Some("ACTIVE")
  }

  /** The job guard as intended: the job's status is the code its
      `jobStatusId` names, as every other job operation reads it. */
  predicate Open(statuses: map<string, string>, job: JobPost) {
    JobService.StatusCode(statuses, job) == Some("ACTIVE")
  }

  /** The guard as written refuses every job createJob makes, ACTIVE or
      not, since createJob never writes the inline column; the intended
      guard admits exactly the ACTIVE ones. */
  lemma AsWrittenRefusesCreatedJobs(statuses: map<string, string>, id: string, businessId: string,
                                    sid: string, p: JobService.JobPayload, now: nat)
    requires sid in statuses && statuses[sid] == "ACTIVE"
    ensures !OpenAsWritten(JobService.NewJob(id, businessId, sid, p, now))
    ensures Open(statuses, JobService.NewJob(id, businessId, sid, p, now))
  {
  }

  /** createJobApplication: an unknown or non-ACTIVE job is 404 before the
      payload is looked at; a failed check is 422; otherwise one row is
      inserted. `userId` is `None` for a guest. */
  method CreateJobApplication(db: Db, id: string, userId: Option<string>, jobPostId: string,
                              p: ApplicationPayload, now: int)
    returns (r: Result<JobApplication>)
    modifies db`applications
    ensures r.Fail? ==> db.applications == old(db.applications)
    ensures !(jobPostId in db.jobs && Open(db.jobStatuses, db.jobs[jobPostId])) ==>
      r == Fail(JobService.JobNotFound)
    ensures (jobPostId in db.jobs && Open(db.jobStatuses, db.jobs[jobPostId]) &&
             ValidateApplication(p).Some?) ==> r == Fail(ValidateApplication(p).value)
    ensures r.Ok? <==>
      && jobPostId in db.jobs && Open(db.jobStatuses, db.jobs[jobPostId])
      && ValidateApplication(p).None? && id !in old(db.applications)
    ensures r.Ok? ==>
      && p.applicationMethod.Some?
      && r.value == NewApplication(id, jobPostId, userId, p, now)
      && db.applications == old(db.applications)[id := r.value]
  {
    if jobPostId !in db.jobs || !Open(db.jobStatuses, db.jobs[jobPostId]) {
      return Fail(JobService.JobNotFound);
    }
    var invalid := ValidateApplication(p);
    if invalid.Some? {
      return Fail(invalid.value);
    }
    if id in db.applications {
      return Fail(Crash);
    }
    var a := NewApplication(id, jobPostId, userId, p, now);
    db.applications := db.applications[id := a];
    return Ok(a);
  }

  function ForJob(jobPostId: string): JobApplication -> bool {
    (a: JobApplication) => a.jobPostId == jobPostId
  }

  function CreatedAt(a: JobApplication): int {
    a.createdAt
  }

  /** listApplicationsForJob: 404 unless the caller owns the job's
      business; otherwise every application to the job, newest first. */
  method ListApplicationsForJob(db: Db, jobPostId: string, ownerId: string) returns (r: Result<seq<JobApplication>>)
    ensures r.Fail? <==> !JobService.OwnsJob(db, jobPostId, ownerId)
    ensures r.Fail? ==> r.error == JobService.JobNotFound
    ensures r.Ok? ==>
      && (forall a :: a in r.value <==> a in db.applications.Values && a.jobPostId == jobPostId)
      && |r.value| == |Query.Matching(db.applications, ForJob(jobPostId))|
      && Query.SortedDesc(r.value, CreatedAt)
  {
    if !JobService.OwnsJob(db, jobPostId, ownerId) {
      return Fail(JobService.JobNotFound);
    }
    var rows := Query.Select(db.applications, ForJob(jobPostId), CreatedAt);
    forall a ensures a in rows <==> a in db.applications.Values && a.jobPostId == jobPostId {
      assert Query.Selected(db.applications, ForJob(jobPostId), a) <==> a in db.applications.Values && a.jobPostId == jobPostId;
    }
    return Ok(rows);
  }

  /** The applicant, or the owner of the business the job belongs to. */
  predicate MayRead(a: JobApplication, owner: string, userId: string) {
    a.userId == Some(userId) || owner == userId
  }

  /** getJobApplicationById: 404 for an unknown application, 403 unless the
      caller applied or owns the job's business. An application whose job or
      business row is gone cannot occur under the store's foreign keys; the
      code would then fail on the missing relation. */
  function GetJobApplicationById(db: Db, id: string, userId: string): (r: Result<JobApplication>)
    reads db
    ensures id !in db.applications ==> r == Fail(ApplicationNotFound)
    ensures r.Ok? ==> id in db.applications && r.value == db.applications[id]
    ensures r.Ok? ==> db.applications[id].userId == Some(userId) || JobService.OwnsJob(db, db.applications[id].jobPostId, userId)
    ensures (id in db.applications && JobService.OwnsJob(db, db.applications[id].jobPostId, userId)) ==> r.Ok?
    ensures (id in db.applications && db.applications[id].userId == Some(userId) &&
             db.applications[id].jobPostId in db.jobs && db.jobs[db.applications[id].jobPostId].businessId in db.businesses) ==> r.Ok?
    ensures (id in db.applications && !MayReadAny(db, id, userId) && db.applications[id].jobPostId in db.jobs &&
             db.jobs[db.applications[id].jobPostId].businessId in db.businesses) ==> r == Fail(Forbidden("FORBIDDEN"))
  {
    if id !in db.applications then Fail(ApplicationNotFound)
    else
      var a := db.applications[id];
      if a.jobPostId !in db.jobs || db.jobs[a.jobPostId].businessId !in db.businesses then Fail(Crash)
      else if !MayRead(a, db.businesses[db.jobs[a.jobPostId].businessId].ownerId, userId) then Fail(Forbidden("FORBIDDEN"))
      else Ok(a)
  }

  /** The caller is the applicant or owns the job's business. */
  predicate MayReadAny(db: Db, id: string, userId: string)
    reads db
    requires id in db.applications
  {
    db.applications[id].userId == Some(userId) || JobService.OwnsJob(db, db.applications[id].jobPostId, userId)
  }
}
