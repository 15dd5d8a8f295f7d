/** The job-post service: the public listing filter, creation under an
    approved business, lookups, the owner's edit and status change. A job's
    status is the code of the JobStatus row its `jobStatusId` names. */
module JobService {

  import opened Wrappers
  import opened Store
  import Slug
  import Query
  import Pagination
  import Lookup
  import StatusMachine

  const JobNotFound: Error := NotFound("JOB_NOT_FOUND")
  const BusinessNotFound: Error := NotFound("BUSINESS_NOT_FOUND")
  const BusinessNotApproved: Error := Forbidden("BUSINESS_NOT_APPROVED")
  /** A JobStatus row the code needs is missing from the reference table. */
  const StatusNotConfigured: Error := Internal

  /** The code of a job's status, when its reference resolves. */
  function StatusCode(statuses: map<string, string>, j: JobPost): Option<string> {
    if j.jobStatusId in statuses then Some(statuses[j.jobStatusId]) else None
  }

  /** `jobStatus.findUnique({ where: { code } })`: the id of the row with
      that code. */
  method StatusIdFor(statuses: map<string, string>, code: string) returns (sid: Option<string>)
    ensures sid.None? <==> code !in statuses.Values
    ensures sid.Some? ==> sid.value in statuses && statuses[sid.value] == code
  {
    if k :| k in statuses && statuses[k] == code {
      sid := Some(k);
    } else {
      sid := None;
    }
  }

  /** The `where` of listJobs: an ACTIVE job, matching the free-text query in
      its title or description, the location in its location text, and the
      employment type exactly; a filter left empty does not apply. The
      case-insensitive `contains` is the parameter `matches`. */
  predicate Listed(statuses: map<string, string>, q: Option<string>, location: Option<string>,
                   employmentType: Option<string>, matches: (string, string) -> bool, j: JobPost) {
    && StatusCode(statuses, j) == Some("ACTIVE")
    && (Given(q) ==> matches(j.title, q.value) || (j.description.Some? && matches(j.description.value, q.value)))
    && (Given(location) ==> j.locationText.Some? && matches(j.locationText.value, location.value))
    && (Given(employmentType) ==> j.employmentType == employmentType)
  }

  function ListFilter(statuses: map<string, string>, q: Option<string>, location: Option<string>,
                      employmentType: Option<string>, matches: (string, string) -> bool): JobPost -> bool {
    j => Listed(statuses, q, location, employmentType, matches, j)
  }

  function CreatedAt(j: JobPost): int {
    j.createdAt
  }

  /** listJobs: the matching jobs, newest first, cut to the requested page,
      with the page arithmetic's meta. */
  method ListJobs(db: Db, page: int, limit: Option<int>, q: Option<string>, location: Option<string>,
                  employmentType: Option<string>, matches: (string, string) -> bool)
    returns (p: Pagination.Page<JobPost>, ghost rows: seq<JobPost>)
    requires page >= 1
    requires limit.Some? ==> limit.value >= 0
    ensures Query.Selection(db.jobs, ListFilter(db.jobStatuses, q, location, employmentType, matches), CreatedAt, rows)
    ensures p == Pagination.Paginate(rows, page, limit)
    ensures forall j :: j in p.items ==>
      j in db.jobs.Values && Listed(db.jobStatuses, q, location, employmentType, matches, j)
    ensures p.meta == Pagination.MetaOf(page, limit,
      |Query.Matching(db.jobs, ListFilter(db.jobStatuses, q, location, employmentType, matches))|)
    ensures Query.SortedDesc(p.items, CreatedAt)
  {
    p, rows := Pagination.ListPage(db.jobs, ListFilter(db.jobStatuses, q, location, employmentType, matches), CreatedAt, page, limit);
  }

  /** The body a business owner sends to post a job. */
  datatype JobPayload = JobPayload(
    title: string,
    locationType: Option<string>,
    locationText: Option<string>,
    employmentType: Option<string>,
    salaryMin: Option<int>,
    salaryMax: Option<int>,
    currency: Option<string>,
    description: Option<string>,
    requirements: Option<string>,
    applicationOptionPlatform: Option<bool>,
    applicationOptionExternal: Option<bool>,
    externalApplyUrl: Option<string>,
    externalApplyEmail: Option<string>,
    expiresAt: Option<string>)

  /** The row createJob inserts. */
  function NewJob(id: string, businessId: string, statusId: string, p: JobPayload, now: nat): (j: JobPost)
    ensures j.id == id && j.businessId == businessId && j.jobStatusId == statusId
    ensures j.publishedAt == Some(now) && j.createdAt == now
    ensures j.slug == Slug.SlugOf(p.title, now)
    ensures j.expiresAt == (if Given(p.expiresAt) then p.expiresAt else None)
    ensures j.status.None?
    ensures j.title == p.title && j.description == p.description && j.employmentType == p.employmentType
  {
    JobPost(
      id := id, businessId := businessId, jobStatusId := statusId,
      title := p.title, slug := Slug.SlugOf(p.title, now),
      locationType := p.locationType, locationText := p.locationText, employmentType := p.employmentType,
      salaryMin := p.salaryMin, salaryMax := p.salaryMax, currency := p.currency,
      description := p.description, requirements := p.requirements,
      applicationOptionPlatform := p.applicationOptionPlatform,
      applicationOptionExternal := p.applicationOptionExternal,
      externalApplyUrl := p.externalApplyUrl, externalApplyEmail := p.externalApplyEmail,
      publishedAt := Some(now),
      expiresAt := if Given(p.expiresAt) then p.expiresAt else None,
      createdAt := now,
      status := None)
  }

  predicate OwnsBusiness(businesses: map<string, Business>, businessId: string, userId: string) {
    businessId in businesses && businesses[businessId].ownerId == userId
  }

  /** createJob: a business the caller does not own is 404, an owned one
      that is not APPROVED is 403, a missing ACTIVE JobStatus row is 500;
      otherwise the job is inserted ACTIVE. */
  method CreateJob(db: Db, id: string, userId: string, businessId: string, p: JobPayload, now: nat)
    returns (r: Result<JobPost>)
    modifies db`jobs
    ensures r.Fail? ==> db.jobs == old(db.jobs)
    ensures !OwnsBusiness(db.businesses, businessId, userId) ==> r == Fail(BusinessNotFound)
    ensures OwnsBusiness(db.businesses, businessId, userId) && db.businesses[businessId].status != "APPROVED" ==>
      r == Fail(BusinessNotApproved)
    ensures (OwnsBusiness(db.businesses, businessId, userId) && db.businesses[businessId].status == "APPROVED" &&
             "ACTIVE" !in db.jobStatuses.Values) ==> r == Fail(StatusNotConfigured)
    ensures (OwnsBusiness(db.businesses, businessId, userId) && db.businesses[businessId].status == "APPROVED" &&
             "ACTIVE" in db.jobStatuses.Values && id in old(db.jobs)) ==> r == Fail(Crash)
    ensures r.Ok? <==>
      && OwnsBusiness(db.businesses, businessId, userId) && db.businesses[businessId].status == "APPROVED"
      && "ACTIVE" in db.jobStatuses.Values && id !in old(db.jobs)
    ensures r.Ok? ==>
      && StatusCode(db.jobStatuses, r.value) == Some("ACTIVE")
      && r.value == NewJob(id, businessId, r.value.jobStatusId, p, now)
      && db.jobs == old(db.jobs)[id := r.value]
  {
    if !OwnsBusiness(db.businesses, businessId, userId) {
      return Fail(BusinessNotFound);
    }
    if db.businesses[businessId].status != "APPROVED" {
      return Fail(BusinessNotApproved);
    }
    var active := StatusIdFor(db.jobStatuses, "ACTIVE");
    if active.None? {
      return Fail(StatusNotConfigured);
    }
    if id in db.jobs {
      return Fail(Crash);
    }
    var j := NewJob(id, businessId, active.value, p, now);
    db.jobs := db.jobs[id := j];
    return Ok(j);
  }

  /** getJobById. */
  function GetJobById(jobs: map<string, JobPost>, id: string): (r: Result<JobPost>)
    ensures r.Ok? <==> id in jobs
    ensures r.Ok? ==> r.value == jobs[id]
    ensures r.Fail? ==> r.error == JobNotFound
  {
    var found := Lookup.ById(jobs, id);
    if found.Some? then Ok(found.value) else Fail(JobNotFound)
  }

  function SlugOfJob(j: JobPost): string {
    j.slug
  }

  /** getJobBySlug. */
  method GetJobBySlug(db: Db, slug: string) returns (r: Result<JobPost>)
    ensures r.Ok? <==> Lookup.SlugTaken(db.jobs, slug, SlugOfJob)
    ensures r.Ok? ==> r.value in db.jobs.Values && r.value.slug == slug
    ensures r.Fail? ==> r.error == JobNotFound
  {
    var found := Lookup.BySlug(db.jobs, slug, SlugOfJob);
    if found.None? {
      return Fail(JobNotFound);
    }
    return Ok(found.value);
  }

  /** The body of a job update. */
  datatype JobPatch = JobPatch(
    title: Option<string>,
    locationType: Option<string>,
    locationText: Option<string>,
    employmentType: Option<string>,
    salaryMin: Option<int>,
    salaryMax: Option<int>,
    currency: Option<string>,
    description: Option<string>,
    requirements: Option<string>,
    /** `Some` only when the body's value is a boolean */
    applicationOptionPlatform: Option<bool>,
    applicationOptionExternal: Option<bool>,
    externalApplyUrl: Option<string>,
    externalApplyEmail: Option<string>,
    expiresAt: Option<string>)

  /** The merge of updateJob: every field keeps its value when the body
      leaves it out, the expiry changes only when sent non-empty. */
  function ApplyJobPatch(j: JobPost, p: JobPatch): JobPost {
    j.(
      title := Coalesce(p.title, j.title),
      locationType := Keep(p.locationType, j.locationType),
      locationText := Keep(p.locationText, j.locationText),
      employmentType := Keep(p.employmentType, j.employmentType),
      salaryMin := Keep(p.salaryMin, j.salaryMin),
      salaryMax := Keep(p.salaryMax, j.salaryMax),
      currency := Keep(p.currency, j.currency),
      description := Keep(p.description, j.description),
      requirements := Keep(p.requirements, j.requirements),
      applicationOptionPlatform := Keep(p.applicationOptionPlatform, j.applicationOptionPlatform),
      applicationOptionExternal := Keep(p.applicationOptionExternal, j.applicationOptionExternal),
      externalApplyUrl := Keep(p.externalApplyUrl, j.externalApplyUrl),
      externalApplyEmail := Keep(p.externalApplyEmail, j.externalApplyEmail),
      expiresAt := if Given(p.expiresAt) then p.expiresAt else j.expiresAt)
  }

  const NoJobChange: JobPatch := JobPatch(None, None, None, None, None, None, None, None, None, None, None, None, None, None)

  /** An edit never moves the job to another business, changes its status,
      slug or publication time; an empty body changes nothing, and the same
      body sent twice has the effect of sending it once. */
  lemma JobPatchFrame(j: JobPost, p: JobPatch)
    ensures var j' := ApplyJobPatch(j, p);
      && j'.id == j.id && j'.businessId == j.businessId && j'.jobStatusId == j.jobStatusId
      && j'.slug == j.slug && j'.publishedAt == j.publishedAt && j'.createdAt == j.createdAt && j'.status == j.status
      && ApplyJobPatch(j', p) == j'
    ensures ApplyJobPatch(j, NoJobChange) == j
  {
  }

  /** `findFirst({ where: { id, business: { ownerId } } })` finds a row. */
  predicate OwnsJob(db: Db, jobId: string, userId: string)
    reads db
  {
    jobId in db.jobs && OwnsBusiness(db.businesses, db.jobs[jobId].businessId, userId)
  }

  /** updateJob: 404 unless the job's business belongs to the caller. */
  method UpdateJob(db: Db, userId: string, jobId: string, p: JobPatch) returns (r: Result<JobPost>)
    modifies db`jobs
    ensures !old(OwnsJob(db, jobId, userId)) ==> r == Fail(JobNotFound) && db.jobs == old(db.jobs)
    ensures old(OwnsJob(db, jobId, userId)) ==>
      && r == Ok(ApplyJobPatch(old(db.jobs)[jobId], p))
      && db.jobs == old(db.jobs)[jobId := r.value]
  {
    if !OwnsJob(db, jobId, userId) {
      return Fail(JobNotFound);
    }
    var j := ApplyJobPatch(db.jobs[jobId], p);
    db.jobs := db.jobs[jobId := j];
    return Ok(j);
  }

  /** `allowedStatuses.includes(statusCode)`; an argument left out is not
      included. */
  predicate AllowedCode(statusCode: Option<string>) {
    statusCode.Some? && statusCode.value in StatusMachine.JobStatusCodes
  }

  /** The status change shared by the owner's and the admin's endpoint:
      the code is validated, then the job is looked up (`found` says whether
      that lookup found it), then the JobStatus row; only `jobStatusId`
      changes. */
  method SetJobStatus(db: Db, jobId: string, statusCode: Option<string>, found: bool) returns (r: Result<JobPost>)
    requires found ==> jobId in db.jobs
    modifies db`jobs
    ensures !AllowedCode(statusCode) ==> r == Fail(StatusMachine.JobStatusError)
    ensures AllowedCode(statusCode) && !found ==> r == Fail(JobNotFound)
    ensures (AllowedCode(statusCode) && found && statusCode.value !in db.jobStatuses.Values) ==>
      r == Fail(StatusNotConfigured)
    ensures r.Fail? ==> db.jobs == old(db.jobs)
    ensures r.Ok? <==> AllowedCode(statusCode) && found && statusCode.value in db.jobStatuses.Values
    ensures r.Ok? ==>
      && r.value == old(db.jobs)[jobId].(jobStatusId := r.value.jobStatusId)
      && StatusCode(db.jobStatuses, r.value) == statusCode
      && db.jobs == old(db.jobs)[jobId := r.value]
  {
    if !AllowedCode(statusCode) {
      return Fail(StatusMachine.JobStatusError);
    }
    if !found {
      return Fail(JobNotFound);
    }
    var sid := StatusIdFor(db.jobStatuses, statusCode.value);
    if sid.None? {
      return Fail(StatusNotConfigured);
    }
    var j := db.jobs[jobId].(jobStatusId := sid.value);
    db.jobs := db.jobs[jobId := j];
    return Ok(j);
  }

  /** changeJobStatus: the code is validated before the owner-scoped
      lookup. `None` is a call that does not pass `statusCode`. */
  method ChangeJobStatus(db: Db, userId: string, jobId: string, statusCode: Option<string>) returns (r: Result<JobPost>)
    modifies db`jobs
    ensures !AllowedCode(statusCode) ==> r == Fail(StatusMachine.JobStatusError)
    ensures AllowedCode(statusCode) && !old(OwnsJob(db, jobId, userId)) ==> r == Fail(JobNotFound)
    ensures (AllowedCode(statusCode) && old(OwnsJob(db, jobId, userId)) && statusCode.value !in db.jobStatuses.Values) ==>
      r == Fail(StatusNotConfigured)
    ensures r.Fail? ==> db.jobs == old(db.jobs)
    ensures r.Ok? <==>
      AllowedCode(statusCode) && old(OwnsJob(db, jobId, userId)) && statusCode.value in db.jobStatuses.Values
    ensures r.Ok? ==>
      && r.value == old(db.jobs)[jobId].(jobStatusId := r.value.jobStatusId)
      && StatusCode(db.jobStatuses, r.value) == statusCode
      && db.jobs == old(db.jobs)[jobId := r.value]
  {
    r := SetJobStatus(db, jobId, statusCode, OwnsJob(db, jobId, userId));
  }

  /** The JobStatus table's `code` is unique: no two rows carry the same
      code. */
  ghost predicate UniqueCodes(statuses: map<string, string>) {
    forall a, b :: a in statuses && b in statuses && statuses[a] == statuses[b] ==> a == b
  }

  /** Setting a job's status twice with the same code: the second call
      answers as the first did, and lands on the same code. When codes are
      unique, as `findUnique({ where: { code } })` presumes, the second call
      leaves the jobs exactly as the first left them. */
  method JobStatusSettles(db: Db, jobId: string, statusCode: Option<string>, found: bool)
    returns (first: Result<JobPost>, second: Result<JobPost>)
    requires found ==> jobId in db.jobs
    modifies db`jobs
    ensures first.Fail? ==> second == first && db.jobs == old(db.jobs)
    ensures first.Ok? ==>
      && second.Ok? && StatusCode(db.jobStatuses, second.value) == StatusCode(db.jobStatuses, first.value)
      && second.value == first.value.(jobStatusId := second.value.jobStatusId)
      && db.jobs == old(db.jobs)[jobId := second.value]
    ensures first.Ok? && UniqueCodes(db.jobStatuses) ==>
      second == first && db.jobs == old(db.jobs)[jobId := first.value]
  {
    first := SetJobStatus(db, jobId, statusCode, found);
    second := SetJobStatus(db, jobId, statusCode, found);
    if first.Ok? && UniqueCodes(db.jobStatuses) {
      assert first.value.jobStatusId == second.value.jobStatusId;
    }
  }
}
