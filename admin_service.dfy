/** The admin service: user listing, and the admin's status changes for
    users, businesses, jobs, articles and events. None of them is gated by
    the current status, and none is scoped to an owner. */
module AdminService {

  import opened Wrappers
  import opened Store
  import Query
  import Pagination
  import StatusMachine
  import JobService
  import ArticleService

  const UserNotFound: Error := NotFound("USER_NOT_FOUND")
  const EventNotFound: Error := NotFound("EVENT_NOT_FOUND")

  /** A query-string or body value as the list endpoint receives it. */
  datatype QueryValue = Missing | Text(s: string) | Flag(b: bool)

  /** The `isActive` filter: `'true'`/`true` and `'false'`/`false` select;
      anything else adds no filter. */
  function ParseIsActive(v: QueryValue): (r: Option<bool>)
    ensures r == Some(true) <==> v == Text("true") || v == Flag(true)
    ensures r == Some(false) <==> v == Text("false") || v == Flag(false)
  {
    match v
    case Missing => None
    case Text(s) => if s == "true" then Some(true) else if s == "false" then Some(false) else None
    case Flag(b) => Some(b)
  }

  /** The `where` of listUsers. */
  predicate UserListed(isActive: QueryValue, q: Option<string>, matches: (string, string) -> bool, u: User) {
    && (ParseIsActive(isActive).Some? ==> u.isActive == ParseIsActive(isActive).value)
    && (Given(q) ==> matches(u.name, q.value) || matches(u.email, q.value) || matches(u.username, q.value))
  }

  function UserFilter(isActive: QueryValue, q: Option<string>, matches: (string, string) -> bool): User -> bool {
    u => UserListed(isActive, q, matches, u)
  }

  function UserCreatedAt(u: User): int {
    u.createdAt
  }

  /** listUsers: newest first, one page, with the shared meta. */
  method ListUsers(db: Db, page: int, limit: Option<int>, q: Option<string>, isActive: QueryValue,
                   matches: (string, string) -> bool)
    returns (p: Pagination.Page<User>, ghost rows: seq<User>)
    requires page >= 1
    requires limit.Some? ==> limit.value >= 0
    ensures Query.Selection(db.users, UserFilter(isActive, q, matches), UserCreatedAt, rows)
    ensures p == Pagination.Paginate(rows, page, limit)
    ensures forall u :: u in p.items ==> u in db.users.Values && UserListed(isActive, q, matches, u)
    ensures Query.SortedDesc(p.items, UserCreatedAt)
    ensures p.meta == Pagination.MetaOf(page, limit, |Query.Matching(db.users, UserFilter(isActive, q, matches))|)
  {
    p, rows := Pagination.ListPage(db.users, UserFilter(isActive, q, matches), UserCreatedAt, page, limit);
  }

  /** An unrecognised `isActive` value filters nothing: the listing counts
      every user the text query matches. */
  lemma NoIsActiveFilter(isActive: QueryValue, q: Option<string>, matches: (string, string) -> bool, u: User)
    requires isActive !in {Text("true"), Text("false"), Flag(true), Flag(false)}
    ensures UserListed(isActive, q, matches, u) <==>
      (Given(q) ==> matches(u.name, q.value) || matches(u.email, q.value) || matches(u.username, q.value))
  {
    assert ParseIsActive(isActive).None?;
  }

  /** updateUserStatusAdmin: 404 for an unknown user; otherwise only
      `isActive` changes (an absent value leaves the row as it was). */
  method UpdateUserStatusAdmin(db: Db, userId: string, isActive: Option<bool>) returns (r: Result<User>)
    modifies db`users
    ensures userId !in old(db.users) ==> r == Fail(UserNotFound) && db.users == old(db.users)
    ensures userId in old(db.users) ==>
      && r == Ok(old(db.users)[userId].(isActive := Coalesce(isActive, old(db.users)[userId].isActive)))
      && db.users == old(db.users)[userId := r.value]
  {
    if userId !in db.users {
      return Fail(UserNotFound);
    }
    var u := db.users[userId];
    u := u.(isActive := Coalesce(isActive, u.isActive));
    db.users := db.users[userId := u];
    return Ok(u);
  }

  /** updateBusinessStatusAdmin: the status is validated before the lookup;
      only the status changes. */
  method UpdateBusinessStatusAdmin(db: Db, businessId: string, status: string) returns (r: Result<Business>)
    modifies db`businesses
    ensures status !in StatusMachine.BusinessStatuses ==>
      r == Fail(StatusMachine.BusinessStatusError) && db.businesses == old(db.businesses)
    ensures status in StatusMachine.BusinessStatuses && businessId !in old(db.businesses) ==>
      r == Fail(JobService.BusinessNotFound) && db.businesses == old(db.businesses)
    ensures status in StatusMachine.BusinessStatuses && businessId in old(db.businesses) ==>
      && r == Ok(old(db.businesses)[businessId].(status := status))
      && db.businesses == old(db.businesses)[businessId := r.value]
  {
    if status !in StatusMachine.BusinessStatuses {
      return Fail(StatusMachine.BusinessStatusError);
    }
    if businessId !in db.businesses {
      return Fail(JobService.BusinessNotFound);
    }
    var b := db.businesses[businessId].(status := status);
    db.businesses := db.businesses[businessId := b];
    return Ok(b);
  }

  /** adminChangeJobStatus: the code is validated, the job looked up by id
      alone, then the status row; only `jobStatusId` changes. */
  method AdminChangeJobStatus(db: Db, jobId: string, statusCode: Option<string>) returns (r: Result<JobPost>)
    modifies db`jobs
    ensures !JobService.AllowedCode(statusCode) ==> r == Fail(StatusMachine.JobStatusError)
    ensures JobService.AllowedCode(statusCode) && jobId !in old(db.jobs) ==> r == Fail(JobService.JobNotFound)
    ensures (JobService.AllowedCode(statusCode) && jobId in old(db.jobs) && statusCode.value !in db.jobStatuses.Values) ==>
      r == Fail(JobService.StatusNotConfigured)
    ensures r.Fail? ==> db.jobs == old(db.jobs)
    ensures r.Ok? <==> JobService.AllowedCode(statusCode) && jobId in old(db.jobs) && statusCode.value in db.jobStatuses.Values
    ensures r.Ok? ==>
      && r.value == old(db.jobs)[jobId].(jobStatusId := r.value.jobStatusId)
      && JobService.StatusCode(db.jobStatuses, r.value) == statusCode
      && db.jobs == old(db.jobs)[jobId := r.value]
  {
    r := JobService.SetJobStatus(db, jobId, statusCode, jobId in db.jobs);
  }

  /** adminChangeArticleStatus: the same steps as the article service's
      status change (validate, look up by id, stamp). */
  method AdminChangeArticleStatus(db: Db, articleId: string, status: string, now: int) returns (r: Result<Article>)
    modifies db`articles
    ensures status !in StatusMachine.ArticleStatuses ==>
      r == Fail(StatusMachine.ArticleStatusError) && db.articles == old(db.articles)
    ensures status in StatusMachine.ArticleStatuses && articleId !in old(db.articles) ==>
      r == Fail(ArticleService.ArticleNotFound) && db.articles == old(db.articles)
    ensures status in StatusMachine.ArticleStatuses && articleId in old(db.articles) ==>
      && r == Ok(StatusMachine.ArticleWithStatus(old(db.articles)[articleId], status, now))
      && db.articles == old(db.articles)[articleId := r.value]
  {
    r := ArticleService.ChangeArticleStatus(db, articleId, status, now);
  }

  /** adminChangeEventStatus: validated first, looked up by id with no
      creator scoping, then stamped. */
  method AdminChangeEventStatus(db: Db, eventId: string, status: string, now: int) returns (r: Result<Event>)
    modifies db`events
    ensures status !in StatusMachine.EventStatuses ==>
      r == Fail(StatusMachine.EventStatusError) && db.events == old(db.events)
    ensures status in StatusMachine.EventStatuses && eventId !in old(db.events) ==>
      r == Fail(EventNotFound) && db.events == old(db.events)
    ensures status in StatusMachine.EventStatuses && eventId in old(db.events) ==>
      && r == Ok(StatusMachine.EventWithStatus(old(db.events)[eventId], status, now))
      && db.events == old(db.events)[eventId := r.value]
  {
    if status !in StatusMachine.EventStatuses {
      return Fail(StatusMachine.EventStatusError);
    }
    if eventId !in db.events {
      return Fail(EventNotFound);
    }
    var e := StatusMachine.EventWithStatus(db.events[eventId], status, now);
    db.events := db.events[eventId := e];
    return Ok(e);
  }

  /** An admin's business status change repeated with the same status
      answers the same and changes nothing more. */
  method BusinessStatusSettles(db: Db, businessId: string, status: string)
    returns (first: Result<Business>, second: Result<Business>)
    modifies db`businesses
    ensures second == first
    ensures db.businesses == if first.Ok? then old(db.businesses)[businessId := first.value] else old(db.businesses)
  {
    first := UpdateBusinessStatusAdmin(db, businessId, status);
    second := UpdateBusinessStatusAdmin(db, businessId, status);
  }

  /** An admin's user status change repeated with the same value answers
      the same and changes nothing more; an absent value changes nothing. */
  method UserStatusSettles(db: Db, userId: string, isActive: Option<bool>)
    returns (first: Result<User>, second: Result<User>)
    modifies db`users
    ensures second == first
    ensures db.users == if first.Ok? then old(db.users)[userId := first.value] else old(db.users)
    ensures isActive.None? ==> db.users == old(db.users)
  {
    first := UpdateUserStatusAdmin(db, userId, isActive);
    second := UpdateUserStatusAdmin(db, userId, isActive);
  }
}
