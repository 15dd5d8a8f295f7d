# Marketplace backend services, modelled in Dafny

The system is a REST backend for a small marketplace. Users register and log
in with JWT access and refresh tokens. Business owners post jobs once an
admin has approved their business. Candidates apply to jobs on the platform
or through an external link. Contributors publish articles. Event creators
publish events, some of them paid, which users register for; a paid
registration carries a payment whose proof an admin verifies or rejects.
Admins also move the status of users, businesses, jobs, articles and events.
The services sit over a relational store; the controllers check required
fields and wrap each answer in a JSON envelope.

The model keeps that structure:

- `Store.Db` is the store: a class with one map per table, keyed by row id.
  Contributor profiles are keyed by their user, which is that table's unique
  key. The JobStatus reference table maps a row id to its status code.
- Each service function is a method over a `Db`, or a function that reads
  the `Db` when it writes nothing. A method's `modifies` clause names
  exactly the tables it writes. It returns a `Result`: either a value, or an
  `Err(code, errorCode, details)` as the services throw it, or `Crash` for any
  other exception (a duplicate primary key, a missing relation), which reaches
  the global error handler.
- Each row a method builds or rewrites is given by a pure function
  (`NewEvent`, `ApplyEventPatch`, `EventWithStatus`, `Decided`, ...). The
  method's `ensures` ties the new table to that function, and the lemmas state
  what the function guarantees: pricing consistency, frames, idempotence,
  `publishedAt` set once, and the quota and payment–registration invariants.
- `Query` models a `findMany`: a filter, newest first, counted.
  `Pagination` models the shared `take`/`skip`/`totalPages` arithmetic.
  `Lookup` models `findUnique` by id, `findFirst` by slug, and the id-or-slug
  dispatch of the detail endpoints.
- Time, generated ids, the event admin fee, password hashing and JWT
  signing/verification are parameters. `AuthService.Crypto` bundles the
  foreign calls. The case-insensitive `contains` of list filters is a
  parameter `matches`.

## Model

| member | source | states |
|---|---|---|
| Slug.SlugBaseWellFormed | src/services/eventService.js:4-12 | every slug base uses only `a-z`, `0-9` and `-`, never two dashes in a row, and neither starts nor ends with a dash |
| Slug.SlugOfShape | src/services/eventService.js:4-12 | a slug is the base, one dash and the decimal timestamp, and the part after that dash holds no dash |
| Slug.SlugBaseKeepsAlnum | src/services/articleService.js:6-14 | the base keeps exactly the letters and digits of the lower-cased title, in order; only separators are rewritten |
| Slug.SlugBaseIdempotent | src/services/jobService.js:131-160 | the slug base of a slug base is itself |
| Slug.CollapseShape | src/services/eventService.js:8-10 | collapsing runs of non-slug characters yields slug characters with no double dash, and ends with a dash exactly when the input ends with a non-slug character |
| Slug.CollapseKeepsAlnum | src/services/eventService.js:8-10 | collapsing keeps the letters and digits in order |
| Slug.CollapseFixes | src/services/eventService.js:8-10 | a string already in slug shape is left unchanged by the collapse |
| Pagination.Take | src/services/adminService.js:8 | `take` is the limit when non-zero, else 10, and always at least 1 |
| Pagination.CeilDiv | src/services/adminService.js:43 | the page count is the least count whose pages hold every item |
| Pagination.MetaOf | src/services/eventService.js:54-63 | `meta.limit` is `take`, `meta.page` the page asked for, and `totalPages * limit` covers `totalItems` with no spare page |
| Pagination.Paginate | src/services/eventService.js:16-17 | the page holds at most `take` items, namely the matches from `(page-1)*take` on, and its meta counts every match |
| Pagination.PageHolds | src/services/adminService.js:8-9 | the match at position `k` is on page `k / take + 1`, at offset `k % take`, and that page is within `totalPages`, so walking the pages visits every match |
| Pagination.PageEmptyIffPastEnd | src/services/adminService.js:43-53 | a page is empty exactly when its number exceeds `totalPages` |
| Pagination.PageOfSorted | src/services/articleService.js:32-45 | a page cut from a newest-first list is newest first and holds only list entries |
| Pagination.Window | src/services/eventService.js:16-17 | `skip`/`take` keep the rows from position `skip` on, at most `take` of them, in order |
| Pagination.ListPage | src/services/jobService.js:5-57 | the page is exactly the `(page-1)*take`, `take` window of an ordering of the matching rows newest first (`Query.Selection`), and its meta counts every matching row |
| Query.Select | src/services/businessService.js:4-11 | a `findMany` returns exactly the matching rows, as many as match, newest first |
| Query.Keys | src/services/businessService.js:4-11 | the table's ids, each once |
| Query.SortDesc | src/services/businessService.js:8-10 | a descending sort is ordered and a permutation of its input |
| Query.InsertSorted | src/services/businessService.js:8-10 | inserting into a descending list keeps it descending |
| Query.InsertCount | src/services/businessService.js:8-10 | inserting adds exactly the new row: the result's multiset is the input's plus that row |
| Query.Filter | src/services/businessService.js:5-7 | the `where` keeps only rows it accepts, and every accepted row |
| Query.FilterCount | src/services/businessService.js:5-7 | each accepted row is kept exactly as often as it occurs, and no other row is kept |
| Query.DistinctCard | src/services/eventService.js:280-287 | a list of distinct ids has as many ids as its set, so counting the list counts the rows |
| Query.HitIsMatching | src/services/eventService.js:280-287 | the ids a filter keeps are exactly the ids of matching rows |
| Lookup.ById | src/services/jobService.js:165-182 | `findUnique` by id finds the row exactly when the id is a key |
| Lookup.BySlug | src/services/jobService.js:184-201 | `findFirst` by slug finds a row with that slug exactly when one exists |
| Lookup.ByIdOrSlug | src/services/eventService.js:140-172 | an id-like key (a dash and more than 20 characters) is looked up by id only; any other key by slug first, answering one of the rows carrying the slug, then by id when no slug matches |
| StatusMachine.Stamp | src/services/eventService.js:249-253 | an existing `publishedAt` is kept; an unset one is set exactly when the new status is PUBLISHED |
| StatusMachine.EventWithStatusFrame | src/services/eventService.js:249-258 | an event status change changes only status and `publishedAt` |
| StatusMachine.ArticleWithStatusFrame | src/services/articleService.js:184-225 | an article status change changes only status and `publishedAt` |
| StatusMachine.EventWithStatusIdempotent | src/services/adminService.js:427-466 | repeating an event status change, at any later time, gives the same record |
| StatusMachine.ArticleWithStatusIdempotent | src/services/adminService.js:336-375 | repeating an article status change, at any later time, gives the same record |
| StatusMachine.PublishedAtSetOnce | src/services/adminService.js:363-367 | over any sequence of status changes, `publishedAt` is never overwritten once set; an unset one becomes the time of the first change to PUBLISHED |
| EventService.NewEvent | src/services/eventService.js:102-137 | the new event is paid iff a positive price is sent; a paid event carries the price and the admin fee, a free one no price and no fee; quota 0 or absent is null; it is PUBLISHED with `publishedAt` set; the type defaults to MAIN_BARENG |
| EventService.CreateEvent | src/services/eventService.js:102-137 | exactly the new event is inserted; a price sent as `null` or `0` (an `isPaid` the store refuses) or a duplicate id is a store failure with no write |
| EventService.PublicOnly | src/services/eventService.js:158-170 | an event is shown publicly iff it is found and PUBLISHED, else 404 EVENT_NOT_FOUND |
| EventService.GetEventPublic | src/services/eventService.js:140-172 | the answer is the PUBLISHED check applied to the id-or-slug lookup: by id for an id-like key or a slug miss, otherwise one of the rows carrying the slug, so a slug held only by PUBLISHED events always succeeds; every failure is 404 EVENT_NOT_FOUND |
| EventService.EventPatchFrame | src/services/eventService.js:190-208 | an edit leaves id, creator, slug, type, status and `publishedAt` alone and keeps pricing consistent |
| EventService.EmptyPatchKeeps | src/services/eventService.js:190-208 | an edit that sends nothing changes nothing |
| EventService.EventPatchIdempotent | src/services/eventService.js:190-208 | the same edit twice is the edit once |
| EventService.UpdateEvent | src/services/eventService.js:175-216 | an event the caller did not create gives 404 EVENT_NOT_FOUND and no write; otherwise only that event is replaced by the merge |
| EventService.ChangeEventStatus | src/services/eventService.js:219-261 | a status outside PUBLISHED/CANCELLED/ARCHIVED/DRAFT gives 422 before the lookup; then a non-owned event gives 404; otherwise only that event's status and `publishedAt` change |
| EventService.EnsureEventCapacity | src/services/eventService.js:264-303 | the check passes iff the event exists and either has no positive quota or fewer PENDING_PAYMENT/CONFIRMED registrations than its quota; otherwise 404 or 400 "Event quota is full" |
| EventService.TotalAmountSpec | src/services/eventService.js:322-327 | `totalAmount` is price plus fee for a paid event and 0 for a free one |
| EventService.NewRegistration | src/services/eventService.js:329-336 | the registration is PENDING_PAYMENT iff the event is paid, else CONFIRMED, and it counts as active |
| EventService.CreateEventRegistration | src/services/eventService.js:306-342 | the capacity check comes before the PUBLISHED check (400 not open); success iff both pass and the id is fresh, adding exactly one registration |
| EventService.RegistrationKeepsQuota | src/services/eventService.js:276-300 | a registration admitted by the capacity check keeps every event's active registrations within its positive quota |
| EventStats.Without | src/services/eventService.js:391-399 | removing one status's registrations removes exactly as many rows as that status counts and leaves other counts alone |
| EventStats.ByStatusSpec | src/services/eventService.js:401-404 | the `byStatus` object maps each grouped status to its count and has no other key |
| EventStats.TotalCountsAll | src/services/eventService.js:406 | the total of a grouping's counts is the number of registrations |
| EventStats.ByStatusCounts | src/services/eventService.js:391-404 | `byStatus` has a key exactly for each status present, holding that status's count |
| EventStats.CountPositive | src/services/eventService.js:391-399 | a status with a positive count occurs among the registrations |
| EventStats.GetEventRegistrationStats | src/services/eventService.js:376-413 | an event the caller did not create gives 404 EVENT_NOT_FOUND; otherwise the stats name that event |
| EventStats.StatsSummarise | src/services/eventService.js:376-413 | the stats' total is the event's registration count and each `byStatus` entry counts its status |
| PaymentService.NewPayment | src/services/paymentService.js:3-22 | the payment is a PENDING EVENT_REGISTRATION payment of the registration's total, with no proof and no verifier, linked to the registration and the event |
| PaymentService.CreatePaymentForEventRegistration | src/services/paymentService.js:3-22 | a free event gets no payment and nothing is written; a paid one gets exactly the new payment |
| PaymentService.WithProofFrame | src/services/paymentService.js:54-60 | attaching proof changes only `referenceCode` and `screenshotUrl`, each kept when the new one is empty |
| PaymentService.AttachPaymentProof | src/services/paymentService.js:25-63 | 404 for an unknown payment, then 403 for another user's, then 400 for a VERIFIED one; PENDING and REJECTED accept proof; only that payment changes |
| PaymentService.VerifyEventPayment | src/services/paymentService.js:66-130 | a decision outside VERIFIED/REJECTED gives 422 before the lookup, then 404, then 400 for an unlinked payment; on success the payment records the decision, admin and time, and its registration becomes CONFIRMED or REJECTED; no other row changes |
| PaymentService.DecisionKeepsCoupling | src/services/paymentService.js:100-127 | a decision keeps every linked payment's registration at the status its payment implies |
| PaymentService.ProofKeepsCoupling | src/services/paymentService.js:54-60 | attaching proof keeps the coupling |
| PaymentService.PairKeepsCoupling | src/controllers/eventController.js:197-213 | a new PENDING_PAYMENT registration plus its new PENDING payment keep the coupling |
| PaymentService.ReverifyCanOverfill | src/services/paymentService.js:100-127 | re-verifying a REJECTED payment, which the code allows, reactivates a registration and can push an event past a quota of 1 |
| PaymentService.ListEventPaymentsForCreator | src/services/paymentService.js:173-203 | 404 EVENT_NOT_FOUND unless the caller created the event; otherwise exactly that event's EVENT_REGISTRATION payments, one entry per matching row, newest first |
| Response.SuccessResponse | src/utils/response.js:3-11 | a success envelope defaults to code 200, message "Success", null data and meta; the HTTP status equals its code |
| Response.FinalMessage | src/utils/response.js:13-14 | the message is the one given, else the table's entry for the errorCode, else "Internal server error" |
| Response.FinalMessageNonEmpty | src/constants/errorMessages.js:3-31 | every error envelope carries a non-empty message |
| Response.ErrorResponse | src/utils/response.js:13-25 | an error envelope defaults to code 500 and INTERNAL_SERVER_ERROR with null details; the HTTP status equals its code |
| Response.Render | src/controllers/eventController.js:215-224 | an error with a code and an errorCode is rendered with them; anything else becomes a 500 INTERNAL_SERVER_ERROR |
| Response.RenderSpec | src/controllers/paymentController.js:74-82 | a domain error keeps its code, errorCode and (when forwarded) details; a crash is a 500 |
| Validation.MissingSpec | src/controllers/eventController.js:87-100 | the missing-field report is empty iff every field is present, and lists exactly the missing ones |
| Validation.MissingAppend | src/controllers/jobController.js:58-71 | checks made one after another append to one report |
| Validation.MissingTwo | src/services/jobApplicationService.js:36-39 | two checks report what each reports, in order |
| Validation.MissingFive | src/controllers/eventController.js:87-100 | five checks report what each reports, in order |
| EventController.MissingEventFields | src/controllers/eventController.js:87-100 | the `push` loop builds exactly the report of the five event checks |
| EventController.EventFieldsReported | src/controllers/eventController.js:87-100 | the report is empty iff title, description, location, start and end are all present, and names each one missing |
| EventController.CreateEventHandler | src/controllers/eventController.js:76-122 | missing fields give 422 with the report and no write; otherwise 201 with the created event, or 500 for a refused price or a duplicate id |
| EventController.CreateEventRegistrationHandler | src/controllers/eventController.js:188-225 | a capacity failure or a non-PUBLISHED event is rendered with no write; otherwise the registration is added and, iff the event is paid, exactly the new payment too, answered 201 with `payment: null` for a free event; the quota and payment coupling invariants are kept |
| EventController.ChangeEventStatusHandler | src/controllers/eventController.js:151-185 | an empty status gives 422 "Status is required" before the service; otherwise the service's answer: 422 for an unknown status, 404 for an event the caller did not create, else 200 with the changed event |
| JobService.StatusIdFor | src/services/jobService.js:120-122 | the status-row lookup finds a row with the code exactly when one exists |
| JobService.ListJobs | src/services/jobService.js:5-57 | the page is the `skip`/`take` window of an ordering of the ACTIVE jobs matching the filters (employment type exactly), newest first, with the shared meta |
| JobService.NewJob | src/services/jobService.js:131-160 | the new job has the ACTIVE status row, `publishedAt` now, a null `expiresAt` when none is sent, and the slug of its title |
| JobService.CreateJob | src/services/jobService.js:98-163 | a business the caller does not own gives 404, an unapproved one 403, a missing ACTIVE row 500, a duplicate id a store failure; otherwise exactly the new ACTIVE job is inserted |
| JobService.GetJobById | src/services/jobService.js:165-182 | the job by id, or 404 JOB_NOT_FOUND |
| JobService.GetJobBySlug | src/services/jobService.js:184-201 | a job with that slug, or 404 JOB_NOT_FOUND |
| JobService.JobPatchFrame | src/services/jobService.js:203-248 | an edit leaves id, business, status, slug and dates alone, keeps absent fields, and repeated is the same edit; sending nothing changes nothing |
| JobService.UpdateJob | src/services/jobService.js:203-248 | a job outside the caller's businesses gives 404 and no write; otherwise only that job is replaced by the merge |
| JobService.SetJobStatus | src/services/adminService.js:239-285 | a code outside ACTIVE/SUSPENDED/ARCHIVED gives 422 before the lookup, then 404, then 500 for a missing row; on success only `jobStatusId` changes and now names the code |
| JobService.ChangeJobStatus | src/services/jobService.js:250-301 | as SetJobStatus (422, then 404, then 500 for a missing status row; only `jobStatusId` changes), with the lookup scoped to the caller's businesses |
| JobService.JobStatusSettles | src/services/jobService.js:250-301 | a second status change with the same code answers as the first and lands on the same code; with unique codes it leaves the jobs exactly as the first left them |
| JobController.MissingJobFields | src/controllers/jobController.js:58-71 | the `push` loop builds exactly the report of the five job checks |
| JobController.JobFieldsReported | src/controllers/jobController.js:58-71 | the report is empty iff businessId, title, locationType, employmentType and description are all present |
| JobController.CreateJobHandler | src/controllers/jobController.js:48-94 | missing fields give 422 and no write; otherwise the service's answer: 404, 403 or 500 as the service decides, else 201 with the new ACTIVE job |
| JobController.GetJobDetail | src/controllers/jobController.js:96-126 | an id-like key is looked up by id only; otherwise by slug and, failing that, by id; a miss is 404 without details |
| JobController.ChangeJobStatusHandlerAsWritten | src/controllers/jobController.js:155-191 | as written the handler always answers 422 VALIDATION_ERROR and never changes a job |
| JobController.ChangeJobStatusHandler | src/controllers/jobController.js:155-191 | with the status forwarded as the code: an empty status is 422; then the service's 422 (code not allowed), 404 (not the caller's job) or 500 (no status row), each with no write; success is exactly an allowed code on the caller's job, answered 200 with the old job whose status reference alone changed |
| PaymentController.AttachPaymentProofHandler | src/controllers/paymentController.js:9-48 | with neither a reference nor a screenshot it gives 422 on `referenceCode`; otherwise 404, 403, 400 for a VERIFIED payment, else 200 with the proof attached and only that payment changed; the coupling is kept |
| PaymentController.VerifyEventPaymentHandler | src/controllers/paymentController.js:50-84 | an empty status gives 422 before the service; otherwise 422, 404 or 400 with no write, else the payment is stamped and its registration set to CONFIRMED or REJECTED, answered 200 (a dangling registration id is a 500 after the payment write); the coupling is kept |
| ContributorService.NewProfile | src/services/contributorService.js:15-22 | a new profile is ACTIVE, and an empty bio or social links are stored as null |
| ContributorService.ApplyContributor | src/services/contributorService.js:3-25 | a second application gives 409 CONFLICT and no write; otherwise exactly the new profile is stored for the user |
| ContributorService.GetMyContributorProfile | src/services/contributorService.js:27-40 | the caller's profile, or 404 CONTRIBUTOR_PROFILE_NOT_FOUND |
| ContributorService.EnsureActiveContributor | src/services/contributorService.js:42-62 | passes iff the profile exists and is ACTIVE; else 404, or 403 CONTRIBUTOR_NOT_ACTIVE |
| ContributorService.ApplyThenActive | src/services/contributorService.js:3-62 | after an application the user is an active contributor, profiles stay one per user, and no other user's guard changes |
| ArticleService.ListArticles | src/services/articleService.js:17-58 | the page is the `skip`/`take` window of an ordering of the PUBLISHED articles matching the query in title or content, newest `publishedAt` first, with the shared meta |
| ArticleService.NewArticle | src/services/articleService.js:100-113 | the article is PUBLISHED with `publishedAt` now; an empty excerpt or cover is null; the slug comes from the title |
| ArticleService.CreateArticle | src/services/articleService.js:95-116 | the active-contributor guard runs first and its failure is the answer; otherwise exactly the new article is inserted |
| ArticleService.PublicOnly | src/services/articleService.js:144-149 | an article is shown iff it is found and PUBLISHED, else 404 ARTICLE_NOT_FOUND |
| ArticleService.GetArticlePublic | src/services/articleService.js:119-152 | the answer is the PUBLISHED check applied to the id-or-slug lookup, so a slug held only by PUBLISHED articles always succeeds; every failure is 404 |
| ArticleService.ArticlePatchFrame | src/services/articleService.js:155-181 | an edit changes only title, excerpt, content and cover, keeps absent ones, leaves status and `publishedAt`, and repeated is the same edit |
| ArticleService.UpdateArticle | src/services/articleService.js:155-181 | an article the caller did not write gives 404 and no write; otherwise only that article is replaced by the merge |
| ArticleService.ChangeArticleStatus | src/services/articleService.js:184-225 | a status outside PUBLISHED/SUSPENDED/ARCHIVED gives 422 before the lookup by id, then 404; otherwise only status and `publishedAt` change |
| ArticleService.PublishedStaysDated | src/services/articleService.js:95-225 | creating, editing and moving articles keep every PUBLISHED article dated, so the listing's sort key is always present |
| AdminService.ParseIsActive | src/services/adminService.js:13-16 | `'true'`/`true` select active users, `'false'`/`false` inactive ones, anything else nothing |
| AdminService.NoIsActiveFilter | src/services/adminService.js:13-24 | an unrecognised `isActive` leaves only the text filter |
| AdminService.ListUsers | src/services/adminService.js:7-54 | the page is the `skip`/`take` window of an ordering of the users matching both filters, newest first, with the shared meta |
| AdminService.UpdateUserStatusAdmin | src/services/adminService.js:82-102 | 404 USER_NOT_FOUND for an unknown user; otherwise only `isActive` changes |
| AdminService.UpdateBusinessStatusAdmin | src/services/adminService.js:150-185 | a status outside PENDING/APPROVED/REJECTED gives 422 before the lookup, then 404 BUSINESS_NOT_FOUND; otherwise only the status changes |
| AdminService.AdminChangeJobStatus | src/services/adminService.js:239-285 | 422 for a bad code, 404 for an unknown job, 500 for a missing status row; otherwise only `jobStatusId` changes |
| AdminService.AdminChangeArticleStatus | src/services/adminService.js:336-375 | 422, then 404 by id; otherwise only status and `publishedAt` change, `publishedAt` set once |
| AdminService.AdminChangeEventStatus | src/services/adminService.js:427-466 | 422, then 404 by id with no creator scoping; otherwise only status and `publishedAt` change |
| AdminService.BusinessStatusSettles | src/services/adminService.js:150-185 | repeating a business status change answers the same and writes nothing more |
| AdminService.UserStatusSettles | src/services/adminService.js:82-102 | repeating a user status change answers the same and writes nothing more; an absent value writes nothing |
| JobApplicationService.ValidationByMethod | src/services/jobApplicationService.js:30-58 | PLATFORM fails iff the CV or portfolio is missing and lists the missing ones, CV first; EXTERNAL likewise for target and destination; other methods pass |
| JobApplicationService.NewApplication | src/services/jobApplicationService.js:60-73 | EXTERNAL gives CLICKED with the click time now; any other method SUBMITTED with no click time |
| JobApplicationService.AsWrittenRefusesCreatedJobs | src/services/jobApplicationService.js:13-18 | the guard as written refuses every job createJob makes, even an ACTIVE one |
| JobApplicationService.CreateJobApplication | src/services/jobApplicationService.js:5-77 | an unknown or non-ACTIVE job is 404 before validation, then 422 for a missing method or fields; otherwise exactly the new application is inserted |
| JobApplicationService.ListApplicationsForJob | src/services/jobApplicationService.js:79-109 | 404 unless the caller owns the job's business; otherwise exactly that job's applications, newest first |
| JobApplicationService.GetJobApplicationById | src/services/jobApplicationService.js:111-142 | 404 for an unknown application, then 403 unless the caller applied or owns the job's business |
| BusinessService.ListMyBusinesses | src/services/businessService.js:3-14 | exactly the caller's businesses, newest first |
| BusinessService.CreateBusiness | src/services/businessService.js:16-29 | exactly one PENDING business owned by the caller is added; existing rows are untouched |
| BusinessService.GetBusinessById | src/services/businessService.js:31-48 | the business iff the caller owns it, else 404 BUSINESS_NOT_FOUND |
| BusinessService.OthersLookMissing | src/services/businessService.js:31-48 | another owner's business answers exactly as a missing one |
| BusinessService.NewBusinessWaits | src/services/businessService.js:16-29 | a new business is readable by its owner and not yet APPROVED |
| AuthService.NewUser | src/services/authService.js:25-34 | the stored user holds the password's hash, not the password |
| AuthService.RegisterUser | src/services/authService.js:11-37 | 409 EMAIL_OR_USERNAME_TAKEN when any user shares the email or username; otherwise exactly the new user is inserted |
| AuthService.RegisterKeepsUnique | src/services/authService.js:11-37 | a registration that passes the check keeps emails and usernames unique |
| AuthService.RefreshRow | src/services/authService.js:79-86 | the stored row is an unrevoked REFRESH token of the user |
| AuthService.LoginUser | src/services/authService.js:39-101 | the identifier matches email or username; unknown user and wrong password give the same 401; success stores one REFRESH row and sets `lastLoginAt` |
| AuthService.LoginKeepsUnique | src/services/authService.js:88-93 | a login changes only the login time |
| AuthService.RefreshToken | src/services/authService.js:103-146 | 401 UNAUTHORIZED unless a live stored REFRESH row holds the token and it verifies; roles come from the store; nothing is written |
| AuthService.LoginTokenIsStored | src/services/authService.js:76-86 | the refresh token a login returns is found by refreshToken |
| AuthMiddleware.UpToSpace | src/middlewares/authMiddleware.js:14 | the text before the first space |
| AuthMiddleware.BearerTokenShape | src/middlewares/authMiddleware.js:5-14 | a token is read iff the header starts with "Bearer ", and it is the text after that up to the next space |
| AuthMiddleware.UserOf | src/middlewares/authMiddleware.js:18-22 | the request user carries the token's id and email, with roles defaulting to an empty list |
| AuthMiddleware.Authenticate | src/middlewares/authMiddleware.js:5-22 | a user is found iff there is a Bearer token the verifier accepts |
| AuthMiddleware.AuthRequired | src/middlewares/authMiddleware.js:4-30 | proceeds with the user set iff the header authenticates; otherwise 401 UNAUTHORIZED and the request is untouched |
| AuthMiddleware.AuthOptional | src/middlewares/authMiddleware.js:54-76 | always proceeds; the user is the authenticated one or null |
| AuthMiddleware.RequireRole | src/middlewares/authMiddleware.js:32-51 | proceeds iff there is a user whose roles are a list holding the role; otherwise 403 FORBIDDEN |
| AuthMiddleware.RoleGateAfterAuth | src/middlewares/authMiddleware.js:4-51 | behind authentication, the role gate passes exactly when the verified token lists the role |
| Wrappers.Or | src/services/contributorService.js:18-19 | `s \|\| fallback` keeps a non-empty string and otherwise falls back |
| Wrappers.Keep | src/services/articleService.js:173-176 | `o ?? current` keeps the stored value only when nothing is sent |

## Left out

- Database client internals. Tables are maps and queries are filters over them. The `Promise.all` count and `findMany` are two sequential reads of the same store.
- Concurrency: the race between the quota count and the insert, and the non-atomic registration/payment pair. The model is sequential.
- Password hashing, JWT signing and verification, and the clock are parameters. `verifyRefresh` and the access-token verifier hide the token's expiry check.
- `EVENT_ADMIN_FEE_IDR` is a parameter `fee`; its source is not part of this model.
- Times are integers. Date strings sent by clients (`startDatetime`, `expiresAt`) are stored as sent, with no parsing.
- The routes, app setup, the global error handler's logging and development message, and the seed script are left out. Of the controllers, only the event, job and payment controllers are modelled.
- List endpoints outside the modelled operations (`listEvents`, `listMyEvents`, `listMyJobs`, `listMyArticles`, `listEventRegistrations`, `listMyEventRegistrations`, `listMyPayments`, the admin `list*Admin`/`get*Admin` reads) are left out. They follow the same filter-and-paginate shape as `ListArticles`.
- `Number()` coercion of query strings (NaN, negative limits) is left out. Page and limit are integers with `page >= 1` and a non-negative limit.
- Slug.Lower: only ASCII letters are lower-cased; non-ASCII case mapping is left out.
- Query.Select: rows with equal sort keys may come in any order; the store's tie-break is not modelled.
- Lookup.BySlug: when several rows share a slug, which one `findFirst` picks is not modelled; the method returns one of them.
- ArticleService.ListArticles: a null `publishedAt` would sort as 0, whereas the store puts nulls first in a descending sort. A PUBLISHED article always has a `publishedAt` (`ArticleService.PublishedStaysDated`), so this does not arise.
- AuthService.NewUser: the schema default of `isActive` is not part of this model; a new user is taken to be active.
- AuthService.LoginUser: when one user's email equals another user's username, which of them `findFirst` picks is not modelled.
- EventService.NewEvent: a price left out leaves `isPaid` to the column's default, which is not part of this model; it is taken to be false. A price of `null` or `0` makes `price && price > 0` a non-Boolean that the store refuses, so `CreateEvent` answers `Crash` (500) for it.
- `errorMessages` prototype keys (such as `toString`) are not modelled as table entries.
- A job's legacy inline `status` column is kept on the row only to state the finding below; no modelled operation writes it.

Behaviour a reader might not expect, which the model follows as the code has it:
- verifyEventPayment does not refuse a payment that is already decided, so a payment can be verified again (see `PaymentService.ReverifyCanOverfill`).
- A full quota is a 400 VALIDATION_ERROR, not 422.
- loginUser does not consult `isActive`.

## Findings

| source | as written | input that shows it | evidently intended | confidence | as-written member | corrected member |
|---|---|---|---|---|---|---|
| src/services/jobApplicationService.js:13 | the guard reads the job's inline `status` column, which createJob never writes (it sets `jobStatusId`, src/services/jobService.js:142) | any job created by createJob with the ACTIVE status row: applying to it gives 404 JOB_NOT_FOUND | the job's status code, reached through `jobStatusId`, must be ACTIVE | not executed | JobApplicationService.AsWrittenRefusesCreatedJobs | JobApplicationService.CreateJobApplication |
| src/controllers/jobController.js:170-174 | the handler passes `status`, while changeJobStatus reads `statusCode` (src/services/jobService.js:250-253) | body `{ "status": "ACTIVE" }` on the caller's own job: the answer is 422 VALIDATION_ERROR and the job is unchanged | forward the status as `statusCode`, as the admin endpoint does | not executed | JobController.ChangeJobStatusHandlerAsWritten | JobController.ChangeJobStatusHandler |
