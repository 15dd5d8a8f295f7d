/** The rows the services read and write, and the store that holds them:
    one table per entity, each a map from the row's id to the row. Times are
    integers (milliseconds since the epoch); date strings a client sends are
    kept as given. */
module Store {

  import opened Wrappers

  datatype User = User(
    id: string,
    name: string,
    username: string,
    email: string,
    passwordHash: string,
    isActive: bool,
    lastLoginAt: Option<int>,
    /** names of the roles joined through the user-role table */
    roles: seq<string>,
    createdAt: int)

  datatype Business = Business(
    id: string,
    ownerId: string,
    name: string,
    logoUrl: Option<string>,
    websiteUrl: Option<string>,
    description: Option<string>,
    status: string,
    createdAt: int)

  datatype JobPost = JobPost(
    id: string,
    businessId: string,
    /** reference into the JobStatus table, whose `code` is the status */
    jobStatusId: string,
    title: string,
    slug: string,
    locationType: Option<string>,
    locationText: Option<string>,
    employmentType: Option<string>,
    salaryMin: Option<int>,
    salaryMax: Option<int>,
    currency: Option<string>,
    description: Option<string>,
    requirements: Option<string>,
    applicationOptionPlatform: Option<bool>,
    applicationOptionExternal: Option<bool>,
    externalApplyUrl: Option<string>,
    externalApplyEmail: Option<string>,
    publishedAt: Option<int>,
    expiresAt: Option<string>,
    createdAt: int,
    /** the inline `status` column of the earlier schema; no operation of
        this code base writes it */
    status: Option<string>)

  datatype JobApplication = JobApplication(
    id: string,
    jobPostId: string,
    /** `None` for a guest application */
    userId: Option<string>,
    applicationMethod: string,
    cvUrl: Option<string>,
    resumeUrl: Option<string>,
    portfolioUrl: Option<string>,
    coverLetter: Option<string>,
    externalTarget: Option<string>,
    externalDestination: Option<string>,
    externalClickedAt: Option<int>,
    status: string,
    createdAt: int)

  datatype ContributorProfile = ContributorProfile(
    id: string,
    userId: string,
    bio: Option<string>,
    socialLinks: Option<string>,
    status: string)

  datatype Article = Article(
    id: string,
    authorId: string,
    title: string,
    slug: string,
    excerpt: Option<string>,
    content: Option<string>,
    coverImageUrl: Option<string>,
    status: string,
    publishedAt: Option<int>,
    createdAt: int)

  datatype Event = Event(
    id: string,
    creatorId: string,
    title: string,
    slug: string,
    eventType: string,
    description: Option<string>,
    location: Option<string>,
    startDatetime: Option<string>,
    endDatetime: Option<string>,
    isPaid: bool,
    pricePerPerson: Option<int>,
    adminFee: int,
    /** `None` means no limit */
    quota: Option<int>,
    status: string,
    publishedAt: Option<int>,
    createdAt: int)

  datatype Registration = Registration(
    id: string,
    eventId: string,
    userId: string,
    status: string,
    totalAmount: int,
    createdAt: int)

  datatype Payment = Payment(
    id: string,
    userId: string,
    paymentType: string,
    amount: int,
    referenceCode: Option<string>,
    screenshotUrl: Option<string>,
    status: string,
    verifiedById: Option<string>,
    verifiedAt: Option<int>,
    eventRegistrationId: Option<string>,
    eventId: Option<string>,
    createdAt: int)

  datatype AuthToken = AuthToken(
    id: string,
    userId: string,
    token: string,
    tokenType: string,
    expiresAt: int,
    isRevoked: bool)

  /** The relational store. Contributor profiles are keyed by their user
      (the table's unique `userId`); the JobStatus reference table maps a
      status row's id to its code. */
  class Db {
    var users: map<string, User>
    var businesses: map<string, Business>
    var jobStatuses: map<string, string>
    var jobs: map<string, JobPost>
    var applications: map<string, JobApplication>
    var contributors: map<string, ContributorProfile>
    var articles: map<string, Article>
    var events: map<string, Event>
    var registrations: map<string, Registration>
    var payments: map<string, Payment>
    var authTokens: map<string, AuthToken>

    /** An empty store whose JobStatus table holds the given rows (the seed). */
    constructor (statuses: map<string, string>)
      ensures jobStatuses == statuses
      ensures users == map[] && businesses == map[] && jobs == map[]
      ensures applications == map[] && contributors == map[] && articles == map[]
      ensures events == map[] && registrations == map[] && payments == map[]
      ensures authTokens == map[]
    {
      users, businesses, jobStatuses, jobs := map[], map[], statuses, map[];
      applications, contributors, articles := map[], map[], map[];
      events, registrations, payments, authTokens := map[], map[], map[], map[];
    }
  }
}
