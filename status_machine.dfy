/** The per-entity status sets and the one transition side effect they
    share: `publishedAt` is written on entering PUBLISHED while it is unset,
    and never overwritten. No transition is gated by the current status. */
module StatusMachine {

  import opened Wrappers
  import opened Store

  const BusinessStatuses: seq<string> := ["PENDING", "APPROVED", "REJECTED"]
  const JobStatusCodes: seq<string> := ["ACTIVE", "SUSPENDED", "ARCHIVED"]
  const ArticleStatuses: seq<string> := ["PUBLISHED", "SUSPENDED", "ARCHIVED"]
  const EventStatuses: seq<string> := ["PUBLISHED", "CANCELLED", "ARCHIVED", "DRAFT"]
  const PaymentDecisions: seq<string> := ["VERIFIED", "REJECTED"]

  /** The 422 raised for a status outside the allowed list; the message
      spells the list out. */
  function BadStatus(message: string): Error {
    Invalid(422, "status", message)
  }

  const BusinessStatusError: Error := BadStatus("Status must be one of PENDING, APPROVED, REJECTED")
  const JobStatusError: Error := BadStatus("Status must be one of ACTIVE, SUSPENDED, ARCHIVED")
  const ArticleStatusError: Error := BadStatus("Status must be one of PUBLISHED, SUSPENDED, ARCHIVED")
  const EventStatusError: Error := BadStatus("Status must be one of PUBLISHED, CANCELLED, ARCHIVED, DRAFT")

  /** `if (status === 'PUBLISHED' && !existing.publishedAt) data.publishedAt = new Date()`. */
  function Stamp(publishedAt: Option<int>, status: string, now: int): (r: Option<int>)
    ensures publishedAt.Some? ==> r == publishedAt
    ensures r.Some? <==> publishedAt.Some? || status == "PUBLISHED"
  {
    if status == "PUBLISHED" && publishedAt.None? then Some(now) else publishedAt
  }

  function EventWithStatus(e: Event, status: string, now: int): Event {
    e.(status := status, publishedAt := Stamp(e.publishedAt, status, now))
  }

  function ArticleWithStatus(a: Article, status: string, now: int): Article {
    a.(status := status, publishedAt := Stamp(a.publishedAt, status, now))
  }

  /** A status change touches the status and `publishedAt` and nothing
      else, lands on the requested status, and keeps an existing
      `publishedAt`. */
  lemma EventWithStatusFrame(e: Event, status: string, now: int)
    ensures var e' := EventWithStatus(e, status, now);
      && e'.status == status
      && e'.(status := e.status, publishedAt := e.publishedAt) == e
      && (e.publishedAt.Some? ==> e'.publishedAt == e.publishedAt)
      && (e'.publishedAt != e.publishedAt ==> status == "PUBLISHED" && e'.publishedAt == Some(now))
  {
  }

  lemma ArticleWithStatusFrame(a: Article, status: string, now: int)
    ensures var a' := ArticleWithStatus(a, status, now);
      && a'.status == status
      && a'.(status := a.status, publishedAt := a.publishedAt) == a
      && (a.publishedAt.Some? ==> a'.publishedAt == a.publishedAt)
      && (a'.publishedAt != a.publishedAt ==> status == "PUBLISHED" && a'.publishedAt == Some(now))
  {
  }

  /** Repeating a status change, at any later time, yields the same row. */
  lemma EventWithStatusIdempotent(e: Event, status: string, t1: int, t2: int)
    ensures EventWithStatus(EventWithStatus(e, status, t1), status, t2) == EventWithStatus(e, status, t1)
  {
  }

  lemma ArticleWithStatusIdempotent(a: Article, status: string, t1: int, t2: int)
    ensures ArticleWithStatus(ArticleWithStatus(a, status, t1), status, t2) == ArticleWithStatus(a, status, t1)
  {
  }

  /** One requested change: the status and the time of the request. */
  datatype Change = Change(status: string, at: int)

  /** The `publishedAt` after a series of status changes. */
  function StampAll(publishedAt: Option<int>, changes: seq<Change>): Option<int>
    decreases |changes|
  {
    if changes == [] then publishedAt
    else StampAll(Stamp(publishedAt, changes[0].status, changes[0].at), changes[1..])
  }

  /** The time of the first change into PUBLISHED, if any. */
  function FirstPublish(changes: seq<Change>): Option<int> {
    if changes == [] then None
    else if changes[0].status == "PUBLISHED" then Some(changes[0].at)
    else FirstPublish(changes[1..])
  }

  /** Over any series of status changes, `publishedAt` is set at most once:
      an existing value survives every change, and an unset one ends up as
      the time of the first change into PUBLISHED. */
  lemma {:induction false} PublishedAtSetOnce(publishedAt: Option<int>, changes: seq<Change>)
    decreases |changes|
    ensures publishedAt.Some? ==> StampAll(publishedAt, changes) == publishedAt
    ensures publishedAt.None? ==> StampAll(publishedAt, changes) == FirstPublish(changes)
  {
    if changes != [] {
      var next := Stamp(publishedAt, changes[0].status, changes[0].at);
      PublishedAtSetOnce(next, changes[1..]);
    }
  }
}
