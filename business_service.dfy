/** The owner's side of businesses: list one's own, register one (it waits
    for an admin's approval) and read one's own. */
module BusinessService {

  import opened Wrappers
  import opened Store
  import Query
  import JobService

  function OwnedBy(ownerId: string): Business -> bool {
    (b: Business) => b.ownerId == ownerId
  }

  function CreatedAt(b: Business): int {
    b.createdAt
  }

  /** listMyBusinesses: exactly the caller's businesses, newest first. */
  method ListMyBusinesses(db: Db, userId: string) returns (rows: seq<Business>)
    ensures forall b :: b in rows <==> b in db.businesses.Values && b.ownerId == userId
    ensures |rows| == |Query.Matching(db.businesses, OwnedBy(userId))|
    ensures Query.SortedDesc(rows, CreatedAt)
  {
    rows := Query.Select(db.businesses, OwnedBy(userId), CreatedAt);
    forall b ensures b in rows <==> b in db.businesses.Values && b.ownerId == userId {
      assert Query.Selected(db.businesses, OwnedBy(userId), b) <==> b in db.businesses.Values && b.ownerId == userId;
    }
  }

  /** The body of a new business. */
  datatype BusinessPayload = BusinessPayload(
    name: string,
    logoUrl: Option<string>,
    websiteUrl: Option<string>,
    description: Option<string>)

  /** createBusiness: one row owned by the caller, PENDING; the rows already
      there are untouched. */
  method CreateBusiness(db: Db, id: string, ownerId: string, p: BusinessPayload, now: int) returns (r: Result<Business>)
    modifies db`businesses
    ensures r.Ok? <==> id !in old(db.businesses)
    ensures r.Ok? ==>
      && r.value == Business(id, ownerId, p.name, p.logoUrl, p.websiteUrl, p.description, "PENDING", now)
      && db.businesses == old(db.businesses)[id := r.value]
    ensures r.Fail? ==> r.error == Crash && db.businesses == old(db.businesses)
  {
    if id in db.businesses {
      return Fail(Crash);
    }
    var b := Business(id, ownerId, p.name, p.logoUrl, p.websiteUrl, p.description, "PENDING", now);
    db.businesses := db.businesses[id := b];
    return Ok(b);
  }

  /** getBusinessById: the caller's own business, or 404. */
  function GetBusinessById(businesses: map<string, Business>, id: string, userId: string): (r: Result<Business>)
    ensures r.Ok? <==> JobService.OwnsBusiness(businesses, id, userId)
    ensures r.Ok? ==> r.value == businesses[id]
    ensures r.Fail? ==> r.error == JobService.BusinessNotFound
  {
    if id in businesses && businesses[id].ownerId == userId then Ok(businesses[id])
    else Fail(JobService.BusinessNotFound)
  }

  /** Someone else's business answers exactly as a business that does not
      exist: the endpoint does not reveal which ids are taken. */
  lemma OthersLookMissing(businesses: map<string, Business>, id: string, userId: string)
    requires id in businesses && businesses[id].ownerId != userId
    ensures GetBusinessById(businesses, id, userId) == GetBusinessById(businesses - {id}, id, userId)
  {
  }

  /** A business just created is PENDING, so no job can be posted under it
      until an admin approves it; its owner can read it at once. */
  lemma NewBusinessWaits(businesses: map<string, Business>, id: string, ownerId: string, p: BusinessPayload, now: int)
    ensures var b := Business(id, ownerId, p.name, p.logoUrl, p.websiteUrl, p.description, "PENDING", now);
      && GetBusinessById(businesses[id := b], id, ownerId) == Ok(b)
      && b.status != "APPROVED"
  {
  }
}
