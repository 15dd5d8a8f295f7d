/** Contributor profiles: one per user, created ACTIVE, and the guard that
    article authors must pass. */
module ContributorService {

  import opened Wrappers
  import opened Store

  const ProfileNotFound: Error := NotFound("CONTRIBUTOR_PROFILE_NOT_FOUND")
  const NotActive: Error := Forbidden("CONTRIBUTOR_NOT_ACTIVE")
  const Conflict: Error := Err(409, "CONFLICT", None)

  /** The profile applyContributor creates; an empty bio or social-links
      value is stored as null. */
  function NewProfile(id: string, userId: string, bio: Option<string>, socialLinks: Option<string>): (c: ContributorProfile)
    ensures c.status == "ACTIVE" && c.userId == userId && c.id == id
    ensures c.bio.Some? <==> Given(bio)
    ensures c.socialLinks.Some? <==> Given(socialLinks)
    ensures Given(bio) ==> c.bio == bio
    ensures Given(socialLinks) ==> c.socialLinks == socialLinks
  {
    ContributorProfile(id, userId, Or(bio, None), Or(socialLinks, None), "ACTIVE")
  }

  /** applyContributor: a second application by the same user is a
      conflict; otherwise the user gets an ACTIVE profile. */
  method ApplyContributor(db: Db, id: string, userId: string, bio: Option<string>, socialLinks: Option<string>)
    returns (r: Result<ContributorProfile>)
    modifies db`contributors
    ensures userId in old(db.contributors) ==> r == Fail(Conflict) && db.contributors == old(db.contributors)
    ensures userId !in old(db.contributors) ==>
      && r == Ok(NewProfile(id, userId, bio, socialLinks))
      && db.contributors == old(db.contributors)[userId := r.value]
  {
    if userId in db.contributors {
      return Fail(Conflict);
    }
    var c := NewProfile(id, userId, bio, socialLinks);
    db.contributors := db.contributors[userId := c];
    return Ok(c);
  }

  /** getMyContributorProfile. */
  function GetMyContributorProfile(contributors: map<string, ContributorProfile>, userId: string)
    : (r: Result<ContributorProfile>)
    ensures r.Ok? <==> userId in contributors
    ensures r.Ok? ==> r.value == contributors[userId]
    ensures r.Fail? ==> r.error == ProfileNotFound
  {
    if userId in contributors then Ok(contributors[userId]) else Fail(ProfileNotFound)
  }

  /** ensureActiveContributor: 404 without a profile, 403 unless it is
      ACTIVE. It reads only. */
  function EnsureActiveContributor(contributors: map<string, ContributorProfile>, userId: string)
    : (r: Result<ContributorProfile>)
    ensures r.Ok? <==> userId in contributors && contributors[userId].status == "ACTIVE"
    ensures r.Ok? ==> r.value == contributors[userId]
    ensures r.Fail? ==> r.error == (if userId in contributors then NotActive else ProfileNotFound)
  {
    var found := GetMyContributorProfile(contributors, userId);
    if found.Fail? then found
    else if found.value.status != "ACTIVE" then Fail(NotActive)
    else found
  }

  /** Every profile is stored under its own user. */
  predicate OnePerUser(contributors: map<string, ContributorProfile>) {
    forall u :: u in contributors ==> contributors[u].userId == u
  }

  /** A successful application keeps one profile per user, makes the user an
      active contributor at once, and makes a second application a
      conflict. */
  lemma ApplyThenActive(contributors: map<string, ContributorProfile>, id: string, userId: string,
                        bio: Option<string>, socialLinks: Option<string>)
    requires OnePerUser(contributors) && userId !in contributors
    ensures var after := contributors[userId := NewProfile(id, userId, bio, socialLinks)];
      && OnePerUser(after)
      && EnsureActiveContributor(after, userId).Ok?
      && userId in after
      && (forall u :: u != userId ==> EnsureActiveContributor(after, u) == EnsureActiveContributor(contributors, u))
  {
  }
}
