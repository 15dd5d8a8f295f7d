/** The article service: an active contributor publishes at once, the
    public reads only PUBLISHED articles, the author edits content and an
    admin moves the status. */
module ArticleService {

  import opened Wrappers
  import opened Store
  import Slug
  import Query
  import Pagination
  import Lookup
  import StatusMachine
  import ContributorService

  const ArticleNotFound: Error := NotFound("ARTICLE_NOT_FOUND")

  /** The `where` of listArticles: PUBLISHED, and matching the free-text
      query in the title or the content when one is given. */
  predicate Listed(q: Option<string>, matches: (string, string) -> bool, a: Article) {
    && a.status == "PUBLISHED"
    && (Given(q) ==> matches(a.title, q.value) || (a.content.Some? && matches(a.content.value, q.value)))
  }

  function ListFilter(q: Option<string>, matches: (string, string) -> bool): Article -> bool {
    a => Listed(q, matches, a)
  }

  /** The sort key: the publication time (a published article always has
      one, see PublishedStaysDated). */
  function PublishedKey(a: Article): int {
    if a.publishedAt.Some? then a.publishedAt.value else 0
  }

  /** listArticles: published matches, most recently published first, cut
      to the requested page. */
  method ListArticles(db: Db, page: int, limit: Option<int>, q: Option<string>, matches: (string, string) -> bool)
    returns (p: Pagination.Page<Article>, ghost rows: seq<Article>)
    requires page >= 1
    requires limit.Some? ==> limit.value >= 0
    ensures Query.Selection(db.articles, ListFilter(q, matches), PublishedKey, rows)
    ensures p == Pagination.Paginate(rows, page, limit)
    ensures forall a :: a in p.items ==> a in db.articles.Values && Listed(q, matches, a)
    ensures Query.SortedDesc(p.items, PublishedKey)
    ensures p.meta == Pagination.MetaOf(page, limit, |Query.Matching(db.articles, ListFilter(q, matches))|)
  {
    p, rows := Pagination.ListPage(db.articles, ListFilter(q, matches), PublishedKey, page, limit);
  }

  /** The body of a new article. */
  datatype ArticlePayload = ArticlePayload(
    title: string,
    excerpt: Option<string>,
    content: Option<string>,
    coverImageUrl: Option<string>)

  /** The row createArticle inserts: published at once, an empty excerpt or
      cover stored as null. */
  function NewArticle(id: string, authorId: string, p: ArticlePayload, now: nat): (a: Article)
    ensures a.status == "PUBLISHED" && a.publishedAt == Some(now)
    ensures a.slug == Slug.SlugOf(p.title, now)
    ensures a.excerpt == (if Given(p.excerpt) then p.excerpt else None)
    ensures a.coverImageUrl == (if Given(p.coverImageUrl) then p.coverImageUrl else None)
    ensures a.id == id && a.authorId == authorId && a.title == p.title && a.content == p.content
  {
    Article(id, authorId, p.title, Slug.SlugOf(p.title, now), Or(p.excerpt, None), p.content,
            Or(p.coverImageUrl, None), "PUBLISHED", Some(now), now)
  }

  /** createArticle: the active-contributor guard runs first and its
      failure is the answer; then the article is inserted. */
  method CreateArticle(db: Db, id: string, authorId: string, p: ArticlePayload, now: nat) returns (r: Result<Article>)
    modifies db`articles
    ensures ContributorService.EnsureActiveContributor(db.contributors, authorId).Fail? ==>
      && r == Fail(ContributorService.EnsureActiveContributor(db.contributors, authorId).error)
      && db.articles == old(db.articles)
    ensures r.Ok? <==> ContributorService.EnsureActiveContributor(db.contributors, authorId).Ok? && id !in old(db.articles)
    ensures r.Ok? ==> r.value == NewArticle(id, authorId, p, now) && db.articles == old(db.articles)[id := r.value]
    ensures r.Fail? ==> db.articles == old(db.articles)
  {
    var guard := ContributorService.EnsureActiveContributor(db.contributors, authorId);
    if guard.Fail? {
      return Fail(guard.error);
    }
    if id in db.articles {
      return Fail(Crash);
    }
    var a := NewArticle(id, authorId, p, now);
    db.articles := db.articles[id := a];
    return Ok(a);
  }

  function PublicOnly(found: Option<Article>): (r: Result<Article>)
    ensures r.Ok? <==> found.Some? && found.value.status == "PUBLISHED"
    ensures r.Ok? ==> r.value == found.value
    ensures r.Fail? ==> r.error == ArticleNotFound
  {
    if found.Some? && found.value.status == "PUBLISHED" then Ok(found.value) else Fail(ArticleNotFound)
  }

  function SlugOfArticle(a: Article): string {
    a.slug
  }

  /** getArticlePublic: the id-or-slug lookup, then 404 unless PUBLISHED. */
  method GetArticlePublic(db: Db, key: string) returns (r: Result<Article>)
    ensures r.Ok? ==> r.value in db.articles.Values && r.value.status == "PUBLISHED"
    ensures r.Fail? ==> r.error == ArticleNotFound
    ensures IdLike(key) ==> r == PublicOnly(Lookup.ById(db.articles, key))
    ensures !IdLike(key) && !Lookup.SlugTaken(db.articles, key, SlugOfArticle) ==>
      r == PublicOnly(Lookup.ById(db.articles, key))
    ensures !IdLike(key) && r.Ok? && Lookup.SlugTaken(db.articles, key, SlugOfArticle) ==> r.value.slug == key
    ensures !IdLike(key) && Lookup.SlugTaken(db.articles, key, SlugOfArticle) ==>
      exists k :: k in db.articles && db.articles[k].slug == key && r == PublicOnly(Some(db.articles[k]))
    ensures !IdLike(key) && Lookup.SlugTaken(db.articles, key, SlugOfArticle) ==>
      (forall k :: k in db.articles && db.articles[k].slug == key ==> db.articles[k].status == "PUBLISHED") ==> r.Ok?
  {
    var found := Lookup.ByIdOrSlug(db.articles, key, SlugOfArticle);
    r := PublicOnly(found);
  }

  /** The body of an article edit. */
  datatype ArticlePatch = ArticlePatch(
    title: Option<string>,
    excerpt: Option<string>,
    content: Option<string>,
    coverImageUrl: Option<string>)

  /** The `??` merge of updateArticle. */
  function ApplyArticlePatch(a: Article, p: ArticlePatch): Article {
    a.(title := Coalesce(p.title, a.title),
       excerpt := Keep(p.excerpt, a.excerpt),
       content := Keep(p.content, a.content),
       coverImageUrl := Keep(p.coverImageUrl, a.coverImageUrl))
  }

  /** An edit changes only the title, excerpt, content and cover, each kept
      when not sent; status and `publishedAt` are untouched; the same edit
      twice is the edit once. */
  lemma ArticlePatchFrame(a: Article, p: ArticlePatch)
    ensures var a' := ApplyArticlePatch(a, p);
      && a'.(title := a.title, excerpt := a.excerpt, content := a.content, coverImageUrl := a.coverImageUrl) == a
      && (p.title.None? ==> a'.title == a.title)
      && (p.excerpt.None? ==> a'.excerpt == a.excerpt)
      && ApplyArticlePatch(a', p) == a'
  {
  }

  predicate Writes(articles: map<string, Article>, articleId: string, authorId: string) {
    articleId in articles && articles[articleId].authorId == authorId
  }

  /** updateArticle: 404 unless the caller wrote the article. */
  method UpdateArticle(db: Db, authorId: string, articleId: string, p: ArticlePatch) returns (r: Result<Article>)
    modifies db`articles
    ensures !Writes(old(db.articles), articleId, authorId) ==> r == Fail(ArticleNotFound) && db.articles == old(db.articles)
    ensures Writes(old(db.articles), articleId, authorId) ==>
      && r == Ok(ApplyArticlePatch(old(db.articles)[articleId], p))
      && db.articles == old(db.articles)[articleId := r.value]
  {
    if !Writes(db.articles, articleId, authorId) {
      return Fail(ArticleNotFound);
    }
    var a := ApplyArticlePatch(db.articles[articleId], p);
    db.articles := db.articles[articleId := a];
    return Ok(a);
  }

  /** changeArticleStatus (an admin's): the status is validated before the
      lookup by id; only status and `publishedAt` change. */
  method ChangeArticleStatus(db: Db, articleId: string, status: string, now: int) returns (r: Result<Article>)
    modifies db`articles
    ensures status !in StatusMachine.ArticleStatuses ==>
      r == Fail(StatusMachine.ArticleStatusError) && db.articles == old(db.articles)
    ensures status in StatusMachine.ArticleStatuses && articleId !in old(db.articles) ==>
      r == Fail(ArticleNotFound) && db.articles == old(db.articles)
    ensures status in StatusMachine.ArticleStatuses && articleId in old(db.articles) ==>
      && r == Ok(StatusMachine.ArticleWithStatus(old(db.articles)[articleId], status, now))
      && db.articles == old(db.articles)[articleId := r.value]
  {
    if status !in StatusMachine.ArticleStatuses {
      return Fail(StatusMachine.ArticleStatusError);
    }
    if articleId !in db.articles {
      return Fail(ArticleNotFound);
    }
    var a := StatusMachine.ArticleWithStatus(db.articles[articleId], status, now);
    db.articles := db.articles[articleId := a];
    return Ok(a);
  }

  /** Every PUBLISHED article has a publication time. */
  predicate PublishedDated(articles: map<string, Article>) {
    forall k :: k in articles && articles[k].status == "PUBLISHED" ==> articles[k].publishedAt.Some?
  }

  /** Creating, editing and moving the status of articles keep every
      published article dated. */
  lemma PublishedStaysDated(articles: map<string, Article>, k: string, id: string, authorId: string,
                            p: ArticlePayload, patch: ArticlePatch, status: string, now: nat)
    requires PublishedDated(articles)
    ensures PublishedDated(articles[id := NewArticle(id, authorId, p, now)])
    ensures k in articles ==> PublishedDated(articles[k := ApplyArticlePatch(articles[k], patch)])
    ensures k in articles ==> PublishedDated(articles[k := StatusMachine.ArticleWithStatus(articles[k], status, now)])
  {
  }
}
