/**
 * The persistent store behind the three services: one table per entity,
 * keyed by id, and the article/category join relation as a set of
 * (articleId, categoryId) pairs. Store failures and the values the services
 * throw are defined here too, since all three services share them.
 */
module Store {
  import opened Wrappers

  type Id = string

  datatype ArticleType = Long | Short

  datatype Article = Article(
    id: Id,
    title: string,
    description: string,
    kind: ArticleType,
    createdAt: int,
    updatedAt: int)

  datatype Category = Category(id: Id, name: string, createdAt: int)

  datatype Comment = Comment(
    id: Id,
    text: string,
    articleId: Id,
    createdAt: int,
    updatedAt: int)

  /** The `{ id, title }` selection of an article that related rows include. */
  datatype ArticleRef = ArticleRef(id: Id, title: string)

  function RefOf(a: Article): (r: ArticleRef)
    ensures r.id == a.id && r.title == a.title
  {
    ArticleRef(a.id, a.title)
  }

  /** A failure reported by the store client. */
  datatype StoreFailure =
    | KnownRequest(code: string)  // a known request error carrying an error code
    | Validation                  // the client rejected the shape of the query
    | Unclassified                // anything else

  /** The HTTP exceptions the services throw. */
  datatype Exception = NotFound | BadRequest | InternalServerError

  /** A value a service operation throws: an HTTP exception, or a store failure left uncaught. */
  datatype Thrown = Http(exception: Exception) | Raw(failure: StoreFailure)

  /** Code of the store's unique-constraint violation. */
  const UniqueViolation: string := "P2002"
  /** Code of the store's foreign-key violation. */
  const ForeignKeyViolation: string := "P2003"
  /** Code of the store's "record to update or delete does not exist". */
  const RecordNotFound: string := "P2025"

  /**
   * The catch blocks of the category and comment services: a NotFound is
   * rethrown as it is, every other failure becomes BadRequest.
   */
  function RethrowNotFoundElseBadRequest(error: Thrown): (x: Exception)
    ensures x == NotFound <==> error == Http(NotFound)
    ensures x != NotFound ==> x == BadRequest
  {
    if error == Http(NotFound) then NotFound else BadRequest
  }

  /** A store failure is never a NotFound exception, so those catch blocks turn it into BadRequest. */
  lemma StoreFailureIsBadRequest(f: StoreFailure)
    ensures RethrowNotFoundElseBadRequest(Raw(f)) == BadRequest
  {
  }

  /**
   * The failure the store reports for an insert: the one it raises, if any,
   * else a unique-constraint violation when the new key is already taken.
   */
  function InsertFailure(fault: Option<StoreFailure>, keyTaken: bool): (f: Option<StoreFailure>)
    ensures f.None? <==> fault.None? && !keyTaken
    ensures fault.Some? ==> f == fault
    ensures fault.None? && keyTaken ==> f == Some(KnownRequest(UniqueViolation))
  {
    if fault.Some? then fault
    else if keyTaken then Some(KnownRequest(UniqueViolation))
    else None
  }

  class Database {
    var articles: map<Id, Article>
    var categories: map<Id, Category>
    var comments: map<Id, Comment>
    var links: set<(Id, Id)>

    /** Rows are stored under their own ids, and every reference points at an existing row. */
    ghost predicate Valid()
      reads this
    {
      && (forall k :: k in articles ==> articles[k].id == k)
      && (forall k :: k in categories ==> categories[k].id == k)
      && (forall k :: k in comments ==> comments[k].id == k && comments[k].articleId in articles)
      && (forall p :: p in links ==> p.0 in articles && p.1 in categories)
    }

    constructor ()
      ensures Valid()
      ensures articles == map[] && categories == map[] && comments == map[] && links == {}
    {
      articles, categories, comments, links := map[], map[], map[], {};
    }
  }
}
