/**
 * The article service: create, list a page, look up, update and delete
 * articles, and the table that turns store failures into HTTP exceptions.
 */
module Articles {
  import opened Wrappers
  import opened Store
  import opened Pagination
  import opened StoreQuery

  /** The scalar fields of a new article. */
  datatype CreateArticleInput = CreateArticleInput(title: string, description: string, kind: ArticleType)

  /** A partial update: absent fields are left as they are. */
  datatype UpdateArticleInput = UpdateArticleInput(
    title: Option<string>,
    description: Option<string>,
    kind: Option<ArticleType>)

  /** The column and direction a page of articles is ordered by. */
  datatype OrderBy = OrderBy(column: string, direction: SortOrder)

  const CreatedAtColumn: string := "createdAt"

  function ArticleId(a: Article): (id: Id) { a.id }
  function ArticleCreatedAt(a: Article): (t: int) { a.createdAt }

  /**
   * Classification of a failure caught by the service. Every caught value is
   * turned into an exception; the service never returns normally from here.
   */
  function HandlePrismaError(error: Thrown): (x: Exception)
    ensures x == NotFound <==> error == Raw(KnownRequest(RecordNotFound))
    ensures x == BadRequest <==>
      error in {Raw(KnownRequest(UniqueViolation)), Raw(KnownRequest(ForeignKeyViolation)), Raw(Validation)}
    ensures x == InternalServerError <==>
      (error.Http? || error == Raw(Unclassified) ||
       (error.Raw? && error.failure.KnownRequest? &&
        error.failure.code !in {UniqueViolation, RecordNotFound, ForeignKeyViolation}))
  {
    match error
    case Raw(KnownRequest(code)) =>
      if code == UniqueViolation then BadRequest
      else if code == RecordNotFound then NotFound
      else if code == ForeignKeyViolation then BadRequest
      else InternalServerError
    case Raw(Validation) => BadRequest
    case _ => InternalServerError
  }

  /**
   * The catch block of update and delete: a NotFound thrown by the existence
   * check is rethrown as it is, anything else goes through HandlePrismaError.
   */
  function RethrowNotFound(error: Thrown): (x: Exception)
    ensures error == Http(NotFound) ==> x == NotFound
    ensures error.Raw? ==> x == HandlePrismaError(error)
    ensures x == NotFound <==> error in {Http(NotFound), Raw(KnownRequest(RecordNotFound))}
  {
    if error == Http(NotFound) then NotFound else HandlePrismaError(error)
  }

  /** Without the rethrow, the existence check's NotFound would surface as a server error. */
  lemma NotFoundNeedsRethrow()
    ensures HandlePrismaError(Http(NotFound)) == InternalServerError
    ensures RethrowNotFound(Http(NotFound)) == NotFound
  {
  }

  /** The article after a partial update at time `now`. */
  function ApplyUpdate(a: Article, patch: UpdateArticleInput, now: int): (r: Article)
    ensures r.id == a.id && r.createdAt == a.createdAt && r.updatedAt == now
    ensures r.title == patch.title.GetOr(a.title)
    ensures r.description == patch.description.GetOr(a.description)
    ensures r.kind == patch.kind.GetOr(a.kind)
  {
    a.(title := patch.title.GetOr(a.title),
       description := patch.description.GetOr(a.description),
       kind := patch.kind.GetOr(a.kind),
       updatedAt := now)
  }

  /** Applying the same update twice is applying it once. */
  lemma ApplyUpdateIdempotent(a: Article, patch: UpdateArticleInput, now: int)
    ensures ApplyUpdate(ApplyUpdate(a, patch, now), patch, now) == ApplyUpdate(a, patch, now)
  {
  }

  /** An update that names no field only moves the update time. */
  lemma EmptyUpdateKeepsFields(a: Article, now: int)
    ensures ApplyUpdate(a, UpdateArticleInput(None, None, None), now) == a.(updatedAt := now)
  {
  }

  /** A page is ordered by the requested column only when one is named; otherwise newest first. */
  function ChooseOrderBy(params: PaginationParams): (o: OrderBy)
    ensures (params.sortBy.None? || params.sortBy.value == "") ==> o == OrderBy(CreatedAtColumn, Desc)
    ensures params.sortBy.Some? && params.sortBy.value != "" ==> o == OrderBy(params.sortBy.value, params.sortOrder)
  {
    if params.sortBy.Some? && params.sortBy.value != "" then OrderBy(params.sortBy.value, params.sortOrder)
    else OrderBy(CreatedAtColumn, Desc)
  }

  /** Without a sort column the requested direction is ignored. */
  lemma DefaultOrderIgnoresDirection(query: PaginationQuery)
    requires query.sortBy.None?
    ensures ChooseOrderBy(GetPaginationParams(query)) == OrderBy(CreatedAtColumn, Desc)
    ensures ChooseOrderBy(GetPaginationParams(query.(sortOrder := Some(Asc))))
         == ChooseOrderBy(GetPaginationParams(query.(sortOrder := Some(Desc))))
  {
  }

  /**
   * The value an article is ordered by: its creation time for the createdAt
   * column, and otherwise whatever `column` resolves the named column to.
   */
  function SortKey(o: OrderBy, column: (string, Article) -> int): (key: Article -> int)
    ensures o.column == CreatedAtColumn ==> key == ArticleCreatedAt
    ensures o.column != CreatedAtColumn ==> forall a :: key(a) == column(o.column, a)
  {
    if o.column == CreatedAtColumn then ArticleCreatedAt else (a: Article) => column(o.column, a)
  }

  class ArticlesService {
    const db: Database

    constructor (db: Database)
      ensures this.db == db
    {
      this.db := db;
    }

    /** Lookup by id. */
    function FindOne(id: Id): (r: Result<Article, Thrown>)
      reads db
      ensures r.Success? <==> id in db.articles
      ensures r.Success? ==> r.value == db.articles[id]
      ensures r.Failure? ==> r.error == Http(NotFound)
    {
      if id in db.articles then Success(db.articles[id]) else Failure(Http(NotFound))
    }

    /** Inserts a new article under the id and time the store assigns. */
    method Create(input: CreateArticleInput, newId: Id, now: int, fault: Option<StoreFailure>)
      returns (r: Result<Article, Thrown>)
      requires db.Valid()
      modifies db
      ensures db.Valid()
      ensures db.categories == old(db.categories) && db.comments == old(db.comments) && db.links == old(db.links)
      ensures r.Success? <==> fault.None? && newId !in old(db.articles)
      ensures r.Success? ==>
        && r.value == Article(newId, input.title, input.description, input.kind, now, now)
        && db.articles == old(db.articles)[newId := r.value]
        && |db.articles| == |old(db.articles)| + 1
        && FindOne(newId) == r
      ensures r.Failure? ==>
        && db.articles == old(db.articles)
        && r.error == Http(HandlePrismaError(Raw(InsertFailure(fault, newId in old(db.articles)).value)))
    {
      var failure := InsertFailure(fault, newId in db.articles);
      if failure.Some? {
        r := Failure(Http(HandlePrismaError(Raw(failure.value))));
        return;
      }
      var article := Article(newId, input.title, input.description, input.kind, now, now);
      db.articles := db.articles[newId := article];
      r := Success(article);
    }

    /**
     * One page of articles: the table ordered as the query asks, cut to the
     * query's window, with metadata over the whole table.
     */
    method FindAll(query: PaginationQuery, column: (string, Article) -> int)
      returns (result: PaginatedResult<Article>, ghost ordered: seq<Article>)
      requires db.Valid()
      ensures var params := GetPaginationParams(query);
              var order := ChooseOrderBy(params);
              && IsListing(ordered, db.articles, ArticleId)
              && Ordered(ordered, SortKey(order, column), order.direction)
              && result.data == Window(ordered, params.skip, params.limit)
              && result.meta == CreateMeta(|db.articles|, params.page, params.limit)
      ensures |result.data| <= GetPaginationParams(query).limit
      ensures forall i :: 0 <= i < |result.data| ==>
        result.data[i].id in db.articles && db.articles[result.data[i].id] == result.data[i]
      ensures var order := ChooseOrderBy(GetPaginationParams(query));
              Ordered(result.data, SortKey(order, column), order.direction)
      ensures result.meta.total == |db.articles|
    {
      var params := GetPaginationParams(query);
      var order := ChooseOrderBy(params);
      var total := |db.articles|;
      var rows := ListTable(db.articles, ArticleId);
      var sorted := SortBy(rows, SortKey(order, column), order.direction);
      ListingPermutation(rows, sorted, db.articles, ArticleId);
      ordered := sorted;
      var data := Window(sorted, params.skip, params.limit);
      WindowOrdered(sorted, params.skip, params.limit, SortKey(order, column), order.direction);
      result := CreatePaginatedResult(data, total, params);
    }

    /** Updates an existing article; a missing one is reported as NotFound. */
    method Update(id: Id, patch: UpdateArticleInput, now: int, fault: Option<StoreFailure>)
      returns (r: Result<Article, Thrown>)
      requires db.Valid()
      modifies db
      ensures db.Valid()
      ensures db.categories == old(db.categories) && db.comments == old(db.comments) && db.links == old(db.links)
      ensures db.articles.Keys == old(db.articles).Keys
      ensures forall k :: k in old(db.articles) && k != id ==> db.articles[k] == old(db.articles)[k]
      ensures id !in old(db.articles) ==> r == Failure(Http(NotFound)) && db.articles == old(db.articles)
      ensures id in old(db.articles) && fault.Some? ==>
        && r == Failure(Http(HandlePrismaError(Raw(fault.value))))
        && db.articles == old(db.articles)
      ensures id in old(db.articles) && fault.None? ==>
        && r == Success(ApplyUpdate(old(db.articles)[id], patch, now))
        && db.articles == old(db.articles)[id := r.value]
        && FindOne(id) == r
    {
      var existing := FindOne(id);
      if existing.Failure? {
        r := Failure(Http(RethrowNotFound(existing.error)));
        return;
      }
      if fault.Some? {
        r := Failure(Http(RethrowNotFound(Raw(fault.value))));
        return;
      }
      var updated := ApplyUpdate(existing.value, patch, now);
      db.articles := db.articles[id := updated];
      r := Success(updated);
    }

    /**
     * Deletes an existing article and returns it. The store also drops the
     * article's category links and the comments it owns.
     */
    method Remove(id: Id, fault: Option<StoreFailure>) returns (r: Result<Article, Thrown>)
      requires db.Valid()
      modifies db
      ensures db.Valid()
      ensures db.categories == old(db.categories)
      ensures id !in old(db.articles) ==>
        && r == Failure(Http(NotFound))
        && db.articles == old(db.articles) && db.comments == old(db.comments) && db.links == old(db.links)
      ensures id in old(db.articles) && fault.Some? ==>
        && r == Failure(Http(HandlePrismaError(Raw(fault.value))))
        && db.articles == old(db.articles) && db.comments == old(db.comments) && db.links == old(db.links)
      ensures id in old(db.articles) && fault.None? ==>
        && r == Success(old(db.articles)[id])
        && db.articles == old(db.articles) - {id}
        && db.links == (set p | p in old(db.links) && p.0 != id)
        && db.comments == (map k | k in old(db.comments) && old(db.comments)[k].articleId != id :: old(db.comments)[k])
        && FindOne(id) == Failure(Http(NotFound))
    {
      var existing := FindOne(id);
      if existing.Failure? {
        r := Failure(Http(RethrowNotFound(existing.error)));
        return;
      }
      if fault.Some? {
        r := Failure(Http(RethrowNotFound(Raw(fault.value))));
        return;
      }
      db.articles := db.articles - {id};
      db.links := set p | p in db.links && p.0 != id;
      db.comments := map k | k in db.comments && db.comments[k].articleId != id :: db.comments[k];
      r := Success(existing.value);
    }
  }
}
