# Articles, categories and comments: a Dafny model

This project models the core of a NestJS content service. The service keeps
articles, categories and comments in a relational store, with a
many-to-many link between articles and categories. The model covers four
parts:

- **The pagination planner** (`PaginationUtil`). It normalises a list
  query's `page` and `limit`, derives `skip`, and builds the page metadata
  (`totalPages`, `hasNextPage`, `hasPreviousPage`).
- **The article service** (`ArticlesService`). It covers create, the paged
  and ordered list, lookup, update and delete. It also covers
  `handlePrismaError`, the table that turns store failures into HTTP
  exceptions.
- **The category service** (`CategoriesService`). It covers create, list,
  lookup, update and delete. Delete reports the articles that were linked to
  the category.
- **The comment service** (`CommentsService`). It covers create (which first
  checks that the parent article exists), list by article, lookup, edit of
  the text, and delete.

The store is the class `Store.Database`:

- one `map` field per table, keyed by id;
- the article/category join relation as a `set` of `(articleId, categoryId)`
  pairs;
- an invariant `Valid()`: every row is stored under its own id, every
  comment's article exists, and every link names an existing article and
  category.

Each service is a class holding the database, as in the source. Operations
that write are methods with `modifies db` and state the whole new state.
Lookups are functions that read `db`. Lists are methods that only read.

The store's side of each call is a set of parameters:

- `fault: Option<StoreFailure>` is the store's reply to a write;
- `newId` and `now` are the id and timestamp the store assigns;
- `column` is how the store resolves a `sortBy` column name to an ordering
  key.

The store's `findMany` is specified in `StoreQuery`:

- `ListTable` reads a table into a sequence that holds every row once;
- `SortBy` is an insertion sort by key and direction;
- `Window` applies `skip`/`take`.

A list result is proved to be a window of *some* ordering of the table. Rows
with equal keys may come in any order, as in the store.

A service result is a `Result` that holds either the payload or a `Thrown`
value. `Thrown` is one of two things:

- `Http(e)`: an HTTP exception `NotFound`, `BadRequest` or
  `InternalServerError`;
- `Raw(f)`: a store failure that no catch block handles.

A store failure is `KnownRequest(code)`, `Validation` or `Unclassified`.
`handlePrismaError` accepts any caught value, as in the source. So the model
shows why the `instanceof NotFoundException` rethrow matters: without it, the
existence check's `NotFound` would come out as `InternalServerError`.

Integers are unbounded. `page` and `limit` are integers, and
`Math.ceil(total / limit)` is the integer ceiling division `CeilDiv`.

## Behaviour worth knowing

- A negative `limit` gives 1; only a missing or 0 limit gives 10. A
  negative or 0 `page` gives 1.
- `hasPreviousPage` is `page > 1` whatever the total, so it can be true on
  an empty listing.
- Without a `sortBy` column, `findAll` orders by `createdAt` descending,
  even when `sortOrder` is `asc`. An empty `sortBy` string is falsy in
  JavaScript, so it also gives the default ordering.
- `findAll` lists the whole article table; it applies no filter.
- Article `create` passes its input straight to the store.
- Store failures are classified per service:
  - articles use `handlePrismaError`: P2002, P2003 and a validation error
    give `BadRequest`, P2025 gives `NotFound`, any other code or failure
    gives `InternalServerError`;
  - categories and comments turn every failure except `NotFound` into
    `BadRequest`;
  - comment `remove` has no catch block, so a failure of the delete
    surfaces unclassified (`Raw`).
- Inserting under an id that is already taken is modelled as the store's
  unique-constraint failure, P2002.

## Model

| member | source | states |
|---|---|---|
| Pagination.OrElse | src/common/utils/pagination.util.ts:13-14 | JavaScript `v \|\| d`: a missing value or 0 gives the default, any other value is kept |
| Pagination.NormalPage | src/common/utils/pagination.util.ts:13 | page is at least 1; missing, 0 or negative gives 1; a positive page is kept |
| Pagination.NormalLimit | src/common/utils/pagination.util.ts:14 | limit is in [1, 100]; missing or 0 gives 10, above 100 gives 100, negative gives 1, 1..100 is kept |
| Pagination.GetPaginationParams | src/common/utils/pagination.util.ts:12-24 | page >= 1, 1 <= limit <= 100, skip >= 0 is a whole multiple of limit with skip / limit == page - 1; sortBy passed through; sortOrder defaults to desc |
| Pagination.DivMulExact | src/common/utils/pagination.util.ts:15 | (k * d) / d == k and (k * d) % d == 0, so skip is an exact multiple of limit |
| Pagination.CeilDiv | src/common/utils/pagination.util.ts:34 | result r satisfies (r - 1) * d < n <= r * d, i.e. r is the ceiling of n / d |
| Pagination.CreateMeta | src/common/utils/pagination.util.ts:29-44 | total, page and limit are the inputs; totalPages is the ceiling of total / limit; hasNextPage iff page < totalPages; hasPreviousPage iff page > 1 |
| Pagination.CreatePaginatedResult | src/common/utils/pagination.util.ts:49-58 | data is returned unchanged; meta's total, page and limit are the inputs and the rest is CreateMeta's |
| Pagination.TotalPagesUnique | src/common/utils/pagination.util.ts:34 | any t with (t - 1) * limit < total <= t * limit is the computed page count |
| Pagination.EmptyListing | src/common/utils/pagination.util.ts:34-42 | total 0 gives totalPages 0 and no next page; hasPreviousPage still depends only on page |
| Pagination.TwentyFiveRowsTenPerPage | src/common/utils/pagination.util.ts:34-42 | 25 rows at 10 per page make 3 pages; page 3 has no next page; page 2 has both neighbours |
| Pagination.NextPageMeansRowsBeyond | src/common/utils/pagination.util.ts:34-42 | for normalised parameters, hasNextPage iff skip + limit < total, and hasPreviousPage iff skip > 0 |
| Pagination.RowOnItsPage | src/common/utils/pagination.util.ts:34 | row i of a listing is on page i / limit + 1, at offset i % limit, and that page is within totalPages |
| StoreQuery.Insert | src/articles/articles.service.ts:39-43 | inserting into an ordered sequence keeps it ordered and adds exactly that row (multiset) |
| StoreQuery.SortBy | src/articles/articles.service.ts:39-43 | result is ordered by the key in the direction and is a permutation of the input |
| StoreQuery.Window | src/articles/articles.service.ts:40-41 | at most `take` rows; exactly min(take, n - skip) when skip < n, none otherwise; row i is row skip + i of the input |
| StoreQuery.WindowOrdered | src/articles/articles.service.ts:39-43 | a window of an ordered listing is ordered |
| StoreQuery.RowInItsWindow | src/articles/articles.service.ts:40-41 | with the planner's parameters for page i / limit + 1, row i of a listing is at offset i % limit of the page |
| StoreQuery.ListTable | src/articles/articles.service.ts:39 | reads a table into a sequence as long as the table, holding every row and only rows stored under their own id |
| StoreQuery.ListingPermutation | src/articles/articles.service.ts:39-43 | any reordering of a table's listing lists the same table |
| StoreQuery.ListingMembership | src/articles/articles.service.ts:39-43 | a row is in a listing iff the table stores it under its id |
| Store.RefOf | src/categories/categories.service.ts:30 | the `{ id, title }` selection keeps the article's id and title |
| Store.RethrowNotFoundElseBadRequest | src/categories/categories.service.ts:19-24 | NotFound is rethrown; every other caught value becomes BadRequest |
| Store.StoreFailureIsBadRequest | src/comments/comments.service.ts:81-86 | a store failure caught by these blocks always becomes BadRequest |
| Store.InsertFailure | src/articles/articles.service.ts:18-20 | an insert succeeds iff the store raises nothing and the key is free; a taken key is a P2002 violation |
| Articles.HandlePrismaError | src/articles/articles.service.ts:92-125 | NotFound iff P2025; BadRequest iff P2002, P2003 or a validation error; InternalServerError for every other known code, for unclassified failures, and for any non-store value |
| Articles.RethrowNotFound | src/articles/articles.service.ts:69-76 | the existence check's NotFound is rethrown unchanged; store failures go through HandlePrismaError; the result is NotFound iff it was that NotFound or P2025 |
| Articles.NotFoundNeedsRethrow | src/articles/articles.service.ts:70-75 | without the rethrow, a NotFound passed to HandlePrismaError would become InternalServerError |
| Articles.ApplyUpdate | src/articles/articles.service.ts:65-68 | fields given in the update replace the old ones, absent ones are kept; id and createdAt are kept; updatedAt is the update time |
| Articles.ApplyUpdateIdempotent | src/articles/articles.service.ts:65-68 | applying the same update twice equals applying it once |
| Articles.EmptyUpdateKeepsFields | src/articles/articles.service.ts:65-68 | an update naming no field changes only updatedAt |
| Articles.ChooseOrderBy | src/articles/articles.service.ts:32-34 | no (or empty) sortBy gives createdAt descending whatever sortOrder says; otherwise sortBy in sortOrder |
| Articles.DefaultOrderIgnoresDirection | src/articles/articles.service.ts:32-34 | without sortBy, asc and desc requests give the same ordering, createdAt descending |
| Articles.SortKey | src/articles/articles.service.ts:32-34 | the createdAt column orders by creation time; any other named column orders by what `column` resolves that column to |
| Articles.ArticlesService.FindOne | src/articles/articles.service.ts:48-58 | succeeds iff the id is present, with the stored article; otherwise NotFound |
| Articles.ArticlesService.Create | src/articles/articles.service.ts:16-24 | on success exactly one entry is added under the new id, and lookup returns it; on failure the table is unchanged and the error is HandlePrismaError's class |
| Articles.ArticlesService.FindAll | src/articles/articles.service.ts:26-47 | data is the [skip, skip + limit) window of the whole table ordered by ChooseOrderBy: at most limit stored articles, in that order; meta is CreateMeta over the count of all articles, with no filter |
| Articles.ArticlesService.Update | src/articles/articles.service.ts:60-77 | absent id: NotFound, nothing changes; store failure: HandlePrismaError's class, nothing changes; otherwise only that entry changes, to ApplyUpdate of the old one |
| Articles.ArticlesService.Remove | src/articles/articles.service.ts:79-91 | absent id: NotFound, nothing deleted; store failure: HandlePrismaError's class, nothing deleted; otherwise exactly that key goes, with its links and comments, and the deleted article is returned |
| Categories.CategoriesService.LinkedArticles | src/categories/categories.service.ts:36-37 | a reference is included iff the article is linked to the category, exists, and the reference is its `{ id, title }` |
| Categories.CategoriesService.Detail | src/categories/categories.service.ts:28-31 | the category's id, name and createdAt with its linked articles |
| Categories.CategoriesService.Details | src/categories/categories.service.ts:28-31 | one detail per category, in the same order |
| Categories.CategoriesService.FindOne | src/categories/categories.service.ts:34-45 | absent id: NotFound; otherwise the category with its linked articles as `{ id, title }` |
| Categories.CategoriesService.Create | src/categories/categories.service.ts:14-25 | success iff no store failure and the id is free, adding exactly that row, which lookup then returns with no linked articles; any failure is BadRequest and leaves the tables unchanged |
| Categories.CategoriesService.FindAll | src/categories/categories.service.ts:27-32 | as many entries as categories, every category present, ordered by createdAt descending, each with its linked articles |
| Categories.CategoriesService.Update | src/categories/categories.service.ts:47-61 | absent id: NotFound and no change; other failures: BadRequest and no change; otherwise only that row's name changes, and lookup returns the renamed row |
| Categories.CategoriesService.Remove | src/categories/categories.service.ts:63-90 | absent id: NotFound, nothing deleted; otherwise the category is gone; only its links are dropped and no article is deleted; the report has the fixed message, `{ id, name }` of the removed row, and the articles linked just before |
| Comments.CommentsOf | src/comments/comments.service.ts:40-41 | exactly the comments whose articleId matches |
| Comments.ApplyUpdate | src/comments/comments.service.ts:72-74 | only the text (if given) and updatedAt change; id, articleId and createdAt are kept |
| Comments.CommentsService.View | src/comments/comments.service.ts:43-47 | the comment with its article's id and title |
| Comments.CommentsService.Views | src/comments/comments.service.ts:43-47 | one view per comment, in the same order |
| Comments.CommentsService.FindOne | src/comments/comments.service.ts:51-66 | absent id: NotFound; otherwise the stored comment with its article's `{ id, title }` |
| Comments.CommentsService.Create | src/comments/comments.service.ts:14-37 | unknown article: NotFound and no comment added; store failure: BadRequest; otherwise exactly one comment is added with the requested articleId, and lookup returns it |
| Comments.CommentsService.FindAllByArticle | src/comments/comments.service.ts:39-49 | exactly the comments of that article, each once, ordered by createdAt descending, each with the article's `{ id, title }` |
| Comments.CommentsService.Update | src/comments/comments.service.ts:68-87 | absent id: NotFound and no change; store failure: BadRequest and no change; otherwise only that comment's text and updatedAt change and articleId is kept |
| Comments.CommentsService.Remove | src/comments/comments.service.ts:89-92 | absent id: NotFound; store failure surfaces unclassified; otherwise exactly that comment is removed and the others are unchanged |

## Left out

- Bootstrap, module wiring and the global validation pipe (`main.ts`, `app.module.ts`): there is no logic in them.
- The HTTP controller: it is routing only. The bulk delete and bulk category assignment it calls do not exist in the service, so there is nothing of theirs to model.
- Request DTO validation (length bounds, UUID format, whitespace trimming, type conversion): it is done by libraries that are not part of this model.
- `pagination-query.dto.ts`, `update-article.dto.ts`, `update-category.dto.ts` and the store schema are not part of this model. The model assumes their shapes:
  - a list query has an optional integer `page` and `limit`, an optional string `sortBy` and an optional `asc`/`desc` `sortOrder`;
  - an article update may change title, description and type;
  - a category update may change the name.
- Articles.ArticlesService.Update: any other fields the update request may carry (such as `categoryIds` or `categories`) are not modelled. The service hands them to the store unexamined; a store rejection of them arrives as the `fault` reply.
- Category name uniqueness and other schema constraints are not modelled. A write the store would reject for them arrives through the `fault` parameter.
- Deleting an article drops its comments (the model assumes a cascade) and its links.
- Messages are not modelled. Exceptions carry only their kind, not their text (which names the id, the operation or the violated column).
- The `console.error` logging in `handlePrismaError` is not modelled.
- Store reads never fail in the model; only writes take a `fault` reply.
- Concurrency is not modelled. The count and the page query that run in parallel in `findAll` are modelled as two reads of the same state.
- JavaScript number semantics are not modelled: fractional or NaN `page` and `limit`, floating-point `Math.ceil`, and division by a zero limit. Integers are unbounded.
- Articles.ArticlesService.FindAll: turning a `sortBy` column name into an ordering is the abstract parameter `column`, except for `createdAt`. An unknown column, which the store would reject with a validation error, is not modelled.
- Categories.CategoriesService.LinkedArticles: the linked articles are a set, because the store gives no order for included relations.
- Pagination.CreateMeta: requires limit >= 1. Its only caller passes the normalised limit.
- Pagination.CreatePaginatedResult: requires params.limit >= 1, for the same reason. Its caller passes the planner's parameters, whose limit is at least 1.
- Articles.ArticlesService.Create: the optional `categoryIds` and `categories` of the create request are not modelled. The service hands them to the store unexamined; a store rejection of them arrives as the `fault` reply.
- Timestamps are an assumption about the schema, which is not part of this model:
  - a new article or comment gets `createdAt = updatedAt = now`;
  - every successful update sets `updatedAt = now`;
  - a new category gets `createdAt = now`.
