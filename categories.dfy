/**
 * The category service: create, list, look up, rename and delete categories.
 * A category is returned with the `{ id, title }` of the articles linked to
 * it, and deleting one reports the articles that were linked just before.
 */
module Categories {
  import opened Wrappers
  import opened Store
  import opened Pagination
  import opened StoreQuery

  datatype CreateCategoryInput = CreateCategoryInput(name: string)

  /** A partial update: an absent name is left as it is. */
  datatype UpdateCategoryInput = UpdateCategoryInput(name: Option<string>)

  /** A category row with the articles linked to it. */
  datatype CategoryDetail = CategoryDetail(id: Id, name: string, createdAt: int, articles: set<ArticleRef>)

  datatype DeletedCategory = DeletedCategory(id: Id, name: string)

  /** What deleting a category returns. */
  datatype RemovalReport = RemovalReport(
    message: string,
    category: DeletedCategory,
    affectedArticles: set<ArticleRef>)

  const DeletedMessage: string := "Category deleted successfully"

  function CategoryId(c: Category): (id: Id) { c.id }
  function CategoryCreatedAt(c: Category): (t: int) { c.createdAt }

  class CategoriesService {
    const db: Database

    constructor (db: Database)
      ensures this.db == db
    {
      this.db := db;
    }

    /** The `{ id, title }` of every article linked to category `id`. */
    function LinkedArticles(id: Id): (r: set<ArticleRef>)
      requires db.Valid()
      reads db
      ensures forall a :: a in r <==>
        ((a.id, id) in db.links && a.id in db.articles && a == RefOf(db.articles[a.id]))
    {
      set p | p in db.links && p.1 == id && p.0 in db.articles :: RefOf(db.articles[p.0])
    }

    function Detail(c: Category): (d: CategoryDetail)
      requires db.Valid()
      reads db
      ensures d.id == c.id && d.name == c.name && d.createdAt == c.createdAt
      ensures d.articles == LinkedArticles(c.id)
    {
      CategoryDetail(c.id, c.name, c.createdAt, LinkedArticles(c.id))
    }

    function Details(cs: seq<Category>): (ds: seq<CategoryDetail>)
      requires db.Valid()
      reads db
      ensures |ds| == |cs|
      ensures forall i :: 0 <= i < |cs| ==> ds[i] == Detail(cs[i])
    {
      if cs == [] then [] else [Detail(cs[0])] + Details(cs[1..])
    }

    /** Lookup by id, with the linked articles. */
    function FindOne(id: Id): (r: Result<CategoryDetail, Thrown>)
      requires db.Valid()
      reads db
      ensures r.Success? <==> id in db.categories
      ensures r.Success? ==>
        && r.value.id == id && r.value.name == db.categories[id].name
        && r.value.createdAt == db.categories[id].createdAt
        && r.value.articles == LinkedArticles(id)
      ensures r.Failure? ==> r.error == Http(NotFound)
    {
      if id in db.categories then Success(Detail(db.categories[id])) else Failure(Http(NotFound))
    }

    method Create(input: CreateCategoryInput, newId: Id, now: int, fault: Option<StoreFailure>)
      returns (r: Result<Category, Thrown>)
      requires db.Valid()
      modifies db
      ensures db.Valid()
      ensures db.articles == old(db.articles) && db.comments == old(db.comments) && db.links == old(db.links)
      ensures r.Success? <==> fault.None? && newId !in old(db.categories)
      ensures r.Success? ==>
        && r.value == Category(newId, input.name, now)
        && db.categories == old(db.categories)[newId := r.value]
        && FindOne(newId) == Success(CategoryDetail(newId, input.name, now, {}))
      ensures r.Failure? ==> r == Failure(Http(BadRequest)) && db.categories == old(db.categories)
    {
      var failure := InsertFailure(fault, newId in db.categories);
      if failure.Some? {
        r := Failure(Http(RethrowNotFoundElseBadRequest(Raw(failure.value))));
        return;
      }
      var category := Category(newId, input.name, now);
      assert forall p :: p in db.links ==> p.1 != newId;
      db.categories := db.categories[newId := category];
      assert forall a :: a !in LinkedArticles(newId);
      assert LinkedArticles(newId) == {};
      assert db.categories[newId] == category;
      assert FindOne(newId) == Success(Detail(category));
      r := Success(category);
    }

    /** Every category, newest first, each with its linked articles. */
    method FindAll() returns (r: seq<CategoryDetail>, ghost ordered: seq<Category>)
      requires db.Valid()
      ensures IsListing(ordered, db.categories, CategoryId)
      ensures Ordered(ordered, CategoryCreatedAt, Desc)
      ensures |r| == |ordered| && forall i :: 0 <= i < |ordered| ==> r[i] == Detail(ordered[i])
      ensures |r| == |db.categories|
      ensures forall i :: 0 <= i < |r| ==>
        r[i].id in db.categories && r[i] == Detail(db.categories[r[i].id])
      ensures forall k :: k in db.categories ==> Detail(db.categories[k]) in r
      ensures forall i, j :: 0 <= i < j < |r| ==> r[i].createdAt >= r[j].createdAt
    {
      var rows := ListTable(db.categories, CategoryId);
      var sorted := SortBy(rows, CategoryCreatedAt, Desc);
      ListingPermutation(rows, sorted, db.categories, CategoryId);
      ordered := sorted;
      r := Details(sorted);
      forall k | k in db.categories ensures Detail(db.categories[k]) in r {
        var i :| 0 <= i < |sorted| && sorted[i] == db.categories[k];
        assert r[i] == Detail(db.categories[k]);
      }
    }

    /** Renames an existing category; a missing one is reported as NotFound. */
    method Update(id: Id, input: UpdateCategoryInput, fault: Option<StoreFailure>)
      returns (r: Result<Category, Thrown>)
      requires db.Valid()
      modifies db
      ensures db.Valid()
      ensures db.articles == old(db.articles) && db.comments == old(db.comments) && db.links == old(db.links)
      ensures db.categories.Keys == old(db.categories).Keys
      ensures forall k :: k in old(db.categories) && k != id ==> db.categories[k] == old(db.categories)[k]
      ensures id !in old(db.categories) ==> r == Failure(Http(NotFound)) && db.categories == old(db.categories)
      ensures id in old(db.categories) && fault.Some? ==>
        r == Failure(Http(BadRequest)) && db.categories == old(db.categories)
      ensures id in old(db.categories) && fault.None? ==>
        && r == Success(old(db.categories)[id].(name := input.name.GetOr(old(db.categories)[id].name)))
        && db.categories == old(db.categories)[id := r.value]
        && FindOne(id) == Success(Detail(r.value))
    {
      var existing := FindOne(id);
      if existing.Failure? {
        r := Failure(Http(RethrowNotFoundElseBadRequest(existing.error)));
        return;
      }
      if fault.Some? {
        r := Failure(Http(RethrowNotFoundElseBadRequest(Raw(fault.value))));
        return;
      }
      var row := db.categories[id];
      var updated := row.(name := input.name.GetOr(row.name));
      db.categories := db.categories[id := updated];
      r := Success(updated);
    }

    /**
     * Deletes an existing category and its links (never an article), and
     * reports the category and the articles that were linked to it.
     */
    method Remove(id: Id, fault: Option<StoreFailure>) returns (r: Result<RemovalReport, Thrown>)
      requires db.Valid()
      modifies db
      ensures db.Valid()
      ensures db.articles == old(db.articles) && db.comments == old(db.comments)
      ensures id !in old(db.categories) ==>
        r == Failure(Http(NotFound)) && db.categories == old(db.categories) && db.links == old(db.links)
      ensures id in old(db.categories) && fault.Some? ==>
        r == Failure(Http(BadRequest)) && db.categories == old(db.categories) && db.links == old(db.links)
      ensures id in old(db.categories) && fault.None? ==>
        && r.Success?
        && r.value.message == DeletedMessage
        && r.value.category == DeletedCategory(id, old(db.categories)[id].name)
        && r.value.affectedArticles == old(LinkedArticles(id))
        && db.categories == old(db.categories) - {id}
        && db.links == (set p | p in old(db.links) && p.1 != id)
        && FindOne(id) == Failure(Http(NotFound))
    {
      var existing := FindOne(id);
      if existing.Failure? {
        r := Failure(Http(RethrowNotFoundElseBadRequest(existing.error)));
        return;
      }
      if fault.Some? {
        r := Failure(Http(RethrowNotFoundElseBadRequest(Raw(fault.value))));
        return;
      }
      var category := existing.value;
      db.categories := db.categories - {id};
      db.links := set p | p in db.links && p.1 != id;
      r := Success(RemovalReport(
        DeletedMessage,
        DeletedCategory(category.id, category.name),
        set a | a in category.articles :: ArticleRef(a.id, a.title)));
    }
  }
}
