/**
 * The comment service: create a comment on an existing article, list an
 * article's comments, look up, edit and delete comments. Every comment is
 * returned with the `{ id, title }` of its article.
 */
module Comments {
  import opened Wrappers
  import opened Store
  import opened Pagination
  import opened StoreQuery

  datatype CreateCommentInput = CreateCommentInput(text: string, articleId: Id)

  /** An edit carries only the text: the article a comment belongs to cannot change. */
  datatype UpdateCommentInput = UpdateCommentInput(text: Option<string>)

  /** A comment with its article's `{ id, title }`. */
  datatype CommentView = CommentView(comment: Comment, article: ArticleRef)

  function CommentId(c: Comment): (id: Id) { c.id }
  function CommentCreatedAt(c: Comment): (t: int) { c.createdAt }

  /** The comments of one article, as the store's `where: { articleId }` selects them. */
  function CommentsOf(comments: map<Id, Comment>, articleId: Id): (m: map<Id, Comment>)
    ensures forall k :: k in m <==> k in comments && comments[k].articleId == articleId
    ensures forall k :: k in m ==> m[k] == comments[k]
  {
    map k | k in comments && comments[k].articleId == articleId :: comments[k]
  }

  /** The comment after an edit at time `now`. */
  function ApplyUpdate(c: Comment, patch: UpdateCommentInput, now: int): (r: Comment)
    ensures r.id == c.id && r.articleId == c.articleId && r.createdAt == c.createdAt
    ensures r.text == patch.text.GetOr(c.text) && r.updatedAt == now
  {
    c.(text := patch.text.GetOr(c.text), updatedAt := now)
  }

  class CommentsService {
    const db: Database

    constructor (db: Database)
      ensures this.db == db
    {
      this.db := db;
    }

    /** A stored comment together with its article's `{ id, title }`. */
    function View(c: Comment): (v: CommentView)
      requires db.Valid() && c.articleId in db.articles
      reads db
      ensures v.comment == c
      ensures v.article.id == c.articleId && v.article.title == db.articles[c.articleId].title
    {
      CommentView(c, RefOf(db.articles[c.articleId]))
    }

    function Views(cs: seq<Comment>): (vs: seq<CommentView>)
      requires db.Valid()
      requires forall i :: 0 <= i < |cs| ==> cs[i].articleId in db.articles
      reads db
      ensures |vs| == |cs|
      ensures forall i :: 0 <= i < |cs| ==> vs[i] == View(cs[i])
    {
      if cs == [] then [] else [View(cs[0])] + Views(cs[1..])
    }

    /** Lookup by id, with the comment's article. */
    function FindOne(id: Id): (r: Result<CommentView, Thrown>)
      requires db.Valid()
      reads db
      ensures r.Success? <==> id in db.comments
      ensures r.Success? ==> r.value.comment == db.comments[id] && r.value.article.id == db.comments[id].articleId
      ensures r.Success? ==> r.value.article == RefOf(db.articles[db.comments[id].articleId])
      ensures r.Failure? ==> r.error == Http(NotFound)
    {
      if id in db.comments then Success(View(db.comments[id])) else Failure(Http(NotFound))
    }

    /** Adds a comment to an existing article; a missing article is reported as NotFound. */
    method Create(input: CreateCommentInput, newId: Id, now: int, fault: Option<StoreFailure>)
      returns (r: Result<CommentView, Thrown>)
      requires db.Valid()
      modifies db
      ensures db.Valid()
      ensures db.articles == old(db.articles) && db.categories == old(db.categories) && db.links == old(db.links)
      ensures input.articleId !in old(db.articles) ==> r == Failure(Http(NotFound)) && db.comments == old(db.comments)
      ensures input.articleId in old(db.articles) && (fault.Some? || newId in old(db.comments)) ==>
        r == Failure(Http(BadRequest)) && db.comments == old(db.comments)
      ensures r.Success? <==> input.articleId in old(db.articles) && fault.None? && newId !in old(db.comments)
      ensures r.Success? ==>
        && r.value.comment == Comment(newId, input.text, input.articleId, now, now)
        && r.value.article == RefOf(db.articles[input.articleId])
        && db.comments == old(db.comments)[newId := r.value.comment]
        && |db.comments| == |old(db.comments)| + 1
        && FindOne(newId) == r
    {
      if input.articleId !in db.articles {
        r := Failure(Http(RethrowNotFoundElseBadRequest(Http(NotFound))));
        return;
      }
      var failure := InsertFailure(fault, newId in db.comments);
      if failure.Some? {
        r := Failure(Http(RethrowNotFoundElseBadRequest(Raw(failure.value))));
        return;
      }
      var comment := Comment(newId, input.text, input.articleId, now, now);
      db.comments := db.comments[newId := comment];
      r := Success(View(comment));
    }

    /** The comments of one article, newest first; an unknown article has none. */
    method FindAllByArticle(articleId: Id) returns (r: seq<CommentView>, ghost ordered: seq<Comment>)
      requires db.Valid()
      ensures IsListing(ordered, CommentsOf(db.comments, articleId), CommentId)
      ensures Ordered(ordered, CommentCreatedAt, Desc)
      ensures forall i :: 0 <= i < |ordered| ==> ordered[i].articleId == articleId && articleId in db.articles
      ensures |r| == |ordered|
      ensures forall i :: 0 <= i < |ordered| ==>
        r[i].comment == ordered[i] && r[i].article == RefOf(db.articles[articleId])
      ensures |r| == |CommentsOf(db.comments, articleId)|
      ensures forall i :: 0 <= i < |r| ==>
        && r[i].comment.id in db.comments && db.comments[r[i].comment.id] == r[i].comment
        && r[i].comment.articleId == articleId
      ensures forall k :: k in db.comments && db.comments[k].articleId == articleId ==>
        View(db.comments[k]) in r
      ensures forall i, j :: 0 <= i < j < |r| ==> r[i].comment.createdAt >= r[j].comment.createdAt
    {
      var selected := CommentsOf(db.comments, articleId);
      var rows := ListTable(selected, CommentId);
      var sorted := SortBy(rows, CommentCreatedAt, Desc);
      ListingPermutation(rows, sorted, selected, CommentId);
      ordered := sorted;
      r := Views(sorted);
      forall k | k in db.comments && db.comments[k].articleId == articleId
        ensures View(db.comments[k]) in r
      {
        assert k in selected;
        var i :| 0 <= i < |sorted| && sorted[i] == selected[k];
        assert r[i] == View(db.comments[k]);
      }
    }

    /** Edits the text of an existing comment; a missing one is reported as NotFound. */
    method Update(id: Id, patch: UpdateCommentInput, now: int, fault: Option<StoreFailure>)
      returns (r: Result<CommentView, Thrown>)
      requires db.Valid()
      modifies db
      ensures db.Valid()
      ensures db.articles == old(db.articles) && db.categories == old(db.categories) && db.links == old(db.links)
      ensures db.comments.Keys == old(db.comments).Keys
      ensures forall k :: k in old(db.comments) && k != id ==> db.comments[k] == old(db.comments)[k]
      ensures id !in old(db.comments) ==> r == Failure(Http(NotFound)) && db.comments == old(db.comments)
      ensures id in old(db.comments) && fault.Some? ==>
        r == Failure(Http(BadRequest)) && db.comments == old(db.comments)
      ensures id in old(db.comments) && fault.None? ==>
        && r.Success?
        && r.value.comment == ApplyUpdate(old(db.comments)[id], patch, now)
        && r.value.comment.articleId == old(db.comments)[id].articleId
        && db.comments == old(db.comments)[id := r.value.comment]
        && FindOne(id) == r
    {
      var existing := FindOne(id);
      if existing.Failure? {
        r := Failure(Http(RethrowNotFoundElseBadRequest(existing.error)));
        return;
      }
      if fault.Some? {
        r := Failure(Http(RethrowNotFoundElseBadRequest(Raw(fault.value))));
        return;
      }
      var updated := ApplyUpdate(existing.value.comment, patch, now);
      db.comments := db.comments[id := updated];
      r := Success(View(updated));
    }

    /**
     * Deletes an existing comment and returns it. There is no catch block
     * here: a store failure on the delete surfaces unclassified.
     */
    method Remove(id: Id, fault: Option<StoreFailure>) returns (r: Result<Comment, Thrown>)
      requires db.Valid()
      modifies db
      ensures db.Valid()
      ensures db.articles == old(db.articles) && db.categories == old(db.categories) && db.links == old(db.links)
      ensures id !in old(db.comments) ==> r == Failure(Http(NotFound)) && db.comments == old(db.comments)
      ensures id in old(db.comments) && fault.Some? ==>
        r == Failure(Raw(fault.value)) && db.comments == old(db.comments)
      ensures id in old(db.comments) && fault.None? ==>
        && r == Success(old(db.comments)[id])
        && db.comments == old(db.comments) - {id}
        && FindOne(id) == Failure(Http(NotFound))
    {
      var existing := FindOne(id);
      if existing.Failure? {
        r := Failure(existing.error);
        return;
      }
      if fault.Some? {
        r := Failure(Raw(fault.value));
        return;
      }
      db.comments := db.comments - {id};
      r := Success(existing.value.comment);
    }
  }
}
