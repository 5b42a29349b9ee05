/**
 * Comments on posts: creating one under an existing post, deleting one when
 * the caller wrote it or owns the post, and listing a post's comments newest
 * first.
 */
module Comments {
  import opened Common
  import Sorting
  import Pagination
  import Tables
  import Posts

  type Id = string

  datatype Comment = Comment(id: Id, authorId: Id, postId: Id, content: string, createdAt: int)

  datatype Outcome = Outcome(result: Result<Comment>, comments: seq<Comment>)

  /** What `delete` leaves: its result carries no value, as the call resolves to nothing. */
  datatype Deletion = Deletion(result: Result<()>, comments: seq<Comment>)

  function FindComment(comments: seq<Comment>, id: Id): (r: Option<nat>)
    ensures r.Some? ==> r.value < |comments| && comments[r.value].id == id
    ensures r.Some? ==> forall k :: 0 <= k < r.value ==> comments[k].id != id
    ensures r.None? <==> forall k :: 0 <= k < |comments| ==> comments[k].id != id
  {
    if comments == [] then None
    else if comments[0].id == id then Some(0)
    else
      var rest := FindComment(comments[1..], id);
      if rest.None? then None else Some(rest.value + 1)
  }

  /** `create`: the post must exist; the comment is written by the caller under that post. */
  function CreateSpec(comments: seq<Comment>, posts: seq<Posts.Post>, content: string, postId: Id,
                      current: Id, newId: Id, now: int): (o: Outcome)
    ensures o.result.Err? <==> Posts.FindPost(posts, postId).None?
    ensures o.result.Err? ==> o.result.error == HttpError(NotFound, "Post not found") && o.comments == comments
    ensures o.result.Ok? ==>
              o.result.value.authorId == current && o.result.value.postId == postId
              && o.result.value.content == content && o.comments == comments + [o.result.value]
  {
    if Posts.FindPost(posts, postId).None? then Outcome(Err(HttpError(NotFound, "Post not found")), comments)
    else
      var c := Comment(newId, current, postId, content, now);
      Outcome(Ok(c), comments + [c])
  }

  /**
   * The permission rule of `delete`: the caller wrote the comment, or wrote
   * the post and is still a live (not soft-deleted) user.
   */
  predicate MayDelete(c: Comment, post: Posts.Post, liveUsers: set<Id>, current: Id)
  {
    c.authorId == current || (post.authorId in liveUsers && post.authorId == current)
  }

  /** `delete`. A comment whose post row is gone fails when the post's author is read. */
  function DeleteSpec(comments: seq<Comment>, posts: seq<Posts.Post>, liveUsers: set<Id>, commentId: Id, current: Id)
    : Deletion
  {
    match FindComment(comments, commentId)
    case None => Deletion(Err(HttpError(NotFound, "Comment not found")), comments)
    case Some(i) =>
      match Posts.FindPost(posts, comments[i].postId)
      case None => Deletion(Err(Unexpected), comments)
      case Some(j) =>
        if !MayDelete(comments[i], posts[j], liveUsers, current) then
          Deletion(Err(HttpError(Forbidden, "You cannot delete this comment")), comments)
        else Deletion(Ok(()), comments[..i] + comments[i + 1..])
  }

  /** Deletion succeeds exactly when the comment and its post exist and the caller may delete it. */
  lemma DeleteAllowedIff(comments: seq<Comment>, posts: seq<Posts.Post>, liveUsers: set<Id>, commentId: Id, current: Id)
    ensures var o := DeleteSpec(comments, posts, liveUsers, commentId, current);
            o.result.Ok? <==>
              FindComment(comments, commentId).Some?
              && var c := comments[FindComment(comments, commentId).value];
                 Posts.FindPost(posts, c.postId).Some?
                 && MayDelete(c, posts[Posts.FindPost(posts, c.postId).value], liveUsers, current)
    ensures var o := DeleteSpec(comments, posts, liveUsers, commentId, current);
            o.result.Err? ==> o.comments == comments
  {
  }

  /** A stranger to both the comment and the post is refused, and nothing is deleted. */
  lemma StrangerCannotDelete(comments: seq<Comment>, posts: seq<Posts.Post>, liveUsers: set<Id>, commentId: Id, current: Id)
    requires FindComment(comments, commentId).Some?
    requires var c := comments[FindComment(comments, commentId).value];
             c.authorId != current
             && forall k :: 0 <= k < |posts| && posts[k].id == c.postId ==> posts[k].authorId != current
    ensures DeleteSpec(comments, posts, liveUsers, commentId, current).comments == comments
  {
  }

  /** A successful delete removes exactly the one comment; all others remain, in order. */
  lemma {:induction false} DeleteRemovesOnlyIt(comments: seq<Comment>, posts: seq<Posts.Post>, liveUsers: set<Id>,
                                               commentId: Id, current: Id)
    requires forall i, j :: 0 <= i < j < |comments| ==> comments[i].id != comments[j].id
    requires DeleteSpec(comments, posts, liveUsers, commentId, current).result.Ok?
    ensures var r := DeleteSpec(comments, posts, liveUsers, commentId, current).comments;
            |r| == |comments| - 1
            && (forall k :: 0 <= k < |r| ==> r[k].id != commentId && r[k] in comments)
            && (forall k :: 0 <= k < |comments| && comments[k].id != commentId ==> comments[k] in r)
  {
    var i := FindComment(comments, commentId).value;
    var r := comments[..i] + comments[i + 1..];
    Tables.RemoveAt(comments, i);
    forall k | 0 <= k < |r|
      ensures r[k].id != commentId && r[k] in comments
    {
      if k < i {
        assert r[k] == comments[k];
      } else {
        assert r[k] == comments[k + 1];
      }
    }
    forall k | 0 <= k < |comments| && comments[k].id != commentId
      ensures comments[k] in r
    {
      if k < i {
        assert r[k] == comments[k];
      } else {
        assert r[k - 1] == comments[k];
      }
    }
  }

  /** `orderBy: { createdAt: 'desc' }`. */
  predicate Newer(a: Comment, b: Comment)
  {
    a.createdAt >= b.createdAt
  }

  lemma NewerIsTotalPreorder()
    ensures Sorting.TotalPreorder(Newer)
  {
  }

  predicate OnPost(c: Comment, postId: Id)
  {
    c.postId == postId
  }

  /** The comments of one post, newest first. */
  function CommentsOf(comments: seq<Comment>, postId: Id): (r: seq<Comment>)
    ensures |r| == Tables.Count(comments, c => OnPost(c, postId))
    ensures Sorting.SortedBy(r, Newer)
    ensures forall k :: 0 <= k < |r| ==> r[k] in comments && r[k].postId == postId
    ensures multiset(r) == multiset(Tables.Filter(comments, c => OnPost(c, postId)))
  {
    var mine := Tables.Filter(comments, c => OnPost(c, postId));
    NewerIsTotalPreorder();
    Sorting.SortSorted(mine, Newer);
    var r := Sorting.Sort(mine, Newer);
    assert forall k :: 0 <= k < |r| ==> r[k] in multiset(mine);
    r
  }

  /** `getCommentsOfPost`. */
  function GetCommentsOfPost(comments: seq<Comment>, posts: seq<Posts.Post>, postId: Id, page: Pagination.Page)
    : (r: Result<Pagination.Paginated<Comment>>)
    requires Pagination.ValidPage(page)
    ensures r.Err? <==> Posts.FindPost(posts, postId).None?
    ensures r.Err? ==> r.error == HttpError(NotFound, "Post not found")
    ensures r.Ok? ==>
              |r.value.items| <= page.limit
              && Sorting.SortedBy(r.value.items, Newer)
              && (forall k :: 0 <= k < |r.value.items| ==> r.value.items[k] in comments && r.value.items[k].postId == postId)
              && r.value.meta == Pagination.GetMeta(page, Tables.Count(comments, c => OnPost(c, postId)))
    ensures r.Ok? ==> r.value.items == Tables.Window(CommentsOf(comments, postId), Pagination.Use(page))
  {
    if Posts.FindPost(posts, postId).None? then Err(HttpError(NotFound, "Post not found"))
    else
      var all := CommentsOf(comments, postId);
      var items := Tables.Window(all, Pagination.Use(page));
      assert forall k :: 0 <= k < |items| ==> items[k] == all[Pagination.Skip(page) + k];
      Ok(Pagination.Paginate(page, items, |all|))
  }

  /** Position `pos` of a page holds the listing's comment at skip + pos. */
  lemma CommentPageWindow(comments: seq<Comment>, posts: seq<Posts.Post>, postId: Id, page: Pagination.Page, pos: nat)
    requires Posts.FindPost(posts, postId).Some?
    requires Pagination.ValidPage(page) && pos < page.limit
    requires Pagination.Skip(page) + pos < |CommentsOf(comments, postId)|
    ensures var r := GetCommentsOfPost(comments, posts, postId, page);
            r.Ok? && pos < |r.value.items| && r.value.items[pos] == CommentsOf(comments, postId)[Pagination.Skip(page) + pos]
  {
    var items := Tables.Window(CommentsOf(comments, postId), Pagination.Use(page));
    assert pos < |items|;
  }

  /** Every comment of the listing is on the page whose window holds its position. */
  lemma CommentOnItsPage(comments: seq<Comment>, posts: seq<Posts.Post>, postId: Id, limit: int, i: nat)
    requires Posts.FindPost(posts, postId).Some?
    requires Pagination.MinLimit <= limit <= Pagination.MaxLimit
    requires i < |CommentsOf(comments, postId)|
    ensures var p := Pagination.PageOf(i, limit);
            var r := GetCommentsOfPost(comments, posts, postId, p);
            r.Ok? && i - Pagination.Skip(p) < |r.value.items|
            && r.value.items[i - Pagination.Skip(p)] == CommentsOf(comments, postId)[i]
  {
    var p := Pagination.PageOf(i, limit);
    CommentPageWindow(comments, posts, postId, p, i - Pagination.Skip(p));
  }

  class CommentsService {
    var comments: seq<Comment>

    constructor (initial: seq<Comment>)
      ensures comments == initial
    {
      comments := initial;
    }

    method Create(content: string, postId: Id, currentUserId: Id, posts: seq<Posts.Post>, newId: Id, now: int)
      returns (r: Result<Comment>)
      modifies this
      ensures Outcome(r, comments) == CreateSpec(old(comments), posts, content, postId, currentUserId, newId, now)
    {
      var post := Posts.FindPost(posts, postId);
      if post.None? {
        return Err(HttpError(NotFound, "Post not found"));
      }
      var c := Comment(newId, currentUserId, postId, content, now);
      comments := comments + [c];
      return Ok(c);
    }

    method Delete(commentId: Id, currentUserId: Id, posts: seq<Posts.Post>, liveUsers: set<Id>)
      returns (r: Result<()>)
      modifies this
      ensures Deletion(r, comments) == DeleteSpec(old(comments), posts, liveUsers, commentId, currentUserId)
    {
      var i := FindComment(comments, commentId);
      if i.None? {
        return Err(HttpError(NotFound, "Comment not found"));
      }
      var comment := comments[i.value];
      var j := Posts.FindPost(posts, comment.postId);
      if j.None? {
        return Err(Unexpected);
      }
      var postAuthor: Option<Id> := if posts[j.value].authorId in liveUsers then Some(posts[j.value].authorId) else None;
      if comment.authorId != currentUserId && !(postAuthor.Some? && postAuthor.value == currentUserId) {
        return Err(HttpError(Forbidden, "You cannot delete this comment"));
      }
      comments := comments[..i.value] + comments[i.value + 1..];
      return Ok(());
    }
  }
}
