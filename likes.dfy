/**
 * Likes on posts and comments: a table of like rows, each naming the user
 * and either a post or a comment, that toggling adds to or removes from.
 */
module Likes {
  import opened Common

  type Id = string

  datatype LikeType = PostLike | CommentLike

  datatype Like = Like(id: Id, userId: Id, postId: Option<Id>, commentId: Option<Id>, kind: LikeType)

  /** What is being liked. */
  datatype Target = OnPost(postId: Id) | OnComment(commentId: Id)

  /** The `where` of `getLikeOfPost` / `getLikeOfComment`: this user, this post or comment. */
  predicate LikeOf(l: Like, userId: Id, t: Target)
  {
    l.userId == userId
    && match t
       case OnPost(p) => l.postId == Some(p)
       case OnComment(c) => l.commentId == Some(c)
  }

  /** `findFirst`: the first like of `userId` on `t`, in table order. */
  function FindLike(likes: seq<Like>, userId: Id, t: Target): (r: Option<nat>)
    ensures r.Some? ==> r.value < |likes| && LikeOf(likes[r.value], userId, t)
    ensures r.Some? ==> forall k :: 0 <= k < r.value ==> !LikeOf(likes[k], userId, t)
    ensures r.None? <==> forall k :: 0 <= k < |likes| ==> !LikeOf(likes[k], userId, t)
  {
    if likes == [] then None
    else if LikeOf(likes[0], userId, t) then Some(0)
    else
      var rest := FindLike(likes[1..], userId, t);
      if rest.None? then None else Some(rest.value + 1)
  }

  function FindLikeById(likes: seq<Like>, id: Id): (r: Option<nat>)
    ensures r.Some? ==> r.value < |likes| && likes[r.value].id == id
    ensures r.Some? ==> forall k :: 0 <= k < r.value ==> likes[k].id != id
    ensures r.None? <==> forall k :: 0 <= k < |likes| ==> likes[k].id != id
  {
    if likes == [] then None
    else if likes[0].id == id then Some(0)
    else
      var rest := FindLikeById(likes[1..], id);
      if rest.None? then None else Some(rest.value + 1)
  }

  /** The row `likePost` / `likeComment` creates. */
  function NewLike(t: Target, userId: Id, newId: Id): (l: Like)
    ensures LikeOf(l, userId, t) && l.id == newId
    ensures l.kind == (if t.OnPost? then PostLike else CommentLike)
    ensures t.OnPost? ==> l.commentId.None?
    ensures t.OnComment? ==> l.postId.None?
  {
    match t
    case OnPost(p) => Like(newId, userId, Some(p), None, PostLike)
    case OnComment(c) => Like(newId, userId, None, Some(c), CommentLike)
  }

  /** A like table together with the result of the call that produced it. */
  datatype Outcome<T> = Outcome(result: Result<T>, likes: seq<Like>)

  /** `like.delete` by id: the row goes, or the ORM reports that there was none. */
  function UnlikeSpec(likes: seq<Like>, likeId: Id): (o: Outcome<Like>)
    ensures o.result.Err? <==> forall k :: 0 <= k < |likes| ==> likes[k].id != likeId
    ensures o.result.Err? ==> o.result.error == DbError(RecordNotFound) && o.likes == likes
    ensures o.result.Ok? ==>
              var i := FindLikeById(likes, likeId).value;
              o.result.value == likes[i] && o.likes == likes[..i] + likes[i + 1..]
  {
    match FindLikeById(likes, likeId)
    case None => Outcome(Err(DbError(RecordNotFound)), likes)
    case Some(i) => Outcome(Ok(likes[i]), likes[..i] + likes[i + 1..])
  }

  /** The answer of a toggle. */
  datatype Toggled = Unliked | Liked(like: Like)

  /** `togglePostLike` / `toggleCommentLike`. */
  function ToggleSpec(likes: seq<Like>, t: Target, userId: Id, newId: Id): Outcome<Toggled>
  {
    match FindLike(likes, userId, t)
    case Some(i) =>
      var o := UnlikeSpec(likes, likes[i].id);
      if o.result.Err? then Outcome(Err(o.result.error), o.likes) else Outcome(Ok(Unliked), o.likes)
    case None =>
      var l := NewLike(t, userId, newId);
      Outcome(Ok(Liked(l)), likes + [l])
  }

  // ---------------------------------------------------------------------
  // Table invariants
  // ---------------------------------------------------------------------

  predicate UniqueIds(likes: seq<Like>)
  {
    forall i, j :: 0 <= i < j < |likes| ==> likes[i].id != likes[j].id
  }

  /** Both likes are by one user on one post, or on one comment. */
  predicate SameKey(a: Like, b: Like)
  {
    a.userId == b.userId
    && ((a.postId.Some? && a.postId == b.postId) || (a.commentId.Some? && a.commentId == b.commentId))
  }

  /** At most one like per user per post and per comment. */
  predicate OneLikePerKey(likes: seq<Like>)
  {
    forall i, j :: 0 <= i < j < |likes| ==> !SameKey(likes[i], likes[j])
  }

  predicate ValidLikes(likes: seq<Like>)
  {
    UniqueIds(likes) && OneLikePerKey(likes)
  }

  predicate FreshId(likes: seq<Like>, id: Id)
  {
    forall k :: 0 <= k < |likes| ==> likes[k].id != id
  }

  // ---------------------------------------------------------------------
  // Properties
  // ---------------------------------------------------------------------

  /** Toggle removes an existing like and answers "unliked"; otherwise it adds one and answers "liked". */
  lemma ToggleOutcomes(likes: seq<Like>, t: Target, userId: Id, newId: Id)
    ensures var o := ToggleSpec(likes, t, userId, newId);
            match FindLike(likes, userId, t)
            case Some(i) => o.result == Ok(Unliked) && FindLikeById(likes, likes[i].id).Some?
                            && |o.likes| == |likes| - 1
            case None => o.result == Ok(Liked(NewLike(t, userId, newId))) && o.likes == likes + [NewLike(t, userId, newId)]
  {
  }

  /** In a table with unique ids, unliking removes exactly the like that was found. */
  lemma ToggleRemovesFound(likes: seq<Like>, t: Target, userId: Id, newId: Id)
    requires UniqueIds(likes)
    requires FindLike(likes, userId, t).Some?
    ensures var i := FindLike(likes, userId, t).value;
            ToggleSpec(likes, t, userId, newId).likes == likes[..i] + likes[i + 1..]
  {
    var i := FindLike(likes, userId, t).value;
    assert FindLikeById(likes, likes[i].id) == Some(i);
  }

  /** A like appended to a table with none by that user on that target is the one found. */
  lemma {:induction false} FindAppendedLike(likes: seq<Like>, l: Like, userId: Id, t: Target)
    requires FindLike(likes, userId, t).None? && LikeOf(l, userId, t)
    ensures FindLike(likes + [l], userId, t) == Some(|likes|)
  {
    var after := likes + [l];
    assert forall k :: 0 <= k < |likes| ==> after[k] == likes[k];
    assert after[|likes|] == l;
  }

  /** A like appended under a fresh id is the one found by that id. */
  lemma {:induction false} FindAppendedLikeById(likes: seq<Like>, l: Like)
    requires FreshId(likes, l.id)
    ensures FindLikeById(likes + [l], l.id) == Some(|likes|)
  {
    var after := likes + [l];
    assert forall k :: 0 <= k < |likes| ==> after[k] == likes[k];
    assert after[|likes|] == l;
  }

  /** Liking then unliking with a fresh id gives back the original table. */
  lemma {:induction false} ToggleTwiceRestores(likes: seq<Like>, t: Target, userId: Id, newId: Id, otherId: Id)
    requires FindLike(likes, userId, t).None?
    requires FreshId(likes, newId)
    ensures var once := ToggleSpec(likes, t, userId, newId);
            var twice := ToggleSpec(once.likes, t, userId, otherId);
            once.result.Ok? && once.result.value.Liked?
            && twice.result == Ok(Unliked) && twice.likes == likes
  {
    var l := NewLike(t, userId, newId);
    var after := likes + [l];
    assert ToggleSpec(likes, t, userId, newId) == Outcome(Ok(Liked(l)), after);
    assert after[..|likes|] == likes && after[|likes| + 1..] == [];
    FindAppendedLike(likes, l, userId, t);
    FindAppendedLikeById(likes, l);
    assert after[|likes|].id == newId;
    assert UnlikeSpec(after, newId).likes == likes;
  }

  /** Removing one row keeps a valid table valid. */
  lemma RemovePreservesValid(likes: seq<Like>, i: nat)
    requires ValidLikes(likes) && i < |likes|
    ensures ValidLikes(likes[..i] + likes[i + 1..])
  {
    var r := likes[..i] + likes[i + 1..];
    assert forall k :: 0 <= k < |r| ==> r[k] == if k < i then likes[k] else likes[k + 1];
  }

  /** Adding the like of a user who had none on that target, under a fresh id, keeps the table valid. */
  lemma AddPreservesValid(likes: seq<Like>, t: Target, userId: Id, newId: Id)
    requires ValidLikes(likes)
    requires FreshId(likes, newId)
    requires FindLike(likes, userId, t).None?
    ensures ValidLikes(likes + [NewLike(t, userId, newId)])
  {
    var l := NewLike(t, userId, newId);
    forall k | 0 <= k < |likes|
      ensures !SameKey(likes[k], l)
    {
      assert !LikeOf(likes[k], userId, t);
    }
  }

  /** Toggling keeps ids unique and at most one like per user and target. */
  lemma TogglePreservesValid(likes: seq<Like>, t: Target, userId: Id, newId: Id)
    requires ValidLikes(likes)
    requires FreshId(likes, newId)
    ensures ValidLikes(ToggleSpec(likes, t, userId, newId).likes)
  {
    match FindLike(likes, userId, t)
    case Some(i) =>
      ToggleRemovesFound(likes, t, userId, newId);
      RemovePreservesValid(likes, i);
    case None =>
      AddPreservesValid(likes, t, userId, newId);
  }

  // ---------------------------------------------------------------------
  // The service over its table
  // ---------------------------------------------------------------------

  class LikesService {
    var likes: seq<Like>

    constructor (initial: seq<Like>)
      ensures likes == initial
    {
      likes := initial;
    }

    function GetLikeOfPost(postId: Id, userId: Id): (r: Option<Like>)
      reads this
      ensures r.None? <==> forall k :: 0 <= k < |likes| ==> !LikeOf(likes[k], userId, OnPost(postId))
      ensures r.Some? ==> r.value in likes && r.value.userId == userId && r.value.postId == Some(postId)
    {
      match FindLike(likes, userId, OnPost(postId))
      case None => None
      case Some(i) => Some(likes[i])
    }

    function GetLikeOfComment(commentId: Id, userId: Id): (r: Option<Like>)
      reads this
      ensures r.None? <==> forall k :: 0 <= k < |likes| ==> !LikeOf(likes[k], userId, OnComment(commentId))
      ensures r.Some? ==> r.value in likes && r.value.userId == userId && r.value.commentId == Some(commentId)
    {
      match FindLike(likes, userId, OnComment(commentId))
      case None => None
      case Some(i) => Some(likes[i])
    }

    method LikePost(postId: Id, currentUserId: Id, newId: Id) returns (r: Like)
      modifies this
      ensures r == NewLike(OnPost(postId), currentUserId, newId)
      ensures likes == old(likes) + [r]
    {
      r := Like(newId, currentUserId, Some(postId), None, PostLike);
      likes := likes + [r];
    }

    method LikeComment(commentId: Id, currentUserId: Id, newId: Id) returns (r: Like)
      modifies this
      ensures r == NewLike(OnComment(commentId), currentUserId, newId)
      ensures likes == old(likes) + [r]
    {
      r := Like(newId, currentUserId, None, Some(commentId), CommentLike);
      likes := likes + [r];
    }

    /** `unlikePost` and `unlikeComment` share this body: delete by id. */
    method Unlike(likeId: Id) returns (r: Result<Like>)
      modifies this
      ensures Outcome(r, likes) == UnlikeSpec(old(likes), likeId)
    {
      var i := FindLikeById(likes, likeId);
      if i.None? {
        return Err(DbError(RecordNotFound));
      }
      r := Ok(likes[i.value]);
      likes := likes[..i.value] + likes[i.value + 1..];
    }

    method TogglePostLike(postId: Id, currentUserId: Id, newId: Id) returns (r: Result<Toggled>)
      modifies this
      ensures Outcome(r, likes) == ToggleSpec(old(likes), OnPost(postId), currentUserId, newId)
    {
      var like := GetLikeOfPost(postId, currentUserId);
      if like.Some? {
        var deleted := Unlike(like.value.id);
        if deleted.Err? {
          return Err(deleted.error);
        }
        return Ok(Unliked);
      }
      var created := LikePost(postId, currentUserId, newId);
      return Ok(Liked(created));
    }

    method ToggleCommentLike(commentId: Id, currentUserId: Id, newId: Id) returns (r: Result<Toggled>)
      modifies this
      ensures Outcome(r, likes) == ToggleSpec(old(likes), OnComment(commentId), currentUserId, newId)
    {
      var like := GetLikeOfComment(commentId, currentUserId);
      if like.Some? {
        var deleted := Unlike(like.value.id);
        if deleted.Err? {
          return Err(deleted.error);
        }
        return Ok(Unliked);
      }
      var created := LikeComment(commentId, currentUserId, newId);
      return Ok(Liked(created));
    }
  }
}
