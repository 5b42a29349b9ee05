/**
 * Posts: who may see a post, the searches and listings built on that rule,
 * the viewer's votes on a post's poll, and post creation with its
 * one-pinned-post-per-author rule.
 */
module Posts {
  import opened Common
  import Strings
  import Sorting
  import Pagination
  import Tables

  type Id = string

  datatype Visibility = Public | Friends | Private

  /** A poll option with the users who voted for it. */
  datatype PollOption = PollOption(id: Id, voterIds: seq<Id>)

  datatype Poll = Poll(id: Id, maxVotes: nat, options: seq<PollOption>)

  /** A post row, with its poll relation included. */
  datatype Post = Post(
    id: Id,
    authorId: Id,
    content: string,
    visibility: Visibility,
    isPinned: bool,
    createdAt: int,
    poll: Option<Poll>)

  // ---------------------------------------------------------------------
  // Visibility
  // ---------------------------------------------------------------------

  /** The `where` clause shared by every post listing for a viewer with the given friends. */
  predicate VisibleTo(p: Post, viewer: Id, friendIds: seq<Id>)
  {
    p.visibility == Public
    || p.authorId == viewer
    || (p.authorId in friendIds && p.visibility != Private)
  }

  /** What each visibility level means, case by case. */
  lemma VisibilityByLevel(p: Post, viewer: Id, friendIds: seq<Id>)
    ensures p.visibility == Public ==> VisibleTo(p, viewer, friendIds)
    ensures p.visibility == Friends ==> (VisibleTo(p, viewer, friendIds) <==> p.authorId == viewer || p.authorId in friendIds)
    ensures p.visibility == Private ==> (VisibleTo(p, viewer, friendIds) <==> p.authorId == viewer)
    ensures p.authorId == viewer ==> VisibleTo(p, viewer, friendIds)
  {
  }

  /** Having more friends never hides a post. */
  lemma VisibilityMonotone(p: Post, viewer: Id, friendIds: seq<Id>, more: seq<Id>)
    requires forall f :: f in friendIds ==> f in more
    requires VisibleTo(p, viewer, friendIds)
    ensures VisibleTo(p, viewer, more)
  {
  }

  // ---------------------------------------------------------------------
  // Global search
  // ---------------------------------------------------------------------

  const SearchLimit: nat := 3

  /** A search result tagged with the kind of item it is. */
  datatype SearchHit = SearchHit(item: Post, kind: string)

  predicate SearchMatch(p: Post, query: string, viewer: Id, friendIds: seq<Id>)
  {
    Strings.ContainsInsensitive(p.content, query) && VisibleTo(p, viewer, friendIds)
  }

  function TagPosts(ps: seq<Post>): (r: seq<SearchHit>)
    ensures |r| == |ps|
    ensures forall k :: 0 <= k < |r| ==> r[k] == SearchHit(ps[k], "post")
  {
    seq(|ps|, k requires 0 <= k < |ps| => SearchHit(ps[k], "post"))
  }

  /** `globalSearch`: the first matching visible posts, in table order, at most three. */
  function GlobalSearch(posts: seq<Post>, query: string, viewer: Id, friendIds: seq<Id>): (r: seq<SearchHit>)
    ensures |r| <= SearchLimit
    ensures |r| == if Tables.Count(posts, p => SearchMatch(p, query, viewer, friendIds)) < SearchLimit
                   then Tables.Count(posts, p => SearchMatch(p, query, viewer, friendIds)) else SearchLimit
    ensures forall k :: 0 <= k < |r| ==>
              r[k].kind == "post" && r[k].item in posts
              && Strings.ContainsInsensitive(r[k].item.content, query)
              && VisibleTo(r[k].item, viewer, friendIds)
  {
    TagPosts(Tables.Take(Tables.Filter(posts, p => SearchMatch(p, query, viewer, friendIds)), SearchLimit))
  }

  /** Fewer than three matches: every matching visible post is found. */
  lemma GlobalSearchComplete(posts: seq<Post>, query: string, viewer: Id, friendIds: seq<Id>, p: Post)
    requires Tables.Count(posts, p => SearchMatch(p, query, viewer, friendIds)) < SearchLimit
    requires p in posts && SearchMatch(p, query, viewer, friendIds)
    ensures SearchHit(p, "post") in GlobalSearch(posts, query, viewer, friendIds)
  {
    var matches := Tables.Filter(posts, p => SearchMatch(p, query, viewer, friendIds));
    var k :| 0 <= k < |posts| && posts[k] == p;
    assert p in matches;
    var i :| 0 <= i < |matches| && matches[i] == p;
    assert GlobalSearch(posts, query, viewer, friendIds)[i] == SearchHit(p, "post");
  }

  // ---------------------------------------------------------------------
  // The feed's post page
  // ---------------------------------------------------------------------

  datatype PostPage = PostPage(posts: seq<Post>, total: nat)

  function Visible(posts: seq<Post>, viewer: Id, friendIds: seq<Id>): (r: seq<Post>)
    ensures forall k :: 0 <= k < |r| ==> r[k] in posts && VisibleTo(r[k], viewer, friendIds)
    ensures forall p :: p in posts && VisibleTo(p, viewer, friendIds) ==> p in r
  {
    var r := Tables.Filter(posts, p => VisibleTo(p, viewer, friendIds));
    assert forall p :: p in posts && VisibleTo(p, viewer, friendIds) ==> p in r by {
      forall p | p in posts && VisibleTo(p, viewer, friendIds) ensures p in r {
        var k :| 0 <= k < |posts| && posts[k] == p;
      }
    }
    r
  }

  /** `getPostsForFeed`: one window of the visible posts, and how many visible posts there are. */
  function PostsForFeed(posts: seq<Post>, viewer: Id, friendIds: seq<Id>, page: Pagination.Page): (r: PostPage)
    requires Pagination.ValidPage(page)
    ensures r.total == |Visible(posts, viewer, friendIds)|
    ensures |r.posts| <= page.limit
    ensures forall k :: 0 <= k < |r.posts| ==> r.posts[k] in posts && VisibleTo(r.posts[k], viewer, friendIds)
  {
    var all := Visible(posts, viewer, friendIds);
    PostPage(Tables.Window(all, Pagination.Use(page)), |all|)
  }

  /**
   * Position `pos` of a page holds the visible post at `skip + pos`, so the
   * pages list the visible posts in order; with `Pagination.PageOfItem`,
   * visible post `i` is on page `i / limit + 1`, and paging misses none.
   */
  lemma {:induction false} FeedPagesCoverVisible(posts: seq<Post>, viewer: Id, friendIds: seq<Id>,
                                                 page: Pagination.Page, pos: nat)
    requires Pagination.ValidPage(page) && pos < page.limit
    requires Pagination.Skip(page) + pos < |Visible(posts, viewer, friendIds)|
    ensures pos < |PostsForFeed(posts, viewer, friendIds, page).posts|
    ensures PostsForFeed(posts, viewer, friendIds, page).posts[pos] == Visible(posts, viewer, friendIds)[Pagination.Skip(page) + pos]
  {
    var w := Pagination.Use(page);
    var all := Visible(posts, viewer, friendIds);
    var window := Tables.Window(all, w);
    assert PostsForFeed(posts, viewer, friendIds, page).posts == window;
    assert pos < |window|;
  }

  // ---------------------------------------------------------------------
  // A user's posts: pinned first, then newest first
  // ---------------------------------------------------------------------

  /** The `orderBy` of `getPostsOfUser`: `isPinned` descending, then `createdAt` descending. */
  predicate PinnedThenNewest(a: Post, b: Post)
  {
    (a.isPinned && !b.isPinned) || (a.isPinned == b.isPinned && a.createdAt >= b.createdAt)
  }

  lemma PinnedThenNewestIsTotalPreorder()
    ensures Sorting.TotalPreorder(PinnedThenNewest)
  {
  }

  /** The `where` clause of `getPostsOfUser`: by that user and visible to the viewer. */
  predicate ListedFor(p: Post, user: Id, viewer: Id, friendIds: seq<Id>)
  {
    p.authorId == user && VisibleTo(p, viewer, friendIds)
  }

  /** Every post of `user` the viewer may see, pinned first and then newest first. */
  function UserListing(posts: seq<Post>, user: Id, viewer: Id, friendIds: seq<Id>): (r: seq<Post>)
    ensures |r| == Tables.Count(posts, p => ListedFor(p, user, viewer, friendIds))
    ensures Sorting.SortedBy(r, PinnedThenNewest)
    ensures forall k :: 0 <= k < |r| ==> r[k] in posts && ListedFor(r[k], user, viewer, friendIds)
    ensures multiset(r) == multiset(Tables.Filter(posts, p => ListedFor(p, user, viewer, friendIds)))
  {
    var mine := Tables.Filter(posts, p => ListedFor(p, user, viewer, friendIds));
    var ordered := Sorting.Sort(mine, PinnedThenNewest);
    PinnedThenNewestIsTotalPreorder();
    Sorting.SortSorted(mine, PinnedThenNewest);
    assert forall k :: 0 <= k < |ordered| ==> ordered[k] in multiset(mine);
    ordered
  }

  /** `getPostsOfUser`; `user` is the live user with the requested username, if any. */
  function PostsOfUser(posts: seq<Post>, user: Option<Id>, viewer: Id, friendIds: seq<Id>, page: Pagination.Page)
    : (r: Result<Pagination.Paginated<Post>>)
    requires Pagination.ValidPage(page)
    ensures user.None? <==> r.Err?
    ensures r.Err? ==> r.error == HttpError(NotFound, "User not found")
    ensures r.Ok? ==>
              |r.value.items| <= page.limit
              && Sorting.SortedBy(r.value.items, PinnedThenNewest)
              && (forall k :: 0 <= k < |r.value.items| ==>
                    r.value.items[k] in posts && ListedFor(r.value.items[k], user.value, viewer, friendIds))
              && r.value.meta == Pagination.GetMeta(page, Tables.Count(posts, p => ListedFor(p, user.value, viewer, friendIds)))
    ensures r.Ok? ==> r.value.items == Tables.Window(UserListing(posts, user.value, viewer, friendIds), Pagination.Use(page))
  {
    if user.None? then Err(HttpError(NotFound, "User not found"))
    else
      var ordered := UserListing(posts, user.value, viewer, friendIds);
      var items := Tables.Window(ordered, Pagination.Use(page));
      assert forall k :: 0 <= k < |items| ==> items[k] == ordered[Pagination.Skip(page) + k];
      Ok(Pagination.Paginate(page, items, |ordered|))
  }

  /** Every post of the user's listing is on the page whose window holds its position. */
  lemma UserPostOnItsPage(posts: seq<Post>, user: Id, viewer: Id, friendIds: seq<Id>, limit: int, i: nat)
    requires Pagination.MinLimit <= limit <= Pagination.MaxLimit
    requires i < |UserListing(posts, user, viewer, friendIds)|
    ensures var p := Pagination.PageOf(i, limit);
            var r := PostsOfUser(posts, Some(user), viewer, friendIds, p);
            r.Ok? && i - Pagination.Skip(p) < |r.value.items|
            && r.value.items[i - Pagination.Skip(p)] == UserListing(posts, user, viewer, friendIds)[i]
  {
    var p := Pagination.PageOf(i, limit);
    var items := Tables.Window(UserListing(posts, user, viewer, friendIds), Pagination.Use(p));
    assert i - Pagination.Skip(p) < |items|;
  }

  /** On every page of a user's posts, a pinned post never follows an unpinned one, and ties go newest first. */
  lemma PinnedComeFirst(posts: seq<Post>, user: Id, viewer: Id, friendIds: seq<Id>, page: Pagination.Page, i: nat, j: nat)
    requires Pagination.ValidPage(page)
    requires var items := PostsOfUser(posts, Some(user), viewer, friendIds, page).value.items;
             i < j < |items|
    ensures var items := PostsOfUser(posts, Some(user), viewer, friendIds, page).value.items;
            (items[j].isPinned ==> items[i].isPinned)
            && (items[i].isPinned == items[j].isPinned ==> items[i].createdAt >= items[j].createdAt)
  {
  }

  // ---------------------------------------------------------------------
  // A single post and the viewer's votes on its poll
  // ---------------------------------------------------------------------

  /** The ids of the options the viewer voted for, in option order. */
  function VotedOptions(options: seq<PollOption>, viewer: Id): (r: seq<Id>)
    ensures |r| <= |options|
    ensures forall id :: id in r <==> exists k :: 0 <= k < |options| && options[k].id == id && viewer in options[k].voterIds
  {
    if options == [] then []
    else
      var rest := VotedOptions(options[1..], viewer);
      assert forall k :: 1 <= k < |options| ==> options[k] == options[1..][k - 1];
      if viewer in options[0].voterIds then [options[0].id] + rest else rest
  }

  /** `userVotes`: none without a poll. */
  function UserVotes(p: Post, viewer: Id): (r: seq<Id>)
    ensures p.poll.None? ==> r == []
    ensures p.poll.Some? ==> forall id :: id in r <==>
              exists k :: 0 <= k < |p.poll.value.options| && p.poll.value.options[k].id == id
                          && viewer in p.poll.value.options[k].voterIds
  {
    if p.poll.None? then [] else VotedOptions(p.poll.value.options, viewer)
  }

  /** A user who voted on nothing has no votes listed. */
  lemma {:induction false} NoVotesListedForNonVoter(options: seq<PollOption>, viewer: Id)
    requires forall k :: 0 <= k < |options| ==> viewer !in options[k].voterIds
    ensures VotedOptions(options, viewer) == []
  {
    if options != [] {
      assert forall k :: 0 <= k < |options[1..]| ==> options[1..][k] == options[k + 1];
      NoVotesListedForNonVoter(options[1..], viewer);
    }
  }

  datatype PostView = PostView(post: Post, userVotes: seq<Id>)

  /** The first row with that id. */
  function FindPost(posts: seq<Post>, id: Id): (r: Option<nat>)
    ensures r.Some? ==> r.value < |posts| && posts[r.value].id == id
    ensures r.None? <==> forall k :: 0 <= k < |posts| ==> posts[k].id != id
  {
    if posts == [] then None
    else if posts[0].id == id then Some(0)
    else
      var rest := FindPost(posts[1..], id);
      if rest.None? then None else Some(rest.value + 1)
  }

  /** `getPostById`: a missing post and a post the viewer may not see are both "not found". */
  function GetPostById(posts: seq<Post>, postId: Id, viewer: Id, friendIds: seq<Id>): (r: Result<PostView>)
    ensures r.Ok? <==> FindPost(posts, postId).Some? && VisibleTo(posts[FindPost(posts, postId).value], viewer, friendIds)
    ensures r.Err? ==> r.error == HttpError(NotFound, "Post not found")
    ensures r.Ok? ==> r.value.post.id == postId && r.value.post in posts
                      && r.value.userVotes == UserVotes(r.value.post, viewer)
  {
    match FindPost(posts, postId)
    case None => Err(HttpError(NotFound, "Post not found"))
    case Some(i) =>
      if !VisibleTo(posts[i], viewer, friendIds) then Err(HttpError(NotFound, "Post not found"))
      else Ok(PostView(posts[i], UserVotes(posts[i], viewer)))
  }

  // ---------------------------------------------------------------------
  // Creating a post
  // ---------------------------------------------------------------------

  datatype CreatePostDto = CreatePostDto(content: string, visibility: Visibility, isPinned: bool, poll: Option<Poll>)

  /** `updateMany` that unpins every pinned post of `author`. */
  function UnpinAll(posts: seq<Post>, author: Id): (r: seq<Post>)
    ensures |r| == |posts|
    ensures forall k :: 0 <= k < |r| ==>
              r[k] == (if posts[k].authorId == author then posts[k].(isPinned := false) else posts[k])
  {
    seq(|posts|, k requires 0 <= k < |posts| =>
      if posts[k].authorId == author then posts[k].(isPinned := false) else posts[k])
  }

  /** The post a `createPost` call inserts: the DTO's fields with the current user as author. */
  function NewPost(dto: CreatePostDto, current: Id, newId: Id, now: int): (p: Post)
    ensures p.authorId == current && p.id == newId
    ensures p.content == dto.content && p.visibility == dto.visibility && p.isPinned == dto.isPinned
  {
    Post(newId, current, dto.content, dto.visibility, dto.isPinned, now, dto.poll)
  }

  /** The post table after `createPost`. */
  function CreatePostSpec(posts: seq<Post>, dto: CreatePostDto, current: Id, newId: Id, now: int): (r: seq<Post>)
    ensures |r| == |posts| + 1 && r[|posts|] == NewPost(dto, current, newId, now)
    ensures forall k :: 0 <= k < |posts| ==>
              if dto.isPinned && posts[k].authorId == current then r[k] == posts[k].(isPinned := false)
              else r[k] == posts[k]
  {
    (if dto.isPinned then UnpinAll(posts, current) else posts) + [NewPost(dto, current, newId, now)]
  }

  /** No author has two pinned posts. */
  predicate AtMostOnePinned(posts: seq<Post>)
  {
    forall i, j :: 0 <= i < j < |posts| && posts[i].isPinned && posts[j].isPinned ==> posts[i].authorId != posts[j].authorId
  }

  lemma CreatePostKeepsOnePinned(posts: seq<Post>, dto: CreatePostDto, current: Id, newId: Id, now: int)
    requires AtMostOnePinned(posts)
    ensures AtMostOnePinned(CreatePostSpec(posts, dto, current, newId, now))
  {
  }

  /** A freshly pinned post is its author's only pinned post. */
  lemma PinnedPostIsTheOnlyOne(posts: seq<Post>, dto: CreatePostDto, current: Id, newId: Id, now: int, k: nat)
    requires dto.isPinned
    requires var r := CreatePostSpec(posts, dto, current, newId, now);
             k < |r| && r[k].authorId == current && r[k].isPinned
    ensures k == |posts|
  {
  }

  class PostsService {
    var posts: seq<Post>

    constructor (initial: seq<Post>)
      ensures posts == initial
    {
      posts := initial;
    }

    /** `createPost`: unpin the author's posts when the new one is pinned, then insert it. */
    method CreatePost(dto: CreatePostDto, currentUserId: Id, newId: Id, now: int) returns (r: Post)
      modifies this
      ensures posts == CreatePostSpec(old(posts), dto, currentUserId, newId, now)
      ensures r == NewPost(dto, currentUserId, newId, now)
    {
      if dto.isPinned {
        posts := UnpinAll(posts, currentUserId);
      }
      r := NewPost(dto, currentUserId, newId, now);
      posts := posts + [r];
    }
  }
}
