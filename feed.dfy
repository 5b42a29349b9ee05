/**
 * The home feed: one page of the viewer's visible posts and one page of
 * matches, merged newest first.
 */
module Feed {
  import opened Common
  import Users
  import Posts
  import Pagination
  import Sorting

  type Id = string

  /** A match as the feed sees it. */
  datatype Match = Match(id: Id, createdAt: int)

  datatype FeedItem = PostItem(post: Posts.Post) | MatchItem(matchRow: Match)

  function CreatedAt(item: FeedItem): int
  {
    match item
    case PostItem(p) => p.createdAt
    case MatchItem(m) => m.createdAt
  }

  /** The comparator `b.createdAt - a.createdAt`: newer first. */
  predicate NewerFirst(a: FeedItem, b: FeedItem)
  {
    CreatedAt(a) >= CreatedAt(b)
  }

  lemma NewerFirstIsTotalPreorder()
    ensures Sorting.TotalPreorder(NewerFirst)
  {
  }

  predicate IsPost(item: FeedItem)
  {
    item.PostItem?
  }

  /** `[...posts, ...matches]`. */
  function Merge(posts: seq<Posts.Post>, matches: seq<Match>): (r: seq<FeedItem>)
    ensures |r| == |posts| + |matches|
    ensures forall k :: 0 <= k < |posts| ==> r[k] == PostItem(posts[k])
    ensures forall k :: 0 <= k < |matches| ==> r[|posts| + k] == MatchItem(matches[k])
  {
    seq(|posts|, k requires 0 <= k < |posts| => PostItem(posts[k]))
    + seq(|matches|, k requires 0 <= k < |matches| => MatchItem(matches[k]))
  }

  lemma MergePostsFirst(posts: seq<Posts.Post>, matches: seq<Match>)
    ensures Sorting.PartitionedBy(Merge(posts, matches), IsPost)
  {
  }

  /** The matches' page for the feed: the rows and their total, from the matches service. */
  datatype MatchPage = MatchPage(matches: seq<Match>, total: nat)

  /** `getFeed`. */
  function GetFeed(users: seq<Users.User>, current: Id, posts: seq<Posts.Post>, friendIds: seq<Id>,
                   matchPage: MatchPage, page: Pagination.Page): (r: Result<Pagination.Paginated<FeedItem>>)
    requires Pagination.ValidPage(page)
    ensures r.Err? <==> Users.FindUser(users, Users.ById(current)).None?
    ensures r.Err? ==> r.error == HttpError(Unauthorized, "Unauthorized")
  {
    if Users.FindUser(users, Users.ById(current)).None? then Err(HttpError(Unauthorized, "Unauthorized"))
    else
      var postPage := Posts.PostsForFeed(posts, current, friendIds, page);
      var feed := Sorting.Sort(Merge(postPage.posts, matchPage.matches), NewerFirst);
      Ok(Pagination.Paginate(page, feed, postPage.total + matchPage.total))
  }

  /**
   * The feed is the posts' page and the matches' page, rearranged newest
   * first; at equal times posts stay before matches. Its total counts every
   * visible post and every match, and it holds at most two pages' worth.
   */
  lemma FeedIsMergedNewestFirst(users: seq<Users.User>, current: Id, posts: seq<Posts.Post>, friendIds: seq<Id>,
                                matchPage: MatchPage, page: Pagination.Page)
    requires Pagination.ValidPage(page)
    requires Users.FindUser(users, Users.ById(current)).Some?
    ensures GetFeed(users, current, posts, friendIds, matchPage, page).Ok?
    ensures var r := GetFeed(users, current, posts, friendIds, matchPage, page).value;
            var postPage := Posts.PostsForFeed(posts, current, friendIds, page);
            multiset(r.items) == multiset(Merge(postPage.posts, matchPage.matches))
            && Sorting.SortedBy(r.items, NewerFirst)
            && Sorting.TiesPartitionedBy(r.items, IsPost, NewerFirst)
    ensures var r := GetFeed(users, current, posts, friendIds, matchPage, page).value;
            r.meta == Pagination.GetMeta(page, |Posts.Visible(posts, current, friendIds)| + matchPage.total)
            && (|matchPage.matches| <= page.limit ==> |r.items| <= 2 * page.limit)
  {
    var postPage := Posts.PostsForFeed(posts, current, friendIds, page);
    var merged := Merge(postPage.posts, matchPage.matches);
    var sorted := Sorting.Sort(merged, NewerFirst);
    var r := GetFeed(users, current, posts, friendIds, matchPage, page);
    assert r == Ok(Pagination.Paginate(page, sorted, postPage.total + matchPage.total));
    assert r.value.items == sorted;
    SortedMerge(postPage.posts, matchPage.matches);
    assert multiset(sorted) == multiset(merged);
  }

  /** Sorting the merge newest first keeps posts ahead of matches at equal times. */
  lemma SortedMerge(posts: seq<Posts.Post>, matches: seq<Match>)
    ensures var sorted := Sorting.Sort(Merge(posts, matches), NewerFirst);
            Sorting.SortedBy(sorted, NewerFirst) && Sorting.TiesPartitionedBy(sorted, IsPost, NewerFirst)
  {
    var merged := Merge(posts, matches);
    NewerFirstIsTotalPreorder();
    Sorting.SortSorted(merged, NewerFirst);
    MergePostsFirst(posts, matches);
    Sorting.SortKeepsTies(merged, NewerFirst, IsPost);
  }

  /** Every post on the feed is visible to the viewer. */
  lemma FeedPostsVisible(users: seq<Users.User>, current: Id, posts: seq<Posts.Post>, friendIds: seq<Id>,
                         matchPage: MatchPage, page: Pagination.Page, k: nat)
    requires Pagination.ValidPage(page)
    requires GetFeed(users, current, posts, friendIds, matchPage, page).Ok?
    requires k < |GetFeed(users, current, posts, friendIds, matchPage, page).value.items|
    requires GetFeed(users, current, posts, friendIds, matchPage, page).value.items[k].PostItem?
    ensures var p := GetFeed(users, current, posts, friendIds, matchPage, page).value.items[k].post;
            p in posts && Posts.VisibleTo(p, current, friendIds)
  {
    var postPage := Posts.PostsForFeed(posts, current, friendIds, page);
    var merged := Merge(postPage.posts, matchPage.matches);
    var items := GetFeed(users, current, posts, friendIds, matchPage, page).value.items;
    assert items[k] in multiset(merged);
    var j :| 0 <= j < |merged| && merged[j] == items[k];
    if j < |postPage.posts| {
      assert merged[j] == PostItem(postPage.posts[j]);
    } else {
      assert false;
    }
  }
}
