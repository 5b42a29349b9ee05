# Brigada Football server — a verified model of its core

Brigada Football is a NestJS/Prisma backend for a football social network. Users register, verify their email and log in. They make friends, write posts with polls, comment and like. They manage venues, players and teams, and read a feed of posts and matches. This project models the parts of that backend that hold real logic, as Dafny:

- the query builders for pagination, ordering and search (`query.pagination.ts`, `query.order.ts`, `query.search.ts`);
- the friendship state machine;
- the domain rules of the services, each over in-memory tables:
  - likes, poll votes, posts (visibility and the single pinned post), comments;
  - venues, users (role grants, conflict order, attempt counter), players, teams;
  - user preferences, the dashboard admin check and the feed;
- the authentication flows (verification and reset tokens, login attempt counter, registration) and the bearer-token guard;
- the small validators and parsers: `check`, the configuration transforms, the username/password/mobile regexes, the name schema and the goal/assist validator;
- the Cloudinary helpers (image file limits, public-id extraction, the delete partition, filename cleaning);
- the response interceptor and the exception filter.

Modelling conventions:

- Every Prisma table is a `seq` of rows, walked in storage order, so that `findFirst` has a deterministic answer.
- A service that writes its tables is a `class` holding them. Its methods carry `modifies` clauses and ensure the new state equals a pure specification function (`...Spec`) of the old one. The lemmas about those functions state what the source promises: invariants kept, round trips, error order.
- Exceptions are a `Result` whose failure carries the HTTP status and message.
- Everything the code cannot see is a parameter or an oracle:
  - bcrypt comparison, JWT signing and verification;
  - fresh uuids (required not to clash with existing ids);
  - the clock, as milliseconds;
  - Cloudinary's destroy call;
  - the matches service.
- The shared modules are:
  - `Common`: identifiers, results, errors;
  - `Js`: JavaScript values and truthiness;
  - `Strings`: split, join, trim, case mapping, digits;
  - `Tables`: filter and window;
  - `Sorting`: a stable insertion sort with its permutation, order and tie lemmas.

## Model

| member | source | states |
|---|---|---|
| Pagination.ParsePageNumber | src/_common/lib/query.pagination.ts:5-12 | `page` is accepted exactly when absent (then 1) or an integer ≥ 1, which is kept as given; every rejection is a 400 |
| Pagination.ParseLimitNumber | src/_common/lib/query.pagination.ts:13-21 | `limit` is accepted exactly when absent (then 25) or an integer in [5, 50], kept as given; every rejection is a 400 |
| Pagination.ParsePagination | src/_common/lib/query.pagination.ts:4-22 | the query is accepted exactly when both fields are, the result is always a valid page, and a bad `page` is reported before a bad `limit` |
| Pagination.Skip | src/_common/lib/query.pagination.ts:53-55 | skip is never negative, and it is 0 exactly on the first page |
| Pagination.ConsecutiveWindows | src/_common/lib/query.pagination.ts:53-62 | the first page starts at row 0 and each page starts where the previous page's window of `limit` rows ends |
| Pagination.Use | src/_common/lib/query.pagination.ts:57-62 | the window takes `limit` rows after `skip` rows |
| Pagination.GetMeta | src/_common/lib/query.pagination.ts:64-81 | meta echoes page, limit and total; totalPages is ⌈total/limit⌉ and lastPage equals it, firstPage is 1; next and previous pages exist exactly when page < totalPages and page > 1; with no items there are no pages and no next page, and the page is not clamped |
| Pagination.CeilDiv | src/_common/lib/query.pagination.ts:65 | the ceiling of the quotient: the least q with n ≤ q·d |
| Pagination.PageInRangeIffWindowNonEmpty | src/_common/lib/query.pagination.ts:53-65 | a page is within totalPages exactly when its window starts inside the items |
| Pagination.HasNextIffItemsRemain | src/_common/lib/query.pagination.ts:53-66 | hasNextPage holds exactly when items lie beyond the current window |
| Pagination.PageOfItem | src/_common/lib/query.pagination.ts:53-62 | item i (from 0) lies inside the window of page i / limit + 1, at position i % limit |
| Pagination.PageOf | src/_common/lib/query.pagination.ts:53-62 | for a valid limit, the page whose window (skip, skip + limit) holds item i |
| Pagination.Paginate | src/_common/lib/query.pagination.ts:83-88 | the items are returned unchanged, with the metadata of the page and total |
| Order.WalkPath | src/_common/lib/query.order.ts:41-48 | the descent loop leaves a chain of empty objects, one level per key, with the cursor at its innermost object |
| Order.BuildCountOrder | src/_common/lib/query.order.ts:40-53 | every part but the last becomes a nesting level and the innermost `_count` key holds the direction |
| Order.BuildNestedOrder | src/_common/lib/query.order.ts:55-70 | every part becomes a nesting level and the last one holds the direction, so a `_count` path builds the same object as with the count builder |
| Order.Use | src/_common/lib/query.order.ts:21-38 | a path without '.' maps straight to the direction; any path gives the chain of its segments ending in the direction; nothing is rejected |
| Order.ChainShape | src/_common/lib/query.order.ts:31-37 | following the segments reaches the direction unchanged, and every object on the way has exactly the next segment as its only key |
| Order.ChainInjective | src/_common/lib/query.order.ts:55-70 | the segments and direction can be read back from the built object |
| Order.OrderForInjective | src/_common/lib/query.order.ts:21-38 | different paths or directions never build the same ordering |
| Order.CreateMultipleOrders | src/_common/lib/query.order.ts:72-81 | one ordering per entry, in the same order, each the one `use` builds for that entry |
| Order.ValidateRelationPath | src/_common/lib/query.order.ts:104-115 | accepted exactly when every segment is a key of the allowed relations |
| Order.ValidateCountPath | src/_common/lib/query.order.ts:92-98 | a `_count` path is accepted exactly when every segment before `_count` is an allowed relation |
| Order.ValidateNestedPath | src/_common/lib/query.order.ts:117-138 | another dotted path is accepted exactly when its first segment is an allowed relation whose list holds the rest joined by '.', or holds each later segment |
| Order.ValidatedOrderStartsAllowed | src/_common/lib/query.order.ts:83-102 | an accepted path builds an ordering whose outermost key is an allowed field or an allowed relation |
| Search.ConfiguredFields | src/_common/lib/query.search.ts:69 | the configured field names, one per searchable field, in order |
| Search.BuildFieldCondition | src/_common/lib/query.search.ts:113-144 | a field with no '.' gets the condition directly; a dotted one is split at its first '.' into relation and remaining path, which join back to the field; the leaf carries the query, match kind and mode |
| Search.BuildRegularSearch | src/_common/lib/query.search.ts:95-108 | conditions are combined with the configured operator, else OR, one per field in order |
| Search.BuildFullTextSearch | src/_common/lib/query.search.ts:81-90 | an OR of one `search` condition per configured field, in order |
| Search.BuildWhereEmptyIff | src/_common/lib/query.search.ts:62-65 | the filter is empty exactly when the query is absent, empty or only whitespace |
| Search.RegularSearchShape | src/_common/lib/query.search.ts:62-76 | an active non-full-text search has one condition per effective field (the request's list when given, even empty), each with the trimmed query |
| Search.FullTextIgnoresRequestFields | src/_common/lib/query.search.ts:71-73 | with full text enabled, the filter does not depend on the request's fields or mode and ORs over every configured field |
| Search.SearchTerms | src/_common/lib/query.search.ts:156-162 | every term is non-empty and holds no whitespace; the word boundaries are stated by Search.SearchTermsOfWords |
| Search.SearchTermsSpec | src/_common/lib/query.search.ts:149-162 | the terms together are the query's non-space characters in order, and there are none exactly when the search is inactive |
| Search.SearchTermsOfWords | src/_common/lib/query.search.ts:156-162 | a query of non-empty space-free words separated by any non-empty runs of whitespace, with any whitespace around it, yields exactly those words in order, and the search is active |
| Strings.SplitSpacesSpaced | src/_common/lib/query.search.ts:160 | `split(/\s+/)` of non-empty space-free words separated by any non-empty runs of whitespace gives back the words |
| Strings.TrimPadded | src/_common/lib/query.search.ts:159 | `trim` removes exactly the whitespace around a string that starts and ends with a non-space |
| Search.BuildFuzzySearch | src/_common/lib/query.search.ts:167-187 | empty exactly when inactive; otherwise an OR of one similarity condition per effective field carrying the untrimmed query and threshold |
| Check.Check | src/_common/check.ts:3-16 | passes exactly the truthy values, unchanged; otherwise a message becomes a NotFound with that message and an exception is thrown as given |
| Check.FalsyValuesAreMissing | src/_common/check.ts:7-9 | 0, '', false, NaN and undefined are all rejected as "Not found" |
| Check.CheckRow | src/_common/check.ts:7-15 | an ORM lookup passes exactly when a row was found, and a missing row gives NotFound with the caller's message |
| Config.ParseOperators | src/_common/config.ts:23-27 | accepted exactly when some character is a digit or a comma, giving one operator per comma-separated part |
| Config.OperatorsRoundTrip | src/_common/config.ts:23-27 | operator codes written comma-separated (trimmed, one holding a digit) are read back as the same list |
| Config.ParseNumberPair | src/_common/config.ts:28-48 | accepted exactly when the text is two digit runs around one comma, and the two numbers are the values of those runs |
| Config.NumberPairRoundTrip | src/_common/config.ts:28-48 | "a,b" written in decimal is read back as (a, b), in order |
| Config.ParseDobAgeRange | src/_common/config.ts:28-37 | DOB_AGE_RANGE is accepted exactly when it is a number pair, the first number the minimum age and the second the maximum |
| Config.ParseThrottler | src/_common/config.ts:38-48 | THROTTLER_DATA is accepted exactly when it is a number pair, the first number the ttl and the second the limit |
| Config.ParseConfig | src/_common/config.ts:3-49 | the configuration parses exactly when the modelled variables are accepted (secret of at least 32 characters, operator list and both number pairs); APP_NAME and PORT take their defaults when unset |
| Regexes.MatchUsername | src/_common/resources/regexes.ts:8 | the matcher accepts exactly the non-empty strings of letters, digits, '_' and '-' |
| Regexes.PasswordAtLeastFour | src/_common/resources/regexes.ts:9-11 | an accepted password holds a lower-case letter, an upper-case letter, a digit and a special character, so with specials that are not letters or digits it has at least four characters |
| Regexes.TryOperators | src/_common/resources/regexes.ts:12-14 | trying the operator alternatives in order succeeds exactly when some operator splits the number after the prefix |
| Regexes.TryPrefixes | src/_common/resources/regexes.ts:12-14 | trying the optional prefixes in order succeeds exactly when some prefix and operator split the number |
| Regexes.MatchMobileIff | src/_common/resources/regexes.ts:12-14 | the matcher accepts exactly the strings of the mobile pattern |
| Regexes.MobileNumberShape | src/_common/resources/regexes.ts:12-14 | an accepted number ends in a seven-digit subscriber number that does not start with 0, and its length is the operator's plus 7 to 11 |
| Regexes.MobilePrefixesOptional | src/_common/resources/regexes.ts:12-14 | a subscriber number is accepted after an operator code with "994", "9940", "0" or no prefix |
| Schemas.CharacterWord | src/_common/schemas.ts:18-26 | the word is plural exactly when the bound exceeds one |
| Schemas.NameSchema | src/_common/schemas.ts:3-28 | the bounds default to 1 and 30; the required and type messages name the field unless overridden; the bound messages name the field, the bound and the right singular or plural word |
| Schemas.ParseName | src/_common/schemas.ts:10-27 | a value is accepted exactly when it is a string whose length is within the bounds, and it is returned unchanged; every rejection is a 400 |
| Schemas.DefaultBounds | src/_common/schemas.ts:16-27 | with no parameters, names of 1 to 30 characters are accepted, both bounds included |
| Schemas.DefaultMessages | src/_common/schemas.ts:16-27 | with no parameters the messages read "must be at least 1 character" and "must be less than 30 characters" |
| GoalAssists.FirstOffender | src/_common/validate-goal-assists.ts:26-32 | the loop stops at the first player in roster order whose assists exceed the other players' goals, or finds none |
| GoalAssists.ValidateIffConsistent | src/_common/validate-goal-assists.ts:14-35 | the roster is accepted exactly when total assists ≤ total goals and no player's assists exceed the others' goals; the total rule is reported first |
| GoalAssists.ScorelessRosterAccepted | src/_common/validate-goal-assists.ts:14-35 | a roster without goals or assists, the empty one among them, is accepted |
| GoalAssists.LonePlayerWithAssistsRejected | src/_common/validate-goal-assists.ts:26-32 | a single player with assists is always rejected |
| Friendships.FindBetween | src/friendships/friendships.service.ts:17-26 | the first row in table order that links the two users in either direction, or none when no row does |
| Friendships.FindById | src/friendships/friendships.service.ts:200-204 | the first row with that key, or none when no row has it |
| Friendships.UpdateStatusSpec | src/friendships/friendships.service.ts:200-207 | a missing key is the ORM's record-not-found error and changes nothing; otherwise only that row's status changes |
| Friendships.FriendsOf | src/friendships/friendships.service.ts:28-63 | one entry per accepted row involving the user (as many as the `where` filter keeps), in table order, the k-th being the other party of the k-th such row; every entry is a friend |
| Friendships.FriendshipsService.constructor | src/friendships/friendships.service.ts:12-15 | the service starts from the given table |
| Friendships.FriendshipsService.GetFriendshipWithIds | src/friendships/friendships.service.ts:17-26 | a row is returned exactly when one links the two users, and it is a row of the table that does |
| Friendships.FriendshipsService.GetFriendsOfUser | src/friendships/friendships.service.ts:28-63 | the friends listed by `FriendsOf` over the current table |
| Friendships.FriendshipsService.CreateFriendship | src/friendships/friendships.service.ts:91-103 | exactly one row from the user to the friend with the given status is appended and returned |
| Friendships.FriendshipsService.UpdateStatus | src/friendships/friendships.service.ts:200-207 | result and new table are those of `UpdateStatusSpec` on the old table |
| Friendships.FriendshipsService.SendFriendshipRequest | src/friendships/friendships.service.ts:106-144 | result and new table are those of `SendSpec` on the old table |
| Friendships.FriendshipsService.Answer | src/friendships/friendships.service.ts:147-198 | result and new table are those of `AnswerSpec`, the shared lookup-check-update of cancel, reject and accept as written |
| Friendships.FriendshipsService.CancelFriendshipRequest | src/friendships/friendships.service.ts:147-162 | `AnswerSpec` with the cancel action: only the requester, status CANCELED |
| Friendships.FriendshipsService.RejectFriendshipRequest | src/friendships/friendships.service.ts:165-180 | `AnswerSpec` with the reject action: only the receiver, status REJECTED |
| Friendships.FriendshipsService.AcceptFriendshipRequest | src/friendships/friendships.service.ts:183-198 | `AnswerSpec` with the accept action: only the receiver, status ACCEPTED |
| Friendships.UpdateStatusOnlyStatus | src/friendships/friendships.service.ts:200-207 | a status update keeps every row's key, requester and receiver, and leaves every other row as it was |
| Friendships.UpdateStatusPreservesValid | src/friendships/friendships.service.ts:200-207 | unique keys and one row per pair of users survive a status update |
| Friendships.SendOutcomes | src/friendships/friendships.service.ts:106-144 | a missing friend gives NotFound; an accepted, blocked or pending row gives BadRequest; both change nothing; a rejected or canceled row is reopened as pending in place; otherwise one pending row from sender to friend is appended |
| Friendships.SendNeverAccepts | src/friendships/friendships.service.ts:118-137 | sending never produces an accepted row |
| Friendships.SendPreservesValid | src/friendships/friendships.service.ts:106-144 | with a fresh key, sending keeps unique keys and one row per pair of users |
| Friendships.AnswerPreservesValid | src/friendships/friendships.service.ts:147-207 | answering, as written or by key, keeps the table valid |
| Friendships.AnswerAsWrittenNotFound | src/friendships/friendships.service.ts:148-152 | when no row has the friendship key as a user id, as always with uuid keys, every answer is "Friendship not found" and changes nothing |
| Friendships.AnswerByIdSpecIff | src/friendships/friendships.service.ts:147-198 | looking the row up by key, an answer succeeds exactly when a row with that key exists and the user may give that answer; it then sets only that row's status, and a refusal changes nothing |
| Friendships.RequestThenAccept | src/friendships/friendships.service.ts:106-198 | a freshly sent request is accepted by its receiver when looked up by key, while the code as written reports it missing |
| Friendships.NotAFriend | src/friendships/friendships.service.ts:28-33 | someone who shares no accepted row with the user is not among their friends |
| Friendships.FriendListed | src/friendships/friendships.service.ts:28-63 | everyone who shares an accepted row with the user is listed, the converse of NotAFriend |
| Friendships.FriendsDistinct | src/friendships/friendships.service.ts:28-63 | with one row per pair, each friend is listed once |
| Preferences.CreateSpec | src/user-preferences/user-preferences.service.ts:9-27 | refused with Conflict exactly when the user already has preferences, changing nothing; otherwise exactly the new row is appended and returned |
| Preferences.CreateKeepsOnePerUser | src/user-preferences/user-preferences.service.ts:9-27 | creating keeps at most one preferences row per user |
| Preferences.CreateThenHas | src/user-preferences/user-preferences.service.ts:22-26 | after a successful create, the rows of that user are exactly the new row, and a second create for the user is refused |
| Preferences.UserPreferencesService.constructor | src/user-preferences/user-preferences.service.ts:7 | the service starts from the given table |
| Preferences.UserPreferencesService.Create | src/user-preferences/user-preferences.service.ts:9-27 | result and new table are those of `CreateSpec` on the old table |
| Posts.VisibilityByLevel | src/posts/posts.service.ts:54-61 | a public post is visible to everyone, a friends-only post to its author and the author's friends, a private post only to its author |
| Posts.VisibilityMonotone | src/posts/posts.service.ts:54-61 | a post visible with some friend list stays visible when the viewer has more friends |
| Posts.TagPosts | src/posts/posts.service.ts:82-85 | one hit per post, in order, each tagged with the type "post" |
| Posts.GlobalSearch | src/posts/posts.service.ts:39-86 | at most three hits; exactly min(3, number of matches) of them; each a visible post whose content contains the query case-insensitively |
| Posts.GlobalSearchComplete | src/posts/posts.service.ts:44-80 | when fewer than three posts match, every visible matching post is found |
| Posts.Visible | src/posts/posts.service.ts:427-436 | exactly the posts that the viewer may see: every row kept is visible, and every visible row is kept |
| Posts.PostsForFeed | src/posts/posts.service.ts:416-495 | total counts the visible posts; the page holds at most `limit` posts, all of them visible |
| Posts.FeedPagesCoverVisible | src/posts/posts.service.ts:424-436 | position pos of a page holds the visible post at skip + pos, so each page lists the visible posts in order and, with Pagination.PageOfItem, paging reaches every visible post |
| Posts.PinnedThenNewestIsTotalPreorder | src/posts/posts.service.ts:258 | ordering by pinned first, then newest first, is a total preorder |
| Posts.UserListing | src/posts/posts.service.ts:255-269 | a permutation (as a multiset) of the user's posts visible to the viewer, sorted pinned first, then newest first |
| Posts.PostsOfUser | src/posts/posts.service.ts:240-320 | NotFound "User not found" if and only if the user is missing; otherwise the skip/take window of the user's listing, sorted, with meta over their count |
| Posts.UserPostOnItsPage | src/posts/posts.service.ts:240-320 | every post of the user's listing appears on the page whose window holds its position, at its offset in that window |
| Posts.PinnedComeFirst | src/posts/posts.service.ts:258 | on any page a pinned post never follows an unpinned one, and equal pin states go newest first |
| Posts.VotedOptions | src/posts/posts.service.ts:404-411 | an option id is listed if and only if the viewer voted for that option |
| Posts.UserVotes | src/posts/posts.service.ts:404-413 | a post without a poll gives no votes; otherwise exactly the ids of the options the viewer voted for |
| Posts.NoVotesListedForNonVoter | src/posts/posts.service.ts:404-411 | a viewer who voted for no option gets an empty list |
| Posts.FindPost | src/posts/posts.service.ts:322-330 | the index of the post with that id, or none when no post has it |
| Posts.GetPostById | src/posts/posts.service.ts:332-414 | Ok if and only if the post exists and is visible to the viewer; otherwise NotFound "Post not found"; an Ok result is that post |
| Posts.UnpinAll | src/posts/posts.service.ts:509-514 | every post of the author is unpinned and every other post is unchanged |
| Posts.NewPost | src/posts/posts.service.ts:516-521 | the new row carries the DTO's content, visibility and pin flag, with the current user as author |
| Posts.CreatePostSpec | src/posts/posts.service.ts:505-530 | the new post is appended; the author's older posts are unpinned only when the new post is pinned; all other rows stay the same |
| Posts.CreatePostKeepsOnePinned | src/posts/posts.service.ts:509-521 | creating a post keeps the invariant that no author has two pinned posts |
| Posts.PinnedPostIsTheOnlyOne | src/posts/posts.service.ts:509-521 | after creating a pinned post, it is its author's only pinned post |
| Posts.PostsService.constructor | src/posts/posts.service.ts:22-29 | the service starts from the given table |
| Posts.PostsService.CreatePost | src/posts/posts.service.ts:505-530 | the table becomes the specified one, and the method returns the new row |
| Likes.FindLike | src/likes/likes.service.ts:104-120 | the first like by the user on the target, or none when there is none |
| Likes.FindLikeById | src/likes/likes.service.ts:96-102 | the first like with that id, or none when there is none |
| Likes.NewLike | src/likes/likes.service.ts:122-162 | a like by the user on exactly one target, typed POST or COMMENT to match |
| Likes.UnlikeSpec | src/likes/likes.service.ts:164-178 | a missing id is the ORM's record-not-found error and changes nothing; otherwise exactly that row is removed and returned |
| Likes.ToggleOutcomes | src/likes/likes.service.ts:58-94 | an existing like is removed and the answer is "unliked"; otherwise a new like is appended and the answer is "liked" |
| Likes.ToggleRemovesFound | src/likes/likes.service.ts:58-66 | with unique ids, unliking removes exactly the like that was found |
| Likes.ToggleTwiceRestores | src/likes/likes.service.ts:58-75 | starting with no like, toggling twice gives back the original table |
| Likes.RemovePreservesValid | src/likes/likes.service.ts:164-178 | removing a row keeps ids unique and keeps one like per user and target |
| Likes.AddPreservesValid | src/likes/likes.service.ts:122-162 | adding a like that did not exist, under a fresh id, keeps the table valid |
| Likes.TogglePreservesValid | src/likes/likes.service.ts:58-94 | a toggle keeps ids unique and keeps one like per user and target |
| Likes.LikesService.constructor | src/likes/likes.service.ts:6-7 | the service starts from the given table |
| Likes.LikesService.GetLikeOfPost | src/likes/likes.service.ts:104-111 | none exactly when the user has not liked the post; otherwise a like by that user on that post |
| Likes.LikesService.GetLikeOfComment | src/likes/likes.service.ts:113-120 | none exactly when the user has not liked the comment; otherwise a like by that user on that comment |
| Likes.LikesService.LikePost | src/likes/likes.service.ts:122-141 | appends and returns a POST like by the current user |
| Likes.LikesService.LikeComment | src/likes/likes.service.ts:143-162 | appends and returns a COMMENT like by the current user |
| Likes.LikesService.Unlike | src/likes/likes.service.ts:164-178 | the table and result are those of the unlike specification |
| Likes.LikesService.TogglePostLike | src/likes/likes.service.ts:58-75 | the table and result are those of the toggle specification for the post |
| Likes.LikesService.ToggleCommentLike | src/likes/likes.service.ts:77-94 | the table and result are those of the toggle specification for the comment |
| Votes.FindPollOf | src/polls/polls.service.ts:35-45 | the first poll that owns the option, or none when no poll owns it |
| Votes.VotesOfUserForPoll | src/poll-option-votes/poll-option-votes.service.ts:35-44 | exactly the user's votes on options of that poll: every row kept qualifies, and every qualifying row is kept |
| Votes.CreateOutcomes | src/poll-option-votes/poll-option-votes.service.ts:61-92 | a vote is recorded if and only if it is not a duplicate, the option has a poll, the poll's limit is not zero and the user is under it; every refusal leaves the table unchanged |
| Votes.DuplicateCheckedFirst | src/poll-option-votes/poll-option-votes.service.ts:62-66 | a repeated vote is refused with "You have already voted for this option", even when the option has no poll |
| Votes.CountAfterVote | src/poll-option-votes/poll-option-votes.service.ts:35-44 | appending a vote raises a user's count in a poll by one exactly when the vote is that user's and in that poll |
| Votes.CreatePreservesInvariants | src/poll-option-votes/poll-option-votes.service.ts:61-92 | voting keeps the table free of duplicates and keeps every user within every poll's vote limit |
| Votes.PollOptionVotesService.constructor | src/poll-option-votes/poll-option-votes.service.ts:10-14 | the service starts from the given table |
| Votes.PollOptionVotesService.GetVote | src/poll-option-votes/poll-option-votes.service.ts:16-25 | the vote with that (option, user) key if and only if it is in the table |
| Votes.PollOptionVotesService.GetVotesOfUserForPoll | src/poll-option-votes/poll-option-votes.service.ts:35-44 | the votes of the user in that poll, read from the current table |
| Votes.PollOptionVotesService.Create | src/poll-option-votes/poll-option-votes.service.ts:61-92 | the table and result are those of the vote specification |
| Comments.FindComment | src/comments/comments.service.ts:31-43 | the first comment with that id, or none when there is none |
| Comments.CreateSpec | src/comments/comments.service.ts:45-65 | NotFound "Post not found" if and only if the post is missing, with the table unchanged; otherwise a comment by the caller under that post is appended and returned |
| Comments.DeleteAllowedIff | src/comments/comments.service.ts:67-85 | a delete succeeds if and only if the comment and its post exist and the caller wrote the comment or is the post's live author; every failure leaves the table unchanged |
| Comments.StrangerCannotDelete | src/comments/comments.service.ts:75-80 | a caller who wrote neither the comment nor the post is refused, and nothing is deleted |
| Comments.DeleteRemovesOnlyIt | src/comments/comments.service.ts:82-84 | with unique ids, a successful delete removes exactly that comment and keeps all others |
| Comments.NewerIsTotalPreorder | src/comments/comments.service.ts:102-104 | newest first is a total preorder |
| Comments.CommentsOf | src/comments/comments.service.ts:97-104 | a permutation (as a multiset) of the comments of the post, newest first |
| Comments.GetCommentsOfPost | src/comments/comments.service.ts:87-130 | NotFound "Post not found" if and only if the post is missing; otherwise the skip/take window of the post's newest-first comments, with meta over their count |
| Comments.CommentPageWindow | src/comments/comments.service.ts:87-130 | position pos of a page holds the listing's comment at skip + pos |
| Comments.CommentOnItsPage | src/comments/comments.service.ts:87-130 | every comment of the post appears on the page whose window holds its position, at its offset in that window |
| Comments.CommentsService.constructor | src/comments/comments.service.ts:16-21 | the service starts from the given table |
| Comments.CommentsService.Create | src/comments/comments.service.ts:45-65 | the table and result are those of the create specification |
| Comments.CommentsService.Delete | src/comments/comments.service.ts:67-85 | the table and result are those of the delete specification, whose success carries no value, as the call resolves to nothing |
| Users.FindLive | src/users/users.service.ts:272-325 | the index of a row that has the key and is not soft-deleted, or none when no such row exists |
| Users.FindUser | src/users/users.service.ts:505-512 | a live row with the key, or none exactly when no live row has it |
| Users.SoftDeletedNeverFound | src/users/users.service.ts:505-512 | once its only holder of a key is soft-deleted, no lookup by that key finds a user |
| Users.ToPublic | src/users/users.service.ts:32-48 | the public view keeps id, email, username and role, and reports the email as verified exactly when a verification time is set |
| Users.GetOne | src/users/users.service.ts:514-522 | NotFound "User not found" if and only if no live user has the key; otherwise that user's public view |
| Users.GrantsAreLowerRanks | src/users/users.service.ts:422-431 | an actor's role-change list is exactly the roles ranked strictly below the actor's own |
| Users.NoPromotionToPeer | src/users/users.service.ts:422-438 | nobody may change a peer or a superior, or give a role at or above their own |
| Users.FindRow | src/users/users.service.ts:385-386 | the first row with that id, soft-deleted rows included, or none when there is none |
| Users.UpdateRow | src/users/users.service.ts:524-531 | a missing id is the ORM's record-not-found error and changes nothing; otherwise only that row is replaced by its update |
| Users.RemoveRow | src/users/users.service.ts:550-556 | a missing id is the ORM's record-not-found error and changes nothing; otherwise exactly that row is removed and returned |
| Users.UpdateRoleIff | src/users/users.service.ts:406-444 | a role change succeeds if and only if both users exist and both the target's role and the new role rank below the actor's; only the role changes, and failures change nothing |
| Users.UnauthorizedBeforeNotFound | src/users/users.service.ts:414-420 | a missing actor is reported as Unauthorized before a missing target is reported |
| Users.ApplyAttempts | src/users/users.service.ts:533-548 | increment adds the amount, decrement subtracts it, set replaces the counter |
| Users.DefaultAttemptsIncrementByOne | src/users/users.service.ts:533-548 | with the defaults the counter goes up by one and nothing else changes |
| Users.IncrementDecrementRestores | src/users/users.service.ts:533-548 | incrementing then decrementing by the same amount gives back the original table |
| Users.NewUser | src/users/users.service.ts:364-370 | the new row carries the DTO's email and username, the password and mobile hashes, the USER role, zero attempts and no verification |
| Users.Register | src/users/users.service.ts:364-382 | when any row, soft-deleted ones included, already holds the email, username or stored mobile hash, the unique columns refuse the write with P2002 and nothing changes; otherwise the user row is appended, and the registration succeeds exactly when no value is taken and the user had no preferences row yet |
| Users.CreateConflictOrder | src/users/users.service.ts:333-370 | the first conflict in the order email, username, mobile number is reported; past the three live lookups, a value held by a soft-deleted row fails with P2002; neither writes anything |
| Users.HeldEmailRefused | src/users/users.service.ts:333-370 | an email held by any row, live or soft-deleted, is refused and nothing is written; a soft-deleted holder with no live conflict gives P2002 |
| Users.CreateAddsUserAndPreferences | src/users/users.service.ts:364-382 | a successful registration appends exactly one live user and its one preferences row and returns their ids, unverified |
| Users.MobileCheckNeverFires | src/users/users.service.ts:349-355 | against rows whose mobile numbers are hashes, a plain number never triggers "Mobile number already exists" |
| Users.TwoRegistrations | src/users/users.service.ts:333-382 | into an empty table, two registrations whose email, username, stored mobile hash and id differ both succeed, the second's mobile number being compared with the first's stored hash |
| Users.DuplicateMobileAccepted | src/users/users.service.ts:349-370 | two registrations with the same mobile number both succeed |
| Users.FixedRefusesDuplicateMobile | src/users/users.service.ts:349-355 | with the check made against the hashes, a second registration of the same number is refused |
| Users.UsersService.constructor | src/users/users.service.ts:25-30 | the service starts from the given user table and preferences service |
| Users.UsersService.FindOne | src/users/users.service.ts:505-512 | the live user with that id, read from the current table |
| Users.UsersService.Create | src/users/users.service.ts:333-382 | both tables and the result are those of the registration specification, including the P2002 refusal of a value held by a soft-deleted row |
| Users.UsersService.UpdateRole | src/users/users.service.ts:406-444 | the table and result are those of the role-change specification |
| Users.UsersService.UpdateInvalidPasswordAttempts | src/users/users.service.ts:533-548 | the table and result are those of the counter update, with the same defaults |
| Users.UsersService.MarkEmailAsVerified | src/users/users.service.ts:384-389 | only the user's verification time is set; a missing id is the ORM's error |
| Users.UsersService.Remove | src/users/users.service.ts:550-556 | the table and result are those of the hard delete |
| Users.UsersService.UpdatePassword | src/users/users.service.ts:391-404 | NotFound "User not found" with nothing changed for a missing or soft-deleted user; otherwise only the password hash is replaced |
| Venues.FindVenue | src/venues/venues.service.ts:124-132 | the first venue with that id, or none when there is none |
| Venues.GetOneById | src/venues/venues.service.ts:134-151 | NotFound "Venue not found" if and only if no venue has the id; otherwise that venue |
| Venues.CreateWith | src/venues/venues.service.ts:173-186 | the venue is created if and only if the caller is a live ADMIN or SUPER_ADMIN; it carries the DTO's fields and is appended; a refusal changes nothing |
| Venues.CreateSpec | src/venues/venues.service.ts:181-185 | the stored venue has no creator |
| Venues.CreateFixedSpec | src/venues/venues.service.ts:181-185 | the stored venue records the caller as its creator |
| Venues.ApplyUpdate | src/venues/venues.service.ts:205-211 | each field given in the DTO replaces the stored one; the others, the id and the creator stay |
| Venues.Authorize | src/venues/venues.service.ts:193-203 | a missing venue is NotFound "Venue not found"; success exactly when the venue and a live caller exist and the caller is SUPER_ADMIN or the venue's creator |
| Venues.UpdateSpec | src/venues/venues.service.ts:188-211 | an authorised update replaces only that venue with its updated form; a refusal changes nothing |
| Venues.DeleteSpec | src/venues/venues.service.ts:213-231 | succeeds exactly when authorised, and then removes exactly that venue and returns no value; a refusal carries the authorisation error and changes nothing |
| Venues.MissingVenueFirst | src/venues/venues.service.ts:193-197 | update and delete report a missing venue before anything about the caller |
| Venues.UpdateTouchesOnlyTarget | src/venues/venues.service.ts:205-211 | a successful update leaves every other venue as it was |
| Venues.DeleteRemovesOnlyTarget | src/venues/venues.service.ts:213-231 | with unique ids, a successful delete removes the venue with that id and keeps every other venue |
| Venues.AdminCannotEditOwnVenue | src/venues/venues.service.ts:181-203 | an ADMIN who creates a venue is then refused "Access denied" when editing it |
| Venues.CreatorMayEdit | src/venues/venues.service.ts:201-203 | once the creator is recorded, the creator may update and delete the new venue |
| Venues.VenuesService.constructor | src/venues/venues.service.ts:22-25 | the service starts from the given table |
| Venues.VenuesService.Create | src/venues/venues.service.ts:173-186 | the table and result are those of the create specification |
| Venues.VenuesService.Update | src/venues/venues.service.ts:188-211 | the table and result are those of the update specification |
| Venues.VenuesService.Delete | src/venues/venues.service.ts:213-231 | the table and result are those of the delete specification, whose success carries no value |
| Players.FindPlayer | src/players/players.service.ts:224-232 | the first player with that id, or none when there is none |
| Players.NameOr | src/players/players.service.ts:349 | the given name unless it is empty, else the current name |
| Players.CreateSpec | src/players/players.service.ts:252-299 | NotFound "User not found" if and only if a linked user is missing; otherwise the player is appended to the team with the DTO's fields, named after the linked user if there is one |
| Players.RemoveSpec | src/players/players.service.ts:301-315 | a missing player is NotFound "Player not found"; success exactly when the player and the team exist and the player is on that team; then exactly that row is removed |
| Players.UpdateSpec | src/players/players.service.ts:317-410 | an unknown id falls back to create; an update keeps the id and team and replaces only that row; a failure changes nothing |
| Players.UpdateKeepsId | src/players/players.service.ts:317-410 | a successful update under an id that is also the fallback id returns a player with that id |
| Players.UpdateLinksRequestedUser | src/players/players.service.ts:333-384 | an update of an existing player succeeds exactly when the DTO names no user or a live one, and the player is then linked to exactly that user |
| Players.UpdateName | src/players/players.service.ts:347-384 | the player takes the user's full name exactly when a new or different user is linked, and otherwise the given name or the current one |
| Players.SecondUserLookupNeverFails | src/players/players.service.ts:362-371 | the "not found or deleted" error never occurs, because the earlier lookup has already refused a missing user |
| Players.RemoveOnlyThatPlayer | src/players/players.service.ts:312-314 | with unique ids, a successful removal takes away that player and keeps every other player |
| Players.PlayersService.constructor | src/players/players.service.ts:21-26 | the service starts from the given table |
| Players.PlayersService.FindOne | src/players/players.service.ts:224-232 | a player with that id if and only if the table has one |
| Players.PlayersService.Create | src/players/players.service.ts:252-299 | the table and result are those of the create specification |
| Players.PlayersService.RemovePlayerFromTeam | src/players/players.service.ts:301-315 | the table and result are those of the removal specification |
| Players.PlayersService.Update | src/players/players.service.ts:317-410 | the table and result are those of the update specification |
| Teams.FindTeam | src/teams/teams.service.ts:18-22 | the index of a team with that id, or none when there is none |
| Teams.TeamIds | src/teams/teams.service.ts:18-22 | the ids of the team table, one per row, in order |
| Teams.Absorb | src/teams/teams.service.ts:76-80 | a batch step keeps the player table the call left, keeps the first error, and collects each successful result in order |
| Teams.CreateSpec | src/teams/teams.service.ts:57-86 | the team row is written first, whatever happens to its players; a success returns that team |
| Teams.NonDeleted | src/teams/teams.service.ts:104-106 | exactly the listed players whose ids are not listed as deleted |
| Teams.Rename | src/teams/teams.service.ts:114-119 | a team update keeps the team's id and match |
| Teams.UpdateSpec | src/teams/teams.service.ts:88-125 | NotFound "Team not found" with nothing changed for a missing team; any failure leaves the team table unchanged |
| Teams.CreateAllOnePerEntry | src/teams/teams.service.ts:76-80 | without an error, one player per DTO entry is created, in order, on the team, with that entry's user and goals |
| Teams.CreateMakesOnePlayerPerEntry | src/teams/teams.service.ts:57-86 | a created team belongs to the match and holds exactly one player per DTO entry, all on that team |
| Teams.UpdateAllKeepsIds | src/teams/teams.service.ts:108-112 | without an error, the k-th updated player has the k-th listed id |
| Teams.RemoveAllShrinks | src/teams/teams.service.ts:93-102 | without an error, each deleted id removes exactly one player row |
| Teams.UpdateReturnsTheKeptPlayers | src/teams/teams.service.ts:88-125 | a successful update returns one player per kept entry, in list order, and none with a deleted id |
| Teams.UpdateTouchesOnlyTheTeam | src/teams/teams.service.ts:114-124 | a successful update returns the same team id and changes no other team |
| Teams.TeamsService.constructor | src/teams/teams.service.ts:12-16 | the service starts from the given team table and players service |
| Teams.TeamsService.Create | src/teams/teams.service.ts:57-86 | both tables and the result are those of the create specification |
| Teams.TeamsService.RemoveDeleted | src/teams/teams.service.ts:93-102 | the player table and error are those of removing each deleted id in turn |
| Teams.TeamsService.UpdatePlayers | src/teams/teams.service.ts:108-112 | the results, error and player table are those of updating each kept player in turn |
| Teams.TeamsService.Update | src/teams/teams.service.ts:88-125 | both tables and the result are those of the update specification |
| Auth.ExpiresAt | src/auth/auth.service.ts:45-49 | with a non-negative lifetime, a token never expires before the moment it is issued |
| Auth.FindToken | src/auth/auth.service.ts:78-90 | the index of the row with that token value, or none when no row has it |
| Auth.WithoutUser | src/auth/auth.service.ts:38-42 | exactly the rows of other users: every row kept belongs to another user, and every such row is kept |
| Auth.RemoveAt | src/auth/auth.service.ts:103-105 | exactly the looked-up row is removed; the rest keep their order |
| Auth.IssueToken | src/auth/auth.service.ts:33-68 | the user's old tokens are gone, every other user's tokens stay, and the new token is appended |
| Auth.WithoutUserKeepsOnePerUser | src/auth/auth.service.ts:38-42 | dropping a user's tokens keeps at most one token per user |
| Auth.WithoutUserKeepsTokensUnique | src/auth/auth.service.ts:38-42 | dropping a user's tokens keeps token values unique |
| Auth.IssueKeepsOnePerUser | src/auth/auth.service.ts:321-355 | issuing keeps at most one token per user, and the user's only token is the new one |
| Auth.IssueKeepsTokensUnique | src/auth/auth.service.ts:321-355 | issuing a token value not yet in use keeps token values unique |
| Auth.RemovedTokenGone | src/auth/auth.service.ts:396-398 | with unique token values, once the looked-up row is deleted its token is no longer found |
| Auth.VerifyEmailCheckOrder | src/auth/auth.service.ts:70-92 | missing token, then missing email, then unknown token, then another user's email are refused in that order, and none of these refusals writes anything |
| Auth.VerifyEmailSingleUse | src/auth/auth.service.ts:98-119 | a successful verification needs an unexpired token, marks the user verified, and consumes the token, so a second attempt is "Invalid token" |
| Auth.VerifyEmailExpired | src/auth/auth.service.ts:98-108 | an expired token is refused with the expiry message; exactly its row is deleted, so with unique token values it is no longer found; users and reset tokens do not change |
| Auth.WrongPasswordCounts | src/auth/auth.service.ts:204-239 | a wrong password raises the counter by one and answers "blocked" exactly when the counter reaches the maximum, otherwise "Invalid credentials" |
| Auth.RightPasswordResetsCounter | src/auth/auth.service.ts:240-286 | a right password sets the counter to zero; login succeeds exactly for a verified user, then returns the signed token and clears the user's reset tokens |
| Auth.UnknownEmailRefused | src/auth/auth.service.ts:198-199 | an unknown email is "Invalid credentials" and nothing changes |
| Auth.ForgotPasswordNeverLeaks | src/auth/auth.service.ts:288-319 | the answer is true whether or not the email is known; an unknown email changes nothing; at most one reset token per user remains |
| Auth.ResetPasswordSingleUse | src/auth/auth.service.ts:357-403 | an expired token is refused without touching users; an expired or used token is then "Invalid token" |
| Auth.RegisterMailFailureKeepsUser | src/auth/auth.service.ts:122-142 | when the mail fails, the call fails but the new user stays, so registering again gives "Email already exists" |
| Auth.RegisterFixedRestoresUsers | src/auth/auth.service.ts:136-142 | with the clean-up, a failed mail gives the server error and leaves the user table as it was |
| Auth.AuthService.constructor | src/auth/auth.service.ts:26-31 | the service starts with empty token tables over the given users service |
| Auth.AuthService.CreateEmailVerificationToken | src/auth/auth.service.ts:33-68 | the verification table is the issued one and the token is returned; the reset table is untouched |
| Auth.AuthService.CreatePasswordResetToken | src/auth/auth.service.ts:321-355 | the reset table is the issued one and the token is returned; the verification table is untouched |
| Auth.AuthService.Register | src/auth/auth.service.ts:122-155 | every table and the result are those of the registration specification, which refuses an email or username held by a soft-deleted user with P2002 |
| Auth.AuthService.VerifyEmail | src/auth/auth.service.ts:70-120 | every table and the result are those of the verification specification |
| Auth.AuthService.ResendVerificationEmail | src/auth/auth.service.ts:157-192 | every table and the result are those of the resend specification |
| Auth.ResendOutcomes | src/auth/auth.service.ts:157-192 | an unknown email is NotFound "User not found" and a verified user BadRequest "Email already verified", both without writes; otherwise the user's only verification token is the new one, other users keep theirs, and a failed mail keeps the new token |
| Auth.AuthService.Login | src/auth/auth.service.ts:194-286 | every table and the result are those of the login specification |
| Auth.AuthService.ForgotPassword | src/auth/auth.service.ts:288-319 | every table and the result are those of the forgot-password specification |
| Auth.AuthService.ResetPassword | src/auth/auth.service.ts:357-403 | every table and the result are those of the reset specification |
| Guard.BearerToken | src/auth/guards/auth.guard.ts:33 | the second space-separated word contains no space, and a header without a space has no token |
| Guard.DecideIff | src/auth/guards/auth.guard.ts:19-53 | a public handler always passes; otherwise a request passes as a subject if and only if the header is present, its second word is non-empty and verifies to a payload naming that non-empty subject; a missing header is "No token provided" and every other refusal is "Invalid token" |
| Guard.SchemeNotChecked | src/auth/guards/auth.guard.ts:33-35 | the first word of the header is never examined: any scheme word is treated like "Bearer" |
| Guard.SingleWordRefused | src/auth/guards/auth.guard.ts:33-35 | a single-word header, such as a bare token, is refused with "Invalid token" |
| Guard.Request.constructor | src/auth/guards/auth.guard.ts:27-28 | a request starts with its header and no user |
| Guard.CanActivate | src/auth/guards/auth.guard.ts:19-53 | the answer is true exactly when the decision lets the request through, an error is the decision's error, and the request's user becomes the token's subject only when one is accepted |
| Dashboard.CheckAdmin | src/dashboard/dashboard.service.ts:21-36 | passes if and only if the caller is a live ADMIN or SUPER_ADMIN; a missing caller is Unauthorized, any other caller Forbidden |
| Dashboard.AggregatesNeedAdmin | src/dashboard/dashboard.service.ts:38-81 | the statistics and the charts are returned exactly when the caller is a live administrator, and are otherwise refused with the admin check's error |
| Dashboard.DeletedAdminUnauthorized | src/dashboard/dashboard.service.ts:21-26 | a soft-deleted administrator is refused as Unauthorized |
| Feed.NewerFirstIsTotalPreorder | src/feed/feed.service.ts:31-33 | ordering by creation time, newest first, is a total preorder |
| Feed.Merge | src/feed/feed.service.ts:31 | all posts, in order, followed by all matches, in order |
| Feed.MergePostsFirst | src/feed/feed.service.ts:31 | in the merged list every post comes before every match |
| Feed.GetFeed | src/feed/feed.service.ts:18-37 | Unauthorized "Unauthorized" if and only if the caller is missing or soft-deleted |
| Feed.FeedIsMergedNewestFirst | src/feed/feed.service.ts:18-37 | for a live caller, the items are a permutation of the page of visible posts plus the page of matches, sorted newest first with posts ahead of matches at equal times, and meta is computed over the sum of both totals |
| Feed.SortedMerge | src/feed/feed.service.ts:31-33 | the stable sort of the merge is sorted newest first and keeps posts ahead of matches at equal times |
| Feed.FeedPostsVisible | src/feed/feed.service.ts:26-27 | every post on the feed is visible to the caller |
| Cloudinary.ValidateImageFile | src/cloudinary/cloudinary.service.ts:361-387 | a file passes if and only if it is at most 10 MiB and of an allowed image type; size is checked first, each failure with its own message |
| Cloudinary.ValidateEachFirstFailure | src/cloudinary/cloudinary.service.ts:401 | the walk passes if and only if every file passes, and otherwise reports the first failing file's error |
| Cloudinary.ValidateImageFilesIff | src/cloudinary/cloudinary.service.ts:392-403 | a batch passes if and only if it has at most ten files and every file passes; more than ten files is "Too many files" whatever the files are |
| Cloudinary.ImageExtensionPlain | src/cloudinary/cloudinary.service.ts:220-228 | an accepted extension holds no dot, slash or backslash |
| Cloudinary.ImageStem | src/cloudinary/cloudinary.service.ts:228-231 | a stem found in a slash-free last segment is a valid path segment |
| Cloudinary.ExtractPublicId | src/cloudinary/cloudinary.service.ts:216-236 | an extracted id is never empty |
| Cloudinary.SingleSegmentSplit | src/cloudinary/cloudinary.service.ts:216-236 | a string without a slash splits into itself alone |
| Cloudinary.StemOfImageName | src/cloudinary/cloudinary.service.ts:228-231 | a file name made of a stem and an image extension, in any letter case, yields that stem |
| Cloudinary.ExtractThreeSegments | src/cloudinary/cloudinary.service.ts:219-225 | a URL ending in folder/sub/stem.ext yields exactly "folder/sub/stem", whatever comes before |
| Cloudinary.JoinThree | src/cloudinary/cloudinary.service.ts:219-225 | joining three parts with slashes puts a slash between each pair |
| Cloudinary.SplitThreeSegments | src/cloudinary/cloudinary.service.ts:219-225 | appending three slash-free segments adds exactly those three parts to the split |
| Cloudinary.ExtractSingleSegment | src/cloudinary/cloudinary.service.ts:227-231 | a file name directly under the host yields just its stem |
| Cloudinary.NotAnImageNoId | src/cloudinary/cloudinary.service.ts:216-236 | a URL whose last segment is not an image file name yields no id |
| Cloudinary.Collect | src/cloudinary/cloudinary.service.ts:241-245 | mapping and dropping the nulls gives at most one result per input |
| Cloudinary.Present | src/cloudinary/cloudinary.service.ts:244 | a present value gives one result, a null none |
| Cloudinary.CollectMembers | src/cloudinary/cloudinary.service.ts:241-245 | a value is collected if and only if some input maps to it |
| Cloudinary.CollectAppend | src/cloudinary/cloudinary.service.ts:241-245 | collecting a concatenation is the concatenation of the collected parts |
| Cloudinary.ExtractPublicIds | src/cloudinary/cloudinary.service.ts:241-245 | at most one id per URL, and none of them empty |
| Cloudinary.ExtractPublicIdsMembers | src/cloudinary/cloudinary.service.ts:241-245 | an id is listed if and only if some URL yields it |
| Cloudinary.ExtractPublicIdsAppend | src/cloudinary/cloudinary.service.ts:241-245 | ids come out in URL order: extraction distributes over concatenation, and no URLs give no ids |
| Cloudinary.DeleteReportPartitions | src/cloudinary/cloudinary.service.ts:172-211 | the report partitions the ids: together the two sides hold exactly the ids, every success was deleted and every failure was not |
| Cloudinary.DeleteByUrlsReport | src/cloudinary/cloudinary.service.ts:250-260 | with no extractable id every URL is reported failed and nothing deleted; otherwise the report partitions exactly the extracted ids |
| Cloudinary.StripExtension | src/cloudinary/cloudinary.service.ts:320 | the result is a prefix of the name |
| Cloudinary.Sanitize | src/cloudinary/cloudinary.service.ts:321-322 | every character is replaced in place by its cleaned form; the length is kept |
| Cloudinary.CleanFilename | src/cloudinary/cloudinary.service.ts:319-322 | the cleaned name is as long as the name without its extension and holds only lower-case letters, digits and underscores |
| Cloudinary.CleanDropsExtension | src/cloudinary/cloudinary.service.ts:319-322 | cleaning a name with an extension drops the extension and cleans everything else in place |
| Cloudinary.CleanIdempotent | src/cloudinary/cloudinary.service.ts:319-322 | cleaning a cleaned name changes nothing |
| Cloudinary.GeneratedIdShape | src/cloudinary/cloudinary.service.ts:316-325 | the id is the cleaned name, an underscore, the decimal timestamp (which reads back as the timestamp) and the random suffix |
| Interceptor.DefaultMessageTable | src/_common/interceptors/respose.interceptor.ts:28-47 | each default message is chosen exactly for its class of requests: "Success" outside 2xx, otherwise by the upper-cased method, with "Operation completed successfully" for any other method |
| Interceptor.UpperOfUpper | src/_common/interceptors/respose.interceptor.ts:31 | upper-casing twice is upper-casing once |
| Interceptor.UpperOfLower | src/_common/interceptors/respose.interceptor.ts:31 | upper-casing a lower-cased string is upper-casing the original |
| Interceptor.DefaultMessageIgnoresCase | src/_common/interceptors/respose.interceptor.ts:31 | the method is matched without regard to letter case |
| Interceptor.Message | src/_common/interceptors/respose.interceptor.ts:66-70 | a non-empty handler message wins; a missing or empty one falls through to the default |
| Interceptor.InterceptWraps | src/_common/interceptors/respose.interceptor.ts:72-92 | every result leaves wrapped with the chosen message; an unwrapped result is kept under data with success true, the path and the status; a wrapped one keeps every other field |
| Interceptor.InterceptIdempotent | src/_common/interceptors/respose.interceptor.ts:72-92 | passing a response through the interceptor twice gives the same as once |
| ExceptionFilter.IssueDetails | src/_common/app-exception.filter.ts:62-67 | an object whose errors array has one entry per issue |
| ExceptionFilter.Classification | src/_common/app-exception.filter.ts:38-110 | every exception is answered except a validation exception without issues; the status follows the kind, and the path, method and time are echoed; an unknown exception gets 500 with the default message |
| ExceptionFilter.HttpMessageChosen | src/_common/app-exception.filter.ts:69-81 | an HTTP exception's message is the response's message if truthy, else its own if non-empty, else the default, so it is always truthy; details are present exactly when the response has truthy details |
| ExceptionFilter.DatabaseMetaDefaults | src/_common/app-exception.filter.ts:94-106 | a database error's details carry its code and a truthy meta, the empty object when the error has none |
| ExceptionFilter.IssuePathsRoundTrip | src/_common/app-exception.filter.ts:63-66 | each issue's entry carries its message, and its dotted path splits back into the issue's keys when no key holds a dot |
| ExceptionFilter.HttpResponse.constructor | src/_common/app-exception.filter.ts:40 | a response starts with status 200 and no body |
| ExceptionFilter.Catch | src/_common/app-exception.filter.ts:109 | the status written is the body's status and the body is the handled response; a filter that throws writes nothing |

## Definitions

The functions below define an operation and carry no contract of their own. The rows of the "Model" table named beside each state what they do.

| definition | source | stated by |
|---|---|---|
| Auth.RegisterSpec | src/auth/auth.service.ts:122-142 | Auth.RegisterMailFailureKeepsUser, Auth.AuthService.Register |
| Auth.RegisterFixedSpec | src/auth/auth.service.ts:136-142 | Auth.RegisterFixedRestoresUsers |
| Auth.VerifyEmailSpec | src/auth/auth.service.ts:70-92 | Auth.VerifyEmailCheckOrder, Auth.VerifyEmailSingleUse, Auth.VerifyEmailExpired |
| Auth.ResendSpec | src/auth/auth.service.ts:157-192 | Auth.ResendOutcomes, Auth.AuthService.ResendVerificationEmail |
| Auth.LoginSpec | src/auth/auth.service.ts:204-239 | Auth.WrongPasswordCounts, Auth.RightPasswordResetsCounter, Auth.UnknownEmailRefused |
| Auth.ForgotPasswordSpec | src/auth/auth.service.ts:288-319 | Auth.ForgotPasswordNeverLeaks |
| Auth.ResetPasswordSpec | src/auth/auth.service.ts:357-403 | Auth.ResetPasswordSingleUse |
| Users.CreateSpec | src/users/users.service.ts:333-370 | Users.CreateConflictOrder, Users.HeldEmailRefused, Users.CreateAddsUserAndPreferences, Users.MobileCheckNeverFires, Users.DuplicateMobileAccepted |
| Users.CreateFixedSpec | src/users/users.service.ts:349-355 | Users.FixedRefusesDuplicateMobile |
| Users.UpdateRoleSpec | src/users/users.service.ts:406-444 | Users.UpdateRoleIff, Users.UnauthorizedBeforeNotFound |
| Users.UpdateAttemptsSpec | src/users/users.service.ts:533-548 | Users.DefaultAttemptsIncrementByOne, Users.IncrementDecrementRestores |
| Votes.CreateSpec | src/poll-option-votes/poll-option-votes.service.ts:61-92 | Votes.CreateOutcomes, Votes.DuplicateCheckedFirst, Votes.CreatePreservesInvariants |
| Comments.DeleteSpec | src/comments/comments.service.ts:67-85 | Comments.DeleteAllowedIff, Comments.StrangerCannotDelete, Comments.DeleteRemovesOnlyIt |
| Comments.MayDelete | src/comments/comments.service.ts:67-85 | Comments.DeleteAllowedIff, Comments.StrangerCannotDelete |
| Friendships.SendSpec | src/friendships/friendships.service.ts:106-144 | Friendships.SendOutcomes, Friendships.SendNeverAccepts, Friendships.SendPreservesValid |
| Friendships.AnswerSpec | src/friendships/friendships.service.ts:148-152 | Friendships.AnswerAsWrittenNotFound, Friendships.AnswerPreservesValid |
| Friendships.AnswerByIdSpec | src/friendships/friendships.service.ts:147-198 | Friendships.AnswerByIdSpecIff, Friendships.RequestThenAccept |
| Likes.ToggleSpec | src/likes/likes.service.ts:58-94 | Likes.ToggleOutcomes, Likes.ToggleRemovesFound, Likes.ToggleTwiceRestores, Likes.TogglePreservesValid |
| Teams.CreateAll | src/teams/teams.service.ts:76-80 | Teams.CreateAllOnePerEntry, Teams.CreateMakesOnePlayerPerEntry |
| Teams.RemoveAll | src/teams/teams.service.ts:93-102 | Teams.RemoveAllShrinks, Teams.TeamsService.RemoveDeleted |
| Teams.UpdateAll | src/teams/teams.service.ts:108-112 | Teams.UpdateAllKeepsIds, Teams.TeamsService.UpdatePlayers |
| Players.ResolveLink | src/players/players.service.ts:333-384 | Players.UpdateLinksRequestedUser, Players.SecondUserLookupNeverFails |
| Players.FullName | src/players/players.service.ts:279 | Players.CreateSpec, Players.UpdateName |
| Search.BuildWhere | src/_common/lib/query.search.ts:62-65 | Search.BuildWhereEmptyIff, Search.RegularSearchShape, Search.FullTextIgnoresRequestFields |
| Search.IsActive | src/_common/lib/query.search.ts:149-151 | Search.BuildWhereEmptyIff, Search.SearchTermsSpec |
| Order.ValidateOrderField | src/_common/lib/query.order.ts:92-98 | Order.ValidateCountPath, Order.ValidateNestedPath, Order.ValidatedOrderStartsAllowed |
| Order.ValidateNestedField | src/_common/lib/query.order.ts:117-138 | Order.ValidateNestedPath |
| Order.OrderFor | src/_common/lib/query.order.ts:21-38 | Order.Use, Order.OrderForInjective, Order.CreateMultipleOrders |
| Cloudinary.ValidateImageFiles | src/cloudinary/cloudinary.service.ts:392-403 | Cloudinary.ValidateImageFilesIff |
| Cloudinary.ValidateEach | src/cloudinary/cloudinary.service.ts:401 | Cloudinary.ValidateEachFirstFailure |
| Cloudinary.DeleteMultipleImages | src/cloudinary/cloudinary.service.ts:172-211 | Cloudinary.DeleteReportPartitions |
| Cloudinary.DeleteImagesByUrls | src/cloudinary/cloudinary.service.ts:250-260 | Cloudinary.DeleteByUrlsReport |
| Cloudinary.GeneratePublicId | src/cloudinary/cloudinary.service.ts:316-325 | Cloudinary.GeneratedIdShape |
| GoalAssists.ValidateGoalAssists | src/_common/validate-goal-assists.ts:14-35 | GoalAssists.ValidateIffConsistent, GoalAssists.ScorelessRosterAccepted, GoalAssists.LonePlayerWithAssistsRejected |
| Guard.Decide | src/auth/guards/auth.guard.ts:19-53 | Guard.DecideIff, Guard.SchemeNotChecked, Guard.SingleWordRefused, Guard.CanActivate |
| Interceptor.DefaultMessage | src/_common/interceptors/respose.interceptor.ts:28-47 | Interceptor.DefaultMessageTable, Interceptor.DefaultMessageIgnoresCase |
| Interceptor.Intercept | src/_common/interceptors/respose.interceptor.ts:72-92 | Interceptor.InterceptWraps, Interceptor.InterceptIdempotent |
| Interceptor.IsAlreadyWrapped | src/_common/interceptors/respose.interceptor.ts:49-57 | Interceptor.InterceptIdempotent |
| ExceptionFilter.Handle | src/_common/app-exception.filter.ts:38-110 | ExceptionFilter.Classification, ExceptionFilter.HttpMessageChosen, ExceptionFilter.DatabaseMetaDefaults, ExceptionFilter.Catch |
| Dashboard.GetDashboardStats | src/dashboard/dashboard.service.ts:38-52 | Dashboard.AggregatesNeedAdmin, Dashboard.DeletedAdminUnauthorized |
| Dashboard.GetDashboardCharts | src/dashboard/dashboard.service.ts:70-81 | Dashboard.AggregatesNeedAdmin, Dashboard.DeletedAdminUnauthorized |
| Posts.VisibleTo | src/posts/posts.service.ts:54-61 | Posts.VisibilityByLevel, Posts.VisibilityMonotone |
| Posts.PinnedThenNewest | src/posts/posts.service.ts:258 | Posts.PinnedThenNewestIsTotalPreorder, Posts.PinnedComeFirst |
| Venues.MayEdit | src/venues/venues.service.ts:193-203 | Venues.Authorize, Venues.CreatorMayEdit, Venues.AdminCannotEditOwnVenue |

## Left out

Representation choices:
- Strings are sequences of `char`, with no UTF-16 surrogate pairs. JavaScript `length` is therefore the length of the `seq`.
- The case-insensitive regex flag, Prisma's `insensitive` mode, `ILIKE` and `toLowerCase`/`toUpperCase` are modelled as ASCII case mapping. Non-ASCII letters are left unchanged.
- Integers are unbounded. JavaScript number precision and `parseInt` beyond 2^53 are not modelled. The configuration parsers accept only digit strings, as the source's regexes do.
- The password regex's special-character class is a fixed set of characters. The mobile operator codes are a parameter, as the configuration supplies them.
- `Array.prototype.sort` is modelled by a stable insertion sort. The model proves the ordering and the permutation. Stability is proved only in the form the feed needs (`Sorting.SortKeepsTies`): when the elements satisfying a predicate precede the others in the input, they still precede them among equal keys.
- In `OrderBuilder`, the `current` reference into the result map is modelled as the path of keys walked so far, and each assignment through it as an update of the map value at that path. Object identity and aliasing are not modelled.
- A team's `name` in an update is `Some(None)` for an explicit `null`. A player's `userId` is an `Option` of an id, and an empty string counts as absent.
- Order.ValidateNestedField looks up relations as own keys only. In `validateNestedField` (`src/_common/lib/query.order.ts:127`), a first segment such as `constructor`, `toString` or `__proto__` reads an inherited value, and `includes` on it then throws a TypeError. The model rejects such a path instead.
- Order.Use, Order.ChainInjective, Order.OrderForInjective: treat every path segment as an ordinary own key. In `buildCountOrder`/`buildNestedOrder` (`src/_common/lib/query.order.ts:40-70`), a `__proto__` segment sets the prototype of the object being built instead of adding a key, so the injectivity lemmas do not describe paths with such a segment.
- Auth.LoginSpec: its `LoginResult` leaves out the `createdAt` and `avatar` fields that `login` returns (`src/auth/auth.service.ts:282-284`). The user rows of the model do not carry them.
- Zod issue paths are strings. `HttpException.message` is an input of the filter rather than derived from the constructor.
- Exception filter: a Zod validation exception that carries no issues is modelled as `None`. The source reads `issues[0].message` and throws there.
- `Promise.all` is a sequential fold in list order, and its first failure in list order is the error reported. No atomicity is claimed for the check-then-write sequences in friendships, likes, votes or users.
- Auth tokens: `setHours(getHours() + n)` is modelled as adding `n` hours of milliseconds, so local-time daylight-saving shifts are not modelled. A token's user relation is always present. A token whose user row is missing gives the unexpected-error result.

Oracles and parameters:
- bcrypt hashing and comparison, JWT signing and verification, uuid generation, `Date.now`/`new Date()` and `Math.random` are function parameters or inputs. Fresh ids are required to differ from the ids already in the table.
- Mail sending (the `src/mail` service and its templates) is an input `Mail` that is either delivered or throws. The message content is not modelled.
- Cloudinary's `destroy` is a function of the public id.
- `deleteMultipleImages`: the outer `catch` is unreachable once each destroy's failure is caught per id, so it is not modelled.
- The matches service that feeds `getFeed` is a parameter (a page of matches and their total).

Operations not modelled:
- Raw-SQL searches: `searchUsersForMatch` and `searchVenues`. Trigram similarity and float scores are database behaviour.
- Month statistics and charts: `getPostsStats`, `getPostsChart`, the users-created chart and `getVenuesStats`. They depend on local-time `Date` normalisation and the wall clock.
- The dashboard's single-chart getters (`src/dashboard/dashboard.service.ts:54-68`). They only forward to those chart queries and perform no admin check. Only the two aggregate entry points, which do check, are modelled.
- Player top lists, aggregates, positions and rating (Prisma `groupBy`, float averages, `toFixed`), and the stats service.
- Cloudinary `uploadImage(s)`, `getImageInfo`, `getOptimizedUrl` and `replaceAvatar`. These are network calls. Only the filename cleaning of `generatePublicId` is modelled, because the rest of the id is a timestamp and a random suffix.
- Pass-through ORM reads and counts with no logic of their own: `findMany` listings without a visibility rule, `getLikesOfPost`, poll creation in the polls service, the matches, polls and poll-options services, and the match-results stubs.
- `deletePost` and the mock data generators.
- Controllers, modules, decorators and `main.ts`, which are wiring only.

Contracts stated weaker than the source:
- Cloudinary.ExtractPublicId: its own ensures states only that an extracted id is non-empty. The shape (the last three segments without the extension, or the last single segment, or none) is proved in `Cloudinary.ExtractThreeSegments`, `Cloudinary.ExtractSingleSegment` and `Cloudinary.NotAnImageNoId`.
- Auth.ExpiresAt: states only that the expiry is not before `now` for a non-negative number of hours.
- Teams.CreateSpec: states the team row written and the returned team. The players are stated by `Teams.CreateMakesOnePlayerPerEntry`.
- Teams.UpdateSpec: states the missing-team error and that a failure leaves the teams unchanged. The players are stated by `Teams.UpdateReturnsTheKeptPlayers` and `Teams.UpdateTouchesOnlyTheTeam`.
- Likes.ToggleTwiceRestores: proved from a state with no like by the user on the target. From a state with a like, the second toggle re-creates the like under a fresh id, so the table is equal only up to that id.

## Findings

| source | as written | input that shows it | evidently intended | confidence | as-written member | corrected member |
|---|---|---|---|---|---|---|
| src/friendships/friendships.service.ts:147-198 | cancel, reject and accept look the row up by the user pair (id, current user), passing the friendship id where a user id belongs, and then write the row whose key is id | any table in which no user id equals a friendship id: every cancel, reject and accept ends in NotFound "Friendship not found" | look the row up by its own key and check that the current user is its requester (cancel) or receiver (reject, accept) | high, not executed | Friendships.AnswerAsWrittenNotFound | Friendships.AnswerByIdSpecIff |
| src/venues/venues.service.ts:181-203 | create stores only the DTO, so `creatorId` stays null, while update and delete allow only SUPER_ADMIN or the creator | admin "a1" creates venue "v1", then updates it: Forbidden "Access denied" | set `creatorId` to the current user on create, so an ADMIN may edit the venues they created | medium, not executed | Venues.AdminCannotEditOwnVenue | Venues.CreatorMayEdit |
| src/users/users.service.ts:349-370 | the mobile-number conflict check compares the plain number with the stored values, which are bcrypt hashes | two registrations with mobile "501234567" and different emails and usernames: both succeed | refuse a mobile number already held, by comparing it with each stored hash | high, not executed | Users.DuplicateMobileAccepted | Users.FixedRefusesDuplicateMobile |
| src/auth/auth.service.ts:134-142 | `sendVerificationEmail` either returns an object or throws, so `!emailSent` is never true and the clean-up never runs | registration whose mail delivery fails: the request ends in an unexpected error, the user row stays, and a retry with the same email gets Conflict "Email already exists" | remove the new user when the mail cannot be sent and report the mail failure | high, not executed | Auth.RegisterMailFailureKeepsUser | Auth.RegisterFixedRestoresUsers |
