/**
 * Votes on poll options: a vote table keyed by (option, user), and the
 * guards a new vote passes before it is written.
 */
module Votes {
  import opened Common
  import Tables

  type Id = string

  /** A vote; the pair (optionId, userId) is the table's unique key. */
  datatype Vote = Vote(optionId: Id, userId: Id)

  /** A poll with its vote limit and the ids of its options. */
  datatype PollRow = PollRow(id: Id, maxVotes: int, optionIds: seq<Id>)

  /** `findPollFromOption`: the first poll that has the option. */
  function FindPollOf(polls: seq<PollRow>, optionId: Id): (r: Option<nat>)
    ensures r.Some? ==> r.value < |polls| && optionId in polls[r.value].optionIds
    ensures r.Some? ==> forall k :: 0 <= k < r.value ==> optionId !in polls[k].optionIds
    ensures r.None? <==> forall k :: 0 <= k < |polls| ==> optionId !in polls[k].optionIds
  {
    if polls == [] then None
    else if optionId in polls[0].optionIds then Some(0)
    else
      var rest := FindPollOf(polls[1..], optionId);
      if rest.None? then None else Some(rest.value + 1)
  }

  /** The `where` of `getVotesOfUserForPoll`: this user, an option of this poll. */
  predicate VoteInPoll(v: Vote, userId: Id, poll: PollRow)
  {
    v.userId == userId && v.optionId in poll.optionIds
  }

  /** `getVotesOfUserForPoll`. */
  function VotesOfUserForPoll(votes: seq<Vote>, userId: Id, poll: PollRow): (r: seq<Vote>)
    ensures forall k :: 0 <= k < |r| ==> r[k] in votes && VoteInPoll(r[k], userId, poll)
    ensures forall k :: 0 <= k < |votes| && VoteInPoll(votes[k], userId, poll) ==> votes[k] in r
  {
    Tables.Filter(votes, v => VoteInPoll(v, userId, poll))
  }

  const AlreadyVoted: string := "You have already voted for this option"
  const PollNotFound: string := "Poll not found"
  const NoMaxVotes: string := "This poll has no max votes"
  const LimitReached: string := "You have reached the maximum number of votes for this poll"

  datatype Outcome = Outcome(result: Result<Vote>, votes: seq<Vote>)

  /** `create`: the guards in the order the service runs them, then one new vote. */
  function CreateSpec(votes: seq<Vote>, polls: seq<PollRow>, optionId: Id, userId: Id): Outcome
  {
    if Vote(optionId, userId) in votes then Outcome(Err(HttpError(BadRequest, AlreadyVoted)), votes)
    else match FindPollOf(polls, optionId)
      case None => Outcome(Err(HttpError(NotFound, PollNotFound)), votes)
      case Some(i) =>
        var poll := polls[i];
        if poll.maxVotes == 0 then Outcome(Err(HttpError(BadRequest, NoMaxVotes)), votes)
        else if |VotesOfUserForPoll(votes, userId, poll)| >= poll.maxVotes then
          Outcome(Err(HttpError(BadRequest, LimitReached)), votes)
        else Outcome(Ok(Vote(optionId, userId)), votes + [Vote(optionId, userId)])
  }

  // ---------------------------------------------------------------------
  // Table invariants
  // ---------------------------------------------------------------------

  predicate NoDuplicateVotes(votes: seq<Vote>)
  {
    forall i, j :: 0 <= i < j < |votes| ==> votes[i] != votes[j]
  }

  /** Each option belongs to at most one poll. */
  predicate OptionsOwnedOnce(polls: seq<PollRow>)
  {
    forall i, j, o :: 0 <= i < j < |polls| && o in polls[i].optionIds ==> o !in polls[j].optionIds
  }

  /** No user holds more votes in a poll than the poll allows. */
  ghost predicate WithinLimits(votes: seq<Vote>, polls: seq<PollRow>)
  {
    forall u, k :: 0 <= k < |polls| ==> |VotesOfUserForPoll(votes, u, polls[k])| <= Max0(polls[k].maxVotes)
  }

  function Max0(x: int): nat
  {
    if x < 0 then 0 else x
  }

  // ---------------------------------------------------------------------
  // Properties
  // ---------------------------------------------------------------------

  /** Every refusal leaves the table alone; success appends exactly the requested vote. */
  lemma CreateOutcomes(votes: seq<Vote>, polls: seq<PollRow>, optionId: Id, userId: Id)
    ensures var o := CreateSpec(votes, polls, optionId, userId);
            (o.result.Err? ==> o.votes == votes && o.result.error.HttpError?)
            && (o.result.Ok? <==>
                  Vote(optionId, userId) !in votes && FindPollOf(polls, optionId).Some?
                  && var poll := polls[FindPollOf(polls, optionId).value];
                     poll.maxVotes != 0 && |VotesOfUserForPoll(votes, userId, poll)| < poll.maxVotes)
            && (o.result.Ok? ==> o.result.value == Vote(optionId, userId) && o.votes == votes + [Vote(optionId, userId)])
  {
  }

  /** The duplicate check comes first: a repeated vote is refused as such even for an option without a poll. */
  lemma DuplicateCheckedFirst(votes: seq<Vote>, polls: seq<PollRow>, optionId: Id, userId: Id)
    requires Vote(optionId, userId) in votes
    ensures CreateSpec(votes, polls, optionId, userId).result == Err(HttpError(BadRequest, AlreadyVoted))
  {
  }

  /** Adding a vote changes the count of a user in a poll by one exactly when it is theirs and in that poll. */
  lemma CountAfterVote(votes: seq<Vote>, v: Vote, u: Id, poll: PollRow)
    ensures |VotesOfUserForPoll(votes + [v], u, poll)|
            == |VotesOfUserForPoll(votes, u, poll)| + (if VoteInPoll(v, u, poll) then 1 else 0)
  {
    Tables.FilterAppend(votes, v, v => VoteInPoll(v, u, poll));
  }

  /** Voting keeps the table free of duplicates and every user within every poll's limit. */
  lemma CreatePreservesInvariants(votes: seq<Vote>, polls: seq<PollRow>, optionId: Id, userId: Id)
    requires NoDuplicateVotes(votes) && WithinLimits(votes, polls) && OptionsOwnedOnce(polls)
    ensures var o := CreateSpec(votes, polls, optionId, userId);
            NoDuplicateVotes(o.votes) && WithinLimits(o.votes, polls)
  {
    var o := CreateSpec(votes, polls, optionId, userId);
    if o.result.Ok? {
      var v := Vote(optionId, userId);
      var i := FindPollOf(polls, optionId).value;
      forall u, k | 0 <= k < |polls|
        ensures |VotesOfUserForPoll(o.votes, u, polls[k])| <= Max0(polls[k].maxVotes)
      {
        CountAfterVote(votes, v, u, polls[k]);
      }
    }
  }

  // ---------------------------------------------------------------------
  // The service over its table
  // ---------------------------------------------------------------------

  class PollOptionVotesService {
    var votes: seq<Vote>

    constructor (initial: seq<Vote>)
      ensures votes == initial
    {
      votes := initial;
    }

    /** `getVote`: the vote with that key, if any. */
    function GetVote(optionId: Id, userId: Id): (r: Option<Vote>)
      reads this
      ensures r.Some? <==> Vote(optionId, userId) in votes
      ensures r.Some? ==> r.value == Vote(optionId, userId)
    {
      if Vote(optionId, userId) in votes then Some(Vote(optionId, userId)) else None
    }

    function GetVotesOfUserForPoll(userId: Id, poll: PollRow): (r: seq<Vote>)
      reads this
      ensures r == VotesOfUserForPoll(votes, userId, poll)
    {
      VotesOfUserForPoll(votes, userId, poll)
    }

    /** `create`, with the poll table as it stands. */
    method Create(optionId: Id, userId: Id, polls: seq<PollRow>) returns (r: Result<Vote>)
      modifies this
      ensures Outcome(r, votes) == CreateSpec(old(votes), polls, optionId, userId)
    {
      var existing := GetVote(optionId, userId);
      if existing.Some? {
        return Err(HttpError(BadRequest, AlreadyVoted));
      }
      var i := FindPollOf(polls, optionId);
      if i.None? {
        return Err(HttpError(NotFound, PollNotFound));
      }
      var poll := polls[i.value];
      if poll.maxVotes == 0 {
        return Err(HttpError(BadRequest, NoMaxVotes));
      }
      var userVotes := GetVotesOfUserForPoll(userId, poll);
      if |userVotes| >= poll.maxVotes {
        return Err(HttpError(BadRequest, LimitReached));
      }
      r := Ok(Vote(optionId, userId));
      votes := votes + [Vote(optionId, userId)];
    }
  }
}
