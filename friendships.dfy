/**
 * Friend requests between users: a table of friendship rows, each with a
 * requester, a receiver and a status, that requests create and that cancel,
 * reject and accept move between statuses.
 */
module Friendships {
  import opened Common
  import Tables

  type Id = string

  datatype Status = Pending | Accepted | Rejected | Canceled | Blocked

  datatype Friendship = Friendship(id: Id, requesterId: Id, receiverId: Id, status: Status)

  /** The result of an operation together with the friendship table it leaves behind. */
  datatype Outcome = Outcome(result: Result<Friendship>, rows: seq<Friendship>)

  /** The row links `a` and `b`, in either direction. */
  predicate Between(f: Friendship, a: Id, b: Id)
  {
    (f.requesterId == a && f.receiverId == b) || (f.requesterId == b && f.receiverId == a)
  }

  /** `getFriendshipWithIds`: the first row, in table order, that links `a` and `b`. */
  function FindBetween(rows: seq<Friendship>, a: Id, b: Id): (r: Option<nat>)
    ensures r.Some? ==> r.value < |rows| && Between(rows[r.value], a, b)
    ensures r.Some? ==> forall j :: 0 <= j < r.value ==> !Between(rows[j], a, b)
    ensures r.None? <==> forall j :: 0 <= j < |rows| ==> !Between(rows[j], a, b)
  {
    if rows == [] then None
    else if Between(rows[0], a, b) then Some(0)
    else
      var rest := FindBetween(rows[1..], a, b);
      if rest.None? then None else Some(rest.value + 1)
  }

  /** The first row whose primary key is `id`. */
  function FindById(rows: seq<Friendship>, id: Id): (r: Option<nat>)
    ensures r.Some? ==> r.value < |rows| && rows[r.value].id == id
    ensures r.Some? ==> forall j :: 0 <= j < r.value ==> rows[j].id != id
    ensures r.None? <==> forall j :: 0 <= j < |rows| ==> rows[j].id != id
  {
    if rows == [] then None
    else if rows[0].id == id then Some(0)
    else
      var rest := FindById(rows[1..], id);
      if rest.None? then None else Some(rest.value + 1)
  }

  predicate UniqueIds(rows: seq<Friendship>)
  {
    forall i, j :: 0 <= i < j < |rows| ==> rows[i].id != rows[j].id
  }

  /** At most one row per pair of users, whichever of them sent the request. */
  predicate OneRowPerPair(rows: seq<Friendship>)
  {
    forall i, j :: 0 <= i < j < |rows| ==> !Between(rows[j], rows[i].requesterId, rows[i].receiverId)
  }

  predicate ValidTable(rows: seq<Friendship>)
  {
    UniqueIds(rows) && OneRowPerPair(rows)
  }

  /** `updateStatus`: the row with that id gets the new status; a missing id is the ORM's record-not-found error. */
  function UpdateStatusSpec(rows: seq<Friendship>, id: Id, status: Status): (o: Outcome)
    ensures o.result.Err? <==> (forall j :: 0 <= j < |rows| ==> rows[j].id != id)
    ensures o.result.Err? ==> o.result.error == DbError(RecordNotFound) && o.rows == rows
    ensures o.result.Ok? ==>
              var i := FindById(rows, id).value;
              o.rows == rows[i := rows[i].(status := status)] && o.result.value == o.rows[i]
  {
    match FindById(rows, id)
    case None => Outcome(Err(DbError(RecordNotFound)), rows)
    case Some(i) =>
      var updated := rows[i].(status := status);
      Outcome(Ok(updated), rows[i := updated])
  }

  /** `sendFriendshipRequest` from `current` to `friendId`; `newId` is the key a new row would get. */
  function SendSpec(rows: seq<Friendship>, liveUsers: set<Id>, friendId: Id, current: Id, newId: Id): Outcome
  {
    if friendId !in liveUsers then Outcome(Err(HttpError(NotFound, "Friend not found")), rows)
    else match FindBetween(rows, current, friendId)
      case Some(i) =>
        if rows[i].status == Accepted then Outcome(Err(HttpError(BadRequest, "Friendship already exists")), rows)
        else if rows[i].status == Blocked then
          Outcome(Err(HttpError(BadRequest, "You cannot send a friendship request to a blocked user")), rows)
        else if rows[i].status == Pending then Outcome(Err(HttpError(BadRequest, "Friendship request already sent")), rows)
        else UpdateStatusSpec(rows, rows[i].id, Pending)
      case None =>
        var created := Friendship(newId, current, friendId, Pending);
        Outcome(Ok(created), rows + [created])
  }

  /** The three answers to a request: who may give each, the status it sets and the refusal message. */
  datatype Action = Cancel | Reject | Accept

  function ActionStatus(a: Action): Status
  {
    match a
    case Cancel => Canceled
    case Reject => Rejected
    case Accept => Accepted
  }

  function RefusalMessage(a: Action): string
  {
    match a
    case Cancel => "You cannot cancel this friendship request"
    case Reject => "You cannot reject this friendship request"
    case Accept => "You cannot accept this friendship request"
  }

  /** Only the requester may cancel; only the receiver may reject or accept. */
  predicate MayAnswer(f: Friendship, current: Id, a: Action)
  {
    if a == Cancel then f.requesterId == current else f.receiverId == current
  }

  /**
   * Cancel, reject and accept as written: the row is looked up as the pair
   * (id, current), with the friendship id in a user-id slot, and the update
   * then goes to the row whose primary key is `id`.
   */
  function AnswerSpec(rows: seq<Friendship>, id: Id, current: Id, a: Action): Outcome
  {
    match FindBetween(rows, id, current)
    case None => Outcome(Err(HttpError(NotFound, "Friendship not found")), rows)
    case Some(i) =>
      if !MayAnswer(rows[i], current, a) then Outcome(Err(HttpError(BadRequest, RefusalMessage(a))), rows)
      else UpdateStatusSpec(rows, id, ActionStatus(a))
  }

  /** Cancel, reject and accept looking the row up by its primary key, as the surrounding code intends. */
  function AnswerByIdSpec(rows: seq<Friendship>, id: Id, current: Id, a: Action): Outcome
  {
    match FindById(rows, id)
    case None => Outcome(Err(HttpError(NotFound, "Friendship not found")), rows)
    case Some(i) =>
      if !MayAnswer(rows[i], current, a) then Outcome(Err(HttpError(BadRequest, RefusalMessage(a))), rows)
      else UpdateStatusSpec(rows, id, ActionStatus(a))
  }

  /** `x` shares an accepted row with `user`. */
  predicate IsFriend(rows: seq<Friendship>, user: Id, x: Id)
  {
    exists i :: 0 <= i < |rows| && rows[i].status == Accepted && Between(rows[i], user, x)
  }

  lemma FriendOfTail(rows: seq<Friendship>, user: Id, x: Id)
    requires rows != [] && IsFriend(rows[1..], user, x)
    ensures IsFriend(rows, user, x)
  {
    var j :| 0 <= j < |rows[1..]| && rows[1..][j].status == Accepted && Between(rows[1..][j], user, x);
    assert rows[j + 1] == rows[1..][j];
  }

  /** An accepted row that involves `user`. */
  predicate AcceptedWith(f: Friendship, user: Id)
  {
    f.status == Accepted && (f.requesterId == user || f.receiverId == user)
  }

  /** The party of the row that is not `user`. */
  function OtherParty(f: Friendship, user: Id): Id
  {
    if f.requesterId == user then f.receiverId else f.requesterId
  }

  /** The `where` of `getFriendsOfUser`: the accepted rows involving `user`, in table order. */
  function AcceptedRowsOf(rows: seq<Friendship>, user: Id): seq<Friendship>
  {
    Tables.Filter(rows, f => AcceptedWith(f, user))
  }

  lemma AcceptedRowsStep(rows: seq<Friendship>, user: Id)
    requires rows != []
    ensures AcceptedRowsOf(rows, user)
            == (if AcceptedWith(rows[0], user) then [rows[0]] else []) + AcceptedRowsOf(rows[1..], user)
  {
  }

  /** Every listed party of the tail, and the first row's other party when it counts, is a friend of `user`. */
  lemma FriendsStepFriends(rows: seq<Friendship>, user: Id, rest: seq<Id>)
    requires rows != []
    requires forall k :: 0 <= k < |rest| ==> IsFriend(rows[1..], user, rest[k])
    ensures forall k :: 0 <= k < |rest| ==> IsFriend(rows, user, rest[k])
    ensures AcceptedWith(rows[0], user) ==> IsFriend(rows, user, OtherParty(rows[0], user))
  {
    forall k | 0 <= k < |rest| ensures IsFriend(rows, user, rest[k]) {
      FriendOfTail(rows, user, rest[k]);
    }
    if AcceptedWith(rows[0], user) {
      assert Between(rows[0], user, OtherParty(rows[0], user));
    }
  }

  /** Prepending the first row's other party keeps the listing aligned with the accepted rows. */
  lemma FriendsStepAligned(rows: seq<Friendship>, user: Id, rest: seq<Id>)
    requires rows != [] && AcceptedWith(rows[0], user)
    requires |rest| == |AcceptedRowsOf(rows[1..], user)|
    requires forall k :: 0 <= k < |rest| ==> rest[k] == OtherParty(AcceptedRowsOf(rows[1..], user)[k], user)
    ensures |[OtherParty(rows[0], user)] + rest| == |AcceptedRowsOf(rows, user)|
    ensures forall k :: 0 <= k < |rest| + 1 ==>
              ([OtherParty(rows[0], user)] + rest)[k] == OtherParty(AcceptedRowsOf(rows, user)[k], user)
  {
    AcceptedRowsStep(rows, user);
    var acc := AcceptedRowsOf(rows, user);
    var r := [OtherParty(rows[0], user)] + rest;
    assert acc == [rows[0]] + AcceptedRowsOf(rows[1..], user);
    forall k | 0 <= k < |rest| + 1 ensures r[k] == OtherParty(acc[k], user) {
      if k > 0 {
        assert r[k] == rest[k - 1];
        assert acc[k] == AcceptedRowsOf(rows[1..], user)[k - 1];
      }
    }
  }

  /** `getFriendsOfUser`: the other party of every accepted row that involves `user`, one per row, in table order. */
  function FriendsOf(rows: seq<Friendship>, user: Id): (r: seq<Id>)
    ensures |r| == |AcceptedRowsOf(rows, user)| <= |rows|
    ensures forall k :: 0 <= k < |r| ==> r[k] == OtherParty(AcceptedRowsOf(rows, user)[k], user)
    ensures forall k :: 0 <= k < |r| ==> IsFriend(rows, user, r[k])
  {
    if rows == [] then []
    else
      var rest := FriendsOf(rows[1..], user);
      FriendsStepFriends(rows, user, rest);
      AcceptedRowsStep(rows, user);
      if AcceptedWith(rows[0], user) then
        FriendsStepAligned(rows, user, rest);
        [OtherParty(rows[0], user)] + rest
      else
        rest
  }

  // ---------------------------------------------------------------------
  // The service over its table
  // ---------------------------------------------------------------------

  class FriendshipsService {
    var rows: seq<Friendship>

    constructor (initial: seq<Friendship>)
      ensures rows == initial
    {
      rows := initial;
    }

    function GetFriendshipWithIds(a: Id, b: Id): (r: Option<Friendship>)
      reads this
      ensures r.Some? <==> exists i :: 0 <= i < |rows| && Between(rows[i], a, b)
      ensures r.Some? ==> r.value in rows && Between(r.value, a, b)
    {
      match FindBetween(rows, a, b)
      case None => None
      case Some(i) => Some(rows[i])
    }

    function GetFriendsOfUser(user: Id): (r: seq<Id>)
      reads this
      ensures r == FriendsOf(rows, user)
    {
      FriendsOf(rows, user)
    }

    method CreateFriendship(userId: Id, friendId: Id, status: Status, newId: Id) returns (r: Result<Friendship>)
      modifies this
      ensures r == Ok(Friendship(newId, userId, friendId, status))
      ensures rows == old(rows) + [r.value]
    {
      var created := Friendship(newId, userId, friendId, status);
      rows := rows + [created];
      return Ok(created);
    }

    method UpdateStatus(id: Id, status: Status) returns (r: Result<Friendship>)
      modifies this
      ensures Outcome(r, rows) == UpdateStatusSpec(old(rows), id, status)
    {
      var i := FindById(rows, id);
      if i.None? {
        return Err(DbError(RecordNotFound));
      }
      var updated := rows[i.value].(status := status);
      rows := rows[i.value := updated];
      return Ok(updated);
    }

    method SendFriendshipRequest(friendId: Id, currentUserId: Id, liveUsers: set<Id>, newId: Id)
      returns (r: Result<Friendship>)
      modifies this
      ensures Outcome(r, rows) == SendSpec(old(rows), liveUsers, friendId, currentUserId, newId)
    {
      if friendId !in liveUsers {
        return Err(HttpError(NotFound, "Friend not found"));
      }
      var existing := GetFriendshipWithIds(currentUserId, friendId);
      if existing.Some? {
        var f := existing.value;
        if f.status == Accepted {
          return Err(HttpError(BadRequest, "Friendship already exists"));
        }
        if f.status == Blocked {
          return Err(HttpError(BadRequest, "You cannot send a friendship request to a blocked user"));
        }
        if f.status == Pending {
          return Err(HttpError(BadRequest, "Friendship request already sent"));
        }
        r := UpdateStatus(f.id, Pending);
        return;
      }
      r := CreateFriendship(currentUserId, friendId, Pending, newId);
    }

    /** The shared body of cancel, reject and accept, as written. */
    method Answer(id: Id, currentUserId: Id, a: Action) returns (r: Result<Friendship>)
      modifies this
      ensures Outcome(r, rows) == AnswerSpec(old(rows), id, currentUserId, a)
    {
      var friendship := GetFriendshipWithIds(id, currentUserId);
      if friendship.None? {
        return Err(HttpError(NotFound, "Friendship not found"));
      }
      if !MayAnswer(friendship.value, currentUserId, a) {
        return Err(HttpError(BadRequest, RefusalMessage(a)));
      }
      r := UpdateStatus(id, ActionStatus(a));
    }

    method CancelFriendshipRequest(id: Id, currentUserId: Id) returns (r: Result<Friendship>)
      modifies this
      ensures Outcome(r, rows) == AnswerSpec(old(rows), id, currentUserId, Cancel)
    {
      r := Answer(id, currentUserId, Cancel);
    }

    method RejectFriendshipRequest(id: Id, currentUserId: Id) returns (r: Result<Friendship>)
      modifies this
      ensures Outcome(r, rows) == AnswerSpec(old(rows), id, currentUserId, Reject)
    {
      r := Answer(id, currentUserId, Reject);
    }

    method AcceptFriendshipRequest(id: Id, currentUserId: Id) returns (r: Result<Friendship>)
      modifies this
      ensures Outcome(r, rows) == AnswerSpec(old(rows), id, currentUserId, Accept)
    {
      r := Answer(id, currentUserId, Accept);
    }
  }

  // ---------------------------------------------------------------------
  // Properties
  // ---------------------------------------------------------------------

  /** A status update keeps every row's id, requester and receiver, and every other row entirely. */
  lemma UpdateStatusOnlyStatus(rows: seq<Friendship>, id: Id, status: Status)
    ensures var o := UpdateStatusSpec(rows, id, status);
            |o.rows| == |rows|
            && (forall j :: 0 <= j < |rows| ==>
                  o.rows[j].id == rows[j].id && o.rows[j].requesterId == rows[j].requesterId
                  && o.rows[j].receiverId == rows[j].receiverId
                  && (rows[j].id != id ==> o.rows[j] == rows[j]))
  {
  }

  lemma UpdateStatusPreservesValid(rows: seq<Friendship>, id: Id, status: Status)
    requires ValidTable(rows)
    ensures ValidTable(UpdateStatusSpec(rows, id, status).rows)
  {
    var o := UpdateStatusSpec(rows, id, status);
    UpdateStatusOnlyStatus(rows, id, status);
    assert forall j :: 0 <= j < |rows| ==>
      o.rows[j].requesterId == rows[j].requesterId && o.rows[j].receiverId == rows[j].receiverId;
  }

  /**
   * Sending: a missing friend or a live request, friendship or block is
   * refused and changes nothing; a rejected or canceled row is reopened in
   * place, keeping its requester and receiver; otherwise exactly one pending
   * row from the sender to the friend is added.
   */
  lemma SendOutcomes(rows: seq<Friendship>, liveUsers: set<Id>, friendId: Id, current: Id, newId: Id)
    ensures var o := SendSpec(rows, liveUsers, friendId, current, newId);
            var found := FindBetween(rows, current, friendId);
            (friendId !in liveUsers ==> o == Outcome(Err(HttpError(NotFound, "Friend not found")), rows))
            && (friendId in liveUsers && found.Some? && rows[found.value].status in {Accepted, Blocked, Pending} ==>
                  o.result.Err? && o.result.error.HttpError? && o.result.error.kind == BadRequest && o.rows == rows)
            && (friendId in liveUsers && found.Some? && rows[found.value].status in {Rejected, Canceled} && UniqueIds(rows) ==>
                  o.result.Ok? && o.rows == rows[found.value := rows[found.value].(status := Pending)])
            && (friendId in liveUsers && found.None? ==>
                  o == Outcome(Ok(Friendship(newId, current, friendId, Pending)),
                               rows + [Friendship(newId, current, friendId, Pending)]))
  {
    var found := FindBetween(rows, current, friendId);
    if friendId in liveUsers && found.Some? && rows[found.value].status in {Rejected, Canceled} && UniqueIds(rows) {
      var k := FindById(rows, rows[found.value].id);
      assert k == Some(found.value);
    }
  }

  /** Sending never accepts anything: a request in the other direction stays a request. */
  lemma SendNeverAccepts(rows: seq<Friendship>, liveUsers: set<Id>, friendId: Id, current: Id, newId: Id)
    ensures var o := SendSpec(rows, liveUsers, friendId, current, newId);
            forall j :: 0 <= j < |o.rows| && o.rows[j].status == Accepted ==> j < |rows| && rows[j] == o.rows[j]
  {
    var o := SendSpec(rows, liveUsers, friendId, current, newId);
    var found := FindBetween(rows, current, friendId);
    if friendId in liveUsers && found.Some? && (rows[found.value].status == Rejected || rows[found.value].status == Canceled) {
      var u := UpdateStatusSpec(rows, rows[found.value].id, Pending);
      assert o == u;
      if u.result.Ok? {
        var i := FindById(rows, rows[found.value].id).value;
        assert u.rows == rows[i := rows[i].(status := Pending)];
      }
    }
  }

  /** Sending keeps the table valid, given a fresh key for a new row. */
  lemma SendPreservesValid(rows: seq<Friendship>, liveUsers: set<Id>, friendId: Id, current: Id, newId: Id)
    requires ValidTable(rows)
    requires forall j :: 0 <= j < |rows| ==> rows[j].id != newId
    ensures ValidTable(SendSpec(rows, liveUsers, friendId, current, newId).rows)
  {
    var found := FindBetween(rows, current, friendId);
    if friendId in liveUsers {
      if found.Some? {
        UpdateStatusPreservesValid(rows, rows[found.value].id, Pending);
      } else {
        var created := Friendship(newId, current, friendId, Pending);
        var next := rows + [created];
        forall i, j | 0 <= i < j < |next|
          ensures !Between(next[j], next[i].requesterId, next[i].receiverId)
        {
          if j == |rows| {
            assert !Between(rows[i], current, friendId);
          }
        }
      }
    }
  }

  /** Answering (as written or by id) keeps the table valid. */
  lemma AnswerPreservesValid(rows: seq<Friendship>, id: Id, current: Id, a: Action)
    requires ValidTable(rows)
    ensures ValidTable(AnswerSpec(rows, id, current, a).rows)
    ensures ValidTable(AnswerByIdSpec(rows, id, current, a).rows)
  {
    UpdateStatusPreservesValid(rows, id, ActionStatus(a));
  }

  /**
   * As written, cancel, reject and accept can only find a row whose
   * requester or receiver is the friendship id itself. With friendship keys
   * distinct from user ids they always fail with NotFound and change nothing.
   */
  lemma AnswerAsWrittenNotFound(rows: seq<Friendship>, id: Id, current: Id, a: Action)
    requires forall j :: 0 <= j < |rows| ==> rows[j].requesterId != id && rows[j].receiverId != id
    ensures AnswerSpec(rows, id, current, a) == Outcome(Err(HttpError(NotFound, "Friendship not found")), rows)
  {
  }

  /**
   * Looked up by key, an answer succeeds exactly when the row exists and the
   * current user holds the right side of it, and then it sets only that row's
   * status; otherwise nothing changes.
   */
  lemma AnswerByIdSpecIff(rows: seq<Friendship>, id: Id, current: Id, a: Action)
    requires UniqueIds(rows)
    ensures var o := AnswerByIdSpec(rows, id, current, a);
            o.result.Ok? <==> exists i :: 0 <= i < |rows| && rows[i].id == id && MayAnswer(rows[i], current, a)
    ensures var o := AnswerByIdSpec(rows, id, current, a);
            o.result.Ok? ==> exists i :: 0 <= i < |rows| && rows[i].id == id
                                      && o.rows == rows[i := rows[i].(status := ActionStatus(a))]
    ensures var o := AnswerByIdSpec(rows, id, current, a);
            o.result.Err? ==> o.rows == rows
  {
    var k := FindById(rows, id);
    if k.Some? {
      forall i | 0 <= i < |rows| && rows[i].id == id ensures i == k.value {
      }
    }
  }

  /**
   * A request sent with a fresh key, answered by its receiver with that key:
   * the lookup by key accepts it, while the lookup as written reports it
   * missing.
   */
  lemma RequestThenAccept(rows: seq<Friendship>, liveUsers: set<Id>, sender: Id, receiver: Id, newId: Id)
    requires receiver in liveUsers
    requires forall j :: 0 <= j < |rows| ==> !Between(rows[j], sender, receiver)
    requires forall j :: 0 <= j < |rows| ==> rows[j].id != newId && rows[j].requesterId != newId && rows[j].receiverId != newId
    requires sender != newId && receiver != newId
    ensures var sent := SendSpec(rows, liveUsers, receiver, sender, newId).rows;
            AnswerByIdSpec(sent, newId, receiver, Accept).result == Ok(Friendship(newId, sender, receiver, Accepted))
            && AnswerSpec(sent, newId, receiver, Accept).result == Err(HttpError(NotFound, "Friendship not found"))
  {
    var sent := SendSpec(rows, liveUsers, receiver, sender, newId).rows;
    assert sent == rows + [Friendship(newId, sender, receiver, Pending)];
    assert sent[|rows|].id == newId;
    var k := FindById(sent, newId);
    assert k == Some(|rows|);
    AnswerAsWrittenNotFound(sent, newId, receiver, Accept);
  }

  /** Someone who shares no accepted row with `user` is not among their friends. */
  lemma NotAFriend(rows: seq<Friendship>, user: Id, other: Id)
    requires forall i :: 0 <= i < |rows| ==> !(rows[i].status == Accepted && Between(rows[i], user, other))
    ensures other !in FriendsOf(rows, user)
  {
  }

  /** Everyone who shares an accepted row with the user is listed. */
  lemma {:induction false} FriendListed(rows: seq<Friendship>, user: Id, x: Id)
    requires IsFriend(rows, user, x)
    ensures x in FriendsOf(rows, user)
  {
    var i :| 0 <= i < |rows| && rows[i].status == Accepted && Between(rows[i], user, x);
    if i == 0 {
      assert AcceptedWith(rows[0], user);
      if user == x {
        assert OtherParty(rows[0], user) == x;
      }
      assert FriendsOf(rows, user)[0] == OtherParty(rows[0], user);
    } else {
      assert rows[1..][i - 1] == rows[i];
      FriendListed(rows[1..], user, x);
      var rest := FriendsOf(rows[1..], user);
      assert FriendsOf(rows, user) == rest || FriendsOf(rows, user) == [OtherParty(rows[0], user)] + rest;
    }
  }

  lemma OneRowPerPairTail(rows: seq<Friendship>)
    requires rows != [] && OneRowPerPair(rows)
    ensures OneRowPerPair(rows[1..])
  {
    var rest := rows[1..];
    forall i, j | 0 <= i < j < |rest| ensures !Between(rest[j], rest[i].requesterId, rest[i].receiverId) {
      assert rest[i] == rows[i + 1] && rest[j] == rows[j + 1];
    }
  }

  lemma ConsDistinct(x: Id, s: seq<Id>)
    requires x !in s
    requires forall k, m :: 0 <= k < m < |s| ==> s[k] != s[m]
    ensures forall k, m :: 0 <= k < m < |[x] + s| ==> ([x] + s)[k] != ([x] + s)[m]
  {
    var r := [x] + s;
    forall k, m | 0 <= k < m < |r| ensures r[k] != r[m] {
      assert r[m] == s[m - 1];
      if k > 0 {
        assert r[k] == s[k - 1];
      }
    }
  }

  /** In a valid table a user's friends are listed once each. */
  lemma {:induction false} FriendsDistinct(rows: seq<Friendship>, user: Id)
    requires OneRowPerPair(rows)
    ensures forall k, m :: 0 <= k < m < |FriendsOf(rows, user)| ==> FriendsOf(rows, user)[k] != FriendsOf(rows, user)[m]
  {
    if rows != [] {
      var rest := rows[1..];
      OneRowPerPairTail(rows);
      FriendsDistinct(rest, user);
      var f := rows[0];
      if AcceptedWith(f, user) {
        var other := OtherParty(f, user);
        forall i | 0 <= i < |rest| ensures !(rest[i].status == Accepted && Between(rest[i], user, other)) {
          assert rest[i] == rows[i + 1];
          assert !Between(rows[i + 1], f.requesterId, f.receiverId);
        }
        NotAFriend(rest, user, other);
        ConsDistinct(other, FriendsOf(rest, user));
      }
    }
  }
}
