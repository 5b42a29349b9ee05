/**
 * Players of a team: creating one (optionally linked to a user account),
 * removing one from its team, and updating one, where the update decides
 * whether the player becomes linked, unlinked or relinked to a user.
 */
module Players {
  import opened Common
  import Users

  type Id = string

  datatype Player = Player(id: Id, teamId: Id, userId: Option<Id>, name: string, isCaptain: bool, goals: int, assists: int)

  /** The player DTO of create and update: every field except the id, the team and the timestamps. */
  datatype PlayerDto = PlayerDto(userId: Option<Id>, name: string, isCaptain: bool, goals: int, assists: int)

  datatype Outcome = Outcome(result: Result<Player>, players: seq<Player>)

  function FindPlayer(players: seq<Player>, id: Id): (r: Option<nat>)
    ensures r.Some? ==> r.value < |players| && players[r.value].id == id
    ensures r.Some? ==> forall k :: 0 <= k < r.value ==> players[k].id != id
    ensures r.None? <==> forall k :: 0 <= k < |players| ==> players[k].id != id
  {
    if players == [] then None
    else if players[0].id == id then Some(0)
    else
      var rest := FindPlayer(players[1..], id);
      if rest.None? then None else Some(rest.value + 1)
  }

  /** The name a linked player takes: the user's first and last name. */
  function FullName(u: Users.User): string
  {
    u.firstName + " " + u.lastName
  }

  /** `name || currentPlayer.name`: the empty string counts as absent. */
  function NameOr(name: string, current: string): (r: string)
    ensures r == name || r == current
    ensures r == "" ==> name == "" && current == ""
  {
    if name != "" then name else current
  }

  /** `create`: a linked user must exist (and not be soft-deleted) and then names the player. */
  function CreateSpec(players: seq<Player>, users: seq<Users.User>, dto: PlayerDto, teamId: Id, newId: Id): (o: Outcome)
    ensures o.result.Err? <==> dto.userId.Some? && Users.FindUser(users, Users.ById(dto.userId.value)).None?
    ensures o.result.Err? ==> o.result.error == HttpError(NotFound, "User not found") && o.players == players
    ensures o.result.Ok? ==>
              var p := o.result.value;
              p.id == newId && p.teamId == teamId && p.userId == dto.userId
              && p.isCaptain == dto.isCaptain && p.goals == dto.goals && p.assists == dto.assists
              && p.name == (if dto.userId.Some? then FullName(Users.FindUser(users, Users.ById(dto.userId.value)).value)
                            else dto.name)
              && o.players == players + [p]
  {
    if dto.userId.None? then
      var p := Player(newId, teamId, None, dto.name, dto.isCaptain, dto.goals, dto.assists);
      Outcome(Ok(p), players + [p])
    else
      match Users.FindUser(users, Users.ById(dto.userId.value))
      case None => Outcome(Err(HttpError(NotFound, "User not found")), players)
      case Some(user) =>
        var p := Player(newId, teamId, Some(user.id), FullName(user), dto.isCaptain, dto.goals, dto.assists);
        Outcome(Ok(p), players + [p])
  }

  /** `removePlayerFromTeam`: the player, then the team, must exist, and the player must be on that team. */
  function RemoveSpec(players: seq<Player>, teamIds: seq<Id>, playerId: Id, teamId: Id): (o: Outcome)
    ensures o.result.Err? ==> o.players == players
    ensures FindPlayer(players, playerId).None? ==> o.result == Err(HttpError(NotFound, "Player not found"))
    ensures o.result.Ok? <==>
              FindPlayer(players, playerId).Some? && teamId in teamIds
              && players[FindPlayer(players, playerId).value].teamId == teamId
    ensures o.result.Ok? ==>
              var i := FindPlayer(players, playerId).value;
              o.result.value == players[i] && o.players == players[..i] + players[i + 1..]
  {
    match FindPlayer(players, playerId)
    case None => Outcome(Err(HttpError(NotFound, "Player not found")), players)
    case Some(i) =>
      if teamId !in teamIds then Outcome(Err(HttpError(NotFound, "Team not found")), players)
      else if players[i].teamId != teamId then Outcome(Err(HttpError(BadRequest, "Player is not in the team")), players)
      else Outcome(Ok(players[i]), players[..i] + players[i + 1..])
  }

  /** The user link and the name an update gives an existing player. */
  datatype Link = Link(userId: Option<Id>, name: string)

  /**
   * The three cases of `update`: unlinking keeps the given or current name,
   * linking a new or different user takes that user's full name, and
   * anything else keeps the current link.
   */
  function ResolveLink(current: Player, dto: PlayerDto, users: seq<Users.User>): Result<Link>
  {
    if current.userId.Some? && dto.userId.None? then Ok(Link(None, NameOr(dto.name, current.name)))
    else if dto.userId.Some? && current.userId != dto.userId then
      match Users.FindUser(users, Users.ById(dto.userId.value))
      case None => Err(HttpError(NotFound, "User with id " + dto.userId.value + " not found or deleted"))
      case Some(user) => Ok(Link(dto.userId, FullName(user)))
    else Ok(Link(current.userId, NameOr(dto.name, current.name)))
  }

  /** `update`; an unknown id falls back to `create` with the id given as `newId`. */
  function UpdateSpec(players: seq<Player>, users: seq<Users.User>, id: Id, teamId: Id, dto: PlayerDto, newId: Id)
    : (o: Outcome)
    ensures o.result.Err? ==> o.players == players
    ensures FindPlayer(players, id).None? ==> o == CreateSpec(players, users, dto, teamId, newId)
    ensures FindPlayer(players, id).Some? && o.result.Ok? ==>
              var i := FindPlayer(players, id).value;
              o.result.value.id == id && o.result.value.teamId == players[i].teamId
              && o.players == players[i := o.result.value]
  {
    match FindPlayer(players, id)
    case None => CreateSpec(players, users, dto, teamId, newId)
    case Some(i) =>
      var current := players[i];
      if dto.userId.Some? && Users.FindUser(users, Users.ById(dto.userId.value)).None? then
        Outcome(Err(HttpError(NotFound, "User with id " + dto.userId.value + " not found")), players)
      else
        match ResolveLink(current, dto, users)
        case Err(e) => Outcome(Err(e), players)
        case Ok(link) =>
          var updated := Player(current.id, current.teamId, link.userId, link.name, dto.isCaptain, dto.goals, dto.assists);
          Outcome(Ok(updated), players[i := updated])
  }

  // ---------------------------------------------------------------------
  // Properties
  // ---------------------------------------------------------------------

  /** The player `update` returns carries the id it was asked for, whether it existed or was created under that id. */
  lemma UpdateKeepsId(players: seq<Player>, users: seq<Users.User>, id: Id, teamId: Id, dto: PlayerDto)
    ensures var o := UpdateSpec(players, users, id, teamId, dto, id);
            o.result.Ok? ==> o.result.value.id == id
  {
  }

  /** A successful update of an existing player links it to exactly the user the DTO names (or none). */
  lemma UpdateLinksRequestedUser(players: seq<Player>, users: seq<Users.User>, id: Id, teamId: Id, dto: PlayerDto, newId: Id)
    requires FindPlayer(players, id).Some?
    ensures var o := UpdateSpec(players, users, id, teamId, dto, newId);
            o.result.Ok? <==> dto.userId.None? || Users.FindUser(users, Users.ById(dto.userId.value)).Some?
    ensures var o := UpdateSpec(players, users, id, teamId, dto, newId);
            o.result.Ok? ==> o.result.value.userId == dto.userId
  {
  }

  /** The name an update writes: the user's full name exactly when a new or different user is linked. */
  lemma UpdateName(players: seq<Player>, users: seq<Users.User>, id: Id, teamId: Id, dto: PlayerDto, newId: Id)
    requires FindPlayer(players, id).Some?
    requires UpdateSpec(players, users, id, teamId, dto, newId).result.Ok?
    ensures var current := players[FindPlayer(players, id).value];
            var p := UpdateSpec(players, users, id, teamId, dto, newId).result.value;
            if dto.userId.Some? && current.userId != dto.userId
            then p.name == FullName(Users.FindUser(users, Users.ById(dto.userId.value)).value)
            else p.name == NameOr(dto.name, current.name)
  {
  }

  /** The message for a linked user that is gone after the first lookup never appears: both lookups agree. */
  lemma SecondUserLookupNeverFails(players: seq<Player>, users: seq<Users.User>, id: Id, teamId: Id, dto: PlayerDto,
                                   newId: Id)
    requires FindPlayer(players, id).Some?
    requires dto.userId.Some?
    ensures UpdateSpec(players, users, id, teamId, dto, newId).result
            != Err(HttpError(NotFound, "User with id " + dto.userId.value + " not found or deleted"))
  {
    var msg := "User with id " + dto.userId.value + " not found";
    var longer := "User with id " + dto.userId.value + " not found or deleted";
    assert |msg| != |longer|;
  }

  /** With unique ids, a successful removal takes away that player and only it. */
  lemma {:induction false} RemoveOnlyThatPlayer(players: seq<Player>, teamIds: seq<Id>, playerId: Id, teamId: Id)
    requires forall i, j :: 0 <= i < j < |players| ==> players[i].id != players[j].id
    requires RemoveSpec(players, teamIds, playerId, teamId).result.Ok?
    ensures var r := RemoveSpec(players, teamIds, playerId, teamId).players;
            |r| == |players| - 1
            && (forall k :: 0 <= k < |r| ==> r[k].id != playerId)
            && (forall k :: 0 <= k < |players| && players[k].id != playerId ==> players[k] in r)
  {
    var i := FindPlayer(players, playerId).value;
    var r := players[..i] + players[i + 1..];
    assert forall k :: 0 <= k < |r| ==> r[k] == if k < i then players[k] else players[k + 1];
    forall k | 0 <= k < |players| && players[k].id != playerId
      ensures players[k] in r
    {
      if k < i {
        assert r[k] == players[k];
      } else {
        assert r[k - 1] == players[k];
      }
    }
  }

  // ---------------------------------------------------------------------
  // The service over its table
  // ---------------------------------------------------------------------

  class PlayersService {
    var players: seq<Player>

    constructor (initial: seq<Player>)
      ensures players == initial
    {
      players := initial;
    }

    function FindOne(id: Id): (r: Option<Player>)
      reads this
      ensures r.Some? <==> FindPlayer(players, id).Some?
      ensures r.Some? ==> r.value in players && r.value.id == id
    {
      match FindPlayer(players, id)
      case None => None
      case Some(i) => Some(players[i])
    }

    method Create(dto: PlayerDto, teamId: Id, users: seq<Users.User>, newId: Id) returns (r: Result<Player>)
      modifies this
      ensures Outcome(r, players) == CreateSpec(old(players), users, dto, teamId, newId)
    {
      var data := dto;
      if dto.userId.Some? {
        var user := Users.FindUser(users, Users.ById(dto.userId.value));
        if user.None? {
          return Err(HttpError(NotFound, "User not found"));
        }
        data := data.(userId := Some(user.value.id), name := FullName(user.value));
      }
      var p := Player(newId, teamId, data.userId, data.name, data.isCaptain, data.goals, data.assists);
      players := players + [p];
      return Ok(p);
    }

    method RemovePlayerFromTeam(playerId: Id, teamId: Id, teamIds: seq<Id>) returns (r: Result<Player>)
      modifies this
      ensures Outcome(r, players) == RemoveSpec(old(players), teamIds, playerId, teamId)
    {
      var i := FindPlayer(players, playerId);
      if i.None? {
        return Err(HttpError(NotFound, "Player not found"));
      }
      if teamId !in teamIds {
        return Err(HttpError(NotFound, "Team not found"));
      }
      if players[i.value].teamId != teamId {
        return Err(HttpError(BadRequest, "Player is not in the team"));
      }
      r := Ok(players[i.value]);
      players := players[..i.value] + players[i.value + 1..];
    }

    method Update(id: Id, teamId: Id, dto: PlayerDto, users: seq<Users.User>, newId: Id) returns (r: Result<Player>)
      modifies this
      ensures Outcome(r, players) == UpdateSpec(old(players), users, id, teamId, dto, newId)
    {
      var i := FindPlayer(players, id);
      if i.None? {
        r := Create(dto, teamId, users, newId);
        return;
      }
      var current := players[i.value];
      if dto.userId.Some? && Users.FindUser(users, Users.ById(dto.userId.value)).None? {
        return Err(HttpError(NotFound, "User with id " + dto.userId.value + " not found"));
      }
      var userId := current.userId;
      var name := NameOr(dto.name, current.name);
      if current.userId.Some? && dto.userId.None? {
        userId := None;
      } else if dto.userId.Some? && current.userId != dto.userId {
        var notFoundOrDeleted := "User with id " + dto.userId.value + " not found or deleted";
        var user := Users.FindUser(users, Users.ById(dto.userId.value));
        if user.None? {
          return Err(HttpError(NotFound, notFoundOrDeleted));
        }
        userId := dto.userId;
        name := FullName(user.value);
      }
      var updated := Player(current.id, current.teamId, userId, name, dto.isCaptain, dto.goals, dto.assists);
      players := players[i.value := updated];
      return Ok(updated);
    }
  }
}
