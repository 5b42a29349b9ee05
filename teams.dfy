/**
 * Teams of a match: creating a team together with its players, and
 * updating a team, which first removes the players listed as deleted and
 * then updates (or creates) every other listed player.
 */
module Teams {
  import opened Common
  import Tables
  import Users
  import Players

  type Id = string

  datatype Team = Team(id: Id, name: Option<string>, matchId: Id)

  datatype CreateTeamDto = CreateTeamDto(name: Option<string>, players: seq<Players.PlayerDto>)

  /** A listed player of an update: its id and its new fields. */
  datatype TeamPlayerDto = TeamPlayerDto(id: Id, dto: Players.PlayerDto)

  /** `name` None leaves the name alone; Some(None) clears it. */
  datatype UpdateTeamDto = UpdateTeamDto(name: Option<Option<string>>, players: seq<TeamPlayerDto>,
                                         deletedPlayers: Option<seq<Id>>)

  datatype TeamWithPlayers = TeamWithPlayers(team: Team, players: seq<Players.Player>)

  datatype Outcome = Outcome(result: Result<TeamWithPlayers>, teams: seq<Team>, players: seq<Players.Player>)

  function FindTeam(teams: seq<Team>, id: Id): (r: Option<nat>)
    ensures r.Some? ==> r.value < |teams| && teams[r.value].id == id
    ensures r.None? <==> forall k :: 0 <= k < |teams| ==> teams[k].id != id
  {
    if teams == [] then None
    else if teams[0].id == id then Some(0)
    else
      var rest := FindTeam(teams[1..], id);
      if rest.None? then None else Some(rest.value + 1)
  }

  function TeamIds(teams: seq<Team>): (r: seq<Id>)
    ensures |r| == |teams| && forall k :: 0 <= k < |teams| ==> r[k] == teams[k].id
  {
    if teams == [] then [] else [teams[0].id] + TeamIds(teams[1..])
  }

  // ---------------------------------------------------------------------
  // A batch of player operations (`Promise.all` over a list)
  // ---------------------------------------------------------------------

  /**
   * The state after some operations of a batch: the successful results in
   * order, the first error (if any), and the player table. Every operation
   * runs whatever happened to the others.
   */
  datatype Batch = Batch(results: seq<Players.Player>, error: Option<Error>, players: seq<Players.Player>)

  function Absorb(b: Batch, o: Players.Outcome): (r: Batch)
    ensures r.players == o.players
    ensures r.error.None? <==> b.error.None? && o.result.Ok?
    ensures r.results == if o.result.Ok? then b.results + [o.result.value] else b.results
  {
    Batch(if o.result.Ok? then b.results + [o.result.value] else b.results,
          if b.error.None? && o.result.Err? then Some(o.result.error) else b.error,
          o.players)
  }

  /** The players of `create`, created one after another; the k-th gets the id `newIds(k)`. */
  function CreateAll(players: seq<Players.Player>, users: seq<Users.User>, dtos: seq<Players.PlayerDto>, teamId: Id,
                     newIds: nat -> Id): Batch
    decreases |dtos|
  {
    if dtos == [] then Batch([], None, players)
    else
      var b := CreateAll(players, users, dtos[..|dtos| - 1], teamId, newIds);
      Absorb(b, Players.CreateSpec(b.players, users, dtos[|dtos| - 1], teamId, newIds(|dtos| - 1)))
  }

  /** One more entry adds one `create` to the batch. */
  lemma CreateAllStep(players: seq<Players.Player>, users: seq<Users.User>, dtos: seq<Players.PlayerDto>, i: nat,
                      teamId: Id, newIds: nat -> Id)
    requires i < |dtos|
    ensures var b := CreateAll(players, users, dtos[..i], teamId, newIds);
            CreateAll(players, users, dtos[..i + 1], teamId, newIds)
            == Absorb(b, Players.CreateSpec(b.players, users, dtos[i], teamId, newIds(i)))
  {
    assert dtos[..i + 1][..i] == dtos[..i];
  }

  /** `removePlayerFromTeam` for each deleted id. */
  function RemoveAll(players: seq<Players.Player>, teamIds: seq<Id>, ids: seq<Id>, teamId: Id): Batch
    decreases |ids|
  {
    if ids == [] then Batch([], None, players)
    else
      var b := RemoveAll(players, teamIds, ids[..|ids| - 1], teamId);
      Absorb(b, Players.RemoveSpec(b.players, teamIds, ids[|ids| - 1], teamId))
  }

  /** `playersService.update` for each kept player; an unknown id is created with that id. */
  function UpdateAll(players: seq<Players.Player>, users: seq<Users.User>, dtos: seq<TeamPlayerDto>, teamId: Id): Batch
    decreases |dtos|
  {
    if dtos == [] then Batch([], None, players)
    else
      var b := UpdateAll(players, users, dtos[..|dtos| - 1], teamId);
      var d := dtos[|dtos| - 1];
      Absorb(b, Players.UpdateSpec(b.players, users, d.id, teamId, d.dto, d.id))
  }

  // ---------------------------------------------------------------------
  // The operations
  // ---------------------------------------------------------------------

  /** `create`: the team is written first, then its players; the first player error is reported. */
  function CreateSpec(teams: seq<Team>, players: seq<Players.Player>, users: seq<Users.User>, dto: CreateTeamDto,
                      matchId: Id, newId: Id, newIds: nat -> Id): (o: Outcome)
    ensures o.teams == teams + [Team(newId, dto.name, matchId)]
    ensures o.result.Ok? ==> o.result.value.team == Team(newId, dto.name, matchId)
  {
    var team := Team(newId, dto.name, matchId);
    var b := CreateAll(players, users, dto.players, newId, newIds);
    if b.error.Some? then Outcome(Err(b.error.value), teams + [team], b.players)
    else Outcome(Ok(TeamWithPlayers(team, b.results)), teams + [team], b.players)
  }

  predicate Kept(p: TeamPlayerDto, deleted: Option<seq<Id>>)
  {
    deleted.None? || p.id !in deleted.value
  }

  /** The listed players that are not also listed as deleted, in order. */
  function NonDeleted(dtos: seq<TeamPlayerDto>, deleted: Option<seq<Id>>): (r: seq<TeamPlayerDto>)
    ensures forall k :: 0 <= k < |r| ==> r[k] in dtos && Kept(r[k], deleted)
    ensures forall k :: 0 <= k < |dtos| && Kept(dtos[k], deleted) ==> dtos[k] in r
  {
    Tables.Filter(dtos, p => Kept(p, deleted))
  }

  function Rename(t: Team, name: Option<Option<string>>): (r: Team)
    ensures r.id == t.id && r.matchId == t.matchId
  {
    if name.Some? then t.(name := name.value) else t
  }

  /** `update`: find the team, remove the deleted players, update the others, then the team itself. */
  function UpdateSpec(teams: seq<Team>, players: seq<Players.Player>, users: seq<Users.User>, id: Id, dto: UpdateTeamDto)
    : (o: Outcome)
    ensures FindTeam(teams, id).None? ==> o == Outcome(Err(HttpError(NotFound, "Team not found")), teams, players)
    ensures o.result.Err? ==> o.teams == teams
  {
    match FindTeam(teams, id)
    case None => Outcome(Err(HttpError(NotFound, "Team not found")), teams, players)
    case Some(i) =>
      var removal :=
        if dto.deletedPlayers.Some? && |dto.deletedPlayers.value| > 0
        then RemoveAll(players, TeamIds(teams), dto.deletedPlayers.value, id)
        else Batch([], None, players);
      if removal.error.Some? then Outcome(Err(removal.error.value), teams, removal.players)
      else
        var updates := UpdateAll(removal.players, users, NonDeleted(dto.players, dto.deletedPlayers), id);
        if updates.error.Some? then Outcome(Err(updates.error.value), teams, updates.players)
        else
          var team := Rename(teams[i], dto.name);
          Outcome(Ok(TeamWithPlayers(team, updates.results)), teams[i := team], updates.players)
  }

  // ---------------------------------------------------------------------
  // Properties
  // ---------------------------------------------------------------------

  /** One step of `CreateAll`: a created player for the last entry extends the prefix's results. */
  lemma AbsorbCreated(prev: Batch, o: Players.Outcome, dtos: seq<Players.PlayerDto>, teamId: Id, newIds: nat -> Id)
    requires dtos != [] && Absorb(prev, o).error.None?
    requires prev.error.None? ==>
               |prev.results| == |dtos| - 1
               && forall k :: 0 <= k < |dtos| - 1 ==>
                    prev.results[k].id == newIds(k) && prev.results[k].teamId == teamId
                    && prev.results[k].userId == dtos[k].userId && prev.results[k].goals == dtos[k].goals
    requires o.result.Ok? ==>
               o.result.value.id == newIds(|dtos| - 1) && o.result.value.teamId == teamId
               && o.result.value.userId == dtos[|dtos| - 1].userId && o.result.value.goals == dtos[|dtos| - 1].goals
    ensures var b := Absorb(prev, o);
            |b.results| == |dtos|
            && forall k :: 0 <= k < |dtos| ==>
                 b.results[k].id == newIds(k) && b.results[k].teamId == teamId
                 && b.results[k].userId == dtos[k].userId && b.results[k].goals == dtos[k].goals
  {
    assert Absorb(prev, o).results == prev.results + [o.result.value];
  }

  /** Without an error, every created player is one per DTO entry, in order, on the new team. */
  lemma {:induction false} CreateAllOnePerEntry(players: seq<Players.Player>, users: seq<Users.User>,
                                                dtos: seq<Players.PlayerDto>, teamId: Id, newIds: nat -> Id)
    requires CreateAll(players, users, dtos, teamId, newIds).error.None?
    ensures var b := CreateAll(players, users, dtos, teamId, newIds);
            |b.results| == |dtos|
            && forall k :: 0 <= k < |dtos| ==>
                 b.results[k].id == newIds(k) && b.results[k].teamId == teamId
                 && b.results[k].userId == dtos[k].userId && b.results[k].goals == dtos[k].goals
    decreases |dtos|
  {
    if dtos != [] {
      var n := |dtos| - 1;
      var prefix := dtos[..n];
      var prev := CreateAll(players, users, prefix, teamId, newIds);
      var o := Players.CreateSpec(prev.players, users, dtos[n], teamId, newIds(n));
      assert CreateAll(players, users, dtos, teamId, newIds) == Absorb(prev, o);
      CreateAllOnePerEntry(players, users, prefix, teamId, newIds);
      assert forall k :: 0 <= k < n ==> dtos[k] == prefix[k];
      AbsorbCreated(prev, o, dtos, teamId, newIds);
    }
  }

  /** A created team holds exactly one player per DTO entry, all on that team. */
  lemma CreateMakesOnePlayerPerEntry(teams: seq<Team>, players: seq<Players.Player>, users: seq<Users.User>,
                                     dto: CreateTeamDto, matchId: Id, newId: Id, newIds: nat -> Id)
    requires CreateSpec(teams, players, users, dto, matchId, newId, newIds).result.Ok?
    ensures var r := CreateSpec(teams, players, users, dto, matchId, newId, newIds).result.value;
            r.team.matchId == matchId
            && |r.players| == |dto.players|
            && forall k :: 0 <= k < |r.players| ==> r.players[k].teamId == newId
  {
    CreateAllOnePerEntry(players, users, dto.players, newId, newIds);
  }

  /** One step of `UpdateAll`: an updated player for the last entry extends the prefix's results. */
  lemma AbsorbUpdated(prev: Batch, o: Players.Outcome, dtos: seq<TeamPlayerDto>)
    requires dtos != [] && Absorb(prev, o).error.None?
    requires prev.error.None? ==>
               |prev.results| == |dtos| - 1 && forall k :: 0 <= k < |dtos| - 1 ==> prev.results[k].id == dtos[k].id
    requires o.result.Ok? ==> o.result.value.id == dtos[|dtos| - 1].id
    ensures var b := Absorb(prev, o);
            |b.results| == |dtos| && forall k :: 0 <= k < |dtos| ==> b.results[k].id == dtos[k].id
  {
    assert Absorb(prev, o).results == prev.results + [o.result.value];
  }

  /** Without an error, the k-th result of an update batch is the player with the k-th listed id. */
  lemma {:induction false} UpdateAllKeepsIds(players: seq<Players.Player>, users: seq<Users.User>,
                                             dtos: seq<TeamPlayerDto>, teamId: Id)
    requires UpdateAll(players, users, dtos, teamId).error.None?
    ensures var b := UpdateAll(players, users, dtos, teamId);
            |b.results| == |dtos| && forall k :: 0 <= k < |dtos| ==> b.results[k].id == dtos[k].id
    decreases |dtos|
  {
    if dtos != [] {
      var n := |dtos| - 1;
      var prefix := dtos[..n];
      var d := dtos[n];
      var prev := UpdateAll(players, users, prefix, teamId);
      var o := Players.UpdateSpec(prev.players, users, d.id, teamId, d.dto, d.id);
      assert UpdateAll(players, users, dtos, teamId) == Absorb(prev, o);
      Players.UpdateKeepsId(prev.players, users, d.id, teamId, d.dto);
      UpdateAllKeepsIds(players, users, prefix, teamId);
      assert forall k :: 0 <= k < n ==> dtos[k] == prefix[k];
      AbsorbUpdated(prev, o, dtos);
    }
  }

  /** Without an error, each removal takes exactly one row out of the player table. */
  lemma {:induction false} RemoveAllShrinks(players: seq<Players.Player>, teamIds: seq<Id>, ids: seq<Id>, teamId: Id)
    requires RemoveAll(players, teamIds, ids, teamId).error.None?
    ensures |RemoveAll(players, teamIds, ids, teamId).players| == |players| - |ids|
    decreases |ids|
  {
    if ids != [] {
      RemoveAllShrinks(players, teamIds, ids[..|ids| - 1], teamId);
    }
  }

  /**
   * A successful update returns one player per listed, non-deleted entry, in
   * list order, and none of them carries a deleted id.
   */
  lemma UpdateReturnsTheKeptPlayers(teams: seq<Team>, players: seq<Players.Player>, users: seq<Users.User>, id: Id,
                                    dto: UpdateTeamDto)
    requires UpdateSpec(teams, players, users, id, dto).result.Ok?
    ensures var r := UpdateSpec(teams, players, users, id, dto).result.value;
            var kept := NonDeleted(dto.players, dto.deletedPlayers);
            |r.players| == |kept|
            && (forall k :: 0 <= k < |kept| ==> r.players[k].id == kept[k].id)
            && (dto.deletedPlayers.Some? ==> forall k :: 0 <= k < |r.players| ==> r.players[k].id !in dto.deletedPlayers.value)
  {
    var i := FindTeam(teams, id).value;
    var removal :=
      if dto.deletedPlayers.Some? && |dto.deletedPlayers.value| > 0
      then RemoveAll(players, TeamIds(teams), dto.deletedPlayers.value, id)
      else Batch([], None, players);
    var kept := NonDeleted(dto.players, dto.deletedPlayers);
    UpdateAllKeepsIds(removal.players, users, kept, id);
  }

  /** A successful update keeps the team's id and match, and changes no other team. */
  lemma UpdateTouchesOnlyTheTeam(teams: seq<Team>, players: seq<Players.Player>, users: seq<Users.User>, id: Id,
                                 dto: UpdateTeamDto, k: nat)
    requires UpdateSpec(teams, players, users, id, dto).result.Ok?
    requires k < |teams| && teams[k].id != id
    ensures var o := UpdateSpec(teams, players, users, id, dto);
            |o.teams| == |teams| && o.teams[k] == teams[k]
            && o.result.value.team.id == id
  {
  }

  // ---------------------------------------------------------------------
  // The service
  // ---------------------------------------------------------------------

  class TeamsService {
    var teams: seq<Team>
    const playersService: Players.PlayersService

    constructor (initial: seq<Team>, playersService: Players.PlayersService)
      ensures teams == initial && this.playersService == playersService
    {
      teams := initial;
      this.playersService := playersService;
    }

    method Create(dto: CreateTeamDto, matchId: Id, users: seq<Users.User>, newId: Id, newIds: nat -> Id)
      returns (r: Result<TeamWithPlayers>)
      modifies this, playersService
      ensures Outcome(r, teams, playersService.players)
              == CreateSpec(old(teams), old(playersService.players), users, dto, matchId, newId, newIds)
    {
      var team := Team(newId, dto.name, matchId);
      teams := teams + [team];
      var results: seq<Players.Player> := [];
      var error: Option<Error> := None;
      var i := 0;
      while i < |dto.players|
        invariant 0 <= i <= |dto.players|
        invariant teams == old(teams) + [team]
        invariant Batch(results, error, playersService.players)
                  == CreateAll(old(playersService.players), users, dto.players[..i], newId, newIds)
      {
        ghost var before := Batch(results, error, playersService.players);
        CreateAllStep(old(playersService.players), users, dto.players, i, newId, newIds);
        var p := playersService.Create(dto.players[i], newId, users, newIds(i));
        if p.Ok? {
          results := results + [p.value];
        } else if error.None? {
          error := Some(p.error);
        }
        assert Batch(results, error, playersService.players) == Absorb(before, Players.Outcome(p, playersService.players));
        i := i + 1;
      }
      assert dto.players[..i] == dto.players;
      if error.Some? {
        return Err(error.value);
      }
      return Ok(TeamWithPlayers(team, results));
    }

    method RemoveDeleted(ids: seq<Id>, teamId: Id) returns (error: Option<Error>)
      modifies playersService
      ensures error == RemoveAll(old(playersService.players), TeamIds(teams), ids, teamId).error
      ensures playersService.players == RemoveAll(old(playersService.players), TeamIds(teams), ids, teamId).players
    {
      var removed: seq<Players.Player> := [];
      error := None;
      var i := 0;
      while i < |ids|
        invariant 0 <= i <= |ids|
        invariant Batch(removed, error, playersService.players)
                  == RemoveAll(old(playersService.players), TeamIds(teams), ids[..i], teamId)
      {
        assert ids[..i + 1][..i] == ids[..i] && ids[..i + 1][i] == ids[i];
        ghost var before := Batch(removed, error, playersService.players);
        var p := playersService.RemovePlayerFromTeam(ids[i], teamId, TeamIds(teams));
        ghost var o := Players.Outcome(p, playersService.players);
        assert o == Players.RemoveSpec(before.players, TeamIds(teams), ids[i], teamId);
        if p.Ok? {
          removed := removed + [p.value];
        } else if error.None? {
          error := Some(p.error);
        }
        assert Batch(removed, error, playersService.players) == Absorb(before, o);
        i := i + 1;
      }
      assert ids[..i] == ids;
    }

    method UpdatePlayers(dtos: seq<TeamPlayerDto>, teamId: Id, users: seq<Users.User>)
      returns (results: seq<Players.Player>, error: Option<Error>)
      modifies playersService
      ensures Batch(results, error, playersService.players) == UpdateAll(old(playersService.players), users, dtos, teamId)
    {
      results := [];
      error := None;
      var i := 0;
      while i < |dtos|
        invariant 0 <= i <= |dtos|
        invariant Batch(results, error, playersService.players)
                  == UpdateAll(old(playersService.players), users, dtos[..i], teamId)
      {
        assert dtos[..i + 1][..i] == dtos[..i] && dtos[..i + 1][i] == dtos[i];
        ghost var before := Batch(results, error, playersService.players);
        var p := playersService.Update(dtos[i].id, teamId, dtos[i].dto, users, dtos[i].id);
        ghost var o := Players.Outcome(p, playersService.players);
        assert o == Players.UpdateSpec(before.players, users, dtos[i].id, teamId, dtos[i].dto, dtos[i].id);
        if p.Ok? {
          results := results + [p.value];
        } else if error.None? {
          error := Some(p.error);
        }
        assert Batch(results, error, playersService.players) == Absorb(before, o);
        i := i + 1;
      }
      assert dtos[..i] == dtos;
    }

    method Update(id: Id, dto: UpdateTeamDto, users: seq<Users.User>) returns (r: Result<TeamWithPlayers>)
      modifies this, playersService
      ensures Outcome(r, teams, playersService.players) == UpdateSpec(old(teams), old(playersService.players), users, id, dto)
    {
      var i := FindTeam(teams, id);
      if i.None? {
        return Err(HttpError(NotFound, "Team not found"));
      }
      if dto.deletedPlayers.Some? && |dto.deletedPlayers.value| > 0 {
        var error := RemoveDeleted(dto.deletedPlayers.value, id);
        if error.Some? {
          return Err(error.value);
        }
      }
      var results, error := UpdatePlayers(NonDeleted(dto.players, dto.deletedPlayers), id, users);
      if error.Some? {
        return Err(error.value);
      }
      var team := Rename(teams[i.value], dto.name);
      teams := teams[i.value := team];
      return Ok(TeamWithPlayers(team, results));
    }
  }
}
