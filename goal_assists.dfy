/**
 * Consistency of a team's goal and assist counts in a match result: the
 * team cannot have more assists than goals, and no player can have assisted
 * more goals than the rest of the team scored.
 */
module GoalAssists {
  import opened Common

  datatype PlayerLine = PlayerLine(goals: int, assists: int)

  const TotalMessage: string := "Number of assists cannot exceed number of goals"
  const PlayerMessage: string := "Assists of a player cannot exceed number of goals of other players"

  function TotalGoals(players: seq<PlayerLine>): int
  {
    if players == [] then 0 else TotalGoals(players[..|players| - 1]) + players[|players| - 1].goals
  }

  function TotalAssists(players: seq<PlayerLine>): int
  {
    if players == [] then 0 else TotalAssists(players[..|players| - 1]) + players[|players| - 1].assists
  }

  /** A player's assists exceed the goals scored by the other players. */
  predicate Offends(p: PlayerLine, totalGoals: int)
  {
    p.assists > totalGoals - p.goals
  }

  /** The first offending player at or after `from`, scanning in roster order. */
  function FirstOffender(players: seq<PlayerLine>, totalGoals: int, from: nat): (r: Option<nat>)
    requires from <= |players|
    ensures r.Some? ==> from <= r.value < |players| && Offends(players[r.value], totalGoals)
    ensures r.Some? ==> forall j :: from <= j < r.value ==> !Offends(players[j], totalGoals)
    ensures r.None? ==> forall j :: from <= j < |players| ==> !Offends(players[j], totalGoals)
    decreases |players| - from
  {
    if from == |players| then None
    else if Offends(players[from], totalGoals) then Some(from)
    else FirstOffender(players, totalGoals, from + 1)
  }

  /** The validator: true, or the first rule broken. */
  function ValidateGoalAssists(players: seq<PlayerLine>): Result<bool>
  {
    var totalGoals := TotalGoals(players);
    if TotalAssists(players) > totalGoals then Err(HttpError(BadRequest, TotalMessage))
    else if FirstOffender(players, totalGoals, 0).Some? then Err(HttpError(BadRequest, PlayerMessage))
    else Ok(true)
  }

  /** The two rules the validator enforces. */
  predicate Consistent(players: seq<PlayerLine>)
  {
    TotalAssists(players) <= TotalGoals(players)
    && forall i :: 0 <= i < |players| ==> players[i].assists <= TotalGoals(players) - players[i].goals
  }

  /** The validator accepts exactly the consistent rosters; the total rule is reported before any player rule. */
  lemma ValidateIffConsistent(players: seq<PlayerLine>)
    ensures ValidateGoalAssists(players) == Ok(true) <==> Consistent(players)
    ensures ValidateGoalAssists(players).Ok? ==> ValidateGoalAssists(players) == Ok(true)
    ensures TotalAssists(players) > TotalGoals(players) ==>
              ValidateGoalAssists(players) == Err(HttpError(BadRequest, TotalMessage))
    ensures TotalAssists(players) <= TotalGoals(players) && !Consistent(players) ==>
              ValidateGoalAssists(players) == Err(HttpError(BadRequest, PlayerMessage))
  {
    var r := FirstOffender(players, TotalGoals(players), 0);
    if r.Some? {
      assert players[r.value].assists > TotalGoals(players) - players[r.value].goals;
    }
  }

  lemma {:induction false} TotalsOfRoster(players: seq<PlayerLine>)
    requires forall i :: 0 <= i < |players| ==> players[i].goals == 0 && players[i].assists == 0
    ensures TotalGoals(players) == 0 && TotalAssists(players) == 0
  {
    if players != [] {
      TotalsOfRoster(players[..|players| - 1]);
    }
  }

  /** A roster without goals or assists (the empty roster among them) is accepted. */
  lemma ScorelessRosterAccepted(players: seq<PlayerLine>)
    requires forall i :: 0 <= i < |players| ==> players[i].goals == 0 && players[i].assists == 0
    ensures ValidateGoalAssists(players) == Ok(true)
  {
    TotalsOfRoster(players);
    ValidateIffConsistent(players);
  }

  /** A lone player can never have assisted anyone. */
  lemma LonePlayerWithAssistsRejected(p: PlayerLine)
    requires p.assists > 0
    ensures ValidateGoalAssists([p]).Err?
  {
    assert [p][..0] == [];
    ValidateIffConsistent([p]);
    assert !Consistent([p]) by {
      assert [p][0].assists > TotalGoals([p]) - [p][0].goals;
    }
  }
}
