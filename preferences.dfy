/**
 * User preferences: one preferences row per user, created when the user is.
 */
module Preferences {
  import opened Common
  import Tables

  type Id = string

  datatype Preference = Preference(id: Id, userId: Id)

  datatype Outcome = Outcome(result: Result<Preference>, prefs: seq<Preference>)

  predicate HasPreference(prefs: seq<Preference>, userId: Id)
  {
    exists k :: 0 <= k < |prefs| && prefs[k].userId == userId
  }

  /** `create`: refuse a second row for the same user, otherwise add one. */
  function CreateSpec(prefs: seq<Preference>, userId: Id, newId: Id): (o: Outcome)
    ensures o.result.Err? <==> HasPreference(prefs, userId)
    ensures o.result.Err? ==> o.result.error == HttpError(Conflict, "User preference already exists") && o.prefs == prefs
    ensures o.result.Ok? ==> o.result.value == Preference(newId, userId) && o.prefs == prefs + [o.result.value]
  {
    if HasPreference(prefs, userId) then Outcome(Err(HttpError(Conflict, "User preference already exists")), prefs)
    else Outcome(Ok(Preference(newId, userId)), prefs + [Preference(newId, userId)])
  }

  /** At most one preferences row per user. */
  predicate OnePerUser(prefs: seq<Preference>)
  {
    forall i, j :: 0 <= i < j < |prefs| ==> prefs[i].userId != prefs[j].userId
  }

  lemma CreateKeepsOnePerUser(prefs: seq<Preference>, userId: Id, newId: Id)
    requires OnePerUser(prefs)
    ensures OnePerUser(CreateSpec(prefs, userId, newId).prefs)
  {
  }

  /** After a successful create the new row is the user's only one, and a second create is refused. */
  lemma {:induction false} CreateThenHas(prefs: seq<Preference>, userId: Id, newId: Id)
    requires CreateSpec(prefs, userId, newId).result.Ok?
    ensures var o := CreateSpec(prefs, userId, newId);
            HasPreference(o.prefs, userId)
            && Tables.Filter(o.prefs, (p: Preference) => p.userId == userId) == [Preference(newId, userId)]
            && CreateSpec(o.prefs, userId, newId).result.Err?
  {
    var o := CreateSpec(prefs, userId, newId);
    assert o.prefs[|prefs|].userId == userId;
    Tables.FilterAppend(prefs, Preference(newId, userId), (p: Preference) => p.userId == userId);
    Tables.FilterNone(prefs, (p: Preference) => p.userId == userId);
  }

  class UserPreferencesService {
    var prefs: seq<Preference>

    constructor (initial: seq<Preference>)
      ensures prefs == initial
    {
      prefs := initial;
    }

    method Create(userId: Id, newId: Id) returns (r: Result<Preference>)
      modifies this
      ensures Outcome(r, prefs) == CreateSpec(old(prefs), userId, newId)
    {
      if HasPreference(prefs, userId) {
        return Err(HttpError(Conflict, "User preference already exists"));
      }
      r := Ok(Preference(newId, userId));
      prefs := prefs + [Preference(newId, userId)];
    }
  }
}
