/**
 * The administrators' dashboard: the aggregate entry points first check
 * that the caller is a live ADMIN or SUPER_ADMIN.
 */
module Dashboard {
  import opened Common
  import Users

  type Id = string

  const NotAuthorized: string := "You are not authorized to access this resource"

  /** `checkAdmin`. */
  function CheckAdmin(users: seq<Users.User>, current: Id): (r: Result<Users.User>)
    ensures r.Ok? <==> Users.FindUser(users, Users.ById(current)).Some?
                       && Users.FindUser(users, Users.ById(current)).value.role in {Users.Admin, Users.SuperAdmin}
    ensures Users.FindUser(users, Users.ById(current)).None? ==> r == Err(HttpError(Unauthorized, "Unauthorized"))
    ensures Users.FindUser(users, Users.ById(current)).Some? && r.Err? ==> r == Err(HttpError(Forbidden, NotAuthorized))
  {
    match Users.FindUser(users, Users.ById(current))
    case None => Err(HttpError(Unauthorized, "Unauthorized"))
    case Some(u) =>
      if u.role != Users.Admin && u.role != Users.SuperAdmin then Err(HttpError(Forbidden, NotAuthorized))
      else Ok(u)
  }

  /** `getDashboardStats`: the gathered statistics, behind the admin check. */
  function GetDashboardStats<S>(users: seq<Users.User>, current: Id, stats: S): (r: Result<S>)
  {
    match CheckAdmin(users, current)
    case Err(e) => Err(e)
    case Ok(_) => Ok(stats)
  }

  /** `getDashboardCharts`: the three charts, behind the admin check. */
  function GetDashboardCharts<C>(users: seq<Users.User>, current: Id, charts: C): (r: Result<C>)
  {
    match CheckAdmin(users, current)
    case Err(e) => Err(e)
    case Ok(_) => Ok(charts)
  }

  /**
   * Both aggregate entry points answer exactly when the caller is a live
   * administrator, and otherwise refuse with the admin check's error.
   */
  lemma AggregatesNeedAdmin<S, C>(users: seq<Users.User>, current: Id, stats: S, charts: C)
    ensures GetDashboardStats(users, current, stats).Ok? <==>
              Users.FindUser(users, Users.ById(current)).Some?
              && Users.FindUser(users, Users.ById(current)).value.role in {Users.Admin, Users.SuperAdmin}
    ensures GetDashboardStats(users, current, stats).Ok? ==> GetDashboardStats(users, current, stats).value == stats
    ensures GetDashboardCharts(users, current, charts).Ok? <==> GetDashboardStats(users, current, stats).Ok?
    ensures GetDashboardCharts(users, current, charts).Ok? ==> GetDashboardCharts(users, current, charts).value == charts
    ensures GetDashboardStats(users, current, stats).Err? ==>
              GetDashboardStats(users, current, stats).error == CheckAdmin(users, current).error
              && GetDashboardCharts(users, current, charts).error == CheckAdmin(users, current).error
  {
  }

  /** A soft-deleted administrator is treated as missing. */
  lemma DeletedAdminUnauthorized(users: seq<Users.User>, current: Id, i: nat, at: int)
    requires i < |users| && users[i].id == current
    requires forall k :: 0 <= k < |users| && k != i ==> users[k].id != current
    ensures CheckAdmin(users[i := users[i].(deletedAt := Some(at))], current) == Err(HttpError(Unauthorized, "Unauthorized"))
  {
    Users.SoftDeletedNeverFound(users, Users.ById(current), i, at);
  }
}
