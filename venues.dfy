/**
 * Venues: creation restricted to administrators, and update and deletion
 * restricted to a super administrator or the venue's creator.
 */
module Venues {
  import opened Common
  import Users
  import Tables

  type Id = string

  datatype Venue = Venue(id: Id, name: string, address: string, pricePerHour: int, creatorId: Option<Id>)

  /** The creation DTO: every field except the id, the timestamps and the creator. */
  datatype CreateVenueDto = CreateVenueDto(name: string, address: string, pricePerHour: int)

  /** The update DTO: any subset of the creation fields. */
  datatype UpdateVenueDto = UpdateVenueDto(name: Option<string>, address: Option<string>, pricePerHour: Option<int>)

  datatype Outcome = Outcome(result: Result<Venue>, venues: seq<Venue>)

  /** What `delete` leaves: its result carries no value, as the call resolves to nothing. */
  datatype Deletion = Deletion(result: Result<()>, venues: seq<Venue>)

  const AccessDenied: string := "Access denied"

  function FindVenue(venues: seq<Venue>, id: Id): (r: Option<nat>)
    ensures r.Some? ==> r.value < |venues| && venues[r.value].id == id
    ensures r.Some? ==> forall k :: 0 <= k < r.value ==> venues[k].id != id
    ensures r.None? <==> forall k :: 0 <= k < |venues| ==> venues[k].id != id
  {
    if venues == [] then None
    else if venues[0].id == id then Some(0)
    else
      var rest := FindVenue(venues[1..], id);
      if rest.None? then None else Some(rest.value + 1)
  }

  /** `getOneById`: the venue, or "Venue not found". */
  function GetOneById(venues: seq<Venue>, id: Id): (r: Result<Venue>)
    ensures r.Err? <==> FindVenue(venues, id).None?
    ensures r.Err? ==> r.error == HttpError(NotFound, "Venue not found")
    ensures r.Ok? ==> r.value in venues && r.value.id == id
  {
    match FindVenue(venues, id)
    case None => Err(HttpError(NotFound, "Venue not found"))
    case Some(i) => Ok(venues[i])
  }

  predicate IsAdmin(role: Users.Role)
  {
    role == Users.Admin || role == Users.SuperAdmin
  }

  /** The creation rule: the caller must be a live ADMIN or SUPER_ADMIN. */
  function CreateWith(venues: seq<Venue>, users: seq<Users.User>, dto: CreateVenueDto, current: Id, newId: Id,
                      creator: Option<Id>): (o: Outcome)
    ensures o.result.Err? ==> o.venues == venues
    ensures o.result.Ok? <==> Users.FindUser(users, Users.ById(current)).Some?
                              && IsAdmin(Users.FindUser(users, Users.ById(current)).value.role)
    ensures o.result.Ok? ==> o.result.value == Venue(newId, dto.name, dto.address, dto.pricePerHour, creator)
                             && o.venues == venues + [o.result.value]
  {
    match Users.GetOne(users, Users.ById(current))
    case Err(e) => Outcome(Err(e), venues)
    case Ok(user) =>
      if !IsAdmin(user.role) then Outcome(Err(HttpError(Forbidden, AccessDenied)), venues)
      else
        var v := Venue(newId, dto.name, dto.address, dto.pricePerHour, creator);
        Outcome(Ok(v), venues + [v])
  }

  /** `create` as written: the row is the DTO alone, so it has no creator. */
  function CreateSpec(venues: seq<Venue>, users: seq<Users.User>, dto: CreateVenueDto, current: Id, newId: Id): (o: Outcome)
    ensures o.result.Ok? ==> o.result.value.creatorId.None?
  {
    CreateWith(venues, users, dto, current, newId, None)
  }

  /** `create` recording the caller as the venue's creator. */
  function CreateFixedSpec(venues: seq<Venue>, users: seq<Users.User>, dto: CreateVenueDto, current: Id, newId: Id)
    : (o: Outcome)
    ensures o.result.Ok? ==> o.result.value.creatorId == Some(current)
  {
    CreateWith(venues, users, dto, current, newId, Some(current))
  }

  /** The ownership rule of update and delete. */
  predicate MayEdit(v: Venue, user: Users.PublicUser)
  {
    user.role == Users.SuperAdmin || v.creatorId == Some(user.id)
  }

  function ApplyUpdate(v: Venue, dto: UpdateVenueDto): (r: Venue)
    ensures r.id == v.id && r.creatorId == v.creatorId
    ensures r.name == (if dto.name.Some? then dto.name.value else v.name)
    ensures r.address == (if dto.address.Some? then dto.address.value else v.address)
    ensures r.pricePerHour == (if dto.pricePerHour.Some? then dto.pricePerHour.value else v.pricePerHour)
  {
    Venue(v.id,
          if dto.name.Some? then dto.name.value else v.name,
          if dto.address.Some? then dto.address.value else v.address,
          if dto.pricePerHour.Some? then dto.pricePerHour.value else v.pricePerHour,
          v.creatorId)
  }

  /** The checks update and delete share: the venue, then the caller, then the ownership rule. */
  function Authorize(venues: seq<Venue>, users: seq<Users.User>, id: Id, current: Id): (r: Result<nat>)
    ensures r.Ok? ==> r.value < |venues| && FindVenue(venues, id) == Some(r.value)
    ensures FindVenue(venues, id).None? ==> r == Err(HttpError(NotFound, "Venue not found"))
    ensures r.Ok? <==> FindVenue(venues, id).Some? && Users.FindUser(users, Users.ById(current)).Some?
                       && MayEdit(venues[FindVenue(venues, id).value], Users.ToPublic(Users.FindUser(users, Users.ById(current)).value))
  {
    match FindVenue(venues, id)
    case None => Err(HttpError(NotFound, "Venue not found"))
    case Some(i) =>
      match Users.GetOne(users, Users.ById(current))
      case Err(e) => Err(e)
      case Ok(user) =>
        if !MayEdit(venues[i], user) then Err(HttpError(Forbidden, AccessDenied)) else Ok(i)
  }

  function UpdateSpec(venues: seq<Venue>, users: seq<Users.User>, id: Id, dto: UpdateVenueDto, current: Id): (o: Outcome)
    ensures o.result.Err? ==> o.venues == venues
    ensures o.result.Ok? ==> Authorize(venues, users, id, current).Ok?
    ensures o.result.Ok? ==>
              var i := Authorize(venues, users, id, current).value;
              o.result.value == ApplyUpdate(venues[i], dto) && o.venues == venues[i := o.result.value]
  {
    match Authorize(venues, users, id, current)
    case Err(e) => Outcome(Err(e), venues)
    case Ok(i) =>
      var updated := ApplyUpdate(venues[i], dto);
      Outcome(Ok(updated), venues[i := updated])
  }

  /** `delete`: the authorised venue is removed and the call returns nothing. */
  function DeleteSpec(venues: seq<Venue>, users: seq<Users.User>, id: Id, current: Id): (o: Deletion)
    ensures o.result.Ok? <==> Authorize(venues, users, id, current).Ok?
    ensures o.result.Err? ==> o.venues == venues && o.result.error == Authorize(venues, users, id, current).error
    ensures o.result.Ok? ==>
              var i := Authorize(venues, users, id, current).value;
              o.venues == venues[..i] + venues[i + 1..]
  {
    match Authorize(venues, users, id, current)
    case Err(e) => Deletion(Err(e), venues)
    case Ok(i) => Deletion(Ok(()), venues[..i] + venues[i + 1..])
  }

  // ---------------------------------------------------------------------
  // Properties
  // ---------------------------------------------------------------------

  /** Update and delete report a missing venue before anything about the caller. */
  lemma MissingVenueFirst(venues: seq<Venue>, users: seq<Users.User>, id: Id, dto: UpdateVenueDto, current: Id)
    requires FindVenue(venues, id).None?
    ensures UpdateSpec(venues, users, id, dto, current).result == Err(HttpError(NotFound, "Venue not found"))
    ensures DeleteSpec(venues, users, id, current).result == Err(HttpError(NotFound, "Venue not found"))
  {
  }

  /** A successful update leaves every other venue as it was. */
  lemma UpdateTouchesOnlyTarget(venues: seq<Venue>, users: seq<Users.User>, id: Id, dto: UpdateVenueDto, current: Id, k: nat)
    requires UpdateSpec(venues, users, id, dto, current).result.Ok?
    requires k < |venues| && venues[k].id != id
    ensures UpdateSpec(venues, users, id, dto, current).venues[k] == venues[k]
  {
  }

  /** With unique ids, a successful delete removes the venue with that id and only it. */
  lemma {:induction false} DeleteRemovesOnlyTarget(venues: seq<Venue>, users: seq<Users.User>, id: Id, current: Id)
    requires forall i, j :: 0 <= i < j < |venues| ==> venues[i].id != venues[j].id
    requires DeleteSpec(venues, users, id, current).result.Ok?
    ensures var r := DeleteSpec(venues, users, id, current).venues;
            |r| == |venues| - 1
            && (forall k :: 0 <= k < |r| ==> r[k].id != id)
            && (forall k :: 0 <= k < |venues| && venues[k].id != id ==> venues[k] in r)
  {
    var i := Authorize(venues, users, id, current).value;
    var r := venues[..i] + venues[i + 1..];
    Tables.RemoveAt(venues, i);
    forall k | 0 <= k < |r|
      ensures r[k].id != id && r[k] in venues
    {
      if k < i {
        assert r[k] == venues[k];
      } else {
        assert r[k] == venues[k + 1];
      }
    }
    forall k | 0 <= k < |venues| && venues[k].id != id
      ensures venues[k] in r
    {
      if k < i {
        assert r[k] == venues[k];
      } else {
        assert r[k - 1] == venues[k];
      }
    }
  }

  /** An ADMIN who creates a venue may not then edit it: the stored venue has no creator. */
  lemma AdminCannotEditOwnVenue()
    ensures var admin := Users.User("a1", "Ann", "Lee", "ann@x.az", "ann", "$2b$m", "$2b$p", Users.Admin, None, None, 0);
            var created := CreateSpec([], [admin], CreateVenueDto("Arena", "Baku", 50), "a1", "v1");
            created.result.Ok?
            && UpdateSpec(created.venues, [admin], "v1", UpdateVenueDto(Some("Arena 2"), None, None), "a1").result
               == Err(HttpError(Forbidden, AccessDenied))
  {
    var admin := Users.User("a1", "Ann", "Lee", "ann@x.az", "ann", "$2b$m", "$2b$p", Users.Admin, None, None, 0);
    assert Users.FindUser([admin], Users.ById("a1")) == Some(admin);
  }

  /** With the creator recorded, whoever created a venue may update and delete it. */
  lemma {:induction false} CreatorMayEdit(venues: seq<Venue>, users: seq<Users.User>, dto: CreateVenueDto, current: Id,
                                          newId: Id, update: UpdateVenueDto)
    requires forall k :: 0 <= k < |venues| ==> venues[k].id != newId
    requires CreateFixedSpec(venues, users, dto, current, newId).result.Ok?
    ensures var after := CreateFixedSpec(venues, users, dto, current, newId).venues;
            UpdateSpec(after, users, newId, update, current).result.Ok?
            && DeleteSpec(after, users, newId, current).result.Ok?
  {
    var after := CreateFixedSpec(venues, users, dto, current, newId).venues;
    assert after[|venues|].id == newId;
    assert FindVenue(after, newId) == Some(|venues|);
  }

  // ---------------------------------------------------------------------
  // The service over its table
  // ---------------------------------------------------------------------

  class VenuesService {
    var venues: seq<Venue>

    constructor (initial: seq<Venue>)
      ensures venues == initial
    {
      venues := initial;
    }

    method Create(dto: CreateVenueDto, currentUserId: Id, users: seq<Users.User>, newId: Id) returns (r: Result<Venue>)
      modifies this
      ensures Outcome(r, venues) == CreateSpec(old(venues), users, dto, currentUserId, newId)
    {
      var user := Users.GetOne(users, Users.ById(currentUserId));
      if user.Err? {
        return Err(user.error);
      }
      if user.value.role != Users.Admin && user.value.role != Users.SuperAdmin {
        return Err(HttpError(Forbidden, AccessDenied));
      }
      var v := Venue(newId, dto.name, dto.address, dto.pricePerHour, None);
      venues := venues + [v];
      return Ok(v);
    }

    method Update(id: Id, dto: UpdateVenueDto, currentUserId: Id, users: seq<Users.User>) returns (r: Result<Venue>)
      modifies this
      ensures Outcome(r, venues) == UpdateSpec(old(venues), users, id, dto, currentUserId)
    {
      var i := FindVenue(venues, id);
      if i.None? {
        return Err(HttpError(NotFound, "Venue not found"));
      }
      var user := Users.GetOne(users, Users.ById(currentUserId));
      if user.Err? {
        return Err(user.error);
      }
      if user.value.role != Users.SuperAdmin && venues[i.value].creatorId != Some(user.value.id) {
        return Err(HttpError(Forbidden, AccessDenied));
      }
      var updated := ApplyUpdate(venues[i.value], dto);
      venues := venues[i.value := updated];
      return Ok(updated);
    }

    method Delete(id: Id, currentUserId: Id, users: seq<Users.User>) returns (r: Result<()>)
      modifies this
      ensures Deletion(r, venues) == DeleteSpec(old(venues), users, id, currentUserId)
    {
      var i := FindVenue(venues, id);
      if i.None? {
        return Err(HttpError(NotFound, "Venue not found"));
      }
      var user := Users.GetOne(users, Users.ById(currentUserId));
      if user.Err? {
        return Err(user.error);
      }
      if user.value.role != Users.SuperAdmin && venues[i.value].creatorId != Some(user.value.id) {
        return Err(HttpError(Forbidden, AccessDenied));
      }
      r := Ok(());
      venues := venues[..i.value] + venues[i.value + 1..];
    }
  }
}
