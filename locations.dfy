// The geofence directory of internal/service/location_service.go: the table
// of attendance locations, its partial updates, the "nearby" search and the
// validation the attendance engine runs at check-in and check-out.

module Locations {
  import opened Common
  import opened Geo

  /** model.AttendanceLocation; `radius` is in metres. The location response
      copies every one of these fields, so it is this same value. */
  datatype Location = Location(
    id: nat,
    name: string,
    description: string,
    latitude: real,
    longitude: real,
    radius: int,
    isActive: bool,
    createdBy: Option<nat>)

  /** The zero value Go leaves in a relation that was not loaded. */
  const ZeroLocation: Location := Location(0, "", "", 0.0, 0.0, 0, false, None)

  function Center(l: Location): GeoPoint
  {
    GeoPoint(l.latitude, l.longitude)
  }

  function LocationId(l: Location): nat { l.id }
  predicate IsActiveLocation(l: Location) { l.isActive }

  datatype CreateLocationRequest = CreateLocationRequest(
    name: string, description: string, latitude: real, longitude: real, radius: int)

  /** Zero values (empty string, 0, no flag) mean "keep the stored value". */
  datatype UpdateLocationRequest = UpdateLocationRequest(
    name: string, description: string, latitude: real, longitude: real, radius: int,
    isActive: Option<bool>)

  /** The triple (isValid, distance, err) of ValidateLocationForAttendance. */
  datatype Validation = Validation(isValid: bool, distance: real, err: Option<Error>)

  /** The locations among `locs` within `radiusKm` kilometres of `user`, in
      table order (the loop of GetNearbyLocations). */
  function Nearby(locs: seq<Location>, distance: DistanceFn, user: GeoPoint, radiusKm: real): (r: seq<Location>)
    ensures |r| <= |locs|
    ensures forall l :: l in r <==> l in locs && IsWithinRadius(distance, user, Center(l), radiusKm)
  {
    if locs == [] then []
    else
      var last := locs[|locs| - 1];
      Nearby(locs[..|locs| - 1], distance, user, radiusKm)
        + (if IsWithinRadius(distance, user, Center(last), radiusKm) then [last] else [])
  }

  /** The search is the `WHERE` filter by the geofence test: the same rows
      in the same order. */
  lemma {:induction false} NearbyIsFilter(locs: seq<Location>, distance: DistanceFn, user: GeoPoint, radiusKm: real)
    ensures Nearby(locs, distance, user, radiusKm) ==
            Filter(locs, (l: Location) => IsWithinRadius(distance, user, Center(l), radiusKm))
  {
    if locs != [] {
      var init := locs[..|locs| - 1];
      NearbyIsFilter(init, distance, user, radiusKm);
      FilterAppend(init, locs[|locs| - 1], (l: Location) => IsWithinRadius(distance, user, Center(l), radiusKm));
      assert init + [locs[|locs| - 1]] == locs;
    }
  }

  /** Ids positive, below the next one and increasing in table order. */
  ghost predicate WellFormed(locations: seq<Location>, nextId: nat)
  {
    && (forall i :: 0 <= i < |locations| ==> 0 < locations[i].id < nextId)
    && (forall i, j :: 0 <= i < j < |locations| ==> locations[i].id < locations[j].id)
  }

  class LocationService {
    var locations: seq<Location>
    var nextId: nat
    /** The haversine distance of internal/utils/gps.go, uninterpreted. */
    const distance: DistanceFn

    ghost predicate Valid()
      reads this
    {
      nextId > 0 && WellFormed(locations, nextId)
    }

    constructor (distance: DistanceFn)
      ensures Valid()
      ensures locations == [] && this.distance == distance
    {
      locations := [];
      nextId := 1;
      this.distance := distance;
    }

    /** CreateLocation: always stores an active location owned by its creator. */
    method CreateLocation(req: CreateLocationRequest, createdBy: nat) returns (l: Location)
      requires Valid()
      modifies this
      ensures Valid()
      ensures l == Location(old(nextId), req.name, req.description, req.latitude, req.longitude,
                            req.radius, true, Some(createdBy))
      ensures locations == old(locations) + [l]
    {
      l := Location(nextId, req.name, req.description, req.latitude, req.longitude,
                    req.radius, true, Some(createdBy));
      locations := locations + [l];
      nextId := nextId + 1;
    }

    /** GetLocationByID: the row with that id, or "location not found". */
    function GetLocationByID(id: nat): (r: Result<Location>)
      reads this
      ensures r.Ok? ==> r.value in locations && r.value.id == id
      ensures r.Err? <==> forall l :: l in locations ==> l.id != id
      ensures r.Err? ==> r.error == LocationNotFound
    {
      match IndexOfKey(locations, LocationId, id)
      case None => Err(LocationNotFound)
      case Some(i) => Ok(locations[i])
    }

    /** GetAllLocations: everything without a filter, otherwise exactly the
        rows whose active flag equals it. */
    function GetAllLocations(isActive: Option<bool>): (r: seq<Location>)
      reads this
      ensures isActive.None? ==> r == locations
      ensures forall l :: l in r <==> l in locations && (isActive.None? || l.isActive == isActive.value)
    {
      match isActive
      case None => locations
      case Some(flag) => Filter(locations, (l: Location) => l.isActive == flag)
    }

    /** GetNearbyLocations: the active locations within `radiusKm` kilometres,
        in table order. */
    method GetNearbyLocations(user: GeoPoint, radiusKm: real) returns (r: seq<Location>)
      requires Valid()
      ensures r == Nearby(Filter(locations, IsActiveLocation), distance, user, radiusKm)
      ensures forall l :: l in r <==>
        l in locations && l.isActive && distance(user, Center(l)) <= radiusKm * 1000.0
    {
      var all := Filter(locations, IsActiveLocation);
      r := [];
      var k := 0;
      while k < |all|
        invariant 0 <= k <= |all|
        invariant r == Nearby(all[..k], distance, user, radiusKm)
      {
        var loc := all[k];
        assert all[..k + 1][..k] == all[..k];
        if IsWithinRadius(distance, user, Center(loc), radiusKm) {
          r := r + [loc];
        }
        k := k + 1;
      }
      assert all[..k] == all;
    }

    /** UpdateLocation: each field changes only when the request carries a
        non-zero value for it (a positive radius, a present flag). */
    method UpdateLocation(id: nat, req: UpdateLocationRequest) returns (r: Result<Location>)
      requires Valid()
      modifies this
      ensures Valid() && nextId == old(nextId)
      ensures old(GetLocationByID(id)).Err? ==> r == Err(LocationNotFound) && locations == old(locations)
      ensures old(GetLocationByID(id)).Ok? ==>
        var l := old(GetLocationByID(id)).value;
        && r == Ok(Location(
             l.id,
             if req.name != "" then req.name else l.name,
             if req.description != "" then req.description else l.description,
             if req.latitude != 0.0 then req.latitude else l.latitude,
             if req.longitude != 0.0 then req.longitude else l.longitude,
             if req.radius > 0 then req.radius else l.radius,
             if req.isActive.Some? then req.isActive.value else l.isActive,
             l.createdBy))
        && exists i :: 0 <= i < |old(locations)| && old(locations)[i] == l &&
             locations == old(locations)[i := r.value]
    {
      var idx := IndexOfKey(locations, LocationId, id);
      if idx.None? {
        return Err(LocationNotFound);
      }
      var i := idx.value;
      var location := locations[i];
      if req.name != "" {
        location := location.(name := req.name);
      }
      if req.description != "" {
        location := location.(description := req.description);
      }
      if req.latitude != 0.0 {
        location := location.(latitude := req.latitude);
      }
      if req.longitude != 0.0 {
        location := location.(longitude := req.longitude);
      }
      if req.radius > 0 {
        location := location.(radius := req.radius);
      }
      if req.isActive.Some? {
        location := location.(isActive := req.isActive.value);
      }
      locations := locations[i := location];
      r := Ok(location);
    }

    /** DeleteLocation: a missing id fails and removes nothing. */
    method DeleteLocation(id: nat) returns (r: Result<()>)
      requires Valid()
      modifies this
      ensures Valid() && nextId == old(nextId)
      ensures old(GetLocationByID(id)).Err? ==> r == Err(LocationNotFound) && locations == old(locations)
      ensures old(GetLocationByID(id)).Ok? ==>
        && r.Ok?
        && exists i :: 0 <= i < |old(locations)| && old(locations)[i].id == id &&
             locations == RemoveAt(old(locations), i)
    {
      var idx := IndexOfKey(locations, LocationId, id);
      if idx.None? {
        return Err(LocationNotFound);
      }
      var i := idx.value;
      ghost var s := RemoveAt(locations, i);
      forall a, b | 0 <= a < b < |s| ensures s[a].id < s[b].id {
        var a' := if a < i then a else a + 1;
        var b' := if b < i then b else b + 1;
        assert s[a] == locations[a'] && s[b] == locations[b'];
      }
      locations := RemoveAt(locations, i);
      r := Ok(());
    }

    /** ValidateLocationForAttendance: an unknown or inactive location is an
        error reported with distance 0; otherwise the user is valid exactly
        when the distance to the centre is at most the radius, and the
        distance is reported either way. */
    function ValidateLocationForAttendance(id: nat, user: GeoPoint): (v: Validation)
      reads this
      ensures GetLocationByID(id).Err? ==> v == Validation(false, 0.0, Some(LocationNotFound))
      ensures GetLocationByID(id).Ok? && !GetLocationByID(id).value.isActive ==>
        v == Validation(false, 0.0, Some(LocationInactive))
      ensures GetLocationByID(id).Ok? && GetLocationByID(id).value.isActive ==>
        && v.err.None?
        && v.distance == distance(user, Center(GetLocationByID(id).value))
        && (v.isValid <==> v.distance <= GetLocationByID(id).value.radius as real)
      ensures v.isValid ==> v.err.None?
    {
      match GetLocationByID(id)
      case Err(e) => Validation(false, 0.0, Some(e))
      case Ok(location) =>
        if !location.isActive then Validation(false, 0.0, Some(LocationInactive))
        else
          var (isValid, d) := ValidateLocation(distance, user, Center(location), location.radius as real);
          Validation(isValid, d, None)
    }
  }
}
