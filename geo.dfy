// Geofence containment (internal/utils/gps.go). The haversine distance itself
// is floating-point trigonometry and stays uninterpreted: every operation that
// needs it receives it as a function value, so the proofs hold for whatever
// distance the deployed formula computes.

module Geo {

  /** A latitude/longitude pair in degrees. */
  datatype GeoPoint = GeoPoint(latitude: real, longitude: real)

  /** Great-circle distance in metres between a user position and a point. */
  type DistanceFn = (GeoPoint, GeoPoint) -> real

  /** utils.ValidateLocation: whether the user stands inside the circle of
      `radius` metres around `center`, together with the distance computed. */
  function ValidateLocation(distance: DistanceFn, user: GeoPoint, center: GeoPoint, radius: real): (r: (bool, real))
    ensures r.1 == distance(user, center)
    ensures r.0 <==> distance(user, center) <= radius
  {
    var d := distance(user, center);
    (d <= radius, d)
  }

  /** utils.IsWithinRadius: the same containment test with a radius in kilometres. */
  function IsWithinRadius(distance: DistanceFn, user: GeoPoint, center: GeoPoint, radiusKm: real): (r: bool)
    ensures r <==> ValidateLocation(distance, user, center, radiusKm * 1000.0).0
  {
    distance(user, center) <= radiusKm * 1000.0
  }

  /** The boundary is inclusive: a user exactly `radius` metres away is inside. */
  lemma BoundaryIsInside(distance: DistanceFn, user: GeoPoint, center: GeoPoint)
    ensures ValidateLocation(distance, user, center, distance(user, center)).0
  {
  }

  /** Widening a geofence never rejects a user it accepted before. */
  lemma WiderRadiusAccepts(distance: DistanceFn, user: GeoPoint, center: GeoPoint, r1: real, r2: real)
    requires r1 <= r2
    requires ValidateLocation(distance, user, center, r1).0
    ensures ValidateLocation(distance, user, center, r2).0
  {
  }
}
