/**
 The six amenity categories and the proximity filter that decides which
 amenities are shown around the selected house. The great-circle distance
 (a haversine on floating point) is a parameter: `dist(lat1, lon1, lat2,
 lon2)` in miles.
 */
module Amenities {
  import opened Json

  /** The amenity data sources, one per category. */
  datatype Category = Hospitals | FireStations | Schools | Recreation | Transportation | PhysicalFeatures

  /** The categories in the order the client processes them. */
  const Sources: seq<Category> := [Hospitals, FireStations, Schools, Recreation, Transportation, PhysicalFeatures]

  /** The label that keys a category's data and its map layer. */
  function Label(c: Category): string {
    match c
    case Hospitals => "Hospitals"
    case FireStations => "Fire Stations"
    case Schools => "Schools"
    case Recreation => "Recreation"
    case Transportation => "Transportation"
    case PhysicalFeatures => "Physical Features"
  }

  /** Every category is listed once, and the labels keep them apart, so
      data keyed by category holds what the client keys by label. */
  lemma SourcesCoverCategories()
    ensures forall c: Category :: c in Sources
    ensures forall i, j :: 0 <= i < j < |Sources| ==> Label(Sources[i]) != Label(Sources[j])
  {
    forall c: Category ensures c in Sources {
      match c
      case Hospitals => assert Sources[0] == c;
      case FireStations => assert Sources[1] == c;
      case Schools => assert Sources[2] == c;
      case Recreation => assert Sources[3] == c;
      case Transportation => assert Sources[4] == c;
      case PhysicalFeatures => assert Sources[5] == c;
    }
  }

  datatype Amenity = Amenity(latitude: real, longitude: real, name: Option<string>)

  /** The great-circle distance in miles between two latitude/longitude pairs. */
  type Distance = (real, real, real, real) -> real

  /** The fixed search radius in miles. */
  const Radius: real := 20.0

  /** An amenity is nearby when its distance from the point is at most the
      radius; the boundary counts as nearby. */
  predicate IsNearby(dist: Distance, lat: real, lon: real, a: Amenity) {
    dist(lat, lon, a.latitude, a.longitude) <= Radius
  }

  /** `r` can be obtained from `s` by deleting elements. */
  predicate IsSubsequence<T(==)>(r: seq<T>, s: seq<T>)
    decreases |s|
  {
    |r| == 0 || (|s| > 0 && ((r[0] == s[0] && IsSubsequence(r[1..], s[1..])) || IsSubsequence(r, s[1..])))
  }

  /** `data.filter(a => getDistance(lat, lon, a.latitude, a.longitude) <= 20)`:
      keeps exactly the nearby amenities, each as often as it occurs, in
      their loaded order. */
  function Nearby(dist: Distance, lat: real, lon: real, s: seq<Amenity>): (r: seq<Amenity>)
    ensures forall a :: multiset(r)[a] == if IsNearby(dist, lat, lon, a) then multiset(s)[a] else 0
    ensures IsSubsequence(r, s)
  {
    if |s| == 0 then []
    else
      var rest := Nearby(dist, lat, lon, s[1..]);
      assert s == [s[0]] + s[1..];
      if IsNearby(dist, lat, lon, s[0]) then [s[0]] + rest else rest
  }

  /** The filter is the longest such selection: any subsequence of the
      loaded list made only of nearby amenities is also a subsequence of
      the filter's result. */
  lemma {:induction false} NearbyIsLargest(dist: Distance, lat: real, lon: real, t: seq<Amenity>, s: seq<Amenity>)
    requires IsSubsequence(t, s)
    requires forall k :: 0 <= k < |t| ==> IsNearby(dist, lat, lon, t[k])
    ensures IsSubsequence(t, Nearby(dist, lat, lon, s))
    decreases |s|
  {
    var r := Nearby(dist, lat, lon, s);
    if |t| == 0 {
    } else if t[0] == s[0] && IsSubsequence(t[1..], s[1..]) {
      NearbyIsLargest(dist, lat, lon, t[1..], s[1..]);
      assert r[0] == t[0] && r[1..] == Nearby(dist, lat, lon, s[1..]);
    } else {
      NearbyIsLargest(dist, lat, lon, t, s[1..]);
      if IsNearby(dist, lat, lon, s[0]) {
        SubsequenceOfTail(t, r);
      }
    }
  }

  /** A subsequence of a list's tail is a subsequence of the list. */
  lemma {:induction false} SubsequenceOfTail<T>(t: seq<T>, r: seq<T>)
    requires |r| > 0 && IsSubsequence(t, r[1..])
    ensures IsSubsequence(t, r)
  {
  }

  /** The boundary is inclusive: at exactly 20 miles an amenity is shown,
      a little further out it is not. */
  lemma BoundaryIsInclusive(dist: Distance, lat: real, lon: real, a: Amenity, b: Amenity)
    requires dist(lat, lon, a.latitude, a.longitude) == 20.0
    requires dist(lat, lon, b.latitude, b.longitude) == 20.0001
    ensures Nearby(dist, lat, lon, [a, b]) == [a]
  {
    assert [a, b][1..] == [b];
  }

  /** A hospital 5 miles away is listed and one 25 miles away is not. */
  lemma FixtureExample(dist: Distance, lat: real, lon: real, near: Amenity, far: Amenity)
    requires dist(lat, lon, near.latitude, near.longitude) == 5.0
    requires dist(lat, lon, far.latitude, far.longitude) == 25.0
    ensures Nearby(dist, lat, lon, [near, far]) == [near]
    ensures Nearby(dist, lat, lon, [far, near]) == [near]
  {
    assert [near, far][1..] == [far];
    assert [far, near][1..] == [near];
  }

  /** All six categories have finished loading. */
  predicate Loaded(data: map<Category, seq<Amenity>>) {
    forall c: Category :: c in data
  }

  /** The per-category filter run for the selected house's coordinates. */
  function NearbyAll(dist: Distance, lat: real, lon: real, data: map<Category, seq<Amenity>>): (r: map<Category, seq<Amenity>>)
    requires Loaded(data)
    ensures Loaded(r)
    ensures forall c: Category :: forall a :: a in r[c] <==> a in data[c] && IsNearby(dist, lat, lon, a)
    ensures forall c: Category :: IsSubsequence(r[c], data[c])
    ensures forall c: Category, a :: multiset(r[c])[a] == if IsNearby(dist, lat, lon, a) then multiset(data[c])[a] else 0
  {
    map c: Category | c in data :: Nearby(dist, lat, lon, data[c])
  }

  /** Every layer emptied, as `clearLayers` leaves them. */
  function Cleared(): (r: map<Category, seq<Amenity>>)
    ensures Loaded(r)
    ensures forall c: Category :: r[c] == []
  {
    SourcesCoverCategories();
    map c | c in Sources :: []
  }
}
