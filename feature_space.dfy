/**
 * The track table and the distance queries of the route planner:
 * `distance_to_all`, `song_radius` and the id lookup inside `uri_to_idx`.
 *
 * A table is a sequence of tracks whose row index is its position in the
 * sequence. Each track has a Spotify id and a point in
 * (danceability, energy, valence) space. Distances are kept squared, so the
 * model needs no square root: `sqrt(d2) <= radius` is `WithinRadius(d2, radius)`.
 */
module FeatureSpace {
  import opened Wrappers

  /** Number of feature axes: danceability, energy and valence, in that order. */
  const Axes: nat := 3

  /** Radius used by the route planner when it searches around a stop. */
  const DefaultRadius: real := 0.15

  type Point = seq<real>

  datatype Track = Track(spotifyId: string, features: Point)

  /** Every row carries exactly the three feature columns. */
  predicate ValidTable(tracks: seq<Track>)
  {
    forall i :: 0 <= i < |tracks| ==> |tracks[i].features| == Axes
  }

  /** Vector difference `p - q`. */
  function Sub(p: Point, q: Point): Point
    requires |p| == |q|
  {
    seq(|p|, k requires 0 <= k < |p| => p[k] - q[k])
  }

  /** Vector sum `p + q`. */
  function Add(p: Point, q: Point): Point
    requires |p| == |q|
  {
    seq(|p|, k requires 0 <= k < |p| => p[k] + q[k])
  }

  /** Scalar multiple `c * p`. */
  function Scale(c: real, p: Point): Point
  {
    seq(|p|, k requires 0 <= k < |p| => c * p[k])
  }

  /** Scalar quotient `p / c`. */
  function DivBy(p: Point, c: real): Point
    requires c != 0.0
  {
    seq(|p|, k requires 0 <= k < |p| => p[k] / c)
  }

  /** Square of the Euclidean distance between two points of the same dimension. */
  function SqDist(p: Point, q: Point): (d: real)
    requires |p| == |q|
    ensures d >= 0.0
  {
    if p == [] then 0.0 else (p[0] - q[0]) * (p[0] - q[0]) + SqDist(p[1..], q[1..])
  }

  /** `x * x`, kept behind a name so that the solver sees the radius bound as one term. */
  function Sq(x: real): real
  {
    x * x
  }

  /** The norm test `sqrt(d2) <= radius`, for a squared distance `d2`. */
  predicate WithinRadius(d2: real, radius: real)
  {
    radius >= 0.0 && d2 <= Sq(radius)
  }

  lemma SqMonotone(a: real, b: real)
    requires 0.0 <= a <= b
    ensures Sq(a) <= Sq(b)
  {
    var x, y, z := a * a, a * b, b * b;
    assert x <= y <= z;
    assert Sq(a) == x && Sq(b) == z;
  }

  lemma SqStrictMonotone(a: real, b: real)
    requires 0.0 <= a < b
    ensures Sq(a) < Sq(b)
  {
    var x, y, z := a * a, a * b, b * b;
    assert x <= y;
    assert y < z;
    assert Sq(a) == x && Sq(b) == z;
  }

  /**
   * For a true distance `n >= 0`, the norm test `n <= radius` of the source
   * is the same as `WithinRadius(Sq(n), radius)` on the squared distance.
   */
  lemma NormWithinRadius(n: real, radius: real)
    requires n >= 0.0
    ensures n <= radius <==> WithinRadius(Sq(n), radius)
  {
    if n <= radius {
      SqMonotone(n, radius);
    } else if radius >= 0.0 {
      SqStrictMonotone(radius, n);
    }
  }

  /** A point is at distance zero from itself. */
  lemma {:induction false} SqDistSelf(p: Point)
    ensures SqDist(p, p) == 0.0
  {
    if p != [] {
      SqDistSelf(p[1..]);
    }
  }

  /** The distance does not depend on the order of its arguments. */
  lemma {:induction false} SqDistSymmetric(p: Point, q: Point)
    requires |p| == |q|
    ensures SqDist(p, q) == SqDist(q, p)
  {
    if p != [] {
      SqDistSymmetric(p[1..], q[1..]);
      assert (p[0] - q[0]) * (p[0] - q[0]) == (q[0] - p[0]) * (q[0] - p[0]);
    }
  }

  /** `distance_to_all`: one squared distance per row, in row order. */
  function DistancesSq(tracks: seq<Track>, coord: Point): (ds: seq<real>)
    requires ValidTable(tracks) && |coord| == Axes
    ensures |ds| == |tracks|
    ensures forall i :: 0 <= i < |ds| ==> ds[i] >= 0.0
  {
    seq(|tracks|, i requires 0 <= i < |tracks| => SqDist(coord, tracks[i].features))
  }

  /** Entry i belongs to row i, is non-negative, and is zero at that row's own point. */
  lemma DistancesAt(tracks: seq<Track>, coord: Point, i: nat)
    requires ValidTable(tracks) && |coord| == Axes && i < |tracks|
    ensures |DistancesSq(tracks, coord)| == |tracks|
    ensures DistancesSq(tracks, coord)[i] == SqDist(coord, tracks[i].features)
    ensures DistancesSq(tracks, coord)[i] >= 0.0
    ensures tracks[i].features == coord ==> DistancesSq(tracks, coord)[i] == 0.0
  {
    SqDistSelf(coord);
  }

  /** The points (0,0,0) and (1,1,1) are at squared distance 3, that is at distance sqrt 3. */
  lemma UnitCubeDiagonal()
    ensures var t := [Track("a", [0.0, 0.0, 0.0]), Track("b", [1.0, 1.0, 1.0])];
            DistancesSq(t, [0.0, 0.0, 0.0]) == [0.0, 3.0]
  {
    var t := [Track("a", [0.0, 0.0, 0.0]), Track("b", [1.0, 1.0, 1.0])];
    var p := [1.0, 1.0, 1.0];
    assert SqDist([0.0, 0.0, 0.0], p) == 1.0 + SqDist([0.0, 0.0], p[1..]);
    assert SqDist([0.0, 0.0], p[1..]) == 1.0 + SqDist([0.0], p[2..]);
  }

  /** Row `i` of the table lies within `radius` of `coord`. */
  predicate Near(tracks: seq<Track>, coord: Point, radius: real, i: int)
    requires ValidTable(tracks) && |coord| == Axes
  {
    0 <= i < |tracks| && WithinRadius(SqDist(coord, tracks[i].features), radius)
  }

  /** `np.where(distances <= radius)[0]`: the indices of the entries within the radius, ascending. */
  function Where(ds: seq<real>, radius: real): (idx: seq<nat>)
    ensures forall k :: 0 <= k < |idx| ==> idx[k] < |ds|
    ensures forall k, l :: 0 <= k < l < |idx| ==> idx[k] < idx[l]
    ensures forall i :: 0 <= i < |ds| ==> (i in idx <==> WithinRadius(ds[i], radius))
  {
    if ds == [] then []
    else
      var init := Where(ds[..|ds| - 1], radius);
      if WithinRadius(ds[|ds| - 1], radius) then init + [|ds| - 1] else init
  }

  /**
   * `song_radius`: the rows whose distance from `coord` is at most `radius`, in
   * ascending row order. A row exactly at the radius is included.
   */
  function SongRadius(tracks: seq<Track>, coord: Point, radius: real): (idx: seq<nat>)
    requires ValidTable(tracks) && |coord| == Axes
    ensures forall k :: 0 <= k < |idx| ==> idx[k] < |tracks|
    ensures forall k, l :: 0 <= k < l < |idx| ==> idx[k] < idx[l]
    ensures forall i :: i in idx <==> Near(tracks, coord, radius, i)
  {
    Where(DistancesSq(tracks, coord), radius)
  }

  /** `df[df["spotify_id"] == uri].index[0]`: the first row carrying `uri`, if any. */
  function FirstIndexOf(tracks: seq<Track>, uri: string): (r: Option<nat>)
    ensures r.Some? ==> r.value < |tracks| && tracks[r.value].spotifyId == uri
    ensures r.Some? ==> forall j :: 0 <= j < r.value ==> tracks[j].spotifyId != uri
    ensures r.None? <==> forall j :: 0 <= j < |tracks| ==> tracks[j].spotifyId != uri
  {
    if tracks == [] then None
    else if tracks[0].spotifyId == uri then Some(0)
    else match FirstIndexOf(tracks[1..], uri)
      case None => None
      case Some(j) => Some(j + 1)
  }
}
