/**
 * The route planner of `vc_linalg.py`: `uri_to_idx`, `get_direct_path` and
 * `plot_bearing`.
 *
 * `plot_bearing` draws a straight line of `steps + 1` evenly spaced stops
 * from the origin track's point to the destination track's point. At every
 * interior stop where some track within the radius is neither in the playlist
 * yet nor the destination, it picks one of them at random; a stop with none
 * adds nothing. The random draw is a parameter:
 * `rand(n)` is the raw draw made at stop `n`, and the pick is entry
 * `rand(n) % |candidates|` of the ascending candidate list, so that any
 * candidate can be the one chosen.
 */
module RoutePlanner {
  import opened Wrappers
  import opened FeatureSpace

  /** `.index[0]` on an empty selection: no row carries this Spotify id. */
  datatype LookupError = NotFound(uri: string)

  /** The stop coordinates and the chosen row indices returned by `plot_bearing`. */
  datatype Route = Route(stops: seq<Point>, playlist: seq<nat>)

  // ---------------------------------------------------------------------------
  // uri_to_idx
  // ---------------------------------------------------------------------------

  /**
   * `uri_to_idx`: one row index per uri, in argument order, each the first row
   * carrying that uri; the first uri no row carries is reported instead.
   */
  method UriToIdx(tracks: seq<Track>, uris: seq<string>) returns (r: Result<seq<nat>, LookupError>)
    ensures r.Ok? <==> forall k :: 0 <= k < |uris| ==> FirstIndexOf(tracks, uris[k]).Some?
    ensures r.Ok? ==> |r.value| == |uris|
    ensures r.Ok? ==> forall k :: 0 <= k < |uris| ==> FirstIndexOf(tracks, uris[k]) == Some(r.value[k])
    ensures r.Err? ==> exists k :: 0 <= k < |uris| && r.error == NotFound(uris[k])
                         && FirstIndexOf(tracks, uris[k]).None?
                         && forall j :: 0 <= j < k ==> FirstIndexOf(tracks, uris[j]).Some?
  {
    var idxs: seq<nat> := [];
    for k := 0 to |uris|
      invariant |idxs| == k
      invariant forall j :: 0 <= j < k ==> FirstIndexOf(tracks, uris[j]) == Some(idxs[j])
    {
      match FirstIndexOf(tracks, uris[k]) {
        case None =>
          return Err(NotFound(uris[k]));
        case Some(i) =>
          idxs := idxs + [i];
      }
    }
    return Ok(idxs);
  }

  // ---------------------------------------------------------------------------
  // get_direct_path
  // ---------------------------------------------------------------------------

  /** The step vector `(destination - origin) / steps`. */
  function StepVector(o: Point, d: Point, steps: nat): (v: Point)
    requires |o| == |d| && steps >= 1
    ensures |v| == |o|
  {
    DivBy(Sub(d, o), steps as real)
  }

  /** Stop `n` of the straight line: `origin + n * step`. */
  function StopAt(o: Point, d: Point, steps: nat, n: nat): (p: Point)
    requires |o| == |d| && steps >= 1
    ensures |p| == |o|
  {
    Add(o, Scale(n as real, StepVector(o, d, steps)))
  }

  /** All `steps + 1` stops of the straight line. */
  function DirectPath(o: Point, d: Point, steps: nat): (path: seq<Point>)
    requires |o| == |d| && steps >= 1
    ensures |path| == steps + 1
  {
    seq(steps + 1, n requires 0 <= n <= steps => StopAt(o, d, steps, n))
  }

  lemma DivMulCancel(x: real, s: real)
    requires s > 0.0
    ensures s * (x / s) == x
  {
  }

  /** The first stop is exactly the origin's point and the last exactly the destination's. */
  lemma StopEnds(o: Point, d: Point, steps: nat)
    requires |o| == |d| && steps >= 1
    ensures StopAt(o, d, steps, 0) == o
    ensures StopAt(o, d, steps, steps) == d
  {
    var last := StopAt(o, d, steps, steps);
    forall k | 0 <= k < |o|
      ensures last[k] == d[k]
    {
      var x := d[k] - o[k];
      DivMulCancel(x, steps as real);
      assert last[k] == o[k] + (steps as real) * (x / (steps as real));
    }
    var first := StopAt(o, d, steps, 0);
    forall k | 0 <= k < |o|
      ensures first[k] == o[k]
    {
      assert first[k] == o[k] + 0.0 * StepVector(o, d, steps)[k];
    }
  }

  /** Consecutive stops are one step vector `(destination - origin) / steps` apart. */
  lemma EvenlySpaced(o: Point, d: Point, steps: nat, n: nat, k: nat)
    requires |o| == |d| && steps >= 1 && k < |o|
    ensures |StopAt(o, d, steps, n)| == |o|
    ensures StopAt(o, d, steps, n + 1)[k] - StopAt(o, d, steps, n)[k] == (d[k] - o[k]) / (steps as real)
  {
    var x := StepVector(o, d, steps)[k];
    assert StopAt(o, d, steps, n + 1)[k] == o[k] + (n as real + 1.0) * x;
    assert StopAt(o, d, steps, n)[k] == o[k] + (n as real) * x;
    assert (n as real + 1.0) * x == (n as real) * x + x;
  }

  /**
   * `get_direct_path`: fills a buffer of `steps + 1` rows, row `n` being
   * stop `n` of the straight line from the origin's point to the destination's.
   */
  method GetDirectPath(tracks: seq<Track>, origin: nat, destination: nat, steps: nat) returns (path: seq<Point>)
    requires ValidTable(tracks) && origin < |tracks| && destination < |tracks| && steps >= 1
    ensures path == DirectPath(tracks[origin].features, tracks[destination].features, steps)
    ensures |path| == steps + 1
    ensures path[0] == tracks[origin].features && path[steps] == tracks[destination].features
    ensures forall n :: 0 <= n < |path| ==> |path[n]| == Axes
  {
    var o := tracks[origin].features;
    var d := tracks[destination].features;
    var step := DivBy(Sub(d, o), steps as real);
    var buf := new Point[steps + 1];
    for n := 0 to steps + 1
      invariant forall j :: 0 <= j < n ==> buf[j] == StopAt(o, d, steps, j)
    {
      buf[n] := Add(o, Scale(n as real, step));
    }
    path := buf[..];
    StopEnds(o, d, steps);
  }

  // ---------------------------------------------------------------------------
  // plot_bearing
  // ---------------------------------------------------------------------------

  /** Every stop has one coordinate per feature axis. */
  predicate ValidStops(stops: seq<Point>)
  {
    forall n :: 0 <= n < |stops| ==> |stops[n]| == Axes
  }

  /** `song_radius` at every stop of the line. */
  ghost function RadiusChoices(tracks: seq<Track>, stops: seq<Point>, radius: real): (cs: seq<seq<nat>>)
    requires ValidTable(tracks) && ValidStops(stops)
  {
    seq(|stops|, n requires 0 <= n < |stops| => SongRadius(tracks, stops[n], radius))
  }

  /**
   * `choices[n]` holds exactly the rows within `radius` of stop `n`: what
   * `song_radius` returns there, up to order.
   */
  ghost predicate ChoicesNear(tracks: seq<Track>, stops: seq<Point>, radius: real, choices: seq<seq<nat>>)
    requires ValidTable(tracks) && ValidStops(stops)
  {
    && |choices| == |stops|
    && forall n, i: nat :: 0 <= n < |stops| ==> (i in choices[n] <==> Near(tracks, stops[n], radius, i))
  }

  /** `song_radius` at every stop meets `ChoicesNear`. */
  lemma RadiusChoicesNear(tracks: seq<Track>, stops: seq<Point>, radius: real)
    requires ValidTable(tracks) && ValidStops(stops)
    ensures ChoicesNear(tracks, stops, radius, RadiusChoices(tracks, stops, radius))
  {
    var cs := RadiusChoices(tracks, stops, radius);
    forall n, i: nat | 0 <= n < |stops|
      ensures i in cs[n] <==> Near(tracks, stops[n], radius, i)
    {
      assert cs[n] == SongRadius(tracks, stops[n], radius);
    }
  }

  /** `list(set(choices) - set(taken))`: the entries of `choices` that are not in `taken`. */
  function Without(choices: seq<nat>, taken: seq<nat>): (rest: seq<nat>)
    ensures |rest| <= |choices|
  {
    if |choices| == 0 then []
    else (if choices[0] in taken then [] else [choices[0]]) + Without(choices[1..], taken)
  }

  /** `Without` keeps exactly the entries of `choices` that are not taken. */
  lemma {:induction false} WithoutMembers(choices: seq<nat>, taken: seq<nat>)
    ensures forall x :: x in Without(choices, taken) <==> x in choices && x !in taken
  {
    if choices != [] {
      WithoutMembers(choices[1..], taken);
      assert choices == [choices[0]] + choices[1..];
    }
  }

  /** `np.random.choice` driven by the raw draw `draw`: entry `draw % |c|`, so that every candidate can be drawn. */
  function Pick(c: seq<nat>, draw: nat): (x: nat)
    requires c != []
    ensures x in c
  {
    c[draw % |c|]
  }

  /**
   * One pass of the loop of `plot_bearing`, given what `song_radius` returned
   * for the stop: append one of those tracks that is neither in the playlist
   * nor the destination if there is any, otherwise leave the playlist as it is.
   */
  function Step(songChoices: seq<nat>, destination: nat, draw: nat, playlist: seq<nat>): seq<nat>
  {
    var candidates := Without(songChoices, playlist + [destination]);
    if |candidates| == 0 then playlist else playlist + [Pick(candidates, draw)]
  }

  /**
   * `q` is `p` itself, or `p` with one more track that was `offered`, is new
   * to `p` and is not the destination.
   */
  predicate Extends(q: seq<nat>, p: seq<nat>, offered: seq<nat>, destination: nat)
  {
    || (|q| == |p| && q == p)
    || (|q| == |p| + 1 && q == p + [q[|p|]] && q[|p|] in offered && q[|p|] !in p && q[|p|] != destination)
  }

  /** Every pass of the loop extends the playlist by at most one new, offered track. */
  lemma StepExtends(songChoices: seq<nat>, destination: nat, draw: nat, playlist: seq<nat>)
    ensures Extends(Step(songChoices, destination, draw, playlist), playlist, songChoices, destination)
  {
    var candidates := Without(songChoices, playlist + [destination]);
    WithoutMembers(songChoices, playlist + [destination]);
    if |candidates| != 0 {
      assert Pick(candidates, draw) in candidates;
    }
  }

  /** The playlist is left as it is exactly when every choice is already in it or is the destination. */
  lemma StepUnchanged(songChoices: seq<nat>, destination: nat, draw: nat, playlist: seq<nat>)
    ensures |Step(songChoices, destination, draw, playlist)| == |playlist|
            <==> forall i :: i in songChoices ==> i in playlist || i == destination
  {
    var candidates := Without(songChoices, playlist + [destination]);
    WithoutMembers(songChoices, playlist + [destination]);
    if |candidates| != 0 {
      assert candidates[0] in candidates;
    }
  }

  /**
   * The pass of the loop of `plot_bearing` at stop `n`, as a function of the
   * playlist so far; `choices[n]` is what `song_radius` returned at stop `n`
   * and `rand(n)` the draw made there.
   */
  function StepAt(choices: seq<seq<nat>>, destination: nat, rand: nat -> nat): (nat, seq<nat>) -> seq<nat>
  {
    (n: nat, p: seq<nat>) => if n < |choices| then Step(choices[n], destination, rand(n), p) else p
  }

  /** `step` extends the playlist as a pass of the loop does, at every stop of `choices`. */
  ghost predicate Steps(step: (nat, seq<nat>) -> seq<nat>, choices: seq<seq<nat>>, destination: nat)
  {
    forall n: nat, p: seq<nat> :: n < |choices| ==> Extends(step(n, p), p, choices[n], destination)
  }

  lemma StepAtSteps(choices: seq<seq<nat>>, destination: nat, rand: nat -> nat)
    ensures Steps(StepAt(choices, destination, rand), choices, destination)
  {
    forall n: nat, p: seq<nat> | n < |choices|
      ensures Extends(StepAt(choices, destination, rand)(n, p), p, choices[n], destination)
    {
      StepExtends(choices[n], destination, rand(n), p);
    }
  }

  /** The playlist after the interior stops `1..k` have been visited, starting from `[origin]`. */
  ghost function Walk(step: (nat, seq<nat>) -> seq<nat>, origin: nat, k: nat): seq<nat>
  {
    if k == 0 then [origin] else step(k, Walk(step, origin, k - 1))
  }

  /** The stops among `1..k` at which a track was appended, in visiting order. */
  ghost function PickedStops(step: (nat, seq<nat>) -> seq<nat>, origin: nat, k: nat): seq<nat>
  {
    if k == 0 then []
    else
      var before := Walk(step, origin, k - 1);
      var used := PickedStops(step, origin, k - 1);
      if |step(k, before)| == |before| then used else used + [k]
  }

  // Shapes of sequences, named so that the facts below are stated once.

  /** `s` is strictly increasing. */
  predicate Ascending(s: seq<nat>)
  {
    forall j, l :: 0 <= j < l < |s| ==> s[j] < s[l]
  }

  /** No entry of `s` repeats. */
  predicate Distinct(s: seq<nat>)
  {
    forall j, l :: 0 <= j < l < |s| ==> s[j] != s[l]
  }

  /** Every entry of `s` lies in `lo..hi`. */
  predicate Within(s: seq<nat>, lo: int, hi: int)
  {
    forall j :: 0 <= j < |s| ==> lo <= s[j] <= hi
  }

  /** Every entry of `s` is a row index of a table with `rows` rows. */
  predicate RowsBelow(s: seq<nat>, rows: nat)
  {
    forall j :: 0 <= j < |s| ==> s[j] < rows
  }

  /** No entry of `s` after the first is `x`. */
  predicate AvoidsAfterFirst(s: seq<nat>, x: nat)
  {
    forall j :: 1 <= j < |s| ==> s[j] != x
  }

  /** Entry `j + 1` of the walk `w` is one of the choices at stop `used[j]`. */
  predicate ChosenFrom(choices: seq<seq<nat>>, w: seq<nat>, used: seq<nat>)
  {
    && |w| == |used| + 1
    && forall j :: 0 <= j < |used| ==> used[j] < |choices| && w[j + 1] in choices[used[j]]
  }

  lemma AppendAscending(s: seq<nat>, x: nat)
    requires Ascending(s) && forall j :: 0 <= j < |s| ==> s[j] < x
    ensures Ascending(s + [x])
  {
    var t := s + [x];
    forall j, l | 0 <= j < l < |t|
      ensures t[j] < t[l]
    {
      assert t[j] == s[j];
    }
  }

  /** A stop list either stays as it is at stop `k` or gains `k`; either way it stays in `1..k` and ascending. */
  lemma AppendStop(before: seq<nat>, after: seq<nat>, k: nat)
    requires after == before || after == before + [k]
    requires Within(before, 1, k - 1) && Ascending(before) && k >= 1
    ensures Within(after, 1, k) && Ascending(after)
  {
    if after != before {
      AppendAscending(before, k);
    }
  }

  /** Appending a value that is not yet present keeps a sequence free of repeats. */
  lemma AppendDistinct(s: seq<nat>, x: nat)
    requires Distinct(s) && x !in s
    ensures Distinct(s + [x])
  {
    var t := s + [x];
    forall j, l | 0 <= j < l < |t|
      ensures t[j] != t[l]
    {
      if l < |s| {
        assert t[j] == s[j] && t[l] == s[l];
      } else {
        assert t[j] == s[j] && t[l] == x;
      }
    }
  }

  /** The playlist gains at most one track per stop, one for each picked stop. */
  lemma {:induction false} WalkLength(step: (nat, seq<nat>) -> seq<nat>, choices: seq<seq<nat>>, destination: nat,
                                      origin: nat, k: nat)
    requires Steps(step, choices, destination) && k < |choices|
    ensures |Walk(step, origin, k)| == |PickedStops(step, origin, k)| + 1 && |PickedStops(step, origin, k)| <= k
  {
    if k > 0 {
      WalkLength(step, choices, destination, origin, k - 1);
      var before := Walk(step, origin, k - 1);
      assert Extends(step(k, before), before, choices[k], destination);
    }
  }

  /** The playlist always starts with the origin. */
  lemma {:induction false} WalkHead(step: (nat, seq<nat>) -> seq<nat>, choices: seq<seq<nat>>, destination: nat,
                                    origin: nat, k: nat)
    requires Steps(step, choices, destination) && k < |choices|
    ensures |Walk(step, origin, k)| >= 1 && Walk(step, origin, k)[0] == origin
  {
    if k > 0 {
      WalkHead(step, choices, destination, origin, k - 1);
      var before := Walk(step, origin, k - 1);
      var after := step(k, before);
      assert Extends(after, before, choices[k], destination);
      if |after| != |before| {
        assert after[0] == before[0];
      }
    }
  }

  /** The stops that gained a track lie in `1..k` and are visited in increasing order. */
  lemma {:induction false} PickedStopsAscending(step: (nat, seq<nat>) -> seq<nat>, origin: nat, k: nat)
    ensures Within(PickedStops(step, origin, k), 1, k) && Ascending(PickedStops(step, origin, k))
  {
    if k > 0 {
      PickedStopsAscending(step, origin, k - 1);
      AppendStop(PickedStops(step, origin, k - 1), PickedStops(step, origin, k), k);
    }
  }

  /**
   * Every entry is below `rows` when the origin and every choice are, no entry
   * after the origin is the destination, and no entry repeats.
   */
  lemma {:induction false} WalkEntries(step: (nat, seq<nat>) -> seq<nat>, choices: seq<seq<nat>>, destination: nat,
                                       origin: nat, k: nat, rows: nat)
    requires Steps(step, choices, destination) && k < |choices| && origin < rows
    requires forall n, i :: 0 <= n < |choices| && i in choices[n] ==> i < rows
    ensures var w := Walk(step, origin, k);
            RowsBelow(w, rows) && AvoidsAfterFirst(w, destination) && Distinct(w)
  {
    if k > 0 {
      WalkEntries(step, choices, destination, origin, k - 1, rows);
      var before := Walk(step, origin, k - 1);
      var after := step(k, before);
      assert Extends(after, before, choices[k], destination);
      if after != before {
        var x := after[|before|];
        AppendDistinct(before, x);
        forall j | 0 <= j < |after|
          ensures after[j] < rows && (j >= 1 ==> after[j] != destination)
        {
          if j < |before| {
            assert after[j] == before[j];
          }
        }
      }
    }
  }

  /** The j-th track added is one of the choices at the stop it was added for. */
  lemma {:induction false} WalkChosenAt(step: (nat, seq<nat>) -> seq<nat>, choices: seq<seq<nat>>, destination: nat,
                                        origin: nat, k: nat)
    requires Steps(step, choices, destination) && k < |choices|
    ensures ChosenFrom(choices, Walk(step, origin, k), PickedStops(step, origin, k))
  {
    WalkLength(step, choices, destination, origin, k);
    PickedStopsAscending(step, origin, k);
    if k > 0 {
      WalkChosenAt(step, choices, destination, origin, k - 1);
      var before := Walk(step, origin, k - 1);
      var usedBefore := PickedStops(step, origin, k - 1);
      var after := step(k, before);
      var used := PickedStops(step, origin, k);
      assert Extends(after, before, choices[k], destination);
      if |after| != |before| {
        forall j | 0 <= j < |used|
          ensures used[j] < |choices| && after[j + 1] in choices[used[j]]
        {
          if j < |usedBefore| {
            assert used[j] == usedBefore[j] && after[j + 1] == before[j + 1];
          } else {
            assert used[j] == k && after[j + 1] == after[|before|];
          }
        }
      }
    }
  }

  /**
   * When no stop among `1..k` offers anything but the origin and the
   * destination, nothing is ever added.
   */
  lemma {:induction false} NoChoicesKeepsOrigin(choices: seq<seq<nat>>, origin: nat, destination: nat, rand: nat -> nat, k: nat)
    requires k < |choices|
    requires forall n, i :: 1 <= n <= k && i in choices[n] ==> i == origin || i == destination
    ensures Walk(StepAt(choices, destination, rand), origin, k) == [origin]
  {
    if k > 0 {
      NoChoicesKeepsOrigin(choices, origin, destination, rand, k - 1);
      StepUnchanged(choices[k], destination, rand(k), [origin]);
    }
  }

  /**
   * In particular, when no track other than the origin and the destination lies
   * within the radius of any interior stop, the playlist is `[origin, destination]`.
   */
  lemma NoNearbyTracksGivesDirectRoute(tracks: seq<Track>, stops: seq<Point>, choices: seq<seq<nat>>,
                                       origin: nat, destination: nat, radius: real, rand: nat -> nat)
    requires ValidTable(tracks) && ValidStops(stops) && |stops| >= 2 && ChoicesNear(tracks, stops, radius, choices)
    requires forall n, i :: 1 <= n < |stops| - 1 && Near(tracks, stops[n], radius, i) ==> i == origin || i == destination
    ensures Walk(StepAt(choices, destination, rand), origin, |stops| - 2) + [destination] == [origin, destination]
  {
    NoChoicesKeepsOrigin(choices, origin, destination, rand, |stops| - 2);
  }

  // Shapes of the playlist `plot_bearing` returns.

  /**
   * The playlist of a line of `steps` steps runs from the origin to the
   * destination and holds at most one track per interior stop in between.
   */
  predicate RunsFromTo(p: seq<nat>, origin: nat, destination: nat, steps: nat)
  {
    && 2 <= |p| <= steps + 1
    && p[0] == origin && p[|p| - 1] == destination
    && (steps == 1 ==> p == [origin, destination])
  }

  /**
   * No track is chosen twice and no interior entry is the destination, so the
   * only entry that may repeat is a destination equal to the origin.
   */
  predicate NoRepeats(p: seq<nat>, origin: nat, destination: nat)
  {
    && (forall j, l :: 0 <= j < l < |p| - 1 ==> p[j] != p[l])
    && (forall j :: 0 < j < |p| - 1 ==> p[j] != destination)
    && (origin != destination ==> Distinct(p))
  }

  /**
   * Interior entry `j + 1` of the playlist was chosen at interior stop
   * `used[j]`, within `radius` of it, and the stops are visited in order.
   */
  ghost predicate ChosenAlong(tracks: seq<Track>, stops: seq<Point>, radius: real, p: seq<nat>, used: seq<nat>, steps: nat)
    requires ValidTable(tracks) && ValidStops(stops)
  {
    && |used| == |p| - 2
    && Within(used, 1, steps - 1)
    && Ascending(used)
    && forall j :: 0 <= j < |used| ==> used[j] < |stops| && Near(tracks, stops[used[j]], radius, p[j + 1])
  }

  /**
   * `plot_bearing`: resolves both uris, draws the straight line, and walks the
   * interior stops appending one unused in-radius track per stop where there is
   * one; the destination closes the playlist.
   */
  method PlotBearing(tracks: seq<Track>, originUri: string, destinationUri: string, steps: nat, rand: nat -> nat)
    returns (r: Result<Route, LookupError>)
    requires ValidTable(tracks) && steps >= 1
    ensures r.Err? <==> FirstIndexOf(tracks, originUri).None? || FirstIndexOf(tracks, destinationUri).None?
    ensures r.Err? ==> r.error == if FirstIndexOf(tracks, originUri).None? then NotFound(originUri) else NotFound(destinationUri)
    ensures r.Ok? ==>
              var origin := FirstIndexOf(tracks, originUri).value;
              var destination := FirstIndexOf(tracks, destinationUri).value;
              var stops := r.value.stops;
              && stops == DirectPath(tracks[origin].features, tracks[destination].features, steps)
              && ValidStops(stops)
              && r.value.playlist
                 == Walk(StepAt(RadiusChoices(tracks, stops, DefaultRadius), destination, rand), origin, steps - 1) + [destination]
              // the ends of the line are the two tracks' own points
              && |stops| == steps + 1
              && stops[0] == tracks[origin].features && stops[steps] == tracks[destination].features
    ensures r.Ok? ==>
              var origin := FirstIndexOf(tracks, originUri).value;
              var destination := FirstIndexOf(tracks, destinationUri).value;
              var stops := r.value.stops;
              var p := r.value.playlist;
              && RunsFromTo(p, origin, destination, steps)
              && RowsBelow(p, |tracks|)
              && NoRepeats(p, origin, destination)
              && ValidStops(stops)
              && ChosenAlong(tracks, stops, DefaultRadius, p,
                             PickedStops(StepAt(RadiusChoices(tracks, stops, DefaultRadius), destination, rand), origin, steps - 1),
                             steps)
  {
    var idx := UriToIdx(tracks, [originUri, destinationUri]);
    if idx.Err? {
      return Err(idx.error);
    }
    var origin, destination := idx.value[0], idx.value[1];
    var stops := GetDirectPath(tracks, origin, destination, steps);
    var playlist := FindRoute(tracks, stops, origin, destination, steps, rand);
    ghost var choices := RadiusChoices(tracks, stops, DefaultRadius);
    ghost var step := StepAt(choices, destination, rand);
    RadiusChoicesNear(tracks, stops, DefaultRadius);
    StepAtSteps(choices, destination, rand);
    PlaylistEntries(tracks, stops, choices, step, origin, destination, DefaultRadius, steps);
    PlaylistStops(tracks, stops, choices, step, origin, destination, DefaultRadius, steps);
    playlist := playlist + [destination];
    return Ok(Route(stops, playlist));
  }

  /**
   * The loop of `plot_bearing` over the interior stops `1..steps - 1`: the
   * playlist it leaves is the walk driven by `song_radius` at each stop.
   */
  method FindRoute(tracks: seq<Track>, stops: seq<Point>, origin: nat, destination: nat, steps: nat, rand: nat -> nat)
    returns (playlist: seq<nat>)
    requires ValidTable(tracks) && ValidStops(stops) && |stops| == steps + 1 && steps >= 1
    ensures playlist == Walk(StepAt(RadiusChoices(tracks, stops, DefaultRadius), destination, rand), origin, steps - 1)
  {
    ghost var choices := RadiusChoices(tracks, stops, DefaultRadius);
    ghost var step := StepAt(choices, destination, rand);
    playlist := [origin];
    for n := 1 to steps
      invariant playlist == Walk(step, origin, n - 1)
    {
      var songChoices := SongRadius(tracks, stops[n], DefaultRadius);
      assert songChoices == choices[n];
      ghost var after := Step(songChoices, destination, rand(n), playlist);
      assert Walk(step, origin, n) == after;
      songChoices := Without(songChoices, playlist + [destination]);
      if |songChoices| > 0 {
        var nextSong := Pick(songChoices, rand(n));
        playlist := playlist + [nextSong];
      }
      assert playlist == after;
    }
  }

  /** What `PlotBearing` promises about the entries of the playlist. */
  lemma PlaylistEntries(tracks: seq<Track>, stops: seq<Point>, choices: seq<seq<nat>>, step: (nat, seq<nat>) -> seq<nat>,
                        origin: nat, destination: nat, radius: real, steps: nat)
    requires ValidTable(tracks) && ValidStops(stops) && ChoicesNear(tracks, stops, radius, choices)
    requires Steps(step, choices, destination)
    requires |stops| == steps + 1 && steps >= 1 && origin < |tracks| && destination < |tracks|
    ensures var p := Walk(step, origin, steps - 1) + [destination];
            RunsFromTo(p, origin, destination, steps) && RowsBelow(p, |tracks|) && NoRepeats(p, origin, destination)
  {
    forall n, i | 0 <= n < |choices| && i in choices[n]
      ensures i < |tracks|
    {
      assert Near(tracks, stops[n], radius, i);
    }
    WalkLength(step, choices, destination, origin, steps - 1);
    WalkHead(step, choices, destination, origin, steps - 1);
    WalkEntries(step, choices, destination, origin, steps - 1, |tracks|);
    CloseEntries(Walk(step, origin, steps - 1), origin, destination, |tracks|, steps);
  }

  /** Closing a walk with the destination carries its facts over to the playlist. */
  lemma CloseEntries(w: seq<nat>, origin: nat, destination: nat, rows: nat, steps: nat)
    requires 1 <= |w| <= steps && w[0] == origin && destination < rows
    requires RowsBelow(w, rows) && AvoidsAfterFirst(w, destination) && Distinct(w)
    ensures var p := w + [destination];
            RunsFromTo(p, origin, destination, steps) && RowsBelow(p, rows) && NoRepeats(p, origin, destination)
  {
    var p := w + [destination];
    if steps == 1 {
      assert w == [origin];
    }
    forall j | 0 <= j < |p|
      ensures p[j] < rows && (0 < j < |p| - 1 ==> p[j] != destination)
    {
      if j < |w| {
        assert p[j] == w[j];
      }
    }
    forall j, l | 0 <= j < l < |p|
      ensures l < |p| - 1 || origin != destination ==> p[j] != p[l]
    {
      if l < |w| {
        assert p[j] == w[j] && p[l] == w[l];
      } else if j > 0 {
        assert p[j] == w[j];
      }
    }
  }

  /** What `PlotBearing` promises about the stops at which its interior entries were chosen. */
  lemma PlaylistStops(tracks: seq<Track>, stops: seq<Point>, choices: seq<seq<nat>>, step: (nat, seq<nat>) -> seq<nat>,
                      origin: nat, destination: nat, radius: real, steps: nat)
    requires ValidTable(tracks) && ValidStops(stops) && ChoicesNear(tracks, stops, radius, choices)
    requires Steps(step, choices, destination)
    requires |stops| == steps + 1 && steps >= 1
    ensures ChosenAlong(tracks, stops, radius, Walk(step, origin, steps - 1) + [destination],
                        PickedStops(step, origin, steps - 1), steps)
  {
    PickedStopsAscending(step, origin, steps - 1);
    WalkChosenAt(step, choices, destination, origin, steps - 1);
    CloseStops(tracks, stops, choices, radius, Walk(step, origin, steps - 1), PickedStops(step, origin, steps - 1),
               destination, steps);
  }

  /** Closing a walk with the destination keeps each interior entry tied to the stop it was chosen at. */
  lemma CloseStops(tracks: seq<Track>, stops: seq<Point>, choices: seq<seq<nat>>, radius: real,
                   w: seq<nat>, used: seq<nat>, destination: nat, steps: nat)
    requires ValidTable(tracks) && ValidStops(stops) && ChoicesNear(tracks, stops, radius, choices)
    requires |stops| == steps + 1
    requires Within(used, 1, steps - 1) && Ascending(used) && ChosenFrom(choices, w, used)
    ensures ChosenAlong(tracks, stops, radius, w + [destination], used, steps)
  {
    var p := w + [destination];
    forall j | 0 <= j < |used|
      ensures used[j] < |stops| && Near(tracks, stops[used[j]], radius, p[j + 1])
    {
      assert p[j + 1] == w[j + 1];
    }
  }
}
